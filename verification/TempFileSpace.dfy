/** The free space the temporary files report, against the free LBAs of the allocator. */
module TempFileSpace {
  import opened Basics
  import opened BlockPool
  import opened AllocatorLaws
  import opened AllocatorRuns
  import opened TempFileModel
  import opened TempFileLaws

  function MappedBytes(m: FileMeta): nat { m.blockSize * |m.blocks| }

  /** Bytes mapped by all files. */
  ghost function Used(files: Files): nat
    decreases |files|
  {
    if files == map[] then 0 else
    var f :| f in files;
    MappedBytes(files[f]) + Used(files - {f})
  }

  lemma NothingMapped(m: FileMeta)
    requires m.blocks == map[]
    ensures MappedBytes(m) == 0
  {
  }

  lemma {:induction false} UsedWithout(files: Files, f: TempName)
    requires f in files
    ensures Used(files) == MappedBytes(files[f]) + Used(files - {f})
    decreases |files|
  {
    var g :| g in files && Used(files) == MappedBytes(files[g]) + Used(files - {g});
    if g != f {
      UsedWithout(files - {g}, f);
      UsedWithout(files - {f}, g);
      assert files - {g} - {f} == files - {f} - {g};
    }
  }

  lemma UsedUpdate(files: Files, f: TempName, m: FileMeta)
    ensures Used(files[f := m]) == Used(files - {f}) + MappedBytes(m)
    ensures f in files ==> Used(files[f := m]) == Used(files) - MappedBytes(files[f]) + MappedBytes(m)
  {
    UsedWithout(files[f := m], f);
    assert files[f := m] - {f} == files - {f};
    if f in files {
      UsedWithout(files, f);
    }
  }

  /** How far the pool's last block falls short of what was asked of it. */
  ghost function TailShort(l: Ledger): int
    requires |l.pool.blocks| > 0
  {
    var last := l.pool.blocks[|l.pool.blocks| - 1];
    if last.free || last.start !in l.asked then 0 else l.asked[last.start] - last.len
  }

  /** LBAs the files believe they hold. */
  ghost function Held(l: Ledger): int
    requires |l.pool.blocks| > 0
  {
    Lbas(l.pool.blocks, false) + TailShort(l)
  }

  lemma GiveLedger(l: Ledger, s: nat)
    requires WellFormed(l.pool) && Fits(l) && LiveAt(l.pool.blocks, s)
    ensures var i := Find(l.pool.blocks, s); var r := Step(l, Give(s));
            && r.pool.blocks == FreeIndex(l.pool, i).blocks && r.asked == l.asked - {s}
            && Lbas(r.pool.blocks, false) == Lbas(l.pool.blocks, false) - l.pool.blocks[i].len
            && Holds(l.pool.blocks, l.asked, i)
  {
    FreeLbas(l.pool, Find(l.pool.blocks, s));
  }

  lemma GiveHeld(l: Ledger, s: nat)
    requires WellFormed(l.pool) && Fits(l) && LiveAt(l.pool.blocks, s)
    ensures s in l.asked && Held(Step(l, Give(s))) == Held(l) - l.asked[s]
  {
    hide Step, WellFormed, Fits, Lbas, FreeIndex;
    var b := l.pool.blocks;
    var i := Find(b, s);
    GiveLedger(l, s);
    if MergeTo(b, i) < |b| && b[|b| - 1].start == s {
      LastIsAnother(l.pool, i);
    }
    FreedBlocks(l.pool, i);
    FreedLast(b, i);
  }

  lemma FreedBlocks(p: Pool, i: nat)
    requires WellFormed(p) && i < |p.blocks| && !p.blocks[i].free
    ensures FreeIndex(p, i).blocks
      == Splice(p.blocks, MergeFrom(p.blocks, i), MergeTo(p.blocks, i), [Merged(p.blocks, i)])
  {
    hide WellFormed;
  }

  lemma LastIsAnother(p: Pool, i: nat)
    requires WellFormed(p) && i + 1 < |p.blocks|
    ensures p.blocks[|p.blocks| - 1].start != p.blocks[i].start
  {
    Ordered(p.blocks, p.lo, p.hi, i, |p.blocks| - 1);
  }

  /** The last block after a free: the merged one, or the one that was last. */
  lemma FreedLast(b: seq<Extent>, i: nat)
    requires i < |b|
    ensures var q := Splice(b, MergeFrom(b, i), MergeTo(b, i), [Merged(b, i)]);
            && |q| > 0
            && q[|q| - 1] == if MergeTo(b, i) < |b| then b[|b| - 1] else Merged(b, i)
  {
  }

  lemma TakeHeld(l: Ledger, n: nat)
    requires WellFormed(l.pool) && Fits(l) && ValidRequest(n) && Allocate(l.pool, n).Allocated?
    ensures Held(Step(l, Take(n))) == Held(l) + n
  {
    hide WellFormed, Fits, Lbas, Step, ValidRequest, TakenLists, PickedList;
    var b, i := l.pool.blocks, Picked(l.pool, n);
    var mid := Carve(b[i], n);
    TakenLedger(l, n);
    if i < |b| - 1 {
      SpliceLast(b, i, mid);
      OtherStart(l.pool, i, |b| - 1);
    } else {
      assert Splice(b, i, i + 1, mid) == b[..i] + mid;
    }
  }

  lemma TakenLedger(l: Ledger, n: nat)
    requires WellFormed(l.pool) && Fits(l) && ValidRequest(n) && Allocate(l.pool, n).Allocated?
    ensures var b, i, r := l.pool.blocks, Picked(l.pool, n), Step(l, Take(n)); var mid := Carve(b[i], n);
            && r.pool.blocks == Splice(b, i, i + 1, mid) && r.asked == l.asked[b[i].start := n]
            && Lbas(r.pool.blocks, false) == Lbas(b, false) + mid[0].len
            && (i < |b| - 1 ==> mid[0].len == n) && b[i].free
  {
    hide Lbas;
    AllocateLbas(l.pool, n);
    if l.pool.blocks[Picked(l.pool, n)].len <= n { PickedHolds(l.pool, n); }
  }

  lemma SpliceLast(b: seq<Extent>, i: nat, mid: seq<Extent>)
    requires i < |b| - 1
    ensures var q := Splice(b, i, i + 1, mid); |q| > 0 && q[|q| - 1] == b[|b| - 1]
  {
  }

  lemma OtherStart(p: Pool, i: nat, j: nat)
    requires WellFormed(p) && i < j < |p.blocks|
    ensures p.blocks[i].start != p.blocks[j].start
  {
    Ordered(p.blocks, p.lo, p.hi, i, j);
  }

  /** The files' own count and the allocator's agree. */
  ghost predicate SpaceInv(st: TempState) {
    |st.ledger.pool.blocks| > 0 && Used(st.files) == 4096 * Held(st.ledger)
  }

  lemma DropUsed(files: Files, f: TempName, i: nat)
    requires Owns(files, f, i)
    ensures Used(DropEntry(files, f, i)) == Used(files) - files[f].blockSize
  {
    hide Used;
    var m := files[f];
    var d := m.(blocks := m.blocks - {i});
    assert d.blocks.Keys == m.blocks.Keys - {i};
    UsedUpdate(files, f, d);
    assert |d.blocks| == |m.blocks| - 1;
    assert m.blockSize * (|m.blocks| - 1) == m.blockSize * |m.blocks| - m.blockSize;
  }

  lemma AddUsed(files: Files, f: TempName, i: nat, s: nat)
    requires f in files && !Owns(files, f, i)
    ensures Used(AddEntry(files, f, i, s)) == Used(files) + files[f].blockSize
  {
    hide Used;
    var m := files[f];
    UsedUpdate(files, f, m.(blocks := m.blocks[i := s]));
    assert m.blockSize * (|m.blocks| + 1) == m.blockSize * |m.blocks| + m.blockSize;
  }

  lemma FreeOwnedSpace(st: TempState, f: TempName, i: nat)
    requires TempInv(st) && st.lbaSize == 4096 && Owns(st.files, f, i) && SpaceInv(st)
    ensures SpaceInv(FreeOwned(st, f, i))
  {
    var s := StartOf(st.files, f, i);
    EntryLive(st, f, i);
    assert WellFormed(st.ledger.pool) && Fits(st.ledger);
    hide TempInv, Held, DropEntry, Fits, WellFormed, Step;
    GiveHeld(st.ledger, s);
    EntrySize(st, f, i);
    DropUsed(st.files, f, i);
  }

  lemma EntrySize(st: TempState, f: TempName, i: nat)
    requires TempInv(st) && st.lbaSize == 4096 && Owns(st.files, f, i)
    ensures StartOf(st.files, f, i) in st.ledger.asked
    ensures 4096 * st.ledger.asked[StartOf(st.files, f, i)] == st.files[f].blockSize
  {
    assert GetBufferSize(f.bufferSize) == Some(st.files[f].blockSize);
  }

  lemma AccessSpace(st: TempState, f: TempName, location: nat, nrLbas: nat)
    requires TempInv(st) && st.lbaSize == 4096 && f in st.files && SpaceInv(st)
    ensures SpaceInv(GetLBA(st, f, location, nrLbas).0)
  {
    SizeFacts(st, f);
    RequestSize(st, f);
    hide TempInv, SpaceInv, Allocate, Step, GetBufferSize, ValidRequest;
    var m, p := st.files[f], st.ledger.pool;
    var index := BlockIndex(location, m.blockSize);
    if nrLbas == m.blockSize / 4096 && index !in m.blocks && Allocate(p, nrLbas).Allocated? {
      AllocatedSpace(st, f, index, nrLbas);
    }
  }

  lemma RequestSize(st: TempState, f: TempName)
    requires TempInv(st) && f in st.files
    ensures ValidRequest(st.files[f].blockSize / 4096) && 4096 * (st.files[f].blockSize / 4096) == st.files[f].blockSize
    ensures WellFormed(st.ledger.pool)
  {
    assert GetBufferSize(f.bufferSize) == Some(st.files[f].blockSize);
  }

  lemma AllocatedSpace(st: TempState, f: TempName, index: nat, n: nat)
    requires TempInv(st) && st.lbaSize == 4096 && f in st.files && SpaceInv(st)
    requires index !in st.files[f].blocks && ValidRequest(n) && 4096 * n == st.files[f].blockSize
    requires Allocate(st.ledger.pool, n).Allocated?
    ensures SpaceInv(st.(ledger := Step(st.ledger, Take(n)),
                         files := AddEntry(st.files, f, index, Allocate(st.ledger.pool, n).block.start)))
  {
    assert WellFormed(st.ledger.pool) && Fits(st.ledger);
    hide TempInv, Held, Allocate, AddEntry, Fits, WellFormed, Step;
    TakeHeld(st.ledger, n);
    AddUsed(st.files, f, index, Allocate(st.ledger.pool, n).block.start);
  }

  lemma {:induction false} FreeDownSpace(st: TempState, f: TempName, from: nat, to: nat)
    requires TempInv(st) && st.lbaSize == 4096 && f in st.files
    requires forall i :: to <= i < from ==> i in st.files[f].blocks
    requires SpaceInv(st)
    ensures SpaceInv(FreeDown(st, f, from, to))
    decreases from
  {
    hide TempInv, SpaceInv, FreeOwned;
    if from > to {
      FreeOwnedSpace(st, f, from - 1);
      FreeDownSpace(FreeOwned(st, f, from - 1), f, from - 1, to);
    }
  }

  lemma {:induction false} FreeBlocksSpace(st: TempState, f: TempName)
    requires TempInv(st) && st.lbaSize == 4096 && f in st.files && SpaceInv(st)
    ensures SpaceInv(FreeBlocks(st, f))
    decreases |st.files[f].blocks|
  {
    hide TempInv, SpaceInv, FreeOwned, DropEntry;
    if st.files[f].blocks != map[] {
      var i := Least(st.files[f].blocks.Keys);
      DropThenEmpty(st.files, f, i);
      FreeOwnedSpace(st, f, i);
      FreeBlocksSpace(FreeOwned(st, f, i), f);
    }
  }

  lemma ForgetSpace(s: TempState, f: TempName)
    requires f in s.files && s.files[f].blocks == map[] && SpaceInv(s)
    ensures SpaceInv(s.(files := s.files - {f}, activeFiles := s.activeFiles - 1))
  {
    hide Used, Held, MappedBytes;
    UsedWithout(s.files, f);
    NothingMapped(s.files[f]);
  }

  lemma DeleteSpace(st: TempState, f: TempName)
    requires TempInv(st) && st.lbaSize == 4096 && f in st.files && SpaceInv(st)
    ensures SpaceInv(DeleteFile(st, f))
  {
    hide TempInv, FreeBlocks, SpaceInv;
    FreeBlocksSpace(st, f);
    FreeBlocksFiles(st, f);
    ForgetSpace(FreeBlocks(st, f), f);
  }

  lemma CreateSpace(st: TempState, f: TempName)
    requires TempInv(st) && SpaceInv(st)
    ensures SpaceInv(CreateStep(st, f))
  {
    hide TempInv, Used, Held, MappedBytes, GetBufferSize;
    if f !in st.files && GetBufferSize(f.bufferSize).Some? {
      var m := FileMeta(GetBufferSize(f.bufferSize).value, map[]);
      UsedUpdate(st.files, f, m);
      assert st.files - {f} == st.files;
      NothingMapped(m);
    }
  }

  lemma ClearSpace(st: TempState)
    requires TempInv(st)
    ensures SpaceInv(Clear(st))
  {
    var q := Clear(st).ledger.pool;
    assert Lbas(q.blocks, false) == 0 by { assert q.blocks[1..] == []; }
  }

  lemma StepSpace(st: TempState, op: TempOp)
    requires TempInv(st) && st.lbaSize == 4096 && TempEnabled(st, op) && SpaceInv(st)
    ensures SpaceInv(TempStep(st, op))
  {
    hide TempInv, SpaceInv, GetLBA, FreeDown, CreateStep, Clear, DeleteFile;
    match op
    case Create(f) => CreateSpace(st, f);
    case Access(f, location, nrLbas) => AccessSpace(st, f, location, nrLbas);
    case Truncate(f, newSize) =>
      FreeDownSpace(st, f, |st.files[f].blocks|, BlockIndex(newSize, st.files[f].blockSize));
    case Delete(f) => DeleteSpace(st, f);
    case ClearAll => ClearSpace(st);
  }

  /** In every reachable state the bytes mapped by the files are the LBAs the allocator has live
      plus the shortfall of a short last block. */
  lemma {:induction false} RunSpace(st: TempState, ops: seq<TempOp>)
    requires TempInv(st) && st.lbaSize == 4096 && TempLegal(st, ops) && SpaceInv(st)
    ensures SpaceInv(TempRun(st, ops))
    decreases |ops|
  {
    hide TempStep, TempEnabled, TempInv, SpaceInv;
    if ops != [] {
      StepSpace(st, ops[0]);
      RunSpace(TempStep(st, ops[0]), ops[1..]);
    }
  }

  // ---------------------------------------------------------------- available space

  /** The source's unsigned 64-bit computation. */
  ghost function AvailableSpace(st: TempState, lbaCount: nat, lbaStart: nat): int {
    Wrapped(((lbaCount - 1) - lbaStart) * st.lbaSize - Used(st.files))
  }

  /** For every LBA size: the report and the mapped bytes make up the pool while these fit it. */
  lemma ReportAndUsed(st: TempState, lbaCount: nat, lbaStart: nat)
    requires lbaStart < lbaCount && (lbaCount - 1 - lbaStart) * st.lbaSize < U64
    requires 0 <= Used(st.files) <= (lbaCount - 1 - lbaStart) * st.lbaSize
    ensures AvailableSpace(st, lbaCount, lbaStart) + Used(st.files) == (lbaCount - 1 - lbaStart) * st.lbaSize
  {
  }

  /** Free LBAs other than the last block come in multiples of 8. */
  lemma {:induction false} FreeMultiple(p: Pool, n: nat)
    requires WellFormed(p) && Aligned(p.blocks, p.lo) && n < |p.blocks|
    ensures Lbas(p.blocks[..n], true) % 8 == 0
  {
    if n > 0 {
      FreeMultiple(p, n - 1);
      AlignedLength(p, n - 1);
      assert p.blocks[..n] == p.blocks[..n - 1] + [p.blocks[n - 1]];
      LbasConcat(p.blocks[..n - 1], [p.blocks[n - 1]], true);
      assert [p.blocks[n - 1]][1..] == [];
      Mod8(Lbas(p.blocks[..n - 1], true), p.blocks[n - 1].len);
    }
  }

  lemma LastBlock(b: seq<Extent>, free: bool)
    requires |b| > 0
    ensures Lbas(b, free) == Lbas(b[..|b| - 1], free) + if b[|b| - 1].free == free then b[|b| - 1].len else 0
  {
    var last := b[|b| - 1];
    assert b == b[..|b| - 1] + [last];
    LbasConcat(b[..|b| - 1], [last], free);
    assert [last][1..] == [];
  }

  /** A short last block leaves either nothing free or more than its shortfall. */
  lemma ShortOrFree(l: Ledger)
    requires WellFormed(l.pool) && Fits(l)
    ensures 0 <= TailShort(l) <= 64
    ensures Lbas(l.pool.blocks, true) == 0 || TailShort(l) < Lbas(l.pool.blocks, true)
  {
    var b := l.pool.blocks;
    var last := |b| - 1;
    LastBlock(b, true);
    if !b[last].free {
      assert Holds(b, l.asked, last);
      FreeMultiple(l.pool, last);
    } else {
      assert b[last].len > 0;
    }
  }

  lemma SpaceWraps(pool: nat, used: nat, free: nat, short: nat, lbaSize: nat)
    requires lbaSize == 4096 && pool * 4096 - used == 4096 * (free - short) && free <= pool && short <= 64
    requires pool * 4096 < U64
    requires free == 0 || short < free
    ensures var x := Wrapped(pool * lbaSize - used);
            if free > 0 || short == 0 then x == 4096 * (free - short) else x == U64 - 4096 * short
  {
  }

  /** The reported space is exact up to the shortfall of the last block; it wraps around to almost
      2^64 exactly when the pool has no free LBA and its last block is short. */
  lemma AvailableSpaceExactly(st: TempState, lbaCount: nat)
    requires TempInv(st) && SpaceInv(st) && st.lbaSize == 4096
    requires lbaCount == st.ledger.pool.hi + 1 && lbaCount * 4096 < U64
    ensures var free, short := Lbas(st.ledger.pool.blocks, true), TailShort(st.ledger);
            var space := AvailableSpace(st, lbaCount, st.ledger.pool.lo);
            if free > 0 || short == 0 then space == 4096 * (free - short) else space == U64 - 4096 * short
  {
    hide TempInv, SpaceInv, WellFormed, Fits, TailShort, Lbas, Used, Wrapped;
    var l := st.ledger;
    InvLedger(st);
    PoolTotal(l.pool);
    ShortOrFree(l);
    SpaceWraps(l.pool.hi - l.pool.lo, Used(st.files), Lbas(l.pool.blocks, true), TailShort(l), st.lbaSize);
  }

  lemma InvLedger(st: TempState)
    requires TempInv(st) && SpaceInv(st) && st.lbaSize == 4096
    ensures WellFormed(st.ledger.pool) && Fits(st.ledger) && |st.ledger.pool.blocks| > 0
    ensures Used(st.files) == 4096 * (Lbas(st.ledger.pool.blocks, false) + TailShort(st.ledger))
  {
  }

  lemma PoolTotal(p: Pool)
    requires WellFormed(p)
    ensures Lbas(p.blocks, true) + Lbas(p.blocks, false) == p.hi - p.lo && |p.blocks| > 0
  {
    LbasTotal(p.blocks, p.lo, p.hi);
  }

  /** In a pool of a multiple of 8 LBAs, 64 or more, no block is ever short. */
  lemma NeverShort(l: Ledger)
    requires WellFormed(l.pool) && Fits(l) && (l.pool.hi - l.pool.lo) % 8 == 0 && l.pool.hi - l.pool.lo >= 64
    ensures TailShort(l) == 0
  {
    var last := |l.pool.blocks| - 1;
    if !l.pool.blocks[last].free {
      assert Holds(l.pool.blocks, l.asked, last);
      WholeLengths(l.pool, last);
    }
  }
}
