/** What the temporary-file layer guarantees over all its runs. */
module TempFileLaws {
  import opened BlockPool
  import opened AllocatorLaws
  import opened AllocatorRuns
  import opened TempFileModel

  // ---------------------------------------------------------------- runs

  datatype TempOp =
    | Create(f: TempName)
    | Access(f: TempName, location: nat, nrLbas: nat)
    | Truncate(f: TempName, newSize: nat)
    | Delete(f: TempName)
    | ClearAll

  ghost predicate TempEnabled(st: TempState, op: TempOp) {
    match op
    case Create(_) => true
    case Access(f, _, _) => f in st.files
    case Truncate(f, newSize) => f in st.files && Truncatable(st.files[f], newSize)
    case Delete(f) => f in st.files
    case ClearAll => true
  }

  ghost function AccessStep(st: TempState, f: TempName, location: nat, nrLbas: nat): (r: TempState)
    requires TempInv(st) && f in st.files
    ensures TempInv(r) && SameDevice(st, r)
  {
    SizeFacts(st, f);
    AllocateLBAInv(st, f, location);
    GetLBA(st, f, location, nrLbas).0
  }

  ghost function CreateStep(st: TempState, f: TempName): (r: TempState)
    requires TempInv(st)
    ensures TempInv(r) && SameDevice(st, r)
  {
    match GetOrCreateFile(st, f)
    case UnknownBufferSize => st
    case Created(r) => CreateInv(st, f); r
  }

  ghost function TempStep(st: TempState, op: TempOp): (r: TempState)
    requires TempInv(st) && TempEnabled(st, op)
    ensures TempInv(r) && SameDevice(st, r)
  {
    match op
    case Create(f) => CreateStep(st, f)
    case Access(f, location, nrLbas) => AccessStep(st, f, location, nrLbas)
    case Truncate(f, newSize) => TruncateFile(st, f, newSize)
    case Delete(f) => DeleteFile(st, f)
    case ClearAll => ClearInv(st); Clear(st)
  }

  ghost predicate TempLegal(st: TempState, ops: seq<TempOp>)
    requires TempInv(st)
    decreases |ops|
  {
    ops == [] || (TempEnabled(st, ops[0]) && TempLegal(TempStep(st, ops[0]), ops[1..]))
  }

  ghost function TempRun(st: TempState, ops: seq<TempOp>): (r: TempState)
    requires TempInv(st) && TempLegal(st, ops)
    ensures TempInv(r) && SameDevice(st, r)
    decreases |ops|
  {
    if ops == [] then st else TempRun(TempStep(st, ops[0]), ops[1..])
  }

  lemma {:induction false} TempRunConcat(st: TempState, ops: seq<TempOp>, more: seq<TempOp>)
    requires TempInv(st) && TempLegal(st, ops) && TempLegal(TempRun(st, ops), more)
    ensures TempLegal(st, ops + more) && TempRun(st, ops + more) == TempRun(TempRun(st, ops), more)
    decreases |ops|
  {
    hide TempStep, TempEnabled, TempInv;
    if ops == [] {
      assert ops + more == more;
    } else {
      assert (ops + more)[1..] == ops[1..] + more;
      TempRunConcat(TempStep(st, ops[0]), ops[1..], more);
    }
  }

  /** In every reachable state: nothing shared, nothing leaked, and the extents the files
      asked for are disjoint, although the last may reach past the pool. */
  lemma FilesOwnThePool(start: TempState, ops: seq<TempOp>, f: TempName, i: nat, g: TempName, j: nat)
    requires TempInv(start) && start.lbaSize == 4096 && TempLegal(start, ops)
    requires var st := TempRun(start, ops); Owns(st.files, f, i) && Owns(st.files, g, j) && (f, i) != (g, j)
    ensures var st := TempRun(start, ops);
            && Ownership(st.files, LiveStarts(st.ledger.pool.blocks))
            && (ExtentEnd(st, f, i) <= StartOf(st.files, g, j) || ExtentEnd(st, g, j) <= StartOf(st.files, f, i))
            && ExtentEnd(st, f, i) < st.ledger.pool.hi + 8
  {
    hide TempStep, TempEnabled, TempRun, TempLegal;
    ExtentsApart(TempRun(start, ops), f, i, g, j);
  }

  /** One past the last LBA that an access to the block may touch. */
  ghost function ExtentEnd(st: TempState, f: TempName, i: nat): nat
    requires Owns(st.files, f, i) && st.lbaSize > 0
  {
    StartOf(st.files, f, i) + st.files[f].blockSize / st.lbaSize
  }

  lemma EntryExtent(st: TempState, f: TempName, i: nat) returns (e: Extent)
    requires TempInv(st) && Owns(st.files, f, i)
    ensures e in Live(st.ledger.pool.blocks) && e.start == StartOf(st.files, f, i)
  {
    assert StartOf(st.files, f, i) in LiveStarts(st.ledger.pool.blocks);
    e :| e in Live(st.ledger.pool.blocks) && e.start == StartOf(st.files, f, i);
  }

  lemma ExtentsApart(st: TempState, f: TempName, i: nat, g: TempName, j: nat)
    requires TempInv(st) && st.lbaSize == 4096
    requires Owns(st.files, f, i) && Owns(st.files, g, j) && (f, i) != (g, j)
    ensures ExtentEnd(st, f, i) <= StartOf(st.files, g, j) || ExtentEnd(st, g, j) <= StartOf(st.files, f, i)
    ensures ExtentEnd(st, f, i) < st.ledger.pool.hi + 8
  {
    var e := EntryExtent(st, f, i);
    var d := EntryExtent(st, g, j);
    hide Fits, WellFormed, LiveStarts, Live;
    FitsApart(st.ledger, e, d);
  }

  // ---------------------------------------------------------------- addresses are stable

  /** The operation gives block `i` of file `f` back. */
  ghost predicate Releases(st: TempState, op: TempOp, f: TempName, i: nat)
    requires f in st.files
  {
    match op
    case Truncate(g, newSize) => g == f && st.files[f].blockSize > 0 && BlockIndex(newSize, st.files[f].blockSize) <= i
    case Delete(g) => g == f
    case ClearAll => true
    case _ => false
  }

  function Outside(m: map<nat, nat>, to: nat, from: nat): map<nat, nat> {
    map i | i in m && !(to <= i < from) :: m[i]
  }

  function Kept(files: Files, f: TempName, to: nat, from: nat): Files
    requires f in files
  {
    files[f := FileMeta(files[f].blockSize, Outside(files[f].blocks, to, from))]
  }

  lemma DropThenKeep(files: Files, f: TempName, to: nat, from: nat)
    requires to < from && Owns(files, f, from - 1)
    ensures var d := DropEntry(files, f, from - 1);
            && f in d && (forall i :: to <= i < from - 1 && i in files[f].blocks ==> i in d[f].blocks)
            && Kept(d, f, to, from - 1) == Kept(files, f, to, from)
  {
    assert Outside(files[f].blocks - {from - 1}, to, from - 1) == Outside(files[f].blocks, to, from);
  }

  /** Truncation drops exactly the indices it walks over. */
  lemma {:induction false} FreeDownFiles(st: TempState, f: TempName, from: nat, to: nat)
    requires TempInv(st) && f in st.files && forall i :: to <= i < from ==> i in st.files[f].blocks
    ensures FreeDown(st, f, from, to).files == Kept(st.files, f, to, from)
    decreases from
  {
    hide TempInv, DropEntry, FreeOwned;
    if from > to {
      DropThenKeep(st.files, f, to, from);
      hide Kept;
      FreeDownFiles(FreeOwned(st, f, from - 1), f, from - 1, to);
    } else {
      assert Outside(st.files[f].blocks, to, from) == st.files[f].blocks;
    }
  }

  lemma AccessFiles(st: TempState, f: TempName, location: nat, nrLbas: nat)
    requires TempInv(st) && f in st.files
    ensures st.files[f].blockSize > 0
    ensures var r := GetLBA(st, f, location, nrLbas); var index := BlockIndex(location, st.files[f].blockSize);
            r.0.files == if r.1.Lba? && index !in st.files[f].blocks
                         then AddEntry(st.files, f, index, r.1.lba) else st.files
  {
    SizeFacts(st, f);
  }

  lemma StepStable(st: TempState, op: TempOp, f: TempName, i: nat)
    requires TempInv(st) && TempEnabled(st, op) && Owns(st.files, f, i) && !Releases(st, op, f, i)
    ensures var r := TempStep(st, op);
            && Owns(r.files, f, i) && StartOf(r.files, f, i) == StartOf(st.files, f, i)
            && r.files[f].blockSize == st.files[f].blockSize
  {
    hide TempInv, GetLBA, FreeDown, FreeBlocks, GetBufferSize;
    match op
    case Create(g) =>
    case Access(g, location, nrLbas) => AccessFiles(st, g, location, nrLbas);
    case Truncate(g, newSize) =>
      FreeDownFiles(st, g, |st.files[g].blocks|, BlockIndex(newSize, st.files[g].blockSize));
    case Delete(g) => FreeBlocksFiles(st, g);
    case ClearAll =>
  }

  /** No step of the run gives block `i` of file `f` back. */
  ghost predicate NeverReleases(st: TempState, ops: seq<TempOp>, f: TempName, i: nat)
    requires TempInv(st) && TempLegal(st, ops)
    decreases |ops|
  {
    ops == [] || (f in st.files && !Releases(st, ops[0], f, i) && NeverReleases(TempStep(st, ops[0]), ops[1..], f, i))
  }

  /** A block keeps its LBA for as long as no truncation, deletion or clear reaches it,
      whatever happens to the blocks around it. */
  lemma {:induction false} StableUntilReleased(st: TempState, ops: seq<TempOp>, f: TempName, i: nat)
    requires TempInv(st) && TempLegal(st, ops) && Owns(st.files, f, i) && NeverReleases(st, ops, f, i)
    ensures var r := TempRun(st, ops); Owns(r.files, f, i) && StartOf(r.files, f, i) == StartOf(st.files, f, i)
    decreases |ops|
  {
    hide TempStep, TempEnabled, Releases, TempInv;
    if ops != [] {
      StepStable(st, ops[0], f, i);
      StableUntilReleased(TempStep(st, ops[0]), ops[1..], f, i);
    }
  }

  // ---------------------------------------------------------------- file counters

  lemma FreeOwnedCounts(st: TempState, f: TempName, i: nat)
    requires TempInv(st) && Owns(st.files, f, i)
    ensures var r := FreeOwned(st, f, i); r.activeFiles == st.activeFiles && r.peakFiles == st.peakFiles
  {
    hide TempInv, Step, DropEntry;
    EntryLive(st, f, i);
  }

  lemma {:induction false} FreeDownCounts(st: TempState, f: TempName, from: nat, to: nat)
    requires TempInv(st) && f in st.files && forall i :: to <= i < from ==> i in st.files[f].blocks
    ensures var r := FreeDown(st, f, from, to); r.activeFiles == st.activeFiles && r.peakFiles == st.peakFiles
    decreases from
  {
    hide TempInv, DropEntry, FreeOwned;
    if from > to {
      DropThenKeep(st.files, f, to, from);
      hide Kept;
      FreeOwnedCounts(st, f, from - 1);
      FreeDownCounts(FreeOwned(st, f, from - 1), f, from - 1, to);
    }
  }

  lemma {:induction false} FreeBlocksCounts(st: TempState, f: TempName)
    requires TempInv(st) && f in st.files
    ensures var r := FreeBlocks(st, f); r.activeFiles == st.activeFiles && r.peakFiles == st.peakFiles
    decreases |st.files[f].blocks|
  {
    hide TempInv, DropEntry, FreeOwned;
    if st.files[f].blocks != map[] {
      var i := Least(st.files[f].blocks.Keys);
      DropThenEmpty(st.files, f, i);
      FreeOwnedCounts(st, f, i);
      FreeBlocksCounts(FreeOwned(st, f, i), f);
    }
  }

  lemma CreatePeak(st: TempState, f: TempName)
    requires TempInv(st) && st.activeFiles <= st.peakFiles
    ensures var r := CreateStep(st, f);
            && (r.peakFiles == st.peakFiles || r.peakFiles == r.activeFiles)
            && st.peakFiles <= r.peakFiles && r.activeFiles <= r.peakFiles
  {
    hide TempInv, GetBufferSize;
  }

  lemma StepPeakFiles(st: TempState, op: TempOp)
    requires TempInv(st) && TempEnabled(st, op) && st.activeFiles <= st.peakFiles
    ensures var r := TempStep(st, op);
            && (r.peakFiles == st.peakFiles || r.peakFiles == r.activeFiles)
            && st.peakFiles <= r.peakFiles && r.activeFiles <= r.peakFiles
  {
    ActiveIs(st);
    hide TempInv, FreeDown, FreeBlocks, CreateStep, GetLBA;
    match op
    case Create(g) => CreatePeak(st, g);
    case Access(g, location, nrLbas) => AccessCounts(st, g, location, nrLbas);
    case Truncate(g, newSize) =>
      FreeDownCounts(st, g, |st.files[g].blocks|, BlockIndex(newSize, st.files[g].blockSize));
    case Delete(g) => FreeBlocksCounts(st, g);
    case ClearAll =>
  }

  lemma ActiveIs(st: TempState)
    requires TempInv(st)
    ensures st.activeFiles == |st.files| >= 0
  {
  }

  lemma AccessCounts(st: TempState, f: TempName, location: nat, nrLbas: nat)
    requires TempInv(st) && f in st.files
    ensures var r := GetLBA(st, f, location, nrLbas).0; r.activeFiles == st.activeFiles && r.peakFiles == st.peakFiles
  {
    SizeFacts(st, f);
    hide TempInv, Step, Allocate;
  }

  /** How many files there are, along a run. */
  ghost function FileCounts(st: TempState, ops: seq<TempOp>): (t: seq<int>)
    requires TempInv(st) && TempLegal(st, ops)
    ensures |t| == |ops| + 1
    decreases |ops|
  {
    if ops == [] then [|st.files|] else [|st.files|] + FileCounts(TempStep(st, ops[0]), ops[1..])
  }

  /** The peak counter is the largest number of files there were at once. */
  lemma {:induction false} PeakFilesIsMaximum(st: TempState, ops: seq<TempOp>)
    requires TempInv(st) && TempLegal(st, ops) && st.activeFiles <= st.peakFiles
    ensures var r := TempRun(st, ops);
            && (forall i :: 0 <= i <= |ops| ==> FileCounts(st, ops)[i] <= r.peakFiles)
            && (r.peakFiles == st.peakFiles || r.peakFiles in FileCounts(st, ops))
            && st.peakFiles <= r.peakFiles
    decreases |ops|
  {
    hide TempStep, TempEnabled, TempInv;
    ActiveIs(st);
    if ops != [] {
      var next := TempStep(st, ops[0]);
      StepPeakFiles(st, ops[0]);
      ActiveIs(next);
      PeakFilesIsMaximum(next, ops[1..]);
      var t := FileCounts(next, ops[1..]);
      assert t[0] == |next.files|;
      assert FileCounts(st, ops) == [|st.files|] + t;
    }
  }

  // ---------------------------------------------------------------- the order of freeing

  /** The free block around the LBA is the next one its list serves. */
  ghost predicate OnTop(p: Pool, s: nat) {
    exists i, k :: 0 <= i < |p.blocks| && p.blocks[i].free && p.blocks[i].start <= s < p.blocks[i].End()
                   && 0 <= k < |p.lists| && p.lists[k] != [] && p.lists[k][0] == p.blocks[i].start
  }

  lemma FreedOnTop(p: Pool, s: nat)
    requires WellFormed(p) && LiveAt(p.blocks, s)
    ensures OnTop(Free(p, s), s)
  {
    var i := Find(p.blocks, s);
    var a, m, r := MergeFrom(p.blocks, i), Merged(p.blocks, i), Free(p, s);
    assert r.blocks[a] == m && r.lists[FreeListIndex(m.len)][0] == m.start;
    assert a < i ==> p.blocks[a].End() == p.blocks[i].start;
  }

  lemma OwnedOnTop(st: TempState, f: TempName, i: nat)
    requires TempInv(st) && Owns(st.files, f, i)
    ensures OnTop(FreeOwned(st, f, i).ledger.pool, StartOf(st.files, f, i))
  {
    EntryLive(st, f, i);
    hide TempInv, OnTop;
    FreedOnTop(st.ledger.pool, StartOf(st.files, f, i));
  }

  /** The lowest index a truncation drops is the last it frees, so what it held is served next. */
  lemma {:induction false} FreeDownOnTop(st: TempState, f: TempName, from: nat, to: nat)
    requires TempInv(st) && f in st.files && to < from && forall i :: to <= i < from ==> i in st.files[f].blocks
    ensures OnTop(FreeDown(st, f, from, to).ledger.pool, st.files[f].blocks[to])
    decreases from
  {
    hide TempInv, FreeOwned, OnTop;
    if from == to + 1 {
      OwnedOnTop(st, f, to);
    } else {
      FreeDownOnTop(FreeOwned(st, f, from - 1), f, from - 1, to);
    }
  }

  /** A deletion frees in ascending order: the highest index is the last. */
  lemma {:induction false} FreeBlocksOnTop(st: TempState, f: TempName, k: nat)
    requires TempInv(st) && Owns(st.files, f, k) && forall i :: i in st.files[f].blocks ==> i <= k
    ensures OnTop(FreeBlocks(st, f).ledger.pool, st.files[f].blocks[k])
    decreases |st.files[f].blocks|
  {
    hide TempInv, FreeOwned, OnTop;
    var i := Least(st.files[f].blocks.Keys);
    DropThenEmpty(st.files, f, i);
    if i == k {
      OwnedOnTop(st, f, k);
      assert (st.files[f].blocks - {k}).Keys == {};
      assert st.files[f].blocks - {k} == map[];
    } else {
      FreeBlocksOnTop(FreeOwned(st, f, i), f, k);
    }
  }

  lemma TruncatedOnTop(st: TempState, f: TempName, newSize: nat)
    requires TempInv(st) && f in st.files && Truncatable(st.files[f], newSize)
    requires newSize / st.files[f].blockSize < |st.files[f].blocks|
    ensures newSize / st.files[f].blockSize in st.files[f].blocks
    ensures OnTop(TruncateFile(st, f, newSize).ledger.pool, st.files[f].blocks[newSize / st.files[f].blockSize])
  {
    hide TempInv, OnTop, FreeDown;
    FreeDownOnTop(st, f, |st.files[f].blocks|, newSize / st.files[f].blockSize);
  }

  lemma DeletedOnTop(st: TempState, f: TempName, k: nat)
    requires TempInv(st) && Owns(st.files, f, k) && forall i :: i in st.files[f].blocks ==> i <= k
    ensures OnTop(DeleteFile(st, f).ledger.pool, st.files[f].blocks[k])
  {
    hide TempInv, OnTop, FreeBlocks;
    FreeBlocksOnTop(st, f, k);
  }
}
