/** Filling the pool from its start with one file, block by block, and what the free space
    reported then shows: for which pools it is always exact. */
module TempFileFill {
  import opened Basics
  import opened BlockPool
  import opened AllocatorRuns
  import opened TempFileModel
  import opened TempFileLaws
  import opened TempFileSpace

  // ---------------------------------------------------------------- access to the tail

  /** Nothing is free, and the last block is live and short of what it was asked for. */
  ghost predicate FullShort(l: Ledger, short: nat) {
    |l.pool.blocks| > 0 && Lbas(l.pool.blocks, true) == 0 && TailShort(l) == short
  }

  function Last(p: Pool): Extent
    requires |p.blocks| > 0
  {
    p.blocks[|p.blocks| - 1]
  }

  lemma {:induction false} NoneFree(b: seq<Extent>)
    requires forall i :: 0 <= i < |b| ==> !b[i].free
    ensures Lbas(b, true) == 0
  {
    if b != [] {
      NoneFree(b[1..]);
    }
  }

  lemma TailTaken(l: Ledger, n: nat)
    requires WellFormed(l.pool) && TailFree(l.pool.blocks) && n > 0
    requires FreeListIndex(n) <= HomeList(l.pool.untouched, Last(l.pool).len)
    ensures Allocate(l.pool, n).Allocated? && Allocate(l.pool, n).block.start == Last(l.pool).start
    ensures var last, r := Last(l.pool), Step(l, Take(n));
            if last.len <= n then FullShort(r, n - last.len)
            else TailFree(r.pool.blocks) && Last(r.pool).start == last.start + n
  {
    TakeFromTail(l, n);
    hide Allocate, Step, WellFormed, Lbas, FreeListIndex;
    var r := Step(l, Take(n));
    var c := Carve(Last(l.pool), n);
    assert r.pool.blocks[|r.pool.blocks| - 1] == c[|c| - 1];
    if Last(l.pool).len <= n {
      NoneFree(r.pool.blocks);
    }
  }

  lemma PoolOf(st: TempState)
    requires TempInv(st)
    ensures WellFormed(st.ledger.pool)
  {
  }

  /** An access to an unmapped block while only the tail is free: it is served from there. */
  lemma TailAccess(st: TempState, f: TempName, location: nat, n: nat)
    requires TempInv(st) && st.lbaSize == 4096 && f in st.files && st.files[f].blockSize == 4096 * n && n > 0
    requires BlockIndex(location, 4096 * n) !in st.files[f].blocks
    requires TailFree(st.ledger.pool.blocks)
    requires FreeListIndex(n) <= HomeList(st.ledger.pool.untouched, Last(st.ledger.pool).len)
    ensures var last, r := Last(st.ledger.pool), AccessStep(st, f, location, n);
            && GetLBA(st, f, location, n) == (r, Lba(last.start))
            && r.files == AddEntry(st.files, f, BlockIndex(location, 4096 * n), last.start)
            && if last.len <= n then FullShort(r.ledger, n - last.len)
               else TailFree(r.ledger.pool.blocks) && Last(r.ledger.pool).start == last.start + n
  {
    hide TempInv, TailFree, FullShort, Step, Allocate, FreeListIndex, HomeList;
    PoolOf(st);
    TailTaken(st.ledger, n);
  }

  // ---------------------------------------------------------------- filling

  /** A file of eight-LBA blocks has blocks 0 to `k - 1` and no other, one after the other from the
      start of the pool, and what follows them is the only free block. */
  ghost predicate Filling(st: TempState, f: TempName, k: nat) {
    && f in st.files && st.lbaSize == 4096 && f.bufferSize == "S32K" && st.files[f].blockSize == 32768
    && (forall i: nat :: i in st.files[f].blocks <==> i < k)
    && (forall i: nat :: i < k ==> i in st.files[f].blocks && st.files[f].blocks[i] == st.ledger.pool.lo + 8 * i)
    && var b := st.ledger.pool.blocks; TailFree(b) && Last(st.ledger.pool).start == st.ledger.pool.lo + 8 * k
  }

  /** Accesses to blocks `k` to `j - 1`. */
  function Fill(f: TempName, k: nat, j: nat): seq<TempOp>
    decreases j - k
  {
    if j <= k then [] else [Access(f, 32768 * k, 8)] + Fill(f, k + 1, j)
  }

  lemma TailEnds(p: Pool)
    requires WellFormed(p)
    ensures |p.blocks| > 0 && Last(p).End() == p.hi && Last(p).len > 0
  {
  }

  lemma SmallestClass(untouched: bool, len: nat)
    ensures FreeListIndex(8) <= HomeList(untouched, len)
  {
  }

  lemma FillStep(st: TempState, f: TempName, k: nat)
    requires TempInv(st) && Filling(st, f, k)
    ensures var lo, hi, r := st.ledger.pool.lo, st.ledger.pool.hi, AccessStep(st, f, 32768 * k, 8);
            && lo + 8 * k < hi && Owns(r.files, f, k) && StartOf(r.files, f, k) == lo + 8 * k
            && r.files.Keys == st.files.Keys && r.files[f].blockSize == 32768
            && if hi <= lo + 8 * (k + 1) then FullShort(r.ledger, lo + 8 * (k + 1) - hi) else Filling(r, f, k + 1)
  {
    hide TempInv, FullShort, TailFree, GetLBA, WellFormed;
    PoolOf(st);
    TailEnds(st.ledger.pool);
    SmallestClass(st.ledger.pool.untouched, Last(st.ledger.pool).len);
    hide FreeListIndex, HomeList;
    assert BlockIndex(32768 * k, 32768) == k;
    TailAccess(st, f, 32768 * k, 8);
  }

  /** The file takes the pool up block by block, as far as there is a free LBA left. */
  lemma {:induction false} FillTo(st: TempState, f: TempName, k: nat, j: nat)
    requires TempInv(st) && Filling(st, f, k) && k <= j && st.ledger.pool.lo + 8 * j < st.ledger.pool.hi
    ensures TempLegal(st, Fill(f, k, j)) && Filling(TempRun(st, Fill(f, k, j)), f, j)
    ensures TempRun(st, Fill(f, k, j)).files.Keys == st.files.Keys
    decreases j - k
  {
    hide TempInv, Filling, AccessStep, FullShort;
    if k < j {
      InFilling(st, f, k);
      FillStep(st, f, k);
      FillTo(AccessStep(st, f, 32768 * k, 8), f, k + 1, j);
      assert Fill(f, k, j)[1..] == Fill(f, k + 1, j);
    }
  }

  lemma InFilling(st: TempState, f: TempName, k: nat)
    requires Filling(st, f, k)
    ensures f in st.files
  {
  }

  /** One free block covers the pool. */
  ghost predicate OneFree(p: Pool) {
    p.lo < p.hi && p.blocks == [Extent(p.lo, p.hi - p.lo, true)]
  }

  /** Where a file is created while one free block covers the pool. */
  lemma FillFrom(st: TempState, f: TempName)
    requires TempInv(st) && st.lbaSize == 4096 && f.bufferSize == "S32K" && f !in st.files && OneFree(st.ledger.pool)
    ensures Filling(CreateStep(st, f), f, 0)
  {
    hide TempInv;
  }

  lemma LastIndex(len: nat) returns (j: nat)
    requires len > 0
    ensures 8 * j < len <= 8 * (j + 1) && 8 * (j + 1) - len == if len % 8 == 0 then 0 else 8 - len % 8
  {
    j := (len - 1) / 8;
  }

  /** The last of the pool goes to a block that may be short of its eight LBAs. */
  lemma FillAll(st: TempState, f: TempName) returns (ops: seq<TempOp>)
    requires TempInv(st) && Filling(st, f, 0)
    ensures var len := st.ledger.pool.hi - st.ledger.pool.lo;
            TempLegal(st, ops) && FullShort(TempRun(st, ops).ledger, if len % 8 == 0 then 0 else 8 - len % 8)
  {
    hide TempInv, Filling, AccessStep, FullShort, TempRun, TempLegal, TempStep;
    var p := st.ledger.pool;
    InFilling(st, f, 0);
    FillStep(st, f, 0);
    var j := LastIndex(p.hi - p.lo);
    FillTo(st, f, 0, j);
    var a := TempRun(st, Fill(f, 0, j));
    InFilling(a, f, j);
    FillStep(a, f, j);
    OneAccess(a, Access(f, 32768 * j, 8));
    ops := Fill(f, 0, j) + [Access(f, 32768 * j, 8)];
    TempRunConcat(st, Fill(f, 0, j), [Access(f, 32768 * j, 8)]);
  }

  lemma FirstOp(st: TempState, op: TempOp, ops: seq<TempOp>)
    requires TempInv(st) && TempEnabled(st, op) && TempLegal(TempStep(st, op), ops)
    ensures TempLegal(st, [op] + ops) && TempRun(st, [op] + ops) == TempRun(TempStep(st, op), ops)
  {
    hide TempInv, TempStep, TempEnabled;
    assert ([op] + ops)[1..] == ops;
  }

  lemma FillAfterCreate(st: TempState, f: TempName) returns (ops: seq<TempOp>)
    requires TempInv(st) && st.lbaSize == 4096 && f.bufferSize == "S32K" && f !in st.files && OneFree(st.ledger.pool)
    ensures var len := st.ledger.pool.hi - st.ledger.pool.lo;
            TempLegal(st, ops) && FullShort(TempRun(st, ops).ledger, if len % 8 == 0 then 0 else 8 - len % 8)
  {
    hide TempInv, Filling, CreateStep, FullShort;
    FillFrom(st, f);
    ops := FillAll(CreateStep(st, f), f);
    FirstOp(st, Create(f), ops);
    ops := [Create(f)] + ops;
  }

  /** The largest block takes a small pool whole. */
  lemma WholePool(st: TempState) returns (ops: seq<TempOp>)
    requires TempInv(st) && st.lbaSize == 4096 && st.files == map[] && OneFree(st.ledger.pool)
    requires st.ledger.pool.untouched
    requires st.ledger.pool.hi - st.ledger.pool.lo <= 64
    ensures TempLegal(st, ops) && FullShort(TempRun(st, ops).ledger, 64 - (st.ledger.pool.hi - st.ledger.pool.lo))
  {
    hide TempInv, FullShort, AccessStep;
    var f := TempName("", "DEFAULT", 0);
    var a := CreateStep(st, f);
    assert a.files[f] == FileMeta(262144, map[]) && a.ledger == st.ledger;
    TailAccess(a, f, 0, 64);
    var op := Access(f, 0, 64);
    OneAccess(a, op);
    FirstOp(st, Create(f), [op]);
    ops := [Create(f)] + [op];
  }

  lemma OneAccess(st: TempState, op: TempOp)
    requires TempInv(st) && op.Access? && op.f in st.files
    ensures TempLegal(st, [op]) && TempRun(st, [op]) == AccessStep(st, op.f, op.location, op.nrLbas)
  {
    hide TempInv, AccessStep;
    assert [op][1..] == [];
    assert TempRun(TempStep(st, op), []) == TempStep(st, op);
  }

  // ---------------------------------------------------------------- the report over all runs

  /** The count of mapped bytes starts exact. */
  lemma InitialSpace(lo: nat, hi: nat)
    requires lo < hi
    ensures TempInv(Initial(lo, hi, 4096)) && SpaceInv(Initial(lo, hi, 4096))
  {
    InitialInv(lo, hi, 4096);
    var b := Initial(lo, hi, 4096).ledger.pool.blocks;
    assert Lbas(b, false) == 0 by { assert b[1..] == []; }
  }

  /** In every reachable state the mapped bytes are the live LBAs plus the last block's shortfall,
      so the report is the free LBAs less the shortfall, wrapped. */
  lemma ReachableSpace(lo: nat, hi: nat, ops: seq<TempOp>)
    requires lo < hi && (hi + 1) * 4096 < U64 && TempInv(Initial(lo, hi, 4096)) && TempLegal(Initial(lo, hi, 4096), ops)
    ensures var r := TempRun(Initial(lo, hi, 4096), ops);
            && SpaceInv(r) && r.lbaSize == 4096
            && AvailableSpace(r, hi + 1, lo)
               == var free, short := Lbas(r.ledger.pool.blocks, true), TailShort(r.ledger);
                  if free > 0 || short == 0 then 4096 * (free - short) else U64 - 4096 * short
  {
    hide TempInv, SpaceInv, Initial, TempStep, Lbas, TailShort;
    InitialSpace(lo, hi);
    InitialDevice(lo, hi);
    RunSpace(Initial(lo, hi, 4096), ops);
    AvailableSpaceExactly(TempRun(Initial(lo, hi, 4096), ops), hi + 1);
  }

  lemma InitialDevice(lo: nat, hi: nat)
    requires lo < hi
    ensures var st := Initial(lo, hi, 4096); st.lbaSize == 4096 && st.ledger.pool.lo == lo && st.ledger.pool.hi == hi
  {
  }

  /** In every other pool one file can make the report wrap around: blocks of eight LBAs up to the
      end, or one of 64 where the pool is smaller than that. */
  lemma WrappingRun(lo: nat, hi: nat) returns (ops: seq<TempOp>, short: nat)
    requires lo < hi && (hi + 1) * 4096 < U64 && ((hi - lo) % 8 != 0 || hi - lo < 64)
    ensures TempInv(Initial(lo, hi, 4096)) && TempLegal(Initial(lo, hi, 4096), ops) && 0 < short < 64
    ensures AvailableSpace(TempRun(Initial(lo, hi, 4096), ops), hi + 1, lo) == U64 - 4096 * short
    ensures Lbas(TempRun(Initial(lo, hi, 4096), ops).ledger.pool.blocks, true) == 0
  {
    hide TempInv, SpaceInv, AvailableSpace, TempStep;
    InitialSpace(lo, hi);
    var st := Initial(lo, hi, 4096);
    if (hi - lo) % 8 != 0 {
      var f := TempName("", "S32K", 0);
      ops := FillAfterCreate(st, f);
      short := 8 - (hi - lo) % 8;
    } else {
      ops := WholePool(st);
      short := 64 - (hi - lo);
    }
    ReachableSpace(lo, hi, ops);
  }

  /** For which pools the report is always exact: those of a multiple of 8 LBAs, 64 or more. The
      file system leaves one LBA of the area out of the pool. */
  lemma ReportExactly(lo: nat, hi: nat)
    requires lo < hi && (hi + 1) * 4096 < U64
    ensures TempInv(Initial(lo, hi, 4096))
    ensures (hi - lo) % 8 == 0 && hi - lo >= 64 <==>
            forall ops :: TempLegal(Initial(lo, hi, 4096), ops) ==>
              ExactReport(TempRun(Initial(lo, hi, 4096), ops), lo, hi)
  {
    hide TempInv, Initial, TempRun, TempLegal;
    InitialSpace(lo, hi);
    if (hi - lo) % 8 == 0 && hi - lo >= 64 {
      forall ops | TempLegal(Initial(lo, hi, 4096), ops)
        ensures ExactReport(TempRun(Initial(lo, hi, 4096), ops), lo, hi) {
        NeverShortReport(lo, hi, ops);
      }
    } else {
      var ops, short := WrappingRun(lo, hi);
    }
  }

  ghost predicate ExactReport(st: TempState, lo: nat, hi: nat) {
    AvailableSpace(st, hi + 1, lo) == 4096 * Lbas(st.ledger.pool.blocks, true)
  }

  lemma NeverShortReport(lo: nat, hi: nat, ops: seq<TempOp>)
    requires lo < hi && (hi + 1) * 4096 < U64 && (hi - lo) % 8 == 0 && hi - lo >= 64
    requires TempInv(Initial(lo, hi, 4096)) && TempLegal(Initial(lo, hi, 4096), ops)
    ensures ExactReport(TempRun(Initial(lo, hi, 4096), ops), lo, hi)
  {
    hide TempInv, Initial, SpaceInv, AvailableSpace, TempStep, Lbas, TailShort, Fits;
    InitialDevice(lo, hi);
    ReachableSpace(lo, hi, ops);
    var r := TempRun(Initial(lo, hi, 4096), ops);
    InvLedger(r);
    NeverShort(r.ledger);
  }
}
