/** Truncation, file sizes and free space of the temporary files. */
module TempFileSizes {
  import opened Basics
  import opened BlockPool
  import opened AllocatorLaws
  import opened AllocatorRuns
  import opened TempFileModel
  import opened TempFileLaws

  // ---------------------------------------------------------------- dense files

  /** The block indices in use are exactly `0 .. size - 1`. */
  ghost predicate Dense(m: map<nat, nat>) {
    forall i: nat :: i in m <==> i < |m|
  }

  lemma {:induction false} Pigeonhole(s: set<nat>, n: nat)
    requires |s| == n && forall x :: x in s ==> x < n
    ensures forall x: nat :: x < n ==> x in s
  {
    if n > 0 {
      if n - 1 in s {
        Pigeonhole(s - {n - 1}, n - 1);
        forall x: nat | x < n ensures x in s {
          if x < n - 1 { assert x in s - {n - 1}; }
        }
      } else {
        Crowded(s, n - 1);
      }
    }
  }

  lemma {:induction false} Crowded(s: set<nat>, n: nat)
    requires forall x :: x in s ==> x < n
    ensures |s| <= n
  {
    if n > 0 {
      Crowded(s - {n - 1}, n - 1);
    } else {
      assert s == {};
    }
  }

  lemma DenseExactly(m: map<nat, nat>)
    ensures Dense(m) <==> forall i: nat :: i in m ==> i < |m|
  {
    if forall i: nat :: i in m ==> i < |m| {
      Pigeonhole(m.Keys, |m|);
    }
  }

  lemma {:induction false} UpTo(n: nat) returns (s: set<nat>)
    ensures |s| == n && forall x: nat :: x in s <==> x < n
  {
    s := {};
    if n > 0 {
      var t := UpTo(n - 1);
      s := t + {n - 1};
      forall x: nat ensures x in s <==> x < n {
        assert x in t <==> x < n - 1;
      }
    }
  }

  lemma Counting(m: map<nat, nat>, n: nat)
    requires forall i: nat :: i in m <==> i < n
    ensures |m| == n
  {
    var s := UpTo(n);
    assert m.Keys == s;
  }

  /** The loop does not meet an unmapped index exactly for a truncatable file. */
  lemma WalkEndExactly(m: FileMeta, newSize: nat)
    requires m.blockSize > 0
    ensures var to := BlockIndex(newSize, m.blockSize);
            Truncatable(m, newSize) <==> WalkEnd(m.blocks, |m.blocks|, to) <= to
  {
  }

  /** A file can be truncated to every size if and only if it is dense. */
  lemma TruncatableExactly(m: FileMeta)
    requires m.blockSize > 0
    ensures (forall newSize: nat :: Truncatable(m, newSize)) <==> Dense(m.blocks)
  {
    if forall newSize: nat :: Truncatable(m, newSize) {
      assert Truncatable(m, 0) && BlockIndex(0, m.blockSize) == 0;
      var s := UpTo(|m.blocks|);
      SameSize(s, m.blocks.Keys);
      assert forall i: nat :: i in m.blocks <==> i in m.blocks.Keys;
    }
  }

  lemma {:induction false} SameSize(s: set<nat>, t: set<nat>)
    requires s <= t && |s| == |t|
    ensures s == t
  {
    if s != t {
      var x :| x in t && x !in s;
      assert s <= t - {x};
      SubsetSize(s, t - {x});
    }
  }

  lemma {:induction false} SubsetSize(s: set<nat>, t: set<nat>)
    requires s <= t
    ensures |s| <= |t|
  {
    if s != {} {
      var x :| x in s;
      SubsetSize(s - {x}, t - {x});
    }
  }

  /** Dropping the indices from `to` up to the size, for every map. */
  lemma OutsideExactly(m: map<nat, nat>, to: nat)
    ensures var r := Outside(m, to, |m|);
            && ((forall i: nat :: i in r ==> i < to) <==> forall i: nat :: i in m ==> i < Max(to, |m|))
            && (Dense(m) ==> Dense(r) && |r| == if to < |m| then to else |m|)
  {
    var r := Outside(m, to, |m|);
    forall i: nat | i in m && Max(to, |m|) <= i ensures i in r && to <= i {}
    if Dense(m) {
      Counting(r, if to < |m| then to else |m|);
    }
  }

  /** Truncation of every file to every size. If it stops at an unmapped index, it has freed
      exactly what is above. Otherwise it keeps the LBAs of what stays, and leaves no index at or
      above the new size exactly when none was at or above both that size and the number of
      blocks; for a truncation below that number this means the file was dense. */
  lemma TruncateExactly(st: TempState, f: TempName, newSize: nat)
    requires TempInv(st) && f in st.files
    ensures var t := TruncateAny(st, f, newSize); var m, r := st.files[f].blocks, t.st.files;
            && TempInv(t.st) && f in r && st.files[f].blockSize > 0
            && (t.Truncated? <==> Truncatable(st.files[f], newSize))
            && (forall i :: i in r[f].blocks ==> i in m && r[f].blocks[i] == m[i])
    ensures var t, to := TruncateAny(st, f, newSize), BlockIndex(newSize, st.files[f].blockSize);
            var m, r := st.files[f].blocks, t.st.files[f].blocks;
            t.NullBlock? ==> exists e: nat :: to < e <= |m| && e - 1 !in m && r == Outside(m, e, |m|)
    ensures var t, to := TruncateAny(st, f, newSize), BlockIndex(newSize, st.files[f].blockSize);
            var m, r := st.files[f].blocks, t.st.files[f].blocks;
            t.Truncated? ==>
              && ((forall i: nat :: i in r ==> i < to) <==> forall i: nat :: i in m ==> i < Max(to, |m|))
              && (to <= |m| ==> ((forall i: nat :: i in r ==> i < to) <==> Dense(m)))
              && (Dense(m) ==> Dense(r) && |r| == if to < |m| then to else |m|)
  {
    hide TempInv, FreeDown, Dense;
    SizeFacts(st, f);
    var m := st.files[f].blocks;
    var to := BlockIndex(newSize, st.files[f].blockSize);
    var e := WalkEnd(m, |m|, to);
    WalkEndExactly(st.files[f], newSize);
    FreeDownFiles(st, f, |m|, e);
    OutsideExactly(m, to);
    DenseExactly(m);
    assert e <= to ==> Outside(m, e, |m|) == Outside(m, to, |m|);
  }

  /** One of the blocks from index `to` on starts at `s`. */
  ghost predicate TakenOff(m: map<nat, nat>, to: nat, s: nat) {
    exists i: nat :: to <= i < |m| && i in m && m[i] == s
  }

  /** Exactly the blocks that truncation takes off the file go back to the pool, also when it
      stops half-way. */
  lemma TruncateReturns(st: TempState, f: TempName, newSize: nat, s: nat)
    requires TempInv(st) && f in st.files
    ensures st.files[f].blockSize > 0 && TempInv(TruncateAny(st, f, newSize).st)
    ensures var m := st.files[f].blocks; var e := WalkEnd(m, |m|, BlockIndex(newSize, st.files[f].blockSize));
            LiveHas(TruncateAny(st, f, newSize).st, s) <==> LiveHas(st, s) && !TakenOff(m, e, s)
  {
    SizeFacts(st, f);
    var m := st.files[f].blocks;
    var e := WalkEnd(m, |m|, BlockIndex(newSize, st.files[f].blockSize));
    var r := TruncateAny(st, f, newSize).st;
    hide TempInv, FreeDown, LiveStarts, OwnedBySome, Kept, Ownership, Owns, StartOf, FreeOwned, SameDevice, TakenOff;
    hide LiveHas;
    FreeDownFiles(st, f, |m|, e);
    OwnedExactly(st, s);
    OwnedExactly(r, s);
    InvOwnership(st);
    KeptOwned(st.files, LiveStarts(st.ledger.pool.blocks), f, e, s);
  }

  /** The specification used in runs, where truncation does not fault, is the same one. */
  lemma TruncateIs(st: TempState, f: TempName, newSize: nat)
    requires TempInv(st) && f in st.files && Truncatable(st.files[f], newSize)
    ensures TruncateAny(st, f, newSize) == Truncated(TruncateFile(st, f, newSize))
  {
    WalkEndExactly(st.files[f], newSize);
    hide TempInv, FreeOwned;
    var m := st.files[f].blocks;
    var to := BlockIndex(newSize, st.files[f].blockSize);
    assert WalkEnd(m, |m|, to) == if |m| < to then |m| else to;
  }

  ghost predicate LiveHas(st: TempState, s: nat) {
    s in LiveStarts(st.ledger.pool.blocks)
  }

  lemma InvOwnership(st: TempState)
    requires TempInv(st)
    ensures Ownership(st.files, LiveStarts(st.ledger.pool.blocks))
  {
  }

  lemma OwnedExactly(st: TempState, s: nat)
    requires TempInv(st)
    ensures LiveHas(st, s) <==> OwnedBySome(st.files, s)
  {
  }

  lemma KeptOwned(files: Files, live: set<nat>, f: TempName, to: nat, s: nat)
    requires Ownership(files, live) && f in files
    ensures OwnedBySome(Kept(files, f, to, |files[f].blocks|), s) <==>
            OwnedBySome(files, s) && !TakenOff(files[f].blocks, to, s)
  {
    var m := files[f].blocks;
    var d := Kept(files, f, to, |m|);
    assert forall g, j: nat :: Owns(d, g, j) <==> Owns(files, g, j) && !(g == f && to <= j < |m|);
    assert forall g, j :: Owns(d, g, j) ==> StartOf(d, g, j) == StartOf(files, g, j);
    assert forall i :: i in m ==> Owns(files, f, i) && StartOf(files, f, i) == m[i];
    hide Kept;
    if OwnedBySome(d, s) {
      StillOwned(d, files, s);
    }
    if OwnedBySome(files, s) && !TakenOff(m, to, s) {
      StillOwned(files, d, s);
    }
  }

  ghost predicate AllDense(st: TempState) {
    forall f :: f in st.files ==> Dense(st.files[f].blocks)
  }

  /** An access within the file or right behind its end. */
  ghost predicate Appends(st: TempState, op: TempOp) {
    match op
    case Access(f, location, _) =>
      f in st.files && st.files[f].blockSize > 0 && BlockIndex(location, st.files[f].blockSize) <= |st.files[f].blocks|
    case _ => true
  }

  lemma StepDense(st: TempState, op: TempOp)
    requires TempInv(st) && TempEnabled(st, op) && AllDense(st) && Appends(st, op)
    ensures AllDense(TempStep(st, op))
  {
    hide TempInv, GetLBA, FreeDown, FreeBlocks, GetBufferSize;
    match op
    case Create(g) => assert Dense(map[]);
    case Access(g, location, nrLbas) => AccessFiles(st, g, location, nrLbas);
    case Truncate(g, newSize) =>
      var m := st.files[g].blocks;
      var to := BlockIndex(newSize, st.files[g].blockSize);
      FreeDownFiles(st, g, |m|, to);
      Counting(Outside(m, to, |m|), if to < |m| then to else |m|);
    case Delete(g) => FreeBlocksFiles(st, g);
    case ClearAll =>
  }

  ghost predicate AppendingRun(st: TempState, ops: seq<TempOp>)
    requires TempInv(st) && TempLegal(st, ops)
    decreases |ops|
  {
    ops == [] || (Appends(st, ops[0]) && AppendingRun(TempStep(st, ops[0]), ops[1..]))
  }

  /** Every file can be truncated to every size. */
  ghost predicate AnyTruncation(st: TempState) {
    forall f, newSize: nat :: f in st.files ==> Truncatable(st.files[f], newSize)
  }

  /** All files can be truncated to all sizes if and only if all files are dense. */
  lemma AnyTruncationExactly(st: TempState)
    requires TempInv(st)
    ensures AnyTruncation(st) <==> AllDense(st)
  {
    forall f | f in st.files
      ensures st.files[f].blockSize > 0
      ensures (forall newSize: nat :: Truncatable(st.files[f], newSize)) <==> Dense(st.files[f].blocks)
    {
      SizeFacts(st, f);
      TruncatableExactly(st.files[f]);
    }
    hide TempInv, Dense, Truncatable;
  }

  /** A run of legal operations after which a truncation faults, from every state with room: the
      first access to a new file is past its first block. */
  lemma SparseFile(st: TempState, f: TempName, location: nat) returns (ops: seq<TempOp>)
    requires TempInv(st) && f !in st.files && GetBufferSize(f.bufferSize).Some?
    requires location >= GetBufferSize(f.bufferSize).value
    requires WellFormed(st.ledger.pool) && st.lbaSize > 0 && GetBufferSize(f.bufferSize).value / st.lbaSize > 0
    requires Allocate(st.ledger.pool, GetBufferSize(f.bufferSize).value / st.lbaSize).Allocated?
    ensures ops == [Create(f), Access(f, location, GetBufferSize(f.bufferSize).value / st.lbaSize)]
    ensures TempLegal(st, ops) && var r := TempRun(st, ops);
            f in r.files && !Truncatable(r.files[f], 0) && TruncateAny(r, f, 0) == NullBlock(r)
  {
    hide GetBufferSize, TempInv, GetLBA, Allocate, AllocatorRuns.Step, FreeDown, Truncatable, TruncateAny;
    var size := GetBufferSize(f.bufferSize).value;
    var n := size / st.lbaSize;
    ops := [Create(f), Access(f, location, n)];
    var a := TempStep(st, ops[0]);
    assert a.files == st.files[f := FileMeta(size, map[])] && a.ledger == st.ledger && a.lbaSize == st.lbaSize;
    var b := TempStep(a, ops[1]);
    FirstAccess(a, f, location, n);
    TwoOps(st, ops[0], ops[1]);
    assert ops == [ops[0], ops[1]];
    NotFromOne(location, size);
    OneAbove(b, f, BlockIndex(location, size));
  }

  lemma NotFromOne(location: nat, size: nat)
    requires 0 < size <= location
    ensures BlockIndex(location, size) > 0
  {
  }

  lemma TwoOps(st: TempState, a: TempOp, b: TempOp)
    requires TempInv(st) && TempEnabled(st, a) && TempEnabled(TempStep(st, a), b)
    ensures TempLegal(st, [a, b]) && TempRun(st, [a, b]) == TempStep(TempStep(st, a), b)
  {
    hide TempStep, TempEnabled, TempInv;
    assert [a, b][1..] == [b] && [b][1..] == [];
    assert TempLegal(TempStep(st, a), [b])
      && TempRun(TempStep(st, a), [b]) == TempRun(TempStep(TempStep(st, a), b), []);
  }

  lemma OneAbove(st: TempState, f: TempName, i: nat)
    requires TempInv(st) && f in st.files && i > 0 && st.files[f].blocks.Keys == {i}
    ensures !Truncatable(st.files[f], 0) && TruncateAny(st, f, 0) == NullBlock(st)
  {
    hide TempInv;
    SizeFacts(st, f);
    var m := st.files[f];
    assert |m.blocks| == |m.blocks.Keys| == 1 && 0 !in m.blocks && BlockIndex(0, m.blockSize) == 0;
  }

  lemma FirstAccess(st: TempState, f: TempName, location: nat, n: nat)
    requires TempInv(st) && f in st.files && st.files[f].blocks == map[] && WellFormed(st.ledger.pool)
    requires st.lbaSize > 0 && n > 0 && n == st.files[f].blockSize / st.lbaSize
    requires Allocate(st.ledger.pool, n).Allocated?
    ensures st.files[f].blockSize > 0
    ensures var r := GetLBA(st, f, location, n).0; var i := BlockIndex(location, st.files[f].blockSize);
            f in r.files && r.files[f].blockSize == st.files[f].blockSize && r.files[f].blocks.Keys == {i}
  {
    SizeFacts(st, f);
    hide TempInv, AllocatorRuns.Step, Allocate;
  }

  /** When accesses only overwrite or append, every file stays dense, so that truncation is
      always possible and always exact. */
  lemma {:induction false} RunDense(st: TempState, ops: seq<TempOp>)
    requires TempInv(st) && TempLegal(st, ops) && AllDense(st) && AppendingRun(st, ops)
    ensures AllDense(TempRun(st, ops)) && AnyTruncation(TempRun(st, ops))
    decreases |ops|
  {
    hide TempStep, TempEnabled, Appends, TempInv, AllDense, AnyTruncation;
    if ops == [] {
      AnyTruncationExactly(st);
    } else {
      StepDense(st, ops[0]);
      RunDense(TempStep(st, ops[0]), ops[1..]);
    }
  }

  // ---------------------------------------------------------------- sizes

  function GetFileSizeLBA(st: TempState, f: TempName): nat
    requires f in st.files && st.lbaSize > 0
  {
    (st.files[f].blockSize * |st.files[f].blocks|) / st.lbaSize
  }

  function GetSeekBound(st: TempState, f: TempName): nat
    requires f in st.files
  {
    st.files[f].blockSize * |st.files[f].blocks|
  }

  /** The strategy's seek bound, computed from the size in LBAs. */
  function StrategySeekBound(st: TempState, f: TempName): nat
    requires f in st.files && st.lbaSize > 0
  {
    GetFileSizeLBA(st, f) * st.lbaSize
  }

  /** The size in LBAs is that of the mapped bytes, rounded down, for every LBA size; the bound computed
      from it is exact where LBAs divide the mapped bytes. */
  lemma FileSizeExactly(st: TempState, f: TempName)
    requires f in st.files && st.lbaSize > 0
    ensures var n := GetFileSizeLBA(st, f);
            && n * st.lbaSize <= st.files[f].blockSize * |st.files[f].blocks| < n * st.lbaSize + st.lbaSize
            && (StrategySeekBound(st, f) == GetSeekBound(st, f) <==> GetSeekBound(st, f) % st.lbaSize == 0)
  {
    DivMod(GetSeekBound(st, f), st.lbaSize);
  }

  lemma MultipleOf4096(a: nat, b: nat)
    requires a % 4096 == 0
    ensures (a * b) % 4096 == 0 && (a * b) / 4096 * 4096 == a * b
  {
    var q := a / 4096;
    assert a * b == 4096 * (q * b) by {
      assert a == 4096 * q;
      assert (4096 * q) * b == 4096 * (q * b);
    }
  }

  /** Both seek bounds agree, and in a dense file a location is below the bound exactly when
      its block is mapped. */
  lemma SeekBoundExactly(st: TempState, f: TempName, location: nat)
    requires TempInv(st) && st.lbaSize == 4096 && f in st.files
    ensures st.files[f].blockSize > 0
    ensures StrategySeekBound(st, f) == GetSeekBound(st, f)
    ensures Dense(st.files[f].blocks) ==>
      (location < GetSeekBound(st, f) <==> BlockIndex(location, st.files[f].blockSize) in st.files[f].blocks)
  {
    SizeFacts(st, f);
    var bs, n := st.files[f].blockSize, |st.files[f].blocks|;
    assert GetBufferSize(f.bufferSize) == Some(bs);
    MultipleOf4096(bs, n);
    DivMul(location, n, bs);
  }
}
