/** What the temporary-block allocator guarantees over all its histories. */
module AllocatorLaws {
  import opened Basics
  import opened BlockPool

  // ---------------------------------------------------------------- live blocks

  ghost function Live(b: seq<Extent>): set<Extent> {
    set e | e in b && !e.free
  }

  lemma SpliceLive(b: seq<Extent>, lo: nat, hi: nat, i: nat, j: nat, mid: seq<Extent>)
    requires Tiling(b, lo, hi) && i < j <= |b|
    ensures Live(Splice(b, i, j, mid)) == Live(b) - Live(b[i..j]) + Live(mid)
  {
    forall e: Extent
      ensures e in Splice(b, i, j, mid) <==> (e in b && e !in b[i..j]) || e in mid
    {
      SpliceMember(b, lo, hi, i, j, mid, e);
    }
  }

  lemma SpliceMember(b: seq<Extent>, lo: nat, hi: nat, i: nat, j: nat, mid: seq<Extent>, e: Extent)
    requires Tiling(b, lo, hi) && i < j <= |b|
    ensures e in Splice(b, i, j, mid) <==> (e in b && e !in b[i..j]) || e in mid
  {
    if e in b {
      var x :| 0 <= x < |b| && b[x] == e;
      OnlyAt(b, lo, hi, x, 0, i);
      OnlyAt(b, lo, hi, x, i, j);
      OnlyAt(b, lo, hi, x, j, |b|);
    }
  }

  lemma OnlyAt(b: seq<Extent>, lo: nat, hi: nat, x: nat, i: nat, j: nat)
    requires Tiling(b, lo, hi) && x < |b| && i <= j <= |b|
    ensures b[x] in b[i..j] <==> i <= x < j
  {
    if i <= x < j {
      assert b[i..j][x - i] == b[x];
    } else if b[x] in b[i..j] {
      var y :| 0 <= y < j - i && b[i..j][y] == b[x];
      StartsUnique(b, lo, hi, i + y, x);
    }
  }

  lemma OthersApart(b: seq<Extent>, lo: nat, hi: nat, i: nat, e: Extent)
    requires Tiling(b, lo, hi) && i < |b| && e in b && e != b[i]
    ensures e.End() <= b[i].start || b[i].End() <= e.start
  {
    var x :| 0 <= x < |b| && b[x] == e;
    if x < i {
      Ordered(b, lo, hi, x, i);
    } else {
      Ordered(b, lo, hi, i, x);
    }
  }

  lemma CarveLive(b: Extent, n: nat)
    ensures Live(Carve(b, n)) == {Carve(b, n)[0]}
  {
    assert Carve(b, n)[0] in Carve(b, n);
  }

  /** A successful allocation adds exactly one live block, cut from the front of a free one
      and overlapping no other; every other live block keeps its place and size. */
  lemma AllocateAddsOne(p: Pool, n: nat)
    requires WellFormed(p) && n > 0 && Allocate(p, n).Allocated?
    ensures var r := Allocate(p, n);
            && Live(r.pool.blocks) == Live(p.blocks) + {r.block}
            && r.block.start == p.blocks[Picked(p, n)].start
            && r.block.len == Min(n, p.blocks[Picked(p, n)].len) && !r.block.free
            && forall e :: e in Live(p.blocks) ==> e.End() <= r.block.start || r.block.End() <= e.start
  {
    var i := Picked(p, n);
    var b := p.blocks[i];
    SpliceLive(p.blocks, p.lo, p.hi, i, i + 1, Carve(b, n));
    assert p.blocks[i..i + 1] == [b];
    assert Live([b]) == {};
    CarveLive(b, n);
    forall e | e in Live(p.blocks) ensures e.End() <= b.start || b.End() <= e.start {
      OthersApart(p.blocks, p.lo, p.hi, i, e);
    }
  }

  /** Freeing a block removes it from the live blocks and touches no other. */
  lemma FreeRemovesOne(p: Pool, i: nat)
    requires WellFormed(p) && i < |p.blocks| && !p.blocks[i].free
    ensures Live(FreeIndex(p, i).blocks) == Live(p.blocks) - {p.blocks[i]}
  {
    var b := p.blocks;
    var a, c := MergeFrom(b, i), MergeTo(b, i);
    SpliceLive(b, p.lo, p.hi, a, c, [Merged(b, i)]);
    assert Live([Merged(b, i)]) == {};
    assert Live(b[a..c]) == {b[i]} by {
      assert b[a..c][i - a] == b[i];
      forall x | 0 <= x < c - a ensures b[a..c][x] == b[a + x] {}
    }
  }

  // ---------------------------------------------------------------- canonical form

  lemma {:induction false} CanonicalPrefix(p: Pool, q: Pool, n: nat)
    requires WellFormed(p) && WellFormed(q) && p.lo == q.lo && p.hi == q.hi
    requires Live(p.blocks) == Live(q.blocks)
    requires n <= |p.blocks|
    ensures n <= |q.blocks| && p.blocks[..n] == q.blocks[..n]
  {
    if n > 0 {
      CanonicalPrefix(p, q, n - 1);
      var i := n - 1;
      SameStart(p, q, i);
      if p.blocks[i].free && q.blocks[i].free {
        NoLaterEnd(p, q, i);
        NoLaterEnd(q, p, i);
      } else if !p.blocks[i].free {
        LiveMatches(p, q, i);
      } else {
        LiveMatches(q, p, i);
      }
      assert p.blocks[..n] == p.blocks[..i] + [p.blocks[i]];
      assert q.blocks[..n] == q.blocks[..i] + [q.blocks[i]];
    }
  }

  lemma SameStart(p: Pool, q: Pool, i: nat)
    requires WellFormed(p) && WellFormed(q) && p.lo == q.lo && p.hi == q.hi
    requires i < |p.blocks| && i <= |q.blocks| && p.blocks[..i] == q.blocks[..i]
    ensures i < |q.blocks| && p.blocks[i].start == q.blocks[i].start
  {
    if i > 0 {
      assert p.blocks[i - 1] == p.blocks[..i][i - 1] == q.blocks[..i][i - 1] == q.blocks[i - 1];
      assert p.blocks[i - 1].End() == p.blocks[i].start;
      WithinPool(p.blocks, p.lo, p.hi, i);
      if i < |q.blocks| {
        assert q.blocks[i - 1].End() == q.blocks[i].start;
      }
    }
  }

  lemma LiveMatches(p: Pool, q: Pool, i: nat)
    requires WellFormed(p) && WellFormed(q) && Live(p.blocks) == Live(q.blocks)
    requires i < |p.blocks| && i < |q.blocks| && p.blocks[i].start == q.blocks[i].start
    requires !p.blocks[i].free
    ensures p.blocks[i] == q.blocks[i]
  {
    assert p.blocks[i] in Live(p.blocks);
    assert p.blocks[i] in Live(q.blocks);
    var x :| 0 <= x < |q.blocks| && q.blocks[x] == p.blocks[i];
    StartsUnique(q.blocks, q.lo, q.hi, x, i);
  }

  /** Two free blocks that start together: neither can outlast the other, because the live
      block that stops one is a live block of the other pool too. */
  lemma NoLaterEnd(p: Pool, q: Pool, i: nat)
    requires WellFormed(p) && WellFormed(q) && p.hi == q.hi
    requires Live(p.blocks) == Live(q.blocks)
    requires i < |p.blocks| && i < |q.blocks| && p.blocks[i].start == q.blocks[i].start
    requires p.blocks[i].free && q.blocks[i].free
    ensures p.blocks[i].End() <= q.blocks[i].End()
  {
    WithinPool(p.blocks, p.lo, p.hi, i);
    if i + 1 < |q.blocks| {
      var d := q.blocks[i + 1];
      assert q.blocks[i].End() == d.start && !d.free;
      assert d in Live(q.blocks);
      assert d in Live(p.blocks);
      var x :| 0 <= x < |p.blocks| && p.blocks[x] == d;
      if x < i {
        Ordered(p.blocks, p.lo, p.hi, x, i);
      } else if i < x {
        Ordered(p.blocks, p.lo, p.hi, i, x);
      }
    }
  }

  /** The live blocks alone determine the whole tiling: the free blocks are the maximal gaps
      between them, whatever the history of allocations and frees. */
  lemma Canonical(p: Pool, q: Pool)
    requires WellFormed(p) && WellFormed(q) && p.lo == q.lo && p.hi == q.hi
    requires Live(p.blocks) == Live(q.blocks)
    ensures p.blocks == q.blocks
  {
    CanonicalPrefix(p, q, |p.blocks|);
    CanonicalPrefix(q, p, |q.blocks|);
  }

  /** With nothing live, one free block covers the pool, and it is in the one list it
      belongs in. */
  lemma AllFreed(p: Pool)
    requires WellFormed(p) && Live(p.blocks) == {}
    ensures p.blocks == [Extent(p.lo, p.hi - p.lo, true)]
    ensures forall k :: 0 <= k < LISTS ==>
      p.lists[k] == if k == HomeList(p.untouched, p.hi - p.lo) then [p.lo] else []
  {
    WithinPool(p.blocks, p.lo, p.hi, 0);
    var f := Fresh(p.lo, p.hi);
    FreshWellFormed(p.lo, p.hi);
    Canonical(p, f);
    var h := HomeList(p.untouched, p.hi - p.lo);
    assert p.blocks[0].start == p.lo;
    forall k | 0 <= k < LISTS
      ensures p.lists[k] == if k == h then [p.lo] else []
    {
      assert p.lo in p.lists[k] <==> k == h by {
        assert p.lo in p.lists[k] <==> FreeIn(p.blocks, p.untouched, p.lo, k);
      }
      OnlyMember(p.lists[k], p.lo, k == h) by {
        forall s | s in p.lists[k] ensures s == p.lo {
          assert FreeIn(p.blocks, p.untouched, s, k);
        }
      }
    }
  }

  lemma TwoMembers(l: seq<nat>)
    requires NoDup(l) && |l| > 1
    ensures exists s, t :: s in l && t in l && s != t
  {
    assert l[0] in l && l[1] in l;
  }

  lemma OnlyMember(l: seq<nat>, x: nat, present: bool)
    requires NoDup(l) && (x in l <==> present) && forall s :: s in l ==> s == x
    ensures l == if present then [x] else []
  {
    if |l| > 1 {
      TwoMembers(l);
    } else if |l| == 1 {
      assert l[0] in l;
    }
  }

  // ---------------------------------------------------------------- failure is complete

  ghost predicate FreeLba(b: seq<Extent>, x: nat) {
    exists i :: 0 <= i < |b| && b[i].free && b[i].start <= x < b[i].End()
  }

  ghost predicate FreeRun(b: seq<Extent>, a: nat, n: nat) {
    forall x :: a <= x < a + n ==> FreeLba(b, x)
  }

  ghost predicate HasFreeRun(b: seq<Extent>, n: nat) {
    exists a: nat :: FreeRun(b, a, n)
  }

  lemma FreeGap(p: Pool, i: nat, j: nat)
    requires WellFormed(p) && i < j < |p.blocks| && p.blocks[i].free && p.blocks[j].free
    ensures p.blocks[i].End() < p.blocks[j].start
  {
    Ordered(p.blocks, p.lo, p.hi, i, j);
    if i + 1 < j {
      Ordered(p.blocks, p.lo, p.hi, i, i + 1);
      Ordered(p.blocks, p.lo, p.hi, i + 1, j);
    }
  }

  /** Maximal coalescing: a run of free LBAs never crosses a block boundary. */
  lemma {:induction false} RunInOneBlock(p: Pool, a: nat, n: nat) returns (i: nat)
    requires WellFormed(p) && n > 0 && FreeRun(p.blocks, a, n)
    ensures i < |p.blocks| && p.blocks[i].free
    ensures p.blocks[i].start <= a && a + n <= p.blocks[i].End()
  {
    assert FreeLba(p.blocks, a + n - 1);
    var j :| 0 <= j < |p.blocks| && p.blocks[j].free && p.blocks[j].start <= a + n - 1 < p.blocks[j].End();
    if n == 1 {
      i := j;
    } else {
      i := RunInOneBlock(p, a, n - 1);
      if i < j {
        FreeGap(p, i, j);
      } else if j < i {
        FreeGap(p, j, i);
      }
    }
  }

  lemma BlockIsRun(b: seq<Extent>, i: nat, n: nat)
    requires i < |b| && b[i].free && n <= b[i].len
    ensures HasFreeRun(b, n)
  {
    assert FreeRun(b, b[i].start, n);
  }

  /** The list a free block is in bounds the search from above. */
  lemma ListedBlock(p: Pool, i: nat)
    requires WellFormed(p) && i < |p.blocks| && p.blocks[i].free
    ensures p.lists[HomeList(p.untouched, p.blocks[i].len)] != []
  {
    assert FreeIn(p.blocks, p.untouched, p.blocks[i].start, HomeList(p.untouched, p.blocks[i].len));
  }

  lemma FreeListIndexMonotone(m: nat, n: nat)
    requires m <= n
    ensures FreeListIndex(m) <= FreeListIndex(n)
  {
  }

  /** An allocation that throws leaves no doubt: nowhere in the pool are `n` free LBAs in a row. */
  lemma FailureIsComplete(p: Pool, n: nat)
    requires WellFormed(p) && n > 0 && Allocate(p, n).NoFreeBlock?
    ensures !HasFreeRun(p.blocks, n)
  {
    if a: nat :| FreeRun(p.blocks, a, n) {
      var i := RunInOneBlock(p, a, n);
      ListedBlock(p, i);
      FreeListIndexMonotone(n, p.blocks[i].len);
    }
  }

  /** The exact condition for success, for every request: one more free LBA in a row than the
      size class below the request's holds. The served block is of the smallest adequate class. */
  lemma SucceedsExactly(p: Pool, n: nat)
    requires WellFormed(p) && n > 0
    requires p.untouched ==> p.hi - p.lo > 56
    ensures Allocate(p, n).Allocated? <==> HasFreeRun(p.blocks, 8 * FreeListIndex(n) + 1)
    ensures Allocate(p, n).Allocated? ==>
      forall i :: 0 <= i < |p.blocks| && p.blocks[i].free && FreeListIndex(n) <= FreeListIndex(p.blocks[i].len)
        ==> FreeListIndex(p.blocks[Picked(p, n)].len) <= FreeListIndex(p.blocks[i].len)
  {
    var m := 8 * FreeListIndex(n) + 1;
    if p.untouched { WithinPool(p.blocks, p.lo, p.hi, 0); }
    if Allocate(p, n).Allocated? {
      var i := Picked(p, n);
      assert FreeListIndex(n) <= FreeListIndex(p.blocks[i].len);
      BlockIsRun(p.blocks, i, m);
      forall j | 0 <= j < |p.blocks| && p.blocks[j].free && FreeListIndex(n) <= FreeListIndex(p.blocks[j].len)
        ensures FreeListIndex(p.blocks[i].len) <= FreeListIndex(p.blocks[j].len)
      {
        ListedBlock(p, j);
      }
    }
    if a: nat :| FreeRun(p.blocks, a, m) {
      var i := RunInOneBlock(p, a, m);
      ListedBlock(p, i);
      FreeListIndexMonotone(m, p.blocks[i].len);
    }
  }

  // ---------------------------------------------------------------- allocate, then free

  lemma CarvedNeighbourhood(p: Pool, n: nat)
    requires WellFormed(p) && n > 0 && Allocate(p, n).Allocated?
    ensures var q := Allocate(p, n).pool; var i := Picked(p, n); var mid := Carve(p.blocks[i], n);
            && i < |q.blocks| && q.blocks[i] == Allocate(p, n).block && !q.blocks[i].free
            && MergeFrom(q.blocks, i) == i && MergeTo(q.blocks, i) == i + |mid|
            && Merged(q.blocks, i) == p.blocks[i]
            && FreeIndex(q, i).blocks == p.blocks
  {
    hide Tiling, FreeIn, NoDup;
    var i := Picked(p, n);
    CarvedMerges(p.blocks, i, n);
  }

  /** A block carved from a free one merges with its rest and nothing else. */
  lemma CarvedMerges(b: seq<Extent>, i: nat, n: nat)
    requires i < |b| && b[i].free && Coalesced(b)
    ensures var mid := Carve(b[i], n); var q := Splice(b, i, i + 1, mid);
            && i < |q| && q[i] == mid[0] && MergeFrom(q, i) == i && MergeTo(q, i) == i + |mid| && Merged(q, i) == b[i]
            && Splice(q, i, i + |mid|, [b[i]]) == b
  {
    var mid := Carve(b[i], n);
    var q := Splice(b, i, i + 1, mid);
    CarvedAround(b, i, mid);
    if i > 0 { assert q[i - 1] == b[i - 1]; }
    if i + 1 < |b| { assert q[i + |mid|] == b[i + 1]; }
  }

  lemma CarvedAround(b: seq<Extent>, i: nat, mid: seq<Extent>)
    requires i < |b|
    ensures var q := Splice(b, i, i + 1, mid);
            && |q| == |b| - 1 + |mid| && q[..i] == b[..i] && q[i + |mid|..] == b[i + 1..] && q[i..i + |mid|] == mid
            && Splice(q, i, i + |mid|, [b[i]]) == b
            && (forall x :: 0 <= x < |mid| ==> q[i + x] == mid[x])
  {
    var q := Splice(b, i, i + 1, mid);
    assert b == b[..i] + [b[i]] + b[i + 1..];
    assert q[..i] == b[..i] && q[i + |mid|..] == b[i + 1..];
  }

  /** Unlinking what a split pushed. */
  lemma PushedThenUnlinked(lists: seq<seq<nat>>, k: nat, b: Extent, n: nat)
    requires |lists| == LISTS && k < LISTS && lists[k] != [] && b.len > n
    ensures Unlink(TakenLists(lists, k, b, n), FreeListIndex(b.len - n), b.start + n) == lists[k := lists[k][1..]]
  {
    var popped := lists[k := lists[k][1..]];
    var h := FreeListIndex(b.len - n);
    assert TakenLists(lists, k, b, n)[h] == [b.start + n] + popped[h];
    assert Without([b.start + n] + popped[h], b.start + n) == popped[h];
  }

  lemma CarvedUnlink(p: Pool, n: nat)
    requires WellFormed(p) && n > 0 && Allocate(p, n).Allocated?
    ensures var q := Allocate(p, n).pool; var i := Picked(p, n); var k := PickedList(p, n);
            && i < |q.blocks|
            && UnlinkNeighbours(q, i) == p.lists[k := p.lists[k][1..]]
  {
    hide Tiling, Coalesced, FreeIn, NoDup, Unlink, FreeListIndex;
    CarvedNeighbourhood(p, n);
    var i, k := Picked(p, n), PickedList(p, n);
    var b, q := p.blocks[i], Allocate(p, n).pool;
    if b.len > n {
      assert q.blocks[i + 1] == Carve(b, n)[1];
      PushedThenUnlinked(p.lists, k, b, n);
    }
  }

  /** Freeing the block an allocation just returned restores every extent and every free list,
      in order. Only a pool's very first allocation leaves a trace: the initial block, filed in
      list 7 whatever its size, comes back filed by its size. */
  lemma AllocateThenFree(p: Pool, n: nat)
    requires WellFormed(p) && n > 0 && Allocate(p, n).Allocated?
    ensures var q := Allocate(p, n).pool; var i := Picked(p, n);
            && i < |q.blocks| && q.blocks[i] == Allocate(p, n).block && !q.blocks[i].free
            && FreeIndex(q, i).blocks == p.blocks
            && (!p.untouched ==> FreeIndex(q, i) == p)
            && (p.untouched ==> forall k :: 0 <= k < LISTS ==>
                  FreeIndex(q, i).lists[k] == if k == FreeListIndex(p.hi - p.lo) then [p.lo] else [])
  {
    var i := Picked(p, n);
    var b := p.blocks[i];
    var k := PickedList(p, n);
    var q := Allocate(p, n).pool;
    CarvedNeighbourhood(p, n);
    CarvedUnlink(p, n);
    assert p.lists[k] == [b.start] + p.lists[k][1..];
    if !p.untouched {
      assert Push(p.lists[k := p.lists[k][1..]], k, b.start) == p.lists;
    } else {
      var r := FreeIndex(q, i);
      assert WellFormed(r) by {
        AllocateWellFormed(p, n);
        FreeWellFormed(q, i);
      }
      assert Live(r.blocks) == {};
      AllFreed(r);
    }
  }
}
