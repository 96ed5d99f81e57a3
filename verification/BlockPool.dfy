/** The temporary-block allocator as a value: an address-ordered tiling of the
    pool by extents and eight free lists of extent start addresses. The heap
    structure in BlockManager refines it; the allocator's theorems are stated here. */
module BlockPool {

  const LISTS: nat := 8

  datatype Extent = Extent(start: nat, len: nat, free: bool) {
    function End(): nat { start + len }
  }

  /** `untouched` holds until the first allocation: the initial block is filed in
      list 7 whatever its size. Afterwards every free block is filed by its size. */
  datatype Pool = Pool(lo: nat, hi: nat, blocks: seq<Extent>, lists: seq<seq<nat>>, untouched: bool)

  // ---------------------------------------------------------------- size classes

  function FreeListIndex(lbaCount: nat): (r: nat)
    ensures r < LISTS
    ensures lbaCount > 0 ==> 8 * r < lbaCount
    ensures r < 7 ==> lbaCount <= 8 * r + 8
  {
    if lbaCount <= 8 then 0
    else if lbaCount <= 16 then 1
    else if lbaCount <= 24 then 2
    else if lbaCount <= 32 then 3
    else if lbaCount <= 40 then 4
    else if lbaCount <= 48 then 5
    else if lbaCount <= 56 then 6
    else if lbaCount <= 64 then 7
    else 7
  }

  // ---------------------------------------------------------------- invariant

  ghost predicate Tiling(b: seq<Extent>, lo: nat, hi: nat) {
    && |b| > 0 && b[0].start == lo && b[|b| - 1].End() == hi
    && (forall i :: 0 <= i < |b| ==> b[i].len > 0)
    && (forall i, j :: 0 <= i < |b| && 0 <= j < |b| && j == i + 1 ==> b[i].End() == b[j].start)
  }

  ghost predicate Coalesced(b: seq<Extent>) {
    forall i, j :: 0 <= i < |b| && 0 <= j < |b| && j == i + 1 ==> !(b[i].free && b[j].free)
  }

  function HomeList(untouched: bool, len: nat): (k: nat)
    ensures k < LISTS
  {
    if untouched then 7 else FreeListIndex(len)
  }

  /** A free block of `b` starts at `s` and belongs in list `k`. */
  ghost predicate FreeIn(b: seq<Extent>, untouched: bool, s: nat, k: nat) {
    exists i :: 0 <= i < |b| && b[i].start == s && b[i].free && HomeList(untouched, b[i].len) == k
  }

  ghost predicate NoDup<T>(s: seq<T>) {
    forall i, j :: 0 <= i < j < |s| ==> s[i] != s[j]
  }

  ghost predicate Indexed(b: seq<Extent>, lists: seq<seq<nat>>, untouched: bool) {
    && |lists| == LISTS
    && (forall k :: 0 <= k < LISTS ==> NoDup(lists[k]))
    && (forall k, s :: 0 <= k < LISTS ==> (s in lists[k] <==> FreeIn(b, untouched, s, k)))
  }

  /** The structural invariant: a gapless tiling of the pool by non-empty blocks, no two
      neighbours both free, and each free block in exactly the list it belongs in, once. */
  ghost predicate WellFormed(p: Pool) {
    && p.lo < p.hi
    && Tiling(p.blocks, p.lo, p.hi)
    && Coalesced(p.blocks)
    && Indexed(p.blocks, p.lists, p.untouched)
    && (p.untouched ==> |p.blocks| == 1 && p.blocks[0].free)
  }

  lemma {:induction false} Ordered(b: seq<Extent>, lo: nat, hi: nat, i: nat, j: nat)
    requires Tiling(b, lo, hi)
    requires i < j < |b|
    ensures b[i].End() <= b[j].start
    decreases j
  {
    if j > i + 1 {
      Ordered(b, lo, hi, i, j - 1);
      assert b[j - 1].End() == b[j].start;
    }
  }

  lemma WithinPool(b: seq<Extent>, lo: nat, hi: nat, i: nat)
    requires Tiling(b, lo, hi)
    requires i < |b|
    ensures lo <= b[i].start < b[i].End() <= hi
  {
    if i > 0 {
      Ordered(b, lo, hi, 0, i);
    }
    if i < |b| - 1 {
      Ordered(b, lo, hi, i, |b| - 1);
    }
  }

  lemma StartsUnique(b: seq<Extent>, lo: nat, hi: nat, i: nat, j: nat)
    requires Tiling(b, lo, hi)
    requires i < |b| && j < |b| && b[i].start == b[j].start
    ensures i == j
  {
    if i < j {
      Ordered(b, lo, hi, i, j);
    } else if j < i {
      Ordered(b, lo, hi, j, i);
    }
  }

  // ---------------------------------------------------------------- operations

  ghost predicate HasStart(b: seq<Extent>, s: nat) {
    exists i :: 0 <= i < |b| && b[i].start == s
  }

  ghost function Find(b: seq<Extent>, s: nat): (i: nat)
    requires HasStart(b, s)
    ensures i < |b| && b[i].start == s
  {
    var i :| 0 <= i < |b| && b[i].start == s;
    i
  }

  ghost predicate LiveAt(b: seq<Extent>, s: nat) {
    HasStart(b, s) && !b[Find(b, s)].free
  }

  function Push(lists: seq<seq<nat>>, k: nat, s: nat): seq<seq<nat>>
    requires k < |lists|
  {
    lists[k := [s] + lists[k]]
  }

  function Without(l: seq<nat>, s: nat): seq<nat> {
    if l == [] then [] else if l[0] == s then l[1..] else [l[0]] + Without(l[1..], s)
  }

  function Unlink(lists: seq<seq<nat>>, k: nat, s: nat): seq<seq<nat>>
    requires k < |lists|
  {
    lists[k := Without(lists[k], s)]
  }

  /** First non-empty list at or above `k`; LISTS when there is none. */
  function FirstList(lists: seq<seq<nat>>, k: nat): (r: nat)
    requires k <= |lists| == LISTS
    ensures k <= r <= LISTS
    ensures r < LISTS ==> lists[r] != []
    ensures forall j :: k <= j < r ==> lists[j] == []
    decreases LISTS - k
  {
    if k == LISTS then LISTS else if lists[k] != [] then k else FirstList(lists, k + 1)
  }

  lemma FirstListIs(lists: seq<seq<nat>>, k: nat, r: nat)
    requires k <= r <= |lists| == LISTS
    requires forall j :: k <= j < r ==> lists[j] == []
    requires r < LISTS ==> lists[r] != []
    ensures FirstList(lists, k) == r
    decreases r - k
  {
    if k < r {
      FirstListIs(lists, k + 1, r);
    }
  }

  function Fresh(lo: nat, hi: nat): Pool
    requires lo < hi
  {
    Pool(lo, hi, [Extent(lo, hi - lo, true)], [[], [], [], [], [], [], [], [lo]], true)
  }

  datatype AllocResult = NoFreeBlock | Allocated(pool: Pool, block: Extent)

  /** The list a request is served from; LISTS means failure. */
  function PickedList(p: Pool, n: nat): (k: nat)
    requires |p.lists| == LISTS
    ensures k < LISTS ==> p.lists[k] != []
  {
    FirstList(p.lists, FreeListIndex(n))
  }

  ghost function Picked(p: Pool, n: nat): (i: nat)
    requires WellFormed(p) && PickedList(p, n) < LISTS
    ensures i < |p.blocks| && p.blocks[i].free
    ensures p.blocks[i].start == p.lists[PickedList(p, n)][0]
    ensures HomeList(p.untouched, p.blocks[i].len) == PickedList(p, n)
  {
    var k := PickedList(p, n);
    assert p.lists[k][0] in p.lists[k];
    assert FreeIn(p.blocks, p.untouched, p.lists[k][0], k);
    var i :| 0 <= i < |p.blocks| && p.blocks[i].start == p.lists[k][0]
             && p.blocks[i].free && HomeList(p.untouched, p.blocks[i].len) == k;
    i
  }

  /** What replaces a free block that serves a request of `n`. */
  function Carve(b: Extent, n: nat): (mid: seq<Extent>)
  {
    if b.len > n
    then [Extent(b.start, n, false), Extent(b.start + n, b.len - n, true)]
    else [Extent(b.start, b.len, false)]
  }

  /** The free lists after block `b`, on top of list `k`, has served a request of `n`. */
  function TakenLists(lists: seq<seq<nat>>, k: nat, b: Extent, n: nat): seq<seq<nat>>
    requires |lists| == LISTS && k < LISTS && lists[k] != []
  {
    var popped := lists[k := lists[k][1..]];
    if b.len > n then Push(popped, FreeListIndex(b.len - n), b.start + n) else popped
  }

  ghost function Allocate(p: Pool, n: nat): AllocResult
    requires WellFormed(p) && n > 0
  {
    var k := PickedList(p, n);
    if k == LISTS then NoFreeBlock else
    var i := Picked(p, n);
    var b := p.blocks[i];
    Allocated(Pool(p.lo, p.hi, Splice(p.blocks, i, i + 1, Carve(b, n)), TakenLists(p.lists, k, b, n), false),
              Carve(b, n)[0])
  }

  function Splice<T>(b: seq<T>, i: nat, j: nat, mid: seq<T>): seq<T>
    requires i <= j <= |b|
  {
    b[..i] + mid + b[j..]
  }

  function MergeFrom(b: seq<Extent>, i: nat): (a: nat)
    requires i < |b|
    ensures a <= i
  {
    if i > 0 && b[i - 1].free then i - 1 else i
  }

  function MergeTo(b: seq<Extent>, i: nat): (c: nat)
    requires i < |b|
    ensures i < c <= |b|
  {
    if i + 1 < |b| && b[i + 1].free then i + 2 else i + 1
  }

  function Merged(b: seq<Extent>, i: nat): (m: Extent)
    requires i < |b|
    ensures m.free
  {
    var left := if MergeFrom(b, i) < i then b[i - 1].len else 0;
    var right := if MergeTo(b, i) > i + 1 then b[i + 1].len else 0;
    Extent(b[MergeFrom(b, i)].start, left + b[i].len + right, true)
  }

  function UnlinkNeighbours(p: Pool, i: nat): (lists: seq<seq<nat>>)
    requires i < |p.blocks| && |p.lists| == LISTS
    ensures |lists| == LISTS
  {
    var l1 := if MergeFrom(p.blocks, i) < i
              then Unlink(p.lists, FreeListIndex(p.blocks[i - 1].len), p.blocks[i - 1].start) else p.lists;
    if MergeTo(p.blocks, i) > i + 1
    then Unlink(l1, FreeListIndex(p.blocks[i + 1].len), p.blocks[i + 1].start) else l1
  }

  /** Free the live block at index `i`, merging it with free neighbours on either side. */
  function FreeIndex(p: Pool, i: nat): Pool
    requires i < |p.blocks| && |p.lists| == LISTS
  {
    var m := Merged(p.blocks, i);
    Pool(p.lo, p.hi,
         Splice(p.blocks, MergeFrom(p.blocks, i), MergeTo(p.blocks, i), [m]),
         Push(UnlinkNeighbours(p, i), FreeListIndex(m.len), m.start),
         p.untouched)
  }

  ghost function Free(p: Pool, s: nat): Pool
    requires WellFormed(p) && LiveAt(p.blocks, s)
  {
    FreeIndex(p, Find(p.blocks, s))
  }

  // ---------------------------------------------------------------- invariant preservation

  lemma FreshWellFormed(lo: nat, hi: nat)
    requires lo < hi
    ensures WellFormed(Fresh(lo, hi))
  {
    var p := Fresh(lo, hi);
    assert p.blocks[0].start == lo;
    forall k, s | 0 <= k < LISTS
      ensures s in p.lists[k] <==> FreeIn(p.blocks, true, s, k)
    {
    }
  }

  lemma WithoutProps(l: seq<nat>, s: nat)
    requires NoDup(l)
    ensures NoDup(Without(l, s))
    ensures forall x :: x in Without(l, s) <==> x in l && x != s
  {
    if l != [] {
      assert l == [l[0]] + l[1..];
      if l[0] != s {
        WithoutProps(l[1..], s);
        var w := Without(l[1..], s);
        assert Without(l, s) == [l[0]] + w;
        forall i, j | 0 <= i < j < |w| + 1 ensures ([l[0]] + w)[i] != ([l[0]] + w)[j] {
          assert w[j - 1] in w;
        }
      }
    }
  }

  /** Tiling of a middle segment: it covers exactly the span of blocks `i..j`. */
  ghost predicate Covers(b: seq<Extent>, i: nat, j: nat, mid: seq<Extent>)
    requires i < j <= |b|
  {
    Tiling(mid, b[i].start, b[j - 1].End())
  }

  lemma SpliceTiling(b: seq<Extent>, lo: nat, hi: nat, i: nat, j: nat, mid: seq<Extent>)
    requires Tiling(b, lo, hi)
    requires i < j <= |b| && Covers(b, i, j, mid)
    ensures Tiling(Splice(b, i, j, mid), lo, hi)
  {
    var c := Splice(b, i, j, mid);
    forall x, y | 0 <= x < |c| && 0 <= y < |c| && y == x + 1
      ensures c[x].End() == c[y].start
    {
      if y < i {
        assert c[x] == b[x] && c[y] == b[y];
      } else if y == i {
        assert c[x] == b[x] && c[y] == mid[0];
        assert b[x].End() == b[i].start;
      } else if y < i + |mid| {
        assert c[x] == mid[x - i] && c[y] == mid[y - i];
      } else if y == i + |mid| {
        assert c[x] == mid[|mid| - 1] && c[y] == b[j];
        assert b[j - 1].End() == b[j].start;
      } else {
        var d := j - i - |mid|;
        assert c[x] == b[x + d] && c[y] == b[y + d];
      }
    }
  }

  lemma SpliceFreeFrom(b: seq<Extent>, lo: nat, hi: nat, i: nat, j: nat, mid: seq<Extent>, s: nat, k: nat)
    requires Tiling(b, lo, hi)
    requires i < j <= |b| && Covers(b, i, j, mid)
    requires FreeIn(Splice(b, i, j, mid), false, s, k)
    ensures FreeIn(mid, false, s, k) || (FreeIn(b, false, s, k) && !HasStart(b[i..j], s))
  {
    var c := Splice(b, i, j, mid);
    var x :| 0 <= x < |c| && c[x].start == s && c[x].free && HomeList(false, c[x].len) == k;
    if i <= x < i + |mid| {
      assert c[x] == mid[x - i];
    } else {
      var o := if x < i then x else x + j - i - |mid|;
      assert c[x] == b[o];
      if HasStart(b[i..j], s) {
        var y :| 0 <= y < j - i && b[i..j][y].start == s;
        StartsUnique(b, lo, hi, o, i + y);
      }
    }
  }

  lemma SpliceFreeTo(b: seq<Extent>, i: nat, j: nat, mid: seq<Extent>, s: nat, k: nat)
    requires i < j <= |b|
    requires FreeIn(mid, false, s, k) || (FreeIn(b, false, s, k) && !HasStart(b[i..j], s))
    ensures FreeIn(Splice(b, i, j, mid), false, s, k)
  {
    var c := Splice(b, i, j, mid);
    if FreeIn(mid, false, s, k) {
      var x :| 0 <= x < |mid| && mid[x].start == s && mid[x].free && HomeList(false, mid[x].len) == k;
      assert c[i + x] == mid[x];
    } else {
      var x :| 0 <= x < |b| && b[x].start == s && b[x].free && HomeList(false, b[x].len) == k;
      if i <= x < j {
        SliceStart(b, i, j, x);
      } else {
        var o := if x < i then x else x - (j - i) + |mid|;
        assert c[o] == b[x];
      }
    }
  }

  lemma SliceStart(b: seq<Extent>, i: nat, j: nat, x: nat)
    requires i <= x < j <= |b|
    ensures HasStart(b[i..j], b[x].start)
  {
    assert b[i..j][x - i] == b[x];
  }

  /** Where the free blocks of a spliced sequence come from. */
  lemma SpliceFreeIn(b: seq<Extent>, lo: nat, hi: nat, i: nat, j: nat, mid: seq<Extent>, s: nat, k: nat)
    requires Tiling(b, lo, hi)
    requires i < j <= |b| && Covers(b, i, j, mid)
    ensures FreeIn(Splice(b, i, j, mid), false, s, k) <==>
            FreeIn(mid, false, s, k) || (FreeIn(b, false, s, k) && !HasStart(b[i..j], s))
  {
    hide FreeIn, Tiling, HasStart;
    if FreeIn(Splice(b, i, j, mid), false, s, k) {
      SpliceFreeFrom(b, lo, hi, i, j, mid, s, k);
    }
    if FreeIn(mid, false, s, k) || (FreeIn(b, false, s, k) && !HasStart(b[i..j], s)) {
      SpliceFreeTo(b, i, j, mid, s, k);
    }
  }

  lemma CarveCovers(b: seq<Extent>, i: nat, n: nat)
    requires i < |b| && b[i].len > 0 && n > 0
    ensures Covers(b, i, i + 1, Carve(b[i], n))
  {
  }

  /** Away from a given free block, the lists are those of the sizes even before the first
      allocation, when that block is the only one. */
  lemma ListedElsewhere(p: Pool, i: nat, s: nat, k: nat)
    requires WellFormed(p) && i < |p.blocks| && p.blocks[i].free && k < LISTS && s != p.blocks[i].start
    ensures s in p.lists[k] <==> FreeIn(p.blocks, false, s, k)
  {
    assert s in p.lists[k] <==> FreeIn(p.blocks, p.untouched, s, k);
  }

  lemma SpliceOneFreeIn(b: seq<Extent>, lo: nat, hi: nat, i: nat, mid: seq<Extent>, s: nat, k: nat)
    requires Tiling(b, lo, hi)
    requires i < |b| && Covers(b, i, i + 1, mid)
    ensures FreeIn(Splice(b, i, i + 1, mid), false, s, k) <==>
            FreeIn(mid, false, s, k) || (FreeIn(b, false, s, k) && s != b[i].start)
  {
    SpliceFreeIn(b, lo, hi, i, i + 1, mid, s, k);
    assert b[i..i + 1] == [b[i]];
    assert HasStart([b[i]], s) <==> s == b[i].start by { assert [b[i]][0] == b[i]; }
  }

  lemma AllocateIndexed(p: Pool, n: nat, k: nat, s: nat)
    requires WellFormed(p) && n > 0 && Allocate(p, n).Allocated? && k < LISTS
    ensures var q := Allocate(p, n).pool; s in q.lists[k] <==> FreeIn(q.blocks, false, s, k)
  {
    var i := Picked(p, n);
    var b := p.blocks[i];
    CarveCovers(p.blocks, i, n);
    SpliceOneFreeIn(p.blocks, p.lo, p.hi, i, Carve(b, n), s, k);
    if s != b.start {
      ListedElsewhere(p, i, s, k);
    }
    CarveFreeIn(b, n, s, k);
    PoppedIn(p, PickedList(p, n), k, s);
  }

  lemma AllocateNoDup(p: Pool, n: nat, k: nat)
    requires WellFormed(p) && n > 0 && Allocate(p, n).Allocated? && k < LISTS
    ensures NoDup(Allocate(p, n).pool.lists[k])
  {
    var i := Picked(p, n);
    var b := p.blocks[i];
    var h := PickedList(p, n);
    var popped := p.lists[h := p.lists[h][1..]];
    assert NoDup(popped[k]);
    if b.len > n && k == FreeListIndex(b.len - n) {
      FreshStart(p, i, n, k);
      assert b.start + n !in popped[k];
    }
  }

  /** Allocation keeps the structural invariant. */
  lemma AllocateWellFormed(p: Pool, n: nat)
    requires WellFormed(p) && n > 0 && Allocate(p, n).Allocated?
    ensures WellFormed(Allocate(p, n).pool)
  {
    var q := Allocate(p, n).pool;
    var i := Picked(p, n);
    CarveCovers(p.blocks, i, n);
    SpliceTiling(p.blocks, p.lo, p.hi, i, i + 1, Carve(p.blocks[i], n));
    AllocateCoalesced(p, n);
    forall k, s | 0 <= k < LISTS
      ensures s in q.lists[k] <==> FreeIn(q.blocks, false, s, k)
    {
      AllocateIndexed(p, n, k, s);
    }
    forall k | 0 <= k < LISTS ensures NoDup(q.lists[k]) {
      AllocateNoDup(p, n, k);
    }
  }

  lemma PoppedIn(p: Pool, k: nat, k': nat, s: nat)
    requires WellFormed(p) && k < LISTS && k' < LISTS && p.lists[k] != []
    ensures s in p.lists[k := p.lists[k][1..]][k'] <==> s in p.lists[k'] && s != p.lists[k][0]
  {
    var head := p.lists[k][0];
    assert p.lists[k] == [head] + p.lists[k][1..];
    if k' != k && s == head && s in p.lists[k'] {
      assert FreeIn(p.blocks, p.untouched, s, k) && FreeIn(p.blocks, p.untouched, s, k');
      OneHome(p, s, k, k');
    }
  }

  /** No block is in two lists. */
  lemma OneHome(p: Pool, s: nat, k: nat, k': nat)
    requires Tiling(p.blocks, p.lo, p.hi)
    requires FreeIn(p.blocks, p.untouched, s, k) && FreeIn(p.blocks, p.untouched, s, k')
    ensures k == k'
  {
    var b := p.blocks;
    var x :| 0 <= x < |b| && b[x].start == s && b[x].free && HomeList(p.untouched, b[x].len) == k;
    var y :| 0 <= y < |b| && b[y].start == s && b[y].free && HomeList(p.untouched, b[y].len) == k';
    StartsUnique(b, p.lo, p.hi, x, y);
  }

  lemma CarveFreeIn(b: Extent, n: nat, s: nat, k: nat)
    requires b.len > 0 && n > 0
    ensures FreeIn(Carve(b, n), false, s, k) <==>
            b.len > n && s == b.start + n && k == FreeListIndex(b.len - n)
  {
    if b.len > n {
      assert Carve(b, n)[1] == Extent(b.start + n, b.len - n, true);
    }
  }

  /** The remainder's start address is not yet in any list. */
  lemma FreshStart(p: Pool, i: nat, n: nat, k: nat)
    requires WellFormed(p) && i < |p.blocks| && 0 < n < p.blocks[i].len && k < LISTS
    ensures p.blocks[i].start + n !in p.lists[k]
  {
    var s := p.blocks[i].start + n;
    if s in p.lists[k] {
      assert FreeIn(p.blocks, p.untouched, s, k);
      var x :| 0 <= x < |p.blocks| && p.blocks[x].start == s;
      if x < i { Ordered(p.blocks, p.lo, p.hi, x, i); WithinPool(p.blocks, p.lo, p.hi, x); }
      if i < x { Ordered(p.blocks, p.lo, p.hi, i, x); }
    }
  }

  lemma AllocateCoalesced(p: Pool, n: nat)
    requires WellFormed(p) && n > 0 && Allocate(p, n).Allocated?
    ensures Coalesced(Allocate(p, n).pool.blocks)
  {
    var i := Picked(p, n);
    var mid := Carve(p.blocks[i], n);
    var c := Splice(p.blocks, i, i + 1, mid);
    forall x, y | 0 <= x < |c| && 0 <= y < |c| && y == x + 1
      ensures !(c[x].free && c[y].free)
    {
      if y < i {
        assert c[x] == p.blocks[x] && c[y] == p.blocks[y];
      } else if x == i + |mid| - 1 {
        assert c[y] == p.blocks[i + 1];
      } else if x >= i + |mid| {
        assert c[x] == p.blocks[x + 1 - |mid|] && c[y] == p.blocks[y + 1 - |mid|];
      }
    }
  }

  lemma MergedCovers(p: Pool, i: nat)
    requires WellFormed(p) && i < |p.blocks|
    ensures Covers(p.blocks, MergeFrom(p.blocks, i), MergeTo(p.blocks, i), [Merged(p.blocks, i)])
  {
    var b := p.blocks;
    if i > 0 { assert b[i - 1].End() == b[i].start; }
    if i + 1 < |b| { assert b[i].End() == b[i + 1].start; }
  }

  lemma FreeCoalesced(p: Pool, i: nat)
    requires WellFormed(p) && i < |p.blocks| && !p.blocks[i].free
    ensures Coalesced(FreeIndex(p, i).blocks)
  {
    var b := p.blocks;
    var a, c := MergeFrom(b, i), MergeTo(b, i);
    var q := FreeIndex(p, i).blocks;
    forall x, y | 0 <= x < |q| && 0 <= y < |q| && y == x + 1
      ensures !(q[x].free && q[y].free)
    {
      if y < a {
        assert q[x] == b[x] && q[y] == b[y];
      } else if y == a {
        assert q[x] == b[a - 1];
      } else if x == a {
        assert q[y] == b[c];
      } else {
        assert q[x] == b[x + c - a - 1] && q[y] == b[y + c - a - 1];
      }
    }
  }

  lemma MergedStarts(b: seq<Extent>, i: nat, s: nat)
    requires i < |b|
    ensures var a, c := MergeFrom(b, i), MergeTo(b, i);
            HasStart(b[a..c], s) <==>
              (a < i && s == b[i - 1].start) || s == b[i].start || (c > i + 1 && s == b[i + 1].start)
  {
    var a, c := MergeFrom(b, i), MergeTo(b, i);
    if a < i { assert b[a..c][0] == b[i - 1]; }
    assert b[a..c][i - a] == b[i];
    if c > i + 1 { assert b[a..c][i + 1 - a] == b[i + 1]; }
  }

  lemma LiveUnlisted(p: Pool, i: nat, k: nat)
    requires WellFormed(p) && i < |p.blocks| && !p.blocks[i].free && k < LISTS
    ensures p.blocks[i].start !in p.lists[k]
  {
    if p.blocks[i].start in p.lists[k] {
      assert FreeIn(p.blocks, p.untouched, p.blocks[i].start, k);
      var x :| 0 <= x < |p.blocks| && p.blocks[x].start == p.blocks[i].start && p.blocks[x].free;
      StartsUnique(p.blocks, p.lo, p.hi, x, i);
    }
  }

  /** Which starts the merge takes out of the lists. */
  lemma UnlinkedIn(p: Pool, i: nat, k: nat, s: nat)
    requires WellFormed(p) && i < |p.blocks| && !p.blocks[i].free && k < LISTS
    ensures s in UnlinkNeighbours(p, i)[k] <==>
            s in p.lists[k] && !HasStart(p.blocks[MergeFrom(p.blocks, i)..MergeTo(p.blocks, i)], s)
    ensures NoDup(UnlinkNeighbours(p, i)[k])
  {
    var b := p.blocks;
    var a, c := MergeFrom(b, i), MergeTo(b, i);
    if a < i { NeighbourListed(p, i - 1); }
    if c > i + 1 { NeighbourListed(p, i + 1); }
    LiveUnlisted(p, i, k);
    MergedStarts(b, i, s);
    assert forall h :: 0 <= h < LISTS ==> NoDup(p.lists[h]);
    hide HasStart, WellFormed, NoDup;
    var l1 := if a < i then Unlink(p.lists, FreeListIndex(b[i - 1].len), b[i - 1].start) else p.lists;
    if a < i { WithoutProps(p.lists[FreeListIndex(b[i - 1].len)], b[i - 1].start); }
    if c > i + 1 { WithoutProps(l1[FreeListIndex(b[i + 1].len)], b[i + 1].start); }
  }

  /** A free block beside a live one is in the list of its size, and in no other. */
  lemma NeighbourListed(p: Pool, x: nat)
    requires WellFormed(p) && !p.untouched && x < |p.blocks| && p.blocks[x].free
    ensures forall k :: 0 <= k < LISTS ==>
      (p.blocks[x].start in p.lists[k] <==> k == FreeListIndex(p.blocks[x].len))
  {
    var b := p.blocks;
    var h := FreeListIndex(b[x].len);
    assert FreeIn(b, p.untouched, b[x].start, h);
    forall k | 0 <= k < LISTS && b[x].start in p.lists[k] ensures k == h {
      OneHome(p, b[x].start, h, k);
    }
  }

  /** Freeing keeps the structural invariant. */
  lemma FreeWellFormed(p: Pool, i: nat)
    requires WellFormed(p) && i < |p.blocks| && !p.blocks[i].free
    ensures WellFormed(FreeIndex(p, i))
  {
    var b := p.blocks;
    var a, c := MergeFrom(b, i), MergeTo(b, i);
    var m := Merged(b, i);
    var q := FreeIndex(p, i);
    MergedCovers(p, i);
    SpliceTiling(b, p.lo, p.hi, a, c, [m]);
    FreeCoalesced(p, i);
    forall k, s | 0 <= k < LISTS
      ensures s in q.lists[k] <==> FreeIn(q.blocks, false, s, k)
    {
      UnlinkedIn(p, i, k, s);
      SpliceFreeIn(b, p.lo, p.hi, a, c, [m], s, k);
      assert FreeIn([m], false, s, k) <==> s == m.start && k == FreeListIndex(m.len) by {
        assert [m][0] == m;
      }
    }
    forall k | 0 <= k < LISTS ensures NoDup(q.lists[k]) {
      UnlinkedIn(p, i, k, m.start);
      assert b[a..c][0].start == m.start;
    }
  }
}
