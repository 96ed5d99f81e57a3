/** The allocator as the source builds it: TemporaryBlock nodes in one address-ordered doubly
    linked list and in eight doubly linked free lists, changed by pointer surgery. Each public
    method is proved to do to the abstract pool what BlockPool says. */
module BlockManager {
  import opened BlockPool

  class TemporaryBlock {
    var startLba: nat
    var lbaCount: nat
    var isFree: bool
    var nextBlock: TemporaryBlock?
    var previousBlock: TemporaryBlock?
    var nextFreeBlock: TemporaryBlock?
    var previousFreeBlock: TemporaryBlock?
    ghost var home: int  // the free list this block is in, or -1

    constructor (startLba: nat, lbaCount: nat)
      ensures this.startLba == startLba && this.lbaCount == lbaCount && !isFree
      ensures nextBlock == null && previousBlock == null
      ensures nextFreeBlock == null && previousFreeBlock == null && home == -1
    {
      this.startLba, this.lbaCount, isFree := startLba, lbaCount, false;
      nextBlock, previousBlock, nextFreeBlock, previousFreeBlock := null, null, null, null;
      home := -1;
    }
  }

  ghost function At(s: seq<TemporaryBlock>, i: int): TemporaryBlock? {
    if 0 <= i < |s| then s[i] else null
  }

  ghost predicate Distinct(s: seq<TemporaryBlock>) {
    forall i, j :: 0 <= i < |s| && 0 <= j < |s| && s[i] == s[j] ==> i == j
  }

  lemma DistinctCons(b: TemporaryBlock, s: seq<TemporaryBlock>)
    requires Distinct(s) && b !in s
    ensures Distinct([b] + s)
  {
  }

  lemma DistinctDrop(s: seq<TemporaryBlock>, j: nat)
    requires Distinct(s) && j < |s|
    ensures Distinct(s[..j] + s[j + 1..])
    ensures s[j] !in s[..j] + s[j + 1..]
  {
    var m := s[..j] + s[j + 1..];
    assert forall x :: 0 <= x < |m| ==> m[x] == s[if x < j then x else x + 1];
  }

  lemma InsertedSplice<T>(s: seq<T>, i: nat, e: T)
    requires i < |s|
    ensures s[..i] + [e] + s[i..] == Splice(s, i, i + 1, [e, s[i]])
    ensures (s[..i] + [e] + s[i..])[i] == e
  {
  }

  /** Dropping the element before index `i`, the one after it, or both. */
  lemma DropAround<T>(s: seq<T>, i: nat)
    requires i < |s|
    ensures Splice(s, i, i + 1, [s[i]]) == s
    ensures i > 0 ==> s[..i - 1] + s[i..] == Splice(s, i - 1, i + 1, [s[i]]) && (s[..i - 1] + s[i..])[i - 1] == s[i]
    ensures i + 1 < |s| ==> s[..i + 1] + s[i + 2..] == Splice(s, i, i + 2, [s[i]])
    ensures 0 < i && i + 1 < |s| ==>
      var t := s[..i - 1] + s[i..];
      t[i] == s[i + 1] && t[..i] + t[i + 1..] == Splice(s, i - 1, i + 2, [s[i]])
  {
  }

  /** A merge does not look at the freed block's own flag. */
  lemma SameMerge(p: Pool, q: Pool, i: nat)
    requires i < |p.blocks| == |q.blocks| && p.lists == q.lists && |p.lists| == LISTS
    requires forall x :: 0 <= x < |p.blocks| && x != i ==> p.blocks[x] == q.blocks[x]
    requires p.blocks[i].start == q.blocks[i].start && p.blocks[i].len == q.blocks[i].len
    ensures MergeFrom(q.blocks, i) == MergeFrom(p.blocks, i) && MergeTo(q.blocks, i) == MergeTo(p.blocks, i)
    ensures Merged(q.blocks, i) == Merged(p.blocks, i) && UnlinkNeighbours(q, i) == UnlinkNeighbours(p, i)
  {
  }

  lemma SpliceMembers<T>(s: seq<T>, a: nat, c: nat, mid: seq<T>)
    requires a <= c <= |s|
    ensures forall x :: x in Splice(s, a, c, mid) ==> x in s || x in mid
    ensures forall i :: 0 <= i < |s| && !(a <= i < c) ==> s[i] in Splice(s, a, c, mid)
  {
    var q := Splice(s, a, c, mid);
    forall i | 0 <= i < |s| && !(a <= i < c) ensures s[i] in q {
      assert q[if i < a then i else i - c + a + |mid|] == s[i];
    }
  }

  lemma MergeCases(p: Pool, i: nat)
    requires i < |p.blocks| && |p.lists| == LISTS
    ensures var b := p.blocks; var left := i > 0 && b[i - 1].free; var right := i + 1 < |b| && b[i + 1].free;
            && MergeFrom(b, i) == (if left then i - 1 else i)
            && MergeTo(b, i) == (if right then i + 2 else i + 1)
            && Merged(b, i).start == (if left then b[i - 1].start else b[i].start)
            && Merged(b, i).len == (if left then b[i - 1].len else 0) + b[i].len + (if right then b[i + 1].len else 0)
            && var l := if left then Unlink(p.lists, FreeListIndex(b[i - 1].len), b[i - 1].start) else p.lists;
            && UnlinkNeighbours(p, i) == if right then Unlink(l, FreeListIndex(b[i + 1].len), b[i + 1].start) else l
  {
  }

  lemma {:induction false} WithoutAt(l: seq<nat>, j: nat)
    requires NoDup(l) && j < |l|
    ensures Without(l, l[j]) == l[..j] + l[j + 1..]
  {
    if j > 0 {
      var t := l[1..];
      assert NoDup(t) && l[0] != l[j] && t[j - 1] == l[j];
      WithoutAt(t, j - 1);
      assert t[..j - 1] == l[1..j] && t[j..] == l[j + 1..];
      assert l[..j] == [l[0]] + l[1..j];
      assert Without(l, l[j]) == [l[0]] + Without(t, l[j]);
    }
  }

  ghost function ExtentOf(b: TemporaryBlock): Extent
    reads b
  {
    Extent(b.startLba, b.lbaCount, b.isFree)
  }

  ghost function ExtentsOf(s: seq<TemporaryBlock>): (e: seq<Extent>)
    reads s
    ensures |e| == |s| && forall i :: 0 <= i < |s| ==> e[i] == ExtentOf(s[i])
  {
    seq(|s|, i requires 0 <= i < |s| reads s => ExtentOf(s[i]))
  }

  ghost function StartsOf(s: seq<TemporaryBlock>): (e: seq<nat>)
    reads s
    ensures |e| == |s| && forall i :: 0 <= i < |s| ==> e[i] == s[i].startLba
  {
    seq(|s|, i requires 0 <= i < |s| reads s => s[i].startLba)
  }

  lemma ExtentsConcat(a: seq<TemporaryBlock>, b: seq<TemporaryBlock>, c: seq<TemporaryBlock>)
    ensures ExtentsOf(a + b + c) == ExtentsOf(a) + ExtentsOf(b) + ExtentsOf(c)
  {
  }

  /** All blocks but the one at an index. */
  datatype Others = Others(whole: seq<TemporaryBlock>, index: nat)

  twostate lemma SameExtents(o: Others)
    requires o.index < |o.whole|
    requires forall x :: 0 <= x < |o.whole| && x != o.index ==> ExtentOf(o.whole[x]) == old(ExtentOf(o.whole[x]))
    ensures ExtentsOf(o.whole[..o.index]) == old(ExtentsOf(o.whole))[..o.index]
    ensures ExtentsOf(o.whole[o.index + 1..]) == old(ExtentsOf(o.whole))[o.index + 1..]
  {
  }

  /** One free list: nodes linked both ways from `head`, each marked as being in list `k`. */
  ghost predicate Chain(s: seq<TemporaryBlock>, head: TemporaryBlock?, k: int)
    reads s`home, s`previousFreeBlock, s`nextFreeBlock
  {
    && head == At(s, 0) && Distinct(s)
    && (forall j :: 0 <= j < |s| ==> s[j].home == k)
    && (s != [] ==> s[0].previousFreeBlock == null && s[|s| - 1].nextFreeBlock == null)
    && forall i, j :: 0 <= i < |s| && 0 <= j < |s| && j == i + 1 ==>
         s[i].nextFreeBlock == s[j] && s[j].previousFreeBlock == s[i]
  }

  ghost predicate Filed(b: TemporaryBlock, lists: seq<seq<TemporaryBlock>>)
    reads b`home, b`previousFreeBlock, b`nextFreeBlock
  {
    if b.home == -1 then b.previousFreeBlock == null && b.nextFreeBlock == null
    else 0 <= b.home < |lists| && b in lists[b.home]
  }

  /** A position in a free list. */
  datatype Place = Place(list: nat, index: nat)

  /** A request of `count` LBAs served from the block at `index`. */
  datatype Request = Request(index: nat, count: nat)

  datatype BlockResult = Block(block: TemporaryBlock) | NoBlock

  class NvmeTemporaryBlockManager {
    var blocks: TemporaryBlock?
    var blocksFree: seq<TemporaryBlock?>
    const allocatedStartLba: nat
    const allocatedEndLba: nat
    var activeTempBytes: int
    var peakTempBytes: int

    ghost var nodes: set<TemporaryBlock>        // every node made so far, merged ones included
    ghost var order: seq<TemporaryBlock>        // all blocks, by address
    ghost var lists: seq<seq<TemporaryBlock>>   // the free lists, top first
    ghost var untouched: bool

    ghost predicate AddressLinks()
      reads `order, `blocks, order`nextBlock, order`previousBlock
    {
      && |order| > 0 && blocks == order[0] && Distinct(order)
      && order[0].previousBlock == null && order[|order| - 1].nextBlock == null
      && forall i, j :: 0 <= i < |order| && 0 <= j < |order| && j == i + 1 ==>
           order[i].nextBlock == order[j] && order[j].previousBlock == order[i]
    }

    ghost predicate FreeLinks()
      reads `nodes, `lists, `blocksFree, nodes`home, nodes`previousFreeBlock, nodes`nextFreeBlock
    {
      && |lists| == LISTS == |blocksFree|
      && (forall k, j :: 0 <= k < LISTS && 0 <= j < |lists[k]| ==> lists[k][j] in nodes)
      && (forall k :: 0 <= k < LISTS ==> Chain(lists[k], blocksFree[k], k))
      && (forall b :: b in nodes ==> Filed(b, lists))
    }

    ghost function ListStartsAt(k: nat): seq<nat>
      requires FreeLinks() && k < LISTS
      reads this, nodes
    {
      StartsOf(lists[k])
    }

    ghost function ListStarts(): (l: seq<seq<nat>>)
      requires FreeLinks()
      reads this, nodes
      ensures |l| == LISTS && forall k :: 0 <= k < LISTS ==> l[k] == ListStartsAt(k)
    {
      seq(LISTS, k requires 0 <= k < LISTS && FreeLinks() reads this, nodes => ListStartsAt(k))
    }

    ghost predicate Linked()
      reads this, nodes
    {
      (forall i :: 0 <= i < |order| ==> order[i] in nodes) && AddressLinks() && FreeLinks()
    }

    /** The pool this structure represents. */
    ghost function Abs(): Pool
      requires Linked()
      reads this, nodes
    {
      Pool(allocatedStartLba, allocatedEndLba, ExtentsOf(order), ListStarts(), untouched)
    }

    ghost predicate Valid()
      reads this, nodes
    {
      Linked() && WellFormed(Abs()) && forall b :: b in order ==> (b.home == -1 <==> !b.isFree)
    }

    constructor (allocatedLbaStart: nat, allocatedLbaEnd: nat)
      requires allocatedLbaStart < allocatedLbaEnd
      ensures Valid() && Abs() == Fresh(allocatedLbaStart, allocatedLbaEnd)
      ensures activeTempBytes == 0 && peakTempBytes == 0
      ensures fresh(nodes)
    {
      allocatedStartLba, allocatedEndLba := allocatedLbaStart, allocatedLbaEnd;
      activeTempBytes, peakTempBytes := 0, 0;
      var b := new TemporaryBlock(allocatedLbaStart, allocatedLbaEnd - allocatedLbaStart);
      b.isFree := true;
      b.home := 7;
      blocks := b;
      blocksFree := [null, null, null, null, null, null, null, b];
      order, nodes := [b], {b};
      lists := [[], [], [], [], [], [], [], [b]];
      untouched := true;
      new;
      FreshStructure();
    }

    lemma FreshStructure()
      requires allocatedStartLba < allocatedEndLba && untouched
      requires |order| == 1 && blocks == order[0] && nodes == {order[0]} && lists == [[], [], [], [], [], [], [], order]
      requires blocksFree == [null, null, null, null, null, null, null, order[0]]
      requires var b := order[0];
               && b.startLba == allocatedStartLba && b.lbaCount == allocatedEndLba - allocatedStartLba && b.isFree
               && b.nextBlock == null && b.previousBlock == null
               && b.nextFreeBlock == null && b.previousFreeBlock == null && b.home == 7
      ensures Valid() && Abs() == Fresh(allocatedStartLba, allocatedEndLba)
    {
      hide WellFormed;
      assert order[0] in order;
      assert FreeLinks() by {
        forall k | 0 <= k < LISTS ensures Chain(lists[k], blocksFree[k], k) {}
      }
      assert Abs() == Fresh(allocatedStartLba, allocatedEndLba) by {
        assert ListStartsAt(7) == [allocatedStartLba];
        assert forall k :: 0 <= k < 7 ==> ListStartsAt(k) == [];
        assert ListStarts() == Fresh(allocatedStartLba, allocatedEndLba).lists;
      }
      FreshWellFormed(allocatedStartLba, allocatedEndLba);
    }

    /** One free list was relinked and the nodes of the others left alone. */
    twostate lemma OneListChanged(k: nat)
      requires old(FreeLinks()) && nodes == old(nodes) && k < LISTS
      requires |lists| == LISTS == |blocksFree|
      requires lists == old(lists)[k := lists[k]] && blocksFree == old(blocksFree)[k := blocksFree[k]]
      requires forall j :: 0 <= j < |lists[k]| ==> lists[k][j] in nodes
      requires Chain(lists[k], blocksFree[k], k)
      requires forall b :: b in nodes && (old(b.home) == k || old(b.home) == -1) ==>
        || (b.home == -1 && b.previousFreeBlock == null && b.nextFreeBlock == null)
        || (b.home == k && b in lists[k])
      requires forall b :: b in nodes && old(b.home) != k && old(b.home) != -1 ==> SameLinks(b)
      ensures FreeLinks()
    {
      forall i | 0 <= i < LISTS && i != k ensures Chain(lists[i], blocksFree[i], i) {
        assert old(Chain(lists[i], blocksFree[i], i));
        assert forall j :: 0 <= j < |lists[i]| ==> SameLinks(lists[i][j]);
      }
      forall b | b in nodes ensures Filed(b, lists) {
        assert old(Filed(b, lists));
      }
    }

    twostate predicate SameLinks(b: TemporaryBlock)
      reads b
    {
      b.home == old(b.home) && b.previousFreeBlock == old(b.previousFreeBlock)
        && b.nextFreeBlock == old(b.nextFreeBlock)
    }

    twostate lemma PushedChain(k: nat)
      requires |lists| == |old(lists)| == LISTS && k < LISTS && lists[k] != [] && lists[k][1..] == old(lists)[k]
      requires old(Chain(lists[k], At(lists[k], 0), k)) && lists[k][0] !in lists[k][1..]
      requires var b := lists[k][0];
               b.home == k && b.previousFreeBlock == null && b.nextFreeBlock == At(old(lists)[k], 0)
      requires forall j :: 0 <= j < |old(lists)[k]| ==>
        old(lists)[k][j].home == k && old(lists)[k][j].nextFreeBlock == old(lists[k][j].nextFreeBlock)
      requires forall j :: 0 < j < |old(lists)[k]| ==>
        old(lists)[k][j].previousFreeBlock == old(lists[k][j].previousFreeBlock)
      requires old(lists)[k] != [] ==> old(lists)[k][0].previousFreeBlock == lists[k][0]
      ensures Chain(lists[k], lists[k][0], k)
    {
      var m, l := lists[k], old(lists)[k];
      DistinctCons(m[0], l);
      assert m == [m[0]] + l;
      assert forall j :: 0 < j < |m| ==> m[j] == l[j - 1];
    }

    /** A node was taken out of a free list and its neighbours linked to each other. */
    twostate lemma RemovedChain(at: Place)
      requires |lists| == |old(lists)| == LISTS && at.list < LISTS && at.index < |old(lists)[at.list]|
      requires old(Chain(lists[at.list], At(lists[at.list], 0), at.list))
      requires var l := old(lists)[at.list]; lists[at.list] == l[..at.index] + l[at.index + 1..]
      requires var l := old(lists)[at.list];
               forall x :: 0 <= x < |l| && x != at.index ==> l[x].home == at.list
      requires var l := old(lists)[at.list];
               forall x :: 0 <= x < |l| && x != at.index && x != at.index + 1 ==>
                 l[x].previousFreeBlock == old(l[x].previousFreeBlock)
      requires var l := old(lists)[at.list];
               forall x :: 0 <= x < |l| && x != at.index && x != at.index - 1 ==>
                 l[x].nextFreeBlock == old(l[x].nextFreeBlock)
      requires var l := old(lists)[at.list];
               at.index + 1 < |l| ==> l[at.index + 1].previousFreeBlock == At(l, at.index - 1)
      requires var l := old(lists)[at.list];
               at.index > 0 ==> l[at.index - 1].nextFreeBlock == At(l, at.index + 1)
      ensures Chain(lists[at.list], At(lists[at.list], 0), at.list)
    {
      var k, j := at.list, at.index;
      var m, l := lists[k], old(lists)[k];
      assert Distinct(m) by { DistinctDrop(l, j); }
      hide Distinct;
      forall x | 0 <= x < |m| ensures m[x] == l[if x < j then x else x + 1] {}
      forall x, y | 0 <= x < |m| && 0 <= y < |m| && y == x + 1
        ensures m[x].nextFreeBlock == m[y] && m[y].previousFreeBlock == m[x]
      {
      }
    }

    /** What linking `block` on top of list `k` changes. */
    twostate predicate Pushed(k: nat)
      reads this, nodes
    {
      && nodes == old(nodes) && k < LISTS && |old(lists)| == LISTS == |old(blocksFree)| && |lists| == LISTS
      && lists[k] != []
      && var b, l := lists[k][0], old(lists[k]);
      && b in nodes && lists == old(lists)[k := [b] + l] && blocksFree == old(blocksFree)[k := b]
      && b.home == k && b.previousFreeBlock == null && b.nextFreeBlock == At(l, 0)
      && (l != [] && l[0] in nodes ==> l[0].previousFreeBlock == b)
      && (forall x :: x in nodes && x != b ==> x.home == old(x.home) && x.nextFreeBlock == old(x.nextFreeBlock))
      && (forall x :: x in nodes && x != b && x != At(l, 0) ==> x.previousFreeBlock == old(x.previousFreeBlock))
    }

    /** What unlinking the node at a place changes. */
    twostate predicate Unlinked(at: Place)
      reads this, nodes
    {
      && nodes == old(nodes) && at.list < LISTS && |old(lists)| == LISTS == |old(blocksFree)|
      && at.index < |old(lists[at.list])|
      && var k, j, l := at.list, at.index, old(lists[at.list]);
      && lists == old(lists)[k := l[..j] + l[j + 1..]]
      && blocksFree == old(blocksFree)[k := if j == 0 then At(l, 1) else old(blocksFree)[k]]
      && l[j] in nodes && l[j].home == -1 && l[j].previousFreeBlock == null && l[j].nextFreeBlock == null
      && (j + 1 < |l| && l[j + 1] in nodes ==> l[j + 1].previousFreeBlock == At(l, j - 1))
      && (j > 0 && l[j - 1] in nodes ==> l[j - 1].nextFreeBlock == At(l, j + 1))
      && (forall x :: x in nodes && x != l[j] ==> x.home == old(x.home))
      && (forall x :: x in nodes && x != l[j] && x != At(l, j + 1) ==> x.previousFreeBlock == old(x.previousFreeBlock))
      && (forall x :: x in nodes && x != l[j] && x != At(l, j - 1) ==> x.nextFreeBlock == old(x.nextFreeBlock))
    }

    twostate lemma PushedLinks(k: nat)
      requires old(FreeLinks()) && Pushed(k)
      requires var b := lists[k][0]; old(b.home) == -1
      ensures FreeLinks()
    {
      OldListFacts(k);
      hide FreeLinks, Filed;
      PushedChain(k);
      OneListChanged(k);
    }

    twostate lemma UnlinkedLinks(at: Place)
      requires old(FreeLinks()) && Unlinked(at)
      ensures FreeLinks()
    {
      OldListFacts(at.list);
      hide FreeLinks, Filed;
      RemovedChain(at);
      OneListChanged(at.list);
    }

    /** The facts about list `k` of the earlier state. */
    twostate lemma OldListFacts(k: nat)
      requires old(FreeLinks()) && k < LISTS
      ensures |old(lists)| == LISTS == |old(blocksFree)|
      ensures old(Chain(lists[k], At(lists[k], 0), k)) && old(blocksFree)[k] == At(old(lists)[k], 0)
      ensures forall j :: 0 <= j < |old(lists)[k]| ==> old(lists)[k][j] in old(nodes) && old(lists[k][j].home) == k
      ensures forall b :: b in old(nodes) && old(b.home) == k ==> b in old(lists)[k]
      ensures forall b :: b in old(nodes) && old(b.home) == -1 ==>
        old(b.previousFreeBlock) == null && old(b.nextFreeBlock) == null && b !in old(lists)[k]
    {
      assert old(Chain(lists[k], blocksFree[k], k));
      forall b | b in old(nodes) ensures old(Filed(b, lists)) {}
    }

    /** The nodes around a place, and what they hold. */
    lemma NodeFacts(k: nat, j: nat)
      requires FreeLinks() && k < LISTS && j < |lists[k]|
      ensures |lists| == LISTS == |blocksFree| && blocksFree[k] == lists[k][0]
      ensures lists[k][j] in nodes && lists[k][j].previousFreeBlock == At(lists[k], j - 1)
              && lists[k][j].nextFreeBlock == At(lists[k], j + 1)
      ensures j + 1 < |lists[k]| ==> lists[k][j + 1] in nodes && lists[k][j + 1] != lists[k][j]
      ensures j > 0 ==> lists[k][j - 1] in nodes && lists[k][j - 1] != lists[k][j]
      ensures 0 < j < |lists[k]| - 1 ==> lists[k][j - 1] != lists[k][j + 1]
    {
      assert Chain(lists[k], blocksFree[k], k);
    }

    lemma TopFacts(k: nat)
      requires FreeLinks() && k < LISTS
      ensures |lists| == LISTS == |blocksFree| && blocksFree[k] == At(lists[k], 0)
      ensures lists[k] != [] ==> lists[k][0] in nodes && lists[k][0].home == k
    {
      assert Chain(lists[k], blocksFree[k], k);
    }

    lemma UnfiledFacts(b: TemporaryBlock)
      requires FreeLinks() && b in nodes && b.home == -1
      ensures b.previousFreeBlock == null && b.nextFreeBlock == null
    {
      assert Filed(b, lists);
    }

    method PushFreeBlock(block: TemporaryBlock)
      requires FreeLinks() && block in nodes && block.isFree && block.home == -1
      modifies this`blocksFree, this`lists
      modifies nodes`nextFreeBlock, nodes`previousFreeBlock, nodes`home
      ensures FreeLinks()
      ensures var k := FreeListIndex(block.lbaCount);
              lists == old(lists)[k := [block] + old(lists)[k]] && block.home == k
      ensures forall b :: b in nodes && b != block ==> b.home == old(b.home)
    {
      hide FreeLinks, FreeListIndex;
      var k := FreeListIndex(block.lbaCount);
      TopFacts(k);
      UnfiledFacts(block);
      var previousTop := blocksFree[k];
      if previousTop != null {
        previousTop.previousFreeBlock := block;
      }
      blocksFree := blocksFree[k := block];
      block.nextFreeBlock := previousTop;
      block.home := k;
      lists := lists[k := [block] + lists[k]];
      PushedLinks(k);
    }

    method PopFreeBlock(k: nat) returns (popped: TemporaryBlock)
      requires FreeLinks() && k < LISTS && lists[k] != []
      modifies this`blocksFree, this`lists
      modifies nodes`nextFreeBlock, nodes`previousFreeBlock, nodes`home, {lists[k][0]}`isFree
      ensures FreeLinks() && popped == old(lists)[k][0] && popped in nodes
      ensures lists == old(lists)[k := old(lists)[k][1..]]
      ensures popped.home == -1 && !popped.isFree
      ensures forall b :: b in nodes && b != popped ==> b.home == old(b.home)
    {
      hide FreeLinks;
      NodeFacts(k, 0);
      popped := blocksFree[k];
      var newHead := popped.nextFreeBlock;
      blocksFree := blocksFree[k := newHead];
      popped.isFree := false;
      popped.nextFreeBlock := null;
      popped.previousFreeBlock := null;
      popped.home := -1;
      if newHead != null {
        newHead.previousFreeBlock := null;
      }
      assert lists[k][1..] == lists[k][..0] + lists[k][1..];
      lists := lists[k := lists[k][1..]];
      UnlinkedLinks(Place(k, 0));
    }

    method RemoveFreeBlock(block: TemporaryBlock, ghost j: nat)
      requires FreeLinks() && block in nodes
      requires var k := FreeListIndex(block.lbaCount); j < |lists[k]| && lists[k][j] == block
      modifies this`blocksFree, this`lists
      modifies nodes`nextFreeBlock, nodes`previousFreeBlock, nodes`home
      ensures FreeLinks() && block.home == -1
      ensures var k := FreeListIndex(block.lbaCount);
              lists == old(lists)[k := old(lists)[k][..j] + old(lists)[k][j + 1..]]
      ensures forall b :: b in nodes && b != block ==> b.home == old(b.home)
    {
      hide FreeLinks, FreeListIndex;
      var k := FreeListIndex(block.lbaCount);
      NodeFacts(k, j);
      if block.nextFreeBlock != null {
        block.nextFreeBlock.previousFreeBlock := block.previousFreeBlock;
      }
      if block.previousFreeBlock == null {
        blocksFree := blocksFree[k := block.nextFreeBlock];
        if blocksFree[k] != null {
          blocksFree[k].previousFreeBlock := null;
        }
      } else {
        block.previousFreeBlock.nextFreeBlock := block.nextFreeBlock;
      }
      block.nextFreeBlock := null;
      block.previousFreeBlock := null;
      block.home := -1;
      lists := lists[k := lists[k][..j] + lists[k][j + 1..]];
      UnlinkedLinks(Place(k, j));
    }

    // -------------------------------------------------------------- the address list

    /** Node `i` left the address list and its neighbours were linked to each other. */
    twostate lemma AddressRemoved(i: nat)
      requires old(AddressLinks()) && i < |old(order)| && |old(order)| > 1
      requires order == old(order)[..i] + old(order)[i + 1..] && blocks == order[0]
      requires forall x :: 0 <= x < |old(order)| && x != i && x != i + 1 ==>
        old(order)[x].previousBlock == old(order[x].previousBlock)
      requires forall x :: 0 <= x < |old(order)| && x != i && x != i - 1 ==>
        old(order)[x].nextBlock == old(order[x].nextBlock)
      requires i + 1 < |old(order)| ==> old(order)[i + 1].previousBlock == At(old(order), i - 1)
      requires i > 0 ==> old(order)[i - 1].nextBlock == At(old(order), i + 1)
      ensures AddressLinks()
    {
      var m, l := order, old(order);
      assert Distinct(m) by { DistinctDrop(l, i); }
      hide Distinct;
      forall x | 0 <= x < |m| ensures m[x] == l[if x < i then x else x + 1] {}
      forall x, y | 0 <= x < |m| && 0 <= y < |m| && y == x + 1
        ensures m[x].nextBlock == m[y] && m[y].previousBlock == m[x]
      {
      }
    }

    lemma OrderFacts(i: nat)
      requires AddressLinks() && i < |order|
      ensures blocks == order[0]
      ensures order[i].previousBlock == At(order, i - 1) && order[i].nextBlock == At(order, i + 1)
      ensures forall j :: 0 <= j < |order| && j != i ==> order[j] != order[i]
    {
    }

    /** Take the node before `block` out of the address list. */
    method UnlinkPrevious(block: TemporaryBlock, ghost i: nat)
      requires AddressLinks() && 0 < i < |order| && order[i] == block
      modifies `order, `blocks, order`nextBlock, order`previousBlock
      ensures AddressLinks() && order == old(order)[..i - 1] + old(order)[i..]
    {
      hide AddressLinks;
      OrderFacts(i);
      OrderFacts(i - 1);
      var left := block.previousBlock;
      if left.previousBlock != null {
        OrderFacts(i - 2);
        left.previousBlock.nextBlock := left.nextBlock;
        left.nextBlock := null;
        block.previousBlock := left.previousBlock;
      } else {
        blocks := left.nextBlock;
        left.nextBlock := null;
        blocks.previousBlock := null;
      }
      order := order[..i - 1] + order[i..];
      AddressRemoved(i - 1);
    }

    /** Take the node after `block` out of the address list. */
    method UnlinkNext(block: TemporaryBlock, ghost i: nat)
      requires AddressLinks() && i + 1 < |order| && order[i] == block
      modifies `order, order`nextBlock, order`previousBlock
      ensures AddressLinks() && order == old(order)[..i + 1] + old(order)[i + 2..]
    {
      hide AddressLinks;
      OrderFacts(i);
      OrderFacts(i + 1);
      if i + 2 < |order| { OrderFacts(i + 2); }
      var right := block.nextBlock;
      block.nextBlock := null;
      if right.nextBlock != null {
        right.nextBlock.previousBlock := block;
        block.nextBlock := right.nextBlock;
        right.nextBlock := null;
      }
      order := order[..i + 1] + order[i + 2..];
      AddressRemoved(i + 1);
    }

    lemma PlaceOf(b: TemporaryBlock) returns (j: nat)
      requires FreeLinks() && b in nodes && 0 <= b.home < LISTS
      ensures j < |lists[b.home]| && lists[b.home][j] == b
    {
      assert Filed(b, lists);
      j :| 0 <= j < |lists[b.home]| && lists[b.home][j] == b;
    }

    // -------------------------------------------------------------- the lists as values

    ghost predicate StartsDistinct()
      requires FreeLinks()
      reads this, nodes
    {
      forall k :: 0 <= k < LISTS ==> NoDup(ListStartsAt(k))
    }

    /** Unfiled nodes may have moved; filed ones have not. */
    twostate predicate FiledStayPut()
      reads this, nodes
    {
      old(nodes) <= nodes && forall b :: b in old(nodes) && old(b.home) != -1 ==> b.startLba == old(b.startLba)
    }

    twostate lemma FiledAt(k: nat)
      requires old(FreeLinks()) && FiledStayPut() && k < LISTS
      ensures forall j :: 0 <= j < |old(lists)[k]| ==>
        old(lists)[k][j].startLba == old(lists[k][j].startLba)
    {
      assert old(Chain(lists[k], blocksFree[k], k));
      assert forall j :: 0 <= j < |old(lists)[k]| ==> old(lists)[k][j] in old(nodes) && old(lists[k][j].home) == k;
    }

    twostate lemma OtherStarts(k: nat)
      requires old(FreeLinks()) && FreeLinks() && FiledStayPut() && k < LISTS && lists[k] == old(lists)[k]
      ensures ListStartsAt(k) == old(ListStartsAt(k))
    {
      FiledAt(k);
    }

    twostate lemma StartsPushed(k: nat)
      requires old(FreeLinks()) && FreeLinks() && FiledStayPut() && k < LISTS && lists[k] != []
      requires lists == old(lists)[k := [lists[k][0]] + old(lists)[k]]
      ensures ListStarts() == Push(old(ListStarts()), k, lists[k][0].startLba)
    {
      FiledAt(k);
      hide FreeLinks, FiledStayPut;
      assert ListStartsAt(k) == [lists[k][0].startLba] + old(ListStartsAt(k));
      forall i | 0 <= i < LISTS && i != k ensures ListStartsAt(i) == old(ListStartsAt(i)) {
        OtherStarts(i);
      }
    }

    twostate lemma StartsPopped(k: nat)
      requires old(FreeLinks()) && FreeLinks() && FiledStayPut() && k < LISTS && old(lists)[k] != []
      requires lists == old(lists)[k := old(lists)[k][1..]]
      ensures ListStarts() == old(ListStarts())[k := old(ListStarts())[k][1..]]
    {
      FiledAt(k);
      hide FreeLinks, FiledStayPut;
      assert ListStartsAt(k) == old(ListStartsAt(k))[1..];
      forall i | 0 <= i < LISTS && i != k ensures ListStartsAt(i) == old(ListStartsAt(i)) {
        OtherStarts(i);
      }
    }

    twostate lemma StillDistinct(at: Place)
      requires old(FreeLinks()) && FreeLinks() && old(StartsDistinct()) && at.list < LISTS
      requires at.index < |old(lists)[at.list]|
      requires ListStarts() == Unlink(old(ListStarts()), at.list, old(lists[at.list][at.index].startLba))
      ensures StartsDistinct()
    {
      forall k | 0 <= k < LISTS ensures NoDup(ListStartsAt(k)) {
        assert ListStartsAt(k) == ListStarts()[k];
        assert NoDup(old(ListStartsAt(k))) && old(ListStartsAt(k)) == old(ListStarts())[k];
        WithoutProps(old(ListStarts())[k], old(lists[at.list][at.index].startLba));
      }
    }

    twostate lemma StartsUnlinkedAt(at: Place)
      requires old(FreeLinks()) && FreeLinks() && FiledStayPut()
      requires at.list < LISTS == |old(lists)| == |lists| && at.index < |old(lists)[at.list]|
      requires NoDup(old(ListStartsAt(at.list)))
      requires var l := old(lists)[at.list]; lists[at.list] == l[..at.index] + l[at.index + 1..]
      ensures ListStartsAt(at.list) == Without(old(ListStartsAt(at.list)), old(lists[at.list][at.index].startLba))
    {
      hide FreeLinks, FiledStayPut, Without;
      FiledAt(at.list);
      var l := old(ListStartsAt(at.list));
      WithoutAt(l, at.index);
      assert ListStartsAt(at.list) == l[..at.index] + l[at.index + 1..];
    }

    twostate lemma StartsUnlinked(at: Place)
      requires old(FreeLinks()) && FreeLinks() && FiledStayPut()
      requires old(StartsDistinct()) && at.list < LISTS && at.index < |old(lists)[at.list]|
      requires var l := old(lists)[at.list];
               lists == old(lists)[at.list := l[..at.index] + l[at.index + 1..]]
      ensures ListStarts() == Unlink(old(ListStarts()), at.list, old(lists[at.list][at.index].startLba))
      ensures StartsDistinct()
    {
      hide FiledStayPut, Without;
      assert |old(lists)| == LISTS;
      StartsUnlinkedAt(at);
      hide FreeLinks;
      forall i | 0 <= i < LISTS && i != at.list ensures ListStartsAt(i) == old(ListStartsAt(i)) {
        OtherStarts(i);
      }
      StillDistinct(at);
    }

    method AbsorbPrevious(block: TemporaryBlock, ghost i: nat)
      requires Linked() && StartsDistinct() && 0 < i < |order| && order[i] == block && block.home == -1
      requires order[i - 1].home == FreeListIndex(order[i - 1].lbaCount)
      modifies `order, `blocks, `lists, `blocksFree
      modifies block`startLba, block`lbaCount
      modifies nodes`nextBlock, nodes`previousBlock, nodes`nextFreeBlock, nodes`previousFreeBlock, nodes`home
      ensures Linked() && StartsDistinct() && order == old(order)[..i - 1] + old(order)[i..]
      ensures block.startLba == old(order[i - 1].startLba)
      ensures block.lbaCount == old(order[i - 1].lbaCount) + old(block.lbaCount)
      ensures forall b :: b in order ==> b.home == old(b.home)
      ensures ListStarts() ==
        Unlink(old(ListStarts()), FreeListIndex(old(order[i - 1].lbaCount)), old(order[i - 1].startLba))
    {
      hide FreeLinks, AddressLinks, FreeListIndex, StartsDistinct;
      OrderFacts(i);
      OrderFacts(i - 1);
      var left := block.previousBlock;
      ghost var j := PlaceOf(left);
      ghost var k := FreeListIndex(left.lbaCount);
      block.startLba := left.startLba;
      block.lbaCount := left.lbaCount + block.lbaCount;
      UnlinkPrevious(block, i);
      RemoveFreeBlock(left, j);
      StartsUnlinked(Place(k, j));
    }

    method AbsorbNext(block: TemporaryBlock, ghost i: nat)
      requires Linked() && StartsDistinct() && i + 1 < |order| && order[i] == block && block.home == -1
      requires order[i + 1].home == FreeListIndex(order[i + 1].lbaCount)
      modifies `order, `lists, `blocksFree
      modifies block`lbaCount
      modifies nodes`nextBlock, nodes`previousBlock, nodes`nextFreeBlock, nodes`previousFreeBlock, nodes`home
      ensures Linked() && StartsDistinct() && order == old(order)[..i + 1] + old(order)[i + 2..]
      ensures block.lbaCount == old(block.lbaCount) + old(order[i + 1].lbaCount)
      ensures forall b :: b in order ==> b.home == old(b.home)
      ensures ListStarts() ==
        Unlink(old(ListStarts()), FreeListIndex(old(order[i + 1].lbaCount)), old(order[i + 1].startLba))
    {
      hide FreeLinks, AddressLinks, FreeListIndex, StartsDistinct;
      OrderFacts(i);
      OrderFacts(i + 1);
      var right := block.nextBlock;
      ghost var j := PlaceOf(right);
      ghost var k := FreeListIndex(right.lbaCount);
      block.lbaCount := block.lbaCount + right.lbaCount;
      UnlinkNext(block, i);
      RemoveFreeBlock(right, j);
      StartsUnlinked(Place(k, j));
    }

    method AbsorbBoth(block: TemporaryBlock, ghost i: nat)
      requires Linked() && StartsDistinct() && 0 < i < |order| - 1 && order[i] == block && block.home == -1
      requires order[i - 1].home == FreeListIndex(order[i - 1].lbaCount)
      requires order[i + 1].home == FreeListIndex(order[i + 1].lbaCount)
      modifies `order, `blocks, `lists, `blocksFree
      modifies block`startLba, block`lbaCount
      modifies nodes`nextBlock, nodes`previousBlock, nodes`nextFreeBlock, nodes`previousFreeBlock, nodes`home
      ensures Linked() && order == Splice(old(order), i - 1, i + 2, [block])
      ensures block.startLba == old(order[i - 1].startLba)
      ensures block.lbaCount == old(order[i - 1].lbaCount) + old(block.lbaCount) + old(order[i + 1].lbaCount)
      ensures block.home == -1 && forall b :: b in order ==> b.home == old(b.home)
      ensures var l := Unlink(old(ListStarts()), FreeListIndex(old(order[i - 1].lbaCount)), old(order[i - 1].startLba));
              ListStarts() == Unlink(l, FreeListIndex(old(order[i + 1].lbaCount)), old(order[i + 1].startLba))
    {
      hide FreeLinks, AddressLinks, FreeListIndex, StartsDistinct, Unlink, Splice;
      OrderFacts(i);
      OrderFacts(i + 1);
      ghost var was := order;
      DropAround(was, i);
      AbsorbPrevious(block, i);
      AbsorbNext(block, i - 1);
    }

    /** Merge `block`, at index `i`, with its free neighbours. */
    method CoalesceFreeBlocks(block: TemporaryBlock, ghost i: nat)
      requires Linked() && StartsDistinct() && i < |order| && order[i] == block && block.home == -1
      requires i > 0 && order[i - 1].isFree ==> order[i - 1].home == FreeListIndex(order[i - 1].lbaCount)
      requires i + 1 < |order| && order[i + 1].isFree ==> order[i + 1].home == FreeListIndex(order[i + 1].lbaCount)
      modifies `order, `blocks, `lists, `blocksFree
      modifies block`startLba, block`lbaCount
      modifies nodes`nextBlock, nodes`previousBlock, nodes`nextFreeBlock, nodes`previousFreeBlock, nodes`home
      ensures Linked()
      ensures var e := old(ExtentsOf(order)); var a, c := MergeFrom(e, i), MergeTo(e, i);
              && order == Splice(old(order), a, c, [block])
              && block.startLba == Merged(e, i).start && block.lbaCount == Merged(e, i).len
              && ListStarts() == UnlinkNeighbours(old(Abs()), i)
      ensures forall b :: b in order ==> b.home == old(b.home)
      ensures block.home == -1
    {
      hide FreeLinks, AddressLinks, FreeListIndex, StartsDistinct;
      hide MergeFrom, MergeTo, Merged, UnlinkNeighbours, Unlink, Splice;
      OrderFacts(i);
      if i + 1 < |order| { OrderFacts(i + 1); }
      MergeCases(Abs(), i);
      ghost var was := order;
      if (block.previousBlock != null && block.previousBlock.isFree)
         && (block.nextBlock != null && block.nextBlock.isFree) {
        AbsorbBoth(block, i);
      } else if block.previousBlock != null && block.previousBlock.isFree {
        DropAround(was, i);
        AbsorbPrevious(block, i);
      } else if block.nextBlock != null && block.nextBlock.isFree {
        DropAround(was, i);
        AbsorbNext(block, i);
      } else {
        DropAround(was, i);
      }
    }

    /** A free block is marked with the list the pool says it belongs in. */
    lemma HomeOf(i: nat)
      requires Valid() && i < |order| && order[i].isFree
      ensures order[i].home == HomeList(untouched, order[i].lbaCount)
    {
      assert Filed(order[i], lists);
      var k := order[i].home;
      var j := PlaceOf(order[i]);
      var p := Abs();
      assert p.lists[k] == ListStartsAt(k) && p.lists[k][j] == order[i].startLba;
      assert order[i].startLba in p.lists[k];
      assert FreeIn(p.blocks, untouched, order[i].startLba, k);
      var x :| 0 <= x < |p.blocks| && p.blocks[x].start == order[i].startLba
        && HomeList(untouched, p.blocks[x].len) == k;
      assert p.blocks[i] == ExtentOf(order[i]);
      StartsUnique(p.blocks, p.lo, p.hi, x, i);
    }

    lemma ValidStartsDistinct()
      requires Valid()
      ensures StartsDistinct()
    {
      var p := Abs();
      assert forall k :: 0 <= k < LISTS ==> p.lists[k] == ListStartsAt(k);
    }

    /** Every block but the freed one, at index `i`, kept its extent. */
    twostate lemma FreedExtents(i: nat)
      requires i < |old(order)| && (forall x :: 0 <= x < |old(order)| ==> old(order)[x] in old(nodes))
      requires old(nodes) <= nodes
      requires var e := old(ExtentsOf(order));
               order == Splice(old(order), MergeFrom(e, i), MergeTo(e, i), [old(order)[i]])
      requires forall x :: 0 <= x < |old(order)| && x != i ==> ExtentOf(old(order)[x]) == old(ExtentOf(order[x]))
      ensures var e := old(ExtentsOf(order));
              ExtentsOf(order) == Splice(e, MergeFrom(e, i), MergeTo(e, i), [ExtentOf(old(order)[i])])
    {
      var e := old(ExtentsOf(order));
      var a, c := MergeFrom(e, i), MergeTo(e, i);
      hide MergeFrom, MergeTo;
      var q := Splice(e, a, c, [ExtentOf(old(order)[i])]);
      forall x | 0 <= x < |order| ensures ExtentsOf(order)[x] == q[x] {
        if x < a {
          assert order[x] == old(order)[x];
        } else if x > a {
          assert order[x] == old(order)[x + c - a - 1];
        }
      }
    }

    /** Live blocks other than `block` are the same objects at the same addresses. */
    twostate predicate OthersKept(new block: TemporaryBlock)
      reads this, nodes
    {
      && old(nodes) <= nodes
      && forall b :: b in old(order) && b in old(nodes) && b != block && !old(b.isFree) ==>
           b in order && ExtentOf(b) == old(ExtentOf(b))
    }

    lemma IndexOf(block: TemporaryBlock) returns (i: nat)
      requires Valid() && block in order
      ensures i < |order| && order[i] == block && Find(Abs().blocks, block.startLba) == i
      ensures HasStart(Abs().blocks, block.startLba)
    {
      i :| 0 <= i < |order| && order[i] == block;
      var p := Abs();
      assert p.blocks[i] == ExtentOf(block);
      StartsUnique(p.blocks, p.lo, p.hi, Find(p.blocks, block.startLba), i);
    }

    /** Flagging the block free and counting it out changes nothing that the merge looks at. */
    method MarkFree(block: TemporaryBlock, ghost i: nat)
      requires Linked() && StartsDistinct() && i < |order| && order[i] == block
      modifies block`isFree, `activeTempBytes
      ensures Linked() && StartsDistinct() && block.isFree
      ensures activeTempBytes == old(activeTempBytes) - block.lbaCount * 4096
      ensures var e, f := ExtentsOf(order), old(ExtentsOf(order));
              && MergeFrom(e, i) == MergeFrom(f, i) && MergeTo(e, i) == MergeTo(f, i) && Merged(e, i) == Merged(f, i)
              && UnlinkNeighbours(Abs(), i) == UnlinkNeighbours(old(Abs()), i)
    {
      hide FreeLinks, MergeFrom, MergeTo, Merged, UnlinkNeighbours;
      ghost var p := Abs();
      assert forall x :: 0 <= x < |order| && x != i ==> order[x] != block;
      hide AddressLinks;
      block.isFree := true;
      activeTempBytes := activeTempBytes - block.lbaCount * 4096;
      SameLists();
      SameMerge(p, Abs(), i);
    }

    twostate lemma SameLists()
      requires old(FreeLinks()) && FreeLinks() && FiledStayPut() && lists == old(lists)
      ensures ListStarts() == old(ListStarts()) && (old(StartsDistinct()) ==> StartsDistinct())
    {
      forall k | 0 <= k < LISTS ensures ListStartsAt(k) == old(ListStartsAt(k)) {
        OtherStarts(k);
      }
      if old(StartsDistinct()) {
        assert forall k :: 0 <= k < LISTS ==> old(NoDup(ListStartsAt(k)));
      }
    }

    method MergeAndPush(block: TemporaryBlock, ghost i: nat)
      requires Linked() && StartsDistinct() && i < |order| && order[i] == block && block.home == -1 && block.isFree
      requires i > 0 && order[i - 1].isFree ==> order[i - 1].home == FreeListIndex(order[i - 1].lbaCount)
      requires i + 1 < |order| && order[i + 1].isFree ==> order[i + 1].home == FreeListIndex(order[i + 1].lbaCount)
      modifies `order, `blocks, `lists, `blocksFree
      modifies block`startLba, block`lbaCount
      modifies nodes`nextBlock, nodes`previousBlock, nodes`nextFreeBlock, nodes`previousFreeBlock, nodes`home
      ensures Linked()
      ensures var e := old(ExtentsOf(order));
              && order == Splice(old(order), MergeFrom(e, i), MergeTo(e, i), [block])
              && ExtentOf(block) == Merged(e, i)
              && ListStarts() == Push(UnlinkNeighbours(old(Abs()), i), FreeListIndex(block.lbaCount), block.startLba)
      ensures forall b :: b in order && b != block ==> b.home == old(b.home)
      ensures block.home != -1
    {
      hide FreeLinks, AddressLinks, StartsDistinct;
      hide MergeFrom, MergeTo, Merged, UnlinkNeighbours, Splice, FreeListIndex;
      CoalesceFreeBlocks(block, i);
      TopFacts(FreeListIndex(block.lbaCount));
      label Merged:
      PushFreeBlock(block);
      StartsPushed@Merged(FreeListIndex(block.lbaCount));
    }

    /** What the merge and the push have done to the structure. */
    twostate predicate Freed(i: nat)
      reads this, nodes
    {
      && old(Linked()) && Linked() && nodes == old(nodes) && untouched == old(untouched) && i < |old(order)|
      && var e, block := old(ExtentsOf(order)), old(order)[i];
      && order == Splice(old(order), MergeFrom(e, i), MergeTo(e, i), [block])
      && (forall b :: b in nodes && b != block ==> ExtentOf(b) == old(ExtentOf(b)))
      && block in nodes && ExtentOf(block) == Merged(e, i)
      && ListStarts() == Push(UnlinkNeighbours(old(Abs()), i), FreeListIndex(block.lbaCount), block.startLba)
      && (forall b :: b in order && b != block ==> b.home == old(b.home))
      && block.home != -1
    }

    twostate lemma FreedAbs(i: nat)
      requires old(Valid()) && Freed(i) && !old(order[i].isFree)
      ensures Valid() && Abs() == FreeIndex(old(Abs()), i) && OthersKept(old(order)[i])
    {
      FreedEquals(i);
      assert WellFormed(Abs()) by {
        FreeWellFormed(old(Abs()), i);
      }
      FreedHomes(i);
      FreedKeeps(i);
    }

    twostate lemma FreedEquals(i: nat)
      requires old(Linked()) && Freed(i)
      ensures Abs() == FreeIndex(old(Abs()), i)
    {
      assert forall x :: 0 <= x < |old(order)| && x != i ==> old(order)[x] != old(order)[i] by {
        assert old(AddressLinks());
      }
      hide FreeLinks, AddressLinks;
      FreedExtents(i);
    }

    twostate lemma FreedHomes(i: nat)
      requires old(Linked()) && Freed(i)
      requires forall b :: b in old(order) ==> (old(b.home) == -1 <==> !old(b.isFree))
      ensures forall b :: b in order ==> (b.home == -1 <==> !b.isFree)
    {
      hide FreeLinks, AddressLinks;
      var e := old(ExtentsOf(order));
      SpliceMembers(old(order), MergeFrom(e, i), MergeTo(e, i), [old(order)[i]]);
    }

    twostate lemma FreedKeeps(i: nat)
      requires old(Linked()) && Freed(i) && !old(order[i].isFree)
      ensures OthersKept(old(order)[i])
    {
      var e := old(ExtentsOf(order));
      hide FreeLinks, AddressLinks;
      SpliceMembers(old(order), MergeFrom(e, i), MergeTo(e, i), [old(order)[i]]);
      hide Splice;
      forall b | b in old(order) && b != old(order)[i] && !old(b.isFree) ensures b in order {
        var x :| 0 <= x < |old(order)| && old(order)[x] == b;
        assert e[x] == old(ExtentOf(b));
      }
    }

    method FreeBlock(block: TemporaryBlock)
      requires Valid() && block in order && !block.isFree
      modifies this, nodes
      ensures Valid() && nodes == old(nodes)
      ensures LiveAt(old(Abs()).blocks, old(block.startLba)) && Abs() == Free(old(Abs()), old(block.startLba))
      ensures OthersKept(block)
      ensures activeTempBytes == old(activeTempBytes) - old(block.lbaCount) * 4096
      ensures peakTempBytes == old(peakTempBytes)
    {
      hide FreeLinks, AddressLinks, Valid, WellFormed, StartsDistinct, OthersKept;
      hide MergeFrom, MergeTo, Merged, UnlinkNeighbours, Splice, FreeListIndex;
      ghost var i := IndexOf(block);
      FreeReady(i);
      OrderFacts(i);
      MarkFree(block, i);
      MergeAndPush(block, i);
      FreedAbs(i);
    }

    /** What CoalesceFreeBlocks needs to know about the neighbours of a live block. */
    lemma FreeReady(i: nat)
      requires Valid() && i < |order| && !order[i].isFree
      ensures Linked() && StartsDistinct() && order[i].home == -1 && !untouched
      ensures i > 0 && order[i - 1].isFree ==> order[i - 1].home == FreeListIndex(order[i - 1].lbaCount)
      ensures i + 1 < |order| && order[i + 1].isFree ==> order[i + 1].home == FreeListIndex(order[i + 1].lbaCount)
    {
      ValidStartsDistinct();
      assert Abs().blocks[i] == ExtentOf(order[i]);
      if i > 0 && order[i - 1].isFree { HomeOf(i - 1); }
      if i + 1 < |order| && order[i + 1].isFree { HomeOf(i + 1); }
    }

    // -------------------------------------------------------------- splitting and allocating

    /** A new node was linked into the address list in front of node `i`. */
    twostate lemma AddressInserted(i: nat)
      requires old(AddressLinks()) && i < |old(order)| && |order| == |old(order)| + 1
      requires order == old(order)[..i] + [order[i]] + old(order)[i..] && order[i] !in old(order)
      requires blocks == order[0]
      requires order[i].previousBlock == At(old(order), i - 1) && order[i].nextBlock == old(order)[i]
      requires old(order)[i].previousBlock == order[i]
      requires i > 0 ==> old(order)[i - 1].nextBlock == order[i]
      requires forall x :: 0 <= x < |old(order)| && x != i ==>
        old(order)[x].previousBlock == old(order[x].previousBlock)
      requires forall x :: 0 <= x < |old(order)| && x != i - 1 ==>
        old(order)[x].nextBlock == old(order[x].nextBlock)
      ensures AddressLinks()
    {
      var m, l := order, old(order);
      assert forall x :: 0 <= x < |m| && x != i ==> m[x] == l[if x < i then x else x - 1];
      assert Distinct(m);
      hide Distinct;
      forall x, y | 0 <= x < |m| && 0 <= y < |m| && y == x + 1
        ensures m[x].nextBlock == m[y] && m[y].previousBlock == m[x]
      {
      }
    }

    /** The free lists survive the arrival of a new node. */
    twostate lemma NodesGrown()
      requires old(FreeLinks()) && lists == old(lists) && blocksFree == old(blocksFree) && old(nodes) <= nodes
      requires forall b :: b in old(nodes) ==> SameLinks(b)
      requires forall b :: b in nodes && b !in old(nodes) ==>
        b.home == -1 && b.previousFreeBlock == null && b.nextFreeBlock == null
      requires FiledStayPut()
      ensures FreeLinks() && ListStarts() == old(ListStarts())
    {
      LinksKept();
      SameLists();
    }

    twostate lemma LinksKept()
      requires old(FreeLinks()) && lists == old(lists) && blocksFree == old(blocksFree) && old(nodes) <= nodes
      requires forall b :: b in old(nodes) ==> SameLinks(b)
      requires forall b :: b in nodes && b !in old(nodes) ==>
        b.home == -1 && b.previousFreeBlock == null && b.nextFreeBlock == null
      ensures FreeLinks()
    {
      forall k | 0 <= k < LISTS ensures Chain(lists[k], blocksFree[k], k) {
        assert old(Chain(lists[k], blocksFree[k], k));
        assert forall j :: 0 <= j < |lists[k]| ==> lists[k][j] in old(nodes) && SameLinks(lists[k][j]);
      }
      forall b | b in nodes ensures Filed(b, lists) {
        if b in old(nodes) {
          assert old(Filed(b, lists));
        }
      }
    }

    /** Link `fresh` into the address list in front of `block`, at index `i`. */
    method LinkBefore(first: TemporaryBlock, block: TemporaryBlock, ghost i: nat)
      requires AddressLinks() && i < |order| && order[i] == block && first !in order
      requires first.previousBlock == null
      requires first.startLba != allocatedStartLba <==> i > 0
      modifies `order, `blocks, first`nextBlock, first`previousBlock, order`nextBlock, order`previousBlock
      ensures AddressLinks() && order == old(order)[..i] + [first] + old(order)[i..]
    {
      hide AddressLinks;
      OrderFacts(i);
      if i > 0 { OrderFacts(i - 1); }
      if first.startLba != allocatedStartLba {
        var prev := block.previousBlock;
        var oldBlock := prev.nextBlock;
        first.previousBlock := prev;
        first.nextBlock := oldBlock;
        prev.nextBlock := first;
      } else {
        first.nextBlock := blocks;
        blocks := first;
      }
      block.previousBlock := first;
      order := order[..i] + [first] + order[i..];
      AddressInserted(i);
    }

    /** Make a node for the first `lbaCount` LBAs of a block that is in no list. */
    method CutFront(block: TemporaryBlock, lbaCount: nat, ghost i: nat) returns (first: TemporaryBlock)
      requires Linked() && i < |order| && order[i] == block && block.home == -1
      requires 0 < lbaCount < block.lbaCount
      requires block.startLba != allocatedStartLba <==> i > 0
      modifies `order, `nodes, `blocks
      modifies block`startLba, block`lbaCount, nodes`nextBlock, nodes`previousBlock
      ensures Linked() && fresh(first) && nodes == old(nodes) + {first}
      ensures order == old(order)[..i] + [first] + old(order)[i..]
      ensures ExtentOf(first) == Extent(old(block.startLba), lbaCount, false) && first.home == -1
      ensures block.startLba == old(block.startLba) + lbaCount && block.lbaCount == old(block.lbaCount) - lbaCount
      ensures ListStarts() == old(ListStarts())
    {
      hide FreeLinks, AddressLinks;
      first := new TemporaryBlock(block.startLba, lbaCount);
      block.startLba := block.startLba + lbaCount;
      block.lbaCount := block.lbaCount - lbaCount;
      LinkBefore(first, block, i);
      nodes := nodes + {first};
      NodesGrown();
    }

    /** Cut the first `lbaCount` LBAs off a block that is in no list; the rest is filed as free. */
    method SplitBlock(block: TemporaryBlock, lbaCount: nat, ghost i: nat) returns (first: TemporaryBlock)
      requires Linked() && i < |order| && order[i] == block && block.home == -1
      requires 0 < lbaCount < block.lbaCount
      requires block.startLba != allocatedStartLba <==> i > 0
      modifies `order, `nodes, `blocks, `lists, `blocksFree
      modifies block`startLba, block`lbaCount, block`isFree
      modifies nodes`nextBlock, nodes`previousBlock, nodes`nextFreeBlock, nodes`previousFreeBlock, nodes`home
      ensures Linked() && fresh(first) && nodes == old(nodes) + {first}
      ensures order == old(order)[..i] + [first] + old(order)[i..]
      ensures ExtentOf(first) == Extent(old(block.startLba), lbaCount, false) && first.home == -1
      ensures ExtentOf(block) == Extent(old(block.startLba) + lbaCount, old(block.lbaCount) - lbaCount, true)
      ensures ListStarts() == Push(old(ListStarts()), FreeListIndex(block.lbaCount), block.startLba)
      ensures forall b :: b in old(nodes) && b != block ==> b.home == old(b.home)
      ensures block.home != -1
    {
      hide FreeLinks, AddressLinks, FreeListIndex;
      first := CutFront(block, lbaCount, i);
      FileAsFree(block);
    }

    method FileAsFree(block: TemporaryBlock)
      requires Linked() && block in nodes && block.home == -1
      modifies `lists, `blocksFree, block`isFree
      modifies nodes`nextFreeBlock, nodes`previousFreeBlock, nodes`home
      ensures Linked() && block.isFree && block.home != -1
      ensures ListStarts() == Push(old(ListStarts()), FreeListIndex(block.lbaCount), block.startLba)
      ensures forall b :: b in nodes && b != block ==> b.home == old(b.home)
    {
      hide FreeLinks, AddressLinks, FreeListIndex;
      block.isFree := true;
      TopFacts(FreeListIndex(block.lbaCount));
      PushFreeBlock(block);
      StartsPushed(FreeListIndex(block.lbaCount));
    }

    /** Take the top of list `k`, the block at index `x`, and cut it down to `lbaCount`. */
    method PopAndCut(k: nat, lbaCount: nat, ghost x: nat) returns (block: TemporaryBlock)
      requires Linked() && k < LISTS && lists[k] != [] && lbaCount > 0
      requires x < |order| && order[x] == lists[k][0]
      requires order[x].startLba != allocatedStartLba <==> x > 0
      modifies `order, `nodes, `blocks, `lists, `blocksFree, `untouched
      modifies {order[x]}`startLba, {order[x]}`lbaCount, {order[x]}`isFree
      modifies nodes`nextBlock, nodes`previousBlock, nodes`nextFreeBlock, nodes`previousFreeBlock, nodes`home
      ensures Taken(Request(x, lbaCount)) && block == order[x] && fresh(nodes - old(nodes))
      ensures !untouched && ListStarts() == TakenLists(old(ListStarts()), k, old(ExtentOf(order[x])), lbaCount)
    {
      hide FreeLinks, AddressLinks, FreeListIndex, Push, Splice;
      ghost var was := order;
      DropAround(was, x);
      untouched := false;
      TopFacts(k);
      block := PopFreeBlock(k);
      StartsPopped(k);
      if block.lbaCount > lbaCount {
        block := SplitBlock(block, lbaCount, x);
        InsertedSplice(was, x, block);
      }
    }

    /** What serving a request has done to the structure. */
    twostate predicate Taken(r: Request)
      reads this, nodes
    {
      && old(Linked()) && Linked() && old(nodes) <= nodes && r.index < |old(order)|
      && var x, whole := r.index, old(order)[r.index];
      && var cut := old(whole.lbaCount) > r.count;
      && x < |order| && order[x] in nodes && whole in nodes
      && order == Splice(old(order), x, x + 1, if cut then [order[x], whole] else [whole])
      && ExtentOf(order[x]) == Carve(old(ExtentOf(whole)), r.count)[0] && order[x].home == -1
      && (cut ==>
             order[x] !in old(nodes) && ExtentOf(whole) == Carve(old(ExtentOf(whole)), r.count)[1] && whole.home != -1)
      && (forall b :: b in old(nodes) && b != whole ==> ExtentOf(b) == old(ExtentOf(b)) && b.home == old(b.home))
    }

    /** The request was served from the block the pool picks. */
    twostate predicate ServedAsPicked(r: Request)
      requires old(Valid()) && Linked()
      reads this, nodes
    {
      && r.count > 0 && PickedList(old(Abs()), r.count) < LISTS && Picked(old(Abs()), r.count) == r.index
      && r.index < |old(order)| && !untouched
      && ListStarts() == TakenLists(old(ListStarts()), PickedList(old(Abs()), r.count),
             old(ExtentOf(order[r.index])), r.count)
    }

    twostate lemma TakenAbs(r: Request)
      requires old(Valid()) && Taken(r) && ServedAsPicked(r)
      ensures Allocate(old(Abs()), r.count).Allocated?
      ensures Valid() && Abs() == Allocate(old(Abs()), r.count).pool
      ensures ExtentOf(order[r.index]) == Allocate(old(Abs()), r.count).block
      ensures OthersKept(order[r.index])
    {
      TakenEquals(r);
      assert WellFormed(Abs()) by {
        AllocateWellFormed(old(Abs()), r.count);
      }
      TakenHomes(r);
      TakenKeeps(r);
    }

    twostate lemma TakenEquals(r: Request)
      requires old(Valid()) && Taken(r) && ServedAsPicked(r)
      ensures Allocate(old(Abs()), r.count).Allocated?
      ensures Abs() == Allocate(old(Abs()), r.count).pool
      ensures ExtentOf(order[r.index]) == Allocate(old(Abs()), r.count).block
    {
      assert old(Abs()).blocks[r.index] == old(ExtentOf(order[r.index]));
      hide FreeLinks, AddressLinks, WellFormed, TakenLists, FreeListIndex;
      TakenExtents(r);
    }

    twostate lemma TakenExtents(r: Request)
      requires Taken(r)
      ensures ExtentsOf(order) ==
        Splice(old(ExtentsOf(order)), r.index, r.index + 1, Carve(old(ExtentOf(order[r.index])), r.count))
    {
      hide Taken, Linked, FreeLinks, AddressLinks, Distinct, Carve;
      var x, was := r.index, old(order);
      var mid := TakenMiddle(r);
      TakenOthers(r);
      SameExtents(Others(was, x));
      ExtentsConcat(was[..x], mid, was[x + 1..]);
    }

    /** What stands in place of the served block. */
    twostate lemma TakenMiddle(r: Request) returns (mid: seq<TemporaryBlock>)
      requires Taken(r)
      ensures r.index < |old(order)| && order == old(order)[..r.index] + mid + old(order)[r.index + 1..]
      ensures ExtentsOf(mid) == Carve(old(ExtentOf(order[r.index])), r.count)
    {
      hide FreeLinks, AddressLinks;
      var whole := old(order)[r.index];
      mid := if old(whole.lbaCount) > r.count then [order[r.index], whole] else [whole];
    }

    twostate lemma TakenOthers(r: Request)
      requires Taken(r)
      ensures forall y :: 0 <= y < |old(order)| && y != r.index ==>
        old(order)[y] in old(nodes) && ExtentOf(old(order)[y]) == old(ExtentOf(order[y]))
    {
      assert old(AddressLinks());
      hide FreeLinks;
      assert forall y :: 0 <= y < |old(order)| && y != r.index ==> old(order)[y] != old(order)[r.index];
    }

    twostate lemma TakenHomes(r: Request)
      requires Taken(r)
      requires forall b :: b in old(order) ==> (old(b.home) == -1 <==> !old(b.isFree))
      ensures forall b :: b in order ==> (b.home == -1 <==> !b.isFree)
    {
      hide FreeLinks, AddressLinks;
      var x, whole := r.index, old(order)[r.index];
      SpliceMembers(old(order), x, x + 1, if old(whole.lbaCount) > r.count then [order[x], whole] else [whole]);
      hide Splice;
    }

    twostate lemma TakenKeeps(r: Request)
      requires old(Valid()) && Taken(r) && ServedAsPicked(r)
      ensures OthersKept(order[r.index])
    {
      assert old(order[r.index].isFree) by {
        assert old(Abs()).blocks[r.index] == old(ExtentOf(order[r.index]));
      }
      TakenStay(r);
    }

    twostate lemma TakenStay(r: Request)
      requires Taken(r) && old(order[r.index].isFree)
      ensures OthersKept(order[r.index])
    {
      hide FreeLinks, AddressLinks, Linked;
      var x, whole := r.index, old(order)[r.index];
      SpliceMembers(old(order), x, x + 1, if old(whole.lbaCount) > r.count then [order[x], whole] else [whole]);
      hide Splice;
      forall b | b in old(order) && b in old(nodes) && !old(b.isFree) ensures b in order {
        var y :| 0 <= y < |old(order)| && old(order)[y] == b;
      }
    }

    method AllocateBlock(lbaCount: nat) returns (r: BlockResult)
      requires Valid() && lbaCount > 0
      modifies this, nodes
      ensures Valid() && (r.NoBlock? <==> Allocate(old(Abs()), lbaCount).NoFreeBlock?)
      ensures r.NoBlock? ==> unchanged(this) && unchanged(nodes)
      ensures r.Block? ==>
        && r.block in order && (r.block in old(nodes) ==> old(r.block.isFree))
        && ExtentOf(r.block) == Allocate(old(Abs()), lbaCount).block
        && Abs() == Allocate(old(Abs()), lbaCount).pool
        && activeTempBytes == old(activeTempBytes) + lbaCount * 4096
        && peakTempBytes == (if activeTempBytes > old(peakTempBytes) then activeTempBytes else old(peakTempBytes))
      ensures r.Block? ==> OthersKept(r.block)
      ensures fresh(nodes - old(nodes))
    {
      hide Valid, Linked, Allocate, PickedList, FirstList, FreeListIndex, FreeLinks, AddressLinks, WellFormed;
      hide ListStarts, ListStartsAt, ExtentsOf, Abs, StartsOf;
      var i := FirstNonEmpty(lbaCount);
      if i == LISTS {
        return NoBlock;
      }
      var block := ServePicked(lbaCount, i);
      CountIn(lbaCount);
      r := Block(block);
    }

    /** The first non-empty free list that may serve the request. */
    method FirstNonEmpty(lbaCount: nat) returns (i: nat)
      requires Valid() && lbaCount > 0
      ensures i == PickedList(Abs(), lbaCount) && i <= LISTS && (i == LISTS <==> Allocate(Abs(), lbaCount).NoFreeBlock?)
    {
      HeadsShowEmptiness();
      i := FreeListIndex(lbaCount);
      while i < LISTS && blocksFree[i] == null
        invariant FreeListIndex(lbaCount) <= i <= LISTS
        invariant forall j :: FreeListIndex(lbaCount) <= j < i ==> ListStarts()[j] == []
      {
        i := i + 1;
      }
      FirstListIs(ListStarts(), FreeListIndex(lbaCount), i);
    }

    lemma HeadsShowEmptiness()
      requires FreeLinks()
      ensures forall j :: 0 <= j < LISTS ==> (blocksFree[j] == null <==> ListStarts()[j] == [])
    {
      forall j | 0 <= j < LISTS ensures blocksFree[j] == null <==> ListStarts()[j] == [] {
        TopFacts(j);
      }
    }

    /** Serve a request from the list it is picked from. Both ways of getting the node, popping it
        whole and making it for a split, leave it marked live. */
    method ServePicked(lbaCount: nat, i: nat) returns (block: TemporaryBlock)
      requires Valid() && lbaCount > 0 && i == PickedList(Abs(), lbaCount) && i < LISTS
      modifies `order, `nodes, `blocks, `lists, `blocksFree, `untouched, nodes
      ensures Valid() && block in order && fresh(nodes - old(nodes))
      ensures Allocate(old(Abs()), lbaCount).Allocated? && Abs() == Allocate(old(Abs()), lbaCount).pool
      ensures ExtentOf(block) == Allocate(old(Abs()), lbaCount).block
      ensures block in old(nodes) ==> old(block.isFree)
      ensures OthersKept(block)
    {
      ghost var x := TopIsPicked(i, lbaCount);
      assert order[x].isFree by {
        assert Abs().blocks[x] == ExtentOf(order[x]);
      }
      hide FreeLinks, AddressLinks, WellFormed, Allocate, TakenLists, FreeListIndex, OthersKept, ExtentsOf, Taken;
      assert order[x] in order;
      block := PopAndCut(i, lbaCount, x);
      TakenAbs(Request(x, lbaCount));
    }

    /** The process-wide counters: active bytes and their peak. */
    method CountIn(lbaCount: nat)
      requires Valid()
      modifies `activeTempBytes, `peakTempBytes
      ensures Valid() && Abs() == old(Abs())
      ensures activeTempBytes == old(activeTempBytes) + lbaCount * 4096
      ensures peakTempBytes == (if activeTempBytes > old(peakTempBytes) then activeTempBytes else old(peakTempBytes))
    {
      activeTempBytes := activeTempBytes + lbaCount * 4096;
      if activeTempBytes > peakTempBytes {
        peakTempBytes := activeTempBytes;
      }
      hide FreeLinks, AddressLinks, WellFormed;
      SameLists();
    }

    lemma TopIsPicked(k: nat, n: nat) returns (x: nat)
      requires Valid() && n > 0 && k == PickedList(Abs(), n) && k < LISTS
      ensures lists[k] != [] && x == Picked(Abs(), n) && x < |order| && order[x] == lists[k][0]
      ensures order[x].startLba != allocatedStartLba <==> x > 0
    {
      var p := Abs();
      assert p.lists[k] == ListStartsAt(k) && NoDup(ListStartsAt(k));
      x := Picked(p, n);
      assert p.blocks[x] == ExtentOf(order[x]);
      HomeOf(x);
      var j := PlaceOf(order[x]);
      assert ListStartsAt(k)[j] == ListStartsAt(k)[0];
      if x > 0 {
        Ordered(p.blocks, p.lo, p.hi, 0, x);
      }
    }
  }
}
