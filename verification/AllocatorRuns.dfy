/** Runs of the allocator: any sequence of allocations and of frees of live blocks, with the
    process-wide byte counters and a record of what each live block was asked to hold. */
module AllocatorRuns {
  import opened Basics
  import opened BlockPool
  import opened AllocatorLaws

  const COUNTED_LBA: nat := 4096

  datatype Op = Take(n: nat) | Give(s: nat)

  /** `asked` maps the start of a live block to the size that was requested for it, which a
      block may fall short of; `drift` adds up those shortfalls over the run. */
  datatype Ledger = Ledger(pool: Pool, asked: map<nat, nat>, active: int, peak: int, drift: nat)

  function Start(lo: nat, hi: nat): Ledger
    requires lo < hi
  {
    Ledger(Fresh(lo, hi), map[], 0, 0, 0)
  }

  ghost predicate Enabled(l: Ledger, op: Op) {
    match op
    case Take(n) => n > 0
    case Give(s) => LiveAt(l.pool.blocks, s)
  }

  ghost function Step(l: Ledger, op: Op): (r: Ledger)
    requires WellFormed(l.pool) && Enabled(l, op)
    ensures WellFormed(r.pool) && r.pool.lo == l.pool.lo && r.pool.hi == l.pool.hi
  {
    match op
    case Take(n) => (
      match Allocate(l.pool, n)
      case NoFreeBlock => l
      case Allocated(q, b) =>
        AllocateWellFormed(l.pool, n);
        AllocateAddsOne(l.pool, n);
        var now := l.active + COUNTED_LBA * n;
        Ledger(q, l.asked[b.start := n], now, Max(l.peak, now), l.drift + (n - b.len))
    )
    case Give(s) =>
      var i := Find(l.pool.blocks, s);
      FreeWellFormed(l.pool, i);
      Ledger(Free(l.pool, s), l.asked - {s}, l.active - COUNTED_LBA * l.pool.blocks[i].len, l.peak, l.drift)
  }

  ghost predicate Legal(l: Ledger, ops: seq<Op>)
    requires WellFormed(l.pool)
    decreases |ops|
  {
    ops == [] || (Enabled(l, ops[0]) && Legal(Step(l, ops[0]), ops[1..]))
  }

  ghost function Run(l: Ledger, ops: seq<Op>): (r: Ledger)
    requires WellFormed(l.pool) && Legal(l, ops)
    ensures WellFormed(r.pool) && r.pool.lo == l.pool.lo && r.pool.hi == l.pool.hi
    decreases |ops|
  {
    if ops == [] then l else Run(Step(l, ops[0]), ops[1..])
  }

  // ---------------------------------------------------------------- live blocks stay put

  lemma StepKeepsOthers(l: Ledger, op: Op, e: Extent)
    requires WellFormed(l.pool) && Enabled(l, op)
    requires e in Live(l.pool.blocks) && op != Give(e.start)
    ensures e in Live(Step(l, op).pool.blocks)
  {
    match op
    case Take(n) =>
      if Allocate(l.pool, n).Allocated? {
        AllocateAddsOne(l.pool, n);
      }
    case Give(s) =>
      FreeRemovesOne(l.pool, Find(l.pool.blocks, s));
  }

  /** Until it is freed itself, a live block keeps its address and length across every split and
      merge around it. */
  lemma {:induction false} LiveUntilFreed(l: Ledger, ops: seq<Op>, e: Extent)
    requires WellFormed(l.pool) && Legal(l, ops)
    requires e in Live(l.pool.blocks) && Give(e.start) !in ops
    ensures e in Live(Run(l, ops).pool.blocks)
    decreases |ops|
  {
    hide Step, Enabled;
    if ops != [] {
      StepKeepsOthers(l, ops[0], e);
      assert ops == [ops[0]] + ops[1..];
      LiveUntilFreed(Step(l, ops[0]), ops[1..], e);
    }
  }

  /** Two histories that leave the same blocks live leave the same tiling; with none live it is
      one free block. */
  lemma HistoryForgotten(l: Ledger, ops: seq<Op>, ops': seq<Op>)
    requires WellFormed(l.pool) && Legal(l, ops) && Legal(l, ops')
    requires Live(Run(l, ops).pool.blocks) == Live(Run(l, ops').pool.blocks)
    ensures Run(l, ops).pool.blocks == Run(l, ops').pool.blocks
    ensures Live(Run(l, ops).pool.blocks) == {} ==>
      Run(l, ops).pool.blocks == [Extent(l.pool.lo, l.pool.hi - l.pool.lo, true)]
  {
    SameLiveSameTiling(Run(l, ops).pool, Run(l, ops').pool);
  }

  lemma SameLiveSameTiling(p: Pool, q: Pool)
    requires WellFormed(p) && WellFormed(q) && p.lo == q.lo && p.hi == q.hi
    requires Live(p.blocks) == Live(q.blocks)
    ensures p.blocks == q.blocks
    ensures Live(p.blocks) == {} ==> p.blocks == [Extent(p.lo, p.hi - p.lo, true)]
  {
    Canonical(p, q);
    if Live(p.blocks) == {} {
      AllFreed(p);
    }
  }

  // ---------------------------------------------------------------- byte counters

  ghost function Lbas(b: seq<Extent>, free: bool): nat {
    if b == [] then 0 else (if b[0].free == free then b[0].len else 0) + Lbas(b[1..], free)
  }

  lemma {:induction false} LbasConcat(a: seq<Extent>, b: seq<Extent>, free: bool)
    ensures Lbas(a + b, free) == Lbas(a, free) + Lbas(b, free)
  {
    if a == [] {
      assert a + b == b;
    } else {
      assert (a + b)[1..] == a[1..] + b;
      LbasConcat(a[1..], b, free);
    }
  }

  lemma LbasSplice(b: seq<Extent>, i: nat, j: nat, mid: seq<Extent>, free: bool)
    requires i <= j <= |b|
    ensures Lbas(Splice(b, i, j, mid), free) == Lbas(b, free) - Lbas(b[i..j], free) + Lbas(mid, free)
  {
    assert b == b[..i] + (b[i..j] + b[j..]);
    assert Splice(b, i, j, mid) == b[..i] + (mid + b[j..]);
    LbasConcat(b[..i], b[i..j] + b[j..], free);
    LbasConcat(b[i..j], b[j..], free);
    LbasConcat(b[..i], mid + b[j..], free);
    LbasConcat(mid, b[j..], free);
  }

  /** Live and free LBAs together are the whole pool. */
  lemma {:induction false} LbasTotal(b: seq<Extent>, lo: nat, hi: nat)
    requires Tiling(b, lo, hi)
    ensures Lbas(b, true) + Lbas(b, false) == hi - lo
    decreases |b|
  {
    if |b| == 1 {
      assert b[1..] == [];
    } else {
      assert b[0].End() == b[1].start;
      LbasTotal(b[1..], b[1].start, hi);
    }
  }

  lemma AllocateLbas(p: Pool, n: nat)
    requires WellFormed(p) && n > 0 && Allocate(p, n).Allocated?
    ensures Lbas(Allocate(p, n).pool.blocks, false) == Lbas(p.blocks, false) + Allocate(p, n).block.len
  {
    var i := Picked(p, n);
    var b := p.blocks[i];
    LbasSplice(p.blocks, i, i + 1, Carve(b, n), false);
    assert p.blocks[i..i + 1] == [b];
    assert Lbas([b], false) == 0;
    LbasOfOne(Carve(b, n), 0);
  }

  lemma {:induction false} LbasOfOne(b: seq<Extent>, k: nat)
    requires k < |b| && forall x :: 0 <= x < |b| ==> (b[x].free <==> x != k)
    ensures Lbas(b, false) == b[k].len
  {
    if k > 0 {
      LbasOfOne(b[1..], k - 1);
    } else {
      NoLbas(b[1..]);
    }
  }

  lemma {:induction false} NoLbas(b: seq<Extent>)
    requires forall x :: 0 <= x < |b| ==> b[x].free
    ensures Lbas(b, false) == 0
  {
    if b != [] {
      NoLbas(b[1..]);
    }
  }

  lemma FreeLbas(p: Pool, i: nat)
    requires WellFormed(p) && i < |p.blocks| && !p.blocks[i].free
    ensures Lbas(FreeIndex(p, i).blocks, false) == Lbas(p.blocks, false) - p.blocks[i].len
  {
    var b := p.blocks;
    var a, c := MergeFrom(b, i), MergeTo(b, i);
    LbasSplice(b, a, c, [Merged(b, i)], false);
    assert Lbas([Merged(b, i)], false) == 0;
    forall x | 0 <= x < c - a ensures b[a..c][x].free <==> x != i - a {
      assert b[a..c][x] == b[a + x];
    }
    LbasOfOne(b[a..c], i - a);
  }

  ghost predicate Counted(l: Ledger) {
    l.active == 4096 * (Lbas(l.pool.blocks, false) + l.drift) && l.active <= l.peak
  }

  lemma StepCounted(l: Ledger, op: Op)
    requires WellFormed(l.pool) && Enabled(l, op) && Counted(l)
    ensures Counted(Step(l, op)) && l.drift <= Step(l, op).drift
  {
    match op
    case Take(n) =>
      if Allocate(l.pool, n).Allocated? {
        AllocateLbas(l.pool, n);
        AllocateAddsOne(l.pool, n);
      }
    case Give(s) =>
      FreeLbas(l.pool, Find(l.pool.blocks, s));
  }

  /** The counter the source keeps is 4096 times the live LBAs plus every shortfall so far: an
      allocation adds what was asked for, a free subtracts what was held. */
  lemma {:induction false} RunCounted(l: Ledger, ops: seq<Op>)
    requires WellFormed(l.pool) && Legal(l, ops) && Counted(l)
    ensures Counted(Run(l, ops))
    ensures Run(l, ops).active == 4096 * (Lbas(Run(l, ops).pool.blocks, false) + Run(l, ops).drift)
    ensures l.drift <= Run(l, ops).drift
    decreases |ops|
  {
    hide Step, Enabled;
    if ops != [] {
      StepCounted(l, ops[0]);
      RunCounted(Step(l, ops[0]), ops[1..]);
    }
  }

  /** Counter values along a run, the initial one included. */
  ghost function ActiveTrace(l: Ledger, ops: seq<Op>): (t: seq<int>)
    requires WellFormed(l.pool) && Legal(l, ops)
    ensures |t| == |ops| + 1
    decreases |ops|
  {
    if ops == [] then [l.active] else [l.active] + ActiveTrace(Step(l, ops[0]), ops[1..])
  }

  /** The peak counter is the maximum the active counter reached over the run. */
  lemma {:induction false} PeakIsMaximum(l: Ledger, ops: seq<Op>)
    requires WellFormed(l.pool) && Legal(l, ops) && l.active <= l.peak
    ensures forall i :: 0 <= i <= |ops| ==> ActiveTrace(l, ops)[i] <= Run(l, ops).peak
    ensures Run(l, ops).peak == l.peak || Run(l, ops).peak in ActiveTrace(l, ops)
    ensures l.peak <= Run(l, ops).peak
    decreases |ops|
  {
    hide Step;
    if ops != [] {
      StepPeak(l, ops[0]);
      PeakIsMaximum(Step(l, ops[0]), ops[1..]);
      var t := ActiveTrace(Step(l, ops[0]), ops[1..]);
      assert t[0] == Step(l, ops[0]).active;
      assert ActiveTrace(l, ops) == [l.active] + t;
    }
  }

  lemma StepPeak(l: Ledger, op: Op)
    requires WellFormed(l.pool) && Enabled(l, op) && l.active <= l.peak
    ensures Step(l, op).peak == l.peak || Step(l, op).peak == Step(l, op).active
    ensures l.peak <= Step(l, op).peak && Step(l, op).active <= Step(l, op).peak
  {
  }

  // ---------------------------------------------------------------- requested extents

  /** What the temporary files ask for with 4096-byte LBAs: 8, 16, ..., 64. */
  predicate ValidRequest(n: nat) { n % 8 == 0 && 8 <= n <= 64 }

  predicate ValidOp(op: Op) { op.Take? ==> ValidRequest(op.n) }

  ghost predicate Aligned(b: seq<Extent>, lo: nat) {
    forall i :: 0 <= i < |b| ==> (b[i].start - lo) % 8 == 0
  }

  /** Live block `i` against the size it was asked to hold: only the last block may be short. */
  ghost predicate Holds(b: seq<Extent>, asked: map<nat, nat>, i: nat)
    requires i < |b|
  {
    && b[i].start in asked && ValidRequest(asked[b[i].start]) && b[i].len <= asked[b[i].start]
    && (i < |b| - 1 ==> b[i].len == asked[b[i].start])
    && (|b| > 1 ==> asked[b[i].start] - b[i].len < 8)
  }

  ghost predicate Fits(l: Ledger) {
    && Aligned(l.pool.blocks, l.pool.lo)
    && forall i :: 0 <= i < |l.pool.blocks| && !l.pool.blocks[i].free ==> Holds(l.pool.blocks, l.asked, i)
  }

  lemma SpliceAligned(b: seq<Extent>, lo: nat, i: nat, j: nat, mid: seq<Extent>)
    requires i <= j <= |b| && Aligned(b, lo) && Aligned(mid, lo)
    ensures Aligned(Splice(b, i, j, mid), lo)
  {
    var c := Splice(b, i, j, mid);
    forall x | 0 <= x < |c| ensures (c[x].start - lo) % 8 == 0 {
      if x < i {
        assert c[x] == b[x];
      } else if x < i + |mid| {
        assert c[x] == mid[x - i];
      } else {
        assert c[x] == b[x + j - i - |mid|];
      }
    }
  }

  lemma Mod8(a: int, b: int)
    requires a % 8 == 0 && b % 8 == 0
    ensures (a + b) % 8 == 0 && (a - b) % 8 == 0
  {
  }

  /** Blocks that are not last have a length that is a multiple of 8. */
  lemma AlignedLength(p: Pool, i: nat)
    requires WellFormed(p) && Aligned(p.blocks, p.lo) && i + 1 < |p.blocks|
    ensures p.blocks[i].len % 8 == 0
  {
    WithinPool(p.blocks, p.lo, p.hi, i);
    assert p.blocks[i].End() == p.blocks[i + 1].start;
    Mod8(p.blocks[i + 1].start - p.lo, p.blocks[i].start - p.lo);
  }

  /** The block picked for a valid request, when it is not larger, is exact unless it is last. */
  lemma PickedHolds(p: Pool, n: nat)
    requires WellFormed(p) && Aligned(p.blocks, p.lo) && ValidRequest(n) && Allocate(p, n).Allocated?
    requires p.blocks[Picked(p, n)].len <= n
    ensures var i := Picked(p, n);
            && (i + 1 < |p.blocks| ==> p.blocks[i].len == n)
            && (|p.blocks| > 1 ==> n - p.blocks[i].len < 8)
  {
    var i := Picked(p, n);
    if |p.blocks| > 1 {
      assert FreeListIndex(n) <= FreeListIndex(p.blocks[i].len);
      assert 8 * FreeListIndex(n) == n - 8;
      if i + 1 < |p.blocks| {
        AlignedLength(p, i);
      }
    }
  }

  lemma CarveAligned(p: Pool, i: nat, n: nat)
    requires WellFormed(p) && Aligned(p.blocks, p.lo) && i < |p.blocks| && n % 8 == 0
    ensures Aligned(Carve(p.blocks[i], n), p.lo)
  {
    var b := p.blocks[i];
    WithinPool(p.blocks, p.lo, p.hi, i);
    Mod8(b.start - p.lo, n);
    assert b.start + n - p.lo == (b.start - p.lo) + n;
  }

  lemma CarveHolds(p: Pool, asked: map<nat, nat>, n: nat, x: nat)
    requires WellFormed(p) && Aligned(p.blocks, p.lo) && ValidRequest(n) && Allocate(p, n).Allocated?
    requires forall i :: 0 <= i < |p.blocks| && !p.blocks[i].free ==> Holds(p.blocks, asked, i)
    requires var c := Splice(p.blocks, Picked(p, n), Picked(p, n) + 1, Carve(p.blocks[Picked(p, n)], n));
             x < |c| && !c[x].free
    ensures var i := Picked(p, n); var b := p.blocks[i];
            Holds(Splice(p.blocks, i, i + 1, Carve(b, n)), asked[b.start := n], x)
  {
    var i := Picked(p, n);
    var b := p.blocks[i];
    var mid := Carve(b, n);
    var c := Splice(p.blocks, i, i + 1, mid);
    if x == i {
      assert c[x] == mid[0];
      if b.len <= n { PickedHolds(p, n); }
    } else {
      assert c[i] == mid[0];
      if |mid| == 2 { assert c[i + 1] == mid[1]; }
      var o := if x < i then x else x + 1 - |mid|;
      assert c[x] == p.blocks[o];
      if c[x].start == b.start { StartsUnique(p.blocks, p.lo, p.hi, o, i); }
      assert Holds(p.blocks, asked, o);
    }
  }

  lemma TakeFits(l: Ledger, n: nat)
    requires WellFormed(l.pool) && Fits(l) && ValidRequest(n)
    ensures Fits(Step(l, Take(n)))
  {
    var p := l.pool;
    if Allocate(p, n).Allocated? {
      var i := Picked(p, n);
      var mid := Carve(p.blocks[i], n);
      CarveAligned(p, i, n);
      SpliceAligned(p.blocks, p.lo, i, i + 1, mid);
      var c := Splice(p.blocks, i, i + 1, mid);
      forall x | 0 <= x < |c| && !c[x].free ensures Holds(c, l.asked[p.blocks[i].start := n], x) {
        CarveHolds(p, l.asked, n, x);
      }
    }
  }

  lemma GiveFits(l: Ledger, s: nat)
    requires WellFormed(l.pool) && Fits(l) && LiveAt(l.pool.blocks, s)
    ensures Fits(Step(l, Give(s)))
  {
    var p := l.pool;
    var b := p.blocks;
    var i := Find(b, s);
    var a, c := MergeFrom(b, i), MergeTo(b, i);
    var m := Merged(b, i);
    var q := Splice(b, a, c, [m]);
    SpliceAligned(b, p.lo, a, c, [m]);
    forall x | 0 <= x < |q| && !q[x].free ensures Holds(q, l.asked - {s}, x) {
      assert q[a] == m;
      var o := if x < a then x else x + c - a - 1;
      assert q[x] == b[o] && o != i;
      if b[o].start == s { StartsUnique(b, p.lo, p.hi, o, i); }
      assert Holds(b, l.asked, o);
    }
  }

  ghost predicate ValidRun(l: Ledger, ops: seq<Op>)
    requires WellFormed(l.pool)
  {
    Legal(l, ops) && forall op :: op in ops ==> ValidOp(op)
  }

  lemma StepFits(l: Ledger, op: Op)
    requires WellFormed(l.pool) && Fits(l) && Enabled(l, op) && ValidOp(op)
    ensures Fits(Step(l, op))
  {
    match op
    case Take(n) => TakeFits(l, n);
    case Give(s) => GiveFits(l, s);
  }

  lemma {:induction false} RunFits(l: Ledger, ops: seq<Op>)
    requires WellFormed(l.pool) && Fits(l) && ValidRun(l, ops)
    ensures Fits(Run(l, ops))
    decreases |ops|
  {
    hide Step, Enabled;
    if ops != [] {
      StepFits(l, ops[0]);
      RunFits(Step(l, ops[0]), ops[1..]);
    }
  }

  /** Two live blocks' requested extents are disjoint, although a block may be shorter than
      its request: only the pool's last block can be, and it overshoots the pool's end by
      less than 8 LBAs unless it is the whole pool. */
  lemma RequestsNeverCollide(lo: nat, hi: nat, ops: seq<Op>, e: Extent, f: Extent)
    requires lo < hi && WellFormed(Fresh(lo, hi)) && ValidRun(Start(lo, hi), ops)
    requires {e, f} <= Live(Run(Start(lo, hi), ops).pool.blocks) && e != f
    ensures var asked := Run(Start(lo, hi), ops).asked;
            && e.start in asked && f.start in asked
            && (e.start + asked[e.start] <= f.start || f.start + asked[f.start] <= e.start)
            && e.start + asked[e.start] < hi + 8
  {
    hide Step, Enabled;
    var l := Start(lo, hi);
    assert Fits(l);
    RunFits(l, ops);
    FitsApart(Run(l, ops), e, f);
  }

  lemma FitsApart(l: Ledger, e: Extent, f: Extent)
    requires WellFormed(l.pool) && Fits(l)
    requires e in Live(l.pool.blocks) && f in Live(l.pool.blocks) && e != f
    ensures e.start in l.asked && f.start in l.asked
    ensures e.start + l.asked[e.start] <= f.start || f.start + l.asked[f.start] <= e.start
    ensures e.start + l.asked[e.start] < l.pool.hi + 8
  {
    var b := l.pool.blocks;
    var x :| 0 <= x < |b| && b[x] == e;
    var y :| 0 <= y < |b| && b[y] == f;
    assert Holds(b, l.asked, x) && Holds(b, l.asked, y);
    WithinPool(b, l.pool.lo, l.pool.hi, x);
    if x < y {
      Ordered(b, l.pool.lo, l.pool.hi, x, y);
    } else {
      Ordered(b, l.pool.lo, l.pool.hi, y, x);
    }
  }

  // ---------------------------------------------------------------- when the byte counter is exact

  lemma WholeLengths(p: Pool, i: nat)
    requires WellFormed(p) && Aligned(p.blocks, p.lo) && (p.hi - p.lo) % 8 == 0 && i < |p.blocks|
    ensures p.blocks[i].len % 8 == 0
  {
    WithinPool(p.blocks, p.lo, p.hi, i);
    if i + 1 < |p.blocks| {
      AlignedLength(p, i);
    } else {
      Mod8(p.hi - p.lo, p.blocks[i].start - p.lo);
    }
  }

  lemma StepNoShortfall(l: Ledger, op: Op)
    requires WellFormed(l.pool) && Fits(l) && Enabled(l, op) && ValidOp(op)
    requires (l.pool.hi - l.pool.lo) % 8 == 0 && l.pool.hi - l.pool.lo >= 64
    ensures Fits(Step(l, op)) && Step(l, op).drift == l.drift
  {
    hide WellFormed, Allocate, FreeIndex, Lbas;
    match op
    case Take(n) =>
      TakeFits(l, n);
      if Allocate(l.pool, n).Allocated? { ServedExactly(l.pool, n); }
    case Give(s) => GiveFits(l, s);
  }

  lemma {:induction false} RunNoShortfall(l: Ledger, ops: seq<Op>)
    requires WellFormed(l.pool) && Fits(l) && ValidRun(l, ops)
    requires (l.pool.hi - l.pool.lo) % 8 == 0 && l.pool.hi - l.pool.lo >= 64
    ensures Run(l, ops).drift == l.drift
    decreases |ops|
  {
    hide Step, Enabled;
    if ops != [] {
      StepNoShortfall(l, ops[0]);
      RunNoShortfall(Step(l, ops[0]), ops[1..]);
    }
  }

  /** Only the last block is free. */
  ghost predicate TailFree(b: seq<Extent>) {
    |b| > 0 && forall i :: 0 <= i < |b| ==> (b[i].free <==> i == |b| - 1)
  }

  lemma TakeFromTail(l: Ledger, n: nat)
    requires WellFormed(l.pool) && TailFree(l.pool.blocks)
    requires n > 0
    requires FreeListIndex(n) <= HomeList(l.pool.untouched, l.pool.blocks[|l.pool.blocks| - 1].len)
    ensures Allocate(l.pool, n).Allocated? && Picked(l.pool, n) == |l.pool.blocks| - 1
    ensures var last := l.pool.blocks[|l.pool.blocks| - 1]; var r := Step(l, Take(n));
            && Allocate(l.pool, n).block.start == last.start && !r.pool.untouched
            && r.pool.blocks == l.pool.blocks[..|l.pool.blocks| - 1] + Carve(last, n)
            && r.asked == l.asked[last.start := n]
            && (last.len <= n ==> r.drift == l.drift + (n - last.len))
            && (last.len > n ==>
                  && r.drift == l.drift && TailFree(r.pool.blocks)
                  && r.pool.blocks[|r.pool.blocks| - 1].len == last.len - n)
  {
    var p := l.pool;
    ListedBlock(p, |p.blocks| - 1);
    assert Picked(p, n) == |p.blocks| - 1;
    var c := Carve(p.blocks[|p.blocks| - 1], n);
    assert Splice(p.blocks, |p.blocks| - 1, |p.blocks|, c) == p.blocks[..|p.blocks| - 1] + c;
  }

  /** Requests of 8 against a tail that is not a multiple of 8 end in a shortfall. */
  lemma {:induction false} ShortTail(l: Ledger) returns (ops: seq<Op>)
    requires WellFormed(l.pool) && TailFree(l.pool.blocks)
    requires l.pool.blocks[|l.pool.blocks| - 1].len % 8 != 0
    ensures ValidRun(l, ops) && Run(l, ops).drift > l.drift
    decreases l.pool.blocks[|l.pool.blocks| - 1].len
  {
    hide Step;
    TakeFromTail(l, 8);
    var m := Step(l, Take(8));
    var rest: seq<Op> := [];
    if l.pool.blocks[|l.pool.blocks| - 1].len > 8 {
      rest := ShortTail(m);
    }
    ops := [Take(8)] + rest;
    assert ops[1..] == rest;
    assert Legal(m, rest) && Run(l, ops) == Run(m, rest);
  }

  /** For which pools the byte counter never drifts: exactly those of a multiple of 8 LBAs, 64 or
      more. With one LBA held back at the device's end, as the file system builds its pool, a
      device of a multiple of 8 LBAs is never one of them. */
  lemma CounterExactly(lo: nat, hi: nat)
    requires lo < hi
    ensures WellFormed(Fresh(lo, hi))
    ensures (hi - lo) % 8 == 0 && hi - lo >= 64 <==>
            forall ops :: ValidRun(Start(lo, hi), ops) ==> Run(Start(lo, hi), ops).drift == 0
  {
    FreshWellFormed(lo, hi);
    var l := Start(lo, hi);
    assert Fits(l);
    if (hi - lo) % 8 == 0 && hi - lo >= 64 {
      forall ops | ValidRun(l, ops) ensures Run(l, ops).drift == 0 {
        RunNoShortfall(l, ops);
      }
    } else if (hi - lo) % 8 != 0 {
      var ops := ShortTail(l);
    } else {
      TakeFromTail(l, 64);
      var ops := [Take(64)];
      assert ops[1..] == [];
      assert ValidRun(l, ops) && Run(l, ops) == Step(l, Take(64));
    }
  }

  // ---------------------------------------------------------------- when a request succeeds

  /** In an aligned pool of a multiple of 8 LBAs, 64 or more, a block served is exactly as large as
      the request. */
  lemma ServedExactly(p: Pool, n: nat)
    requires WellFormed(p) && Aligned(p.blocks, p.lo) && (p.hi - p.lo) % 8 == 0 && p.hi - p.lo >= 64
    requires ValidRequest(n) && Allocate(p, n).Allocated?
    ensures Allocate(p, n).block.len == n && n <= p.blocks[Picked(p, n)].len
  {
    var i := Picked(p, n);
    WholeLengths(p, i);
    if p.blocks[i].len <= n { PickedHolds(p, n); }
  }

  /** There a request succeeds exactly when that many LBAs are free in a row. */
  lemma SucceedsOnRun(p: Pool, n: nat)
    requires WellFormed(p) && Aligned(p.blocks, p.lo) && (p.hi - p.lo) % 8 == 0 && p.hi - p.lo >= 64 && ValidRequest(n)
    ensures Allocate(p, n).Allocated? <==> HasFreeRun(p.blocks, n)
    ensures Allocate(p, n).Allocated? ==> Allocate(p, n).block.len == n
  {
    if Allocate(p, n).Allocated? {
      ServedExactly(p, n);
      BlockIsRun(p.blocks, Picked(p, n), n);
    } else {
      FailureIsComplete(p, n);
    }
  }

  /** So it is in every state the allocator reaches in such a pool. */
  lemma RunSucceedsExactly(lo: nat, hi: nat, ops: seq<Op>, n: nat)
    requires lo < hi && WellFormed(Fresh(lo, hi)) && ValidRun(Start(lo, hi), ops) && ValidRequest(n)
    requires (hi - lo) % 8 == 0 && hi - lo >= 64
    ensures var p := Run(Start(lo, hi), ops).pool;
            && (Allocate(p, n).Allocated? <==> HasFreeRun(p.blocks, n))
            && (Allocate(p, n).Allocated? ==> Allocate(p, n).block.len == n)
  {
    hide Step, Enabled, Allocate, HasFreeRun;
    assert Fits(Start(lo, hi));
    RunFits(Start(lo, hi), ops);
    SucceedsOnRun(Run(Start(lo, hi), ops).pool, n);
  }

  // ---------------------------------------------------------------- when requested extents collide

  /** Some live block's requested extent runs into the next live block. */
  ghost predicate Collides(l: Ledger) {
    exists e, f :: e in Live(l.pool.blocks) && f in Live(l.pool.blocks) && e.start in l.asked
      && e.start < f.start < e.start + l.asked[e.start]
  }

  /** Two blocks of `m` LBAs live at the pool's start, the rest free. */
  ghost predicate TwoLive(l: Ledger, m: nat) {
    && l.pool.lo + 2 * m < l.pool.hi && !l.pool.untouched
    && l.pool.blocks == [Extent(l.pool.lo, m, false), Extent(l.pool.lo + m, m, false),
                         Extent(l.pool.lo + 2 * m, l.pool.hi - l.pool.lo - 2 * m, true)]
  }

  lemma TwoTaken(l: Ledger, m: nat)
    requires WellFormed(l.pool) && l.pool.untouched && 0 < m && l.pool.hi - l.pool.lo > 2 * m
    ensures Legal(l, [Take(m), Take(m)]) && TwoLive(Run(l, [Take(m), Take(m)]), m)
    ensures var r := Run(l, [Take(m), Take(m)]); r.pool.lo == l.pool.lo && r.pool.hi == l.pool.hi
  {
    var lo, hi := l.pool.lo, l.pool.hi;
    TakeFromTail(l, m);
    var a := Step(l, Take(m));
    assert a.pool.blocks == [Extent(lo, m, false), Extent(lo + m, hi - lo - m, true)];
    FreeListIndexMonotone(m, hi - lo - m);
    TakeFromTail(a, m);
    RunTwo(l, Take(m), Take(m));
  }

  lemma FirstGivenBack(l: Ledger, m: nat)
    requires WellFormed(l.pool) && 0 < m && TwoLive(l, m)
    ensures Enabled(l, Give(l.pool.lo))
    ensures var r := Step(l, Give(l.pool.lo)); var k := FreeListIndex(m);
            && r.pool.lo == l.pool.lo && r.pool.blocks == l.pool.blocks[0 := Extent(l.pool.lo, m, true)]
            && r.pool.lists[k] != [] && r.pool.lists[k][0] == l.pool.lo
  {
    assert l.pool.blocks[0].start == l.pool.lo;
    StartsUnique(l.pool.blocks, l.pool.lo, l.pool.hi, Find(l.pool.blocks, l.pool.lo), 0);
  }

  lemma ShortInTheMiddle(l: Ledger, m: nat, n: nat)
    requires WellFormed(l.pool) && 0 < m < n && FreeListIndex(m) == FreeListIndex(n)
    requires |l.pool.blocks| == 3 && l.pool.blocks[0] == Extent(l.pool.lo, m, true)
    requires l.pool.blocks[1] == Extent(l.pool.lo + m, m, false)
    requires l.pool.lists[FreeListIndex(m)] != [] && l.pool.lists[FreeListIndex(m)][0] == l.pool.lo
    ensures Collides(Step(l, Take(n)))
  {
    var r := Step(l, Take(n));
    assert PickedList(l.pool, n) == FreeListIndex(m);
    StartsUnique(l.pool.blocks, l.pool.lo, l.pool.hi, Picked(l.pool, n), 0);
    AllocateAddsOne(l.pool, n);
    assert l.pool.blocks[1] in Live(l.pool.blocks);
    assert Extent(l.pool.lo, m, false) in Live(r.pool.blocks) && l.pool.blocks[1] in Live(r.pool.blocks);
  }

  /** Two sizes of the same class collide: a gap the smaller one leaves serves the larger one. */
  lemma SameClassCollides(l: Ledger, m: nat, n: nat) returns (ops: seq<Op>)
    requires WellFormed(l.pool) && l.pool.untouched && 0 < m < n && FreeListIndex(m) == FreeListIndex(n)
    requires l.pool.hi - l.pool.lo > 2 * m
    ensures ops == [Take(m), Take(m), Give(l.pool.lo), Take(n)] && Legal(l, ops) && Collides(Run(l, ops))
  {
    hide Step, Collides, TwoLive;
    var two, more := [Take(m), Take(m)], [Give(l.pool.lo), Take(n)];
    TwoTaken(l, m);
    var a := Run(l, two);
    GapServesLarger(a, m, n);
    RunTwo(a, Give(l.pool.lo), Take(n));
    RunConcat(l, two, more);
    ops := two + more;
  }

  lemma GapServesLarger(l: Ledger, m: nat, n: nat)
    requires WellFormed(l.pool) && 0 < m < n && FreeListIndex(m) == FreeListIndex(n) && TwoLive(l, m)
    ensures Enabled(l, Give(l.pool.lo)) && Enabled(Step(l, Give(l.pool.lo)), Take(n))
    ensures Collides(Step(Step(l, Give(l.pool.lo)), Take(n)))
  {
    hide Step, Collides, FreeListIndex;
    FirstGivenBack(l, m);
    ShortInTheMiddle(Step(l, Give(l.pool.lo)), m, n);
  }

  /** What the temporary files ask for: one of the eight buffer sizes, in LBAs. */
  predicate BufferRequest(n: nat, lbaSize: nat)
    requires lbaSize > 0
  {
    exists j :: 1 <= j <= 8 && n == 32768 * j / lbaSize
  }

  ghost predicate BufferRun(l: Ledger, ops: seq<Op>, lbaSize: nat)
    requires WellFormed(l.pool) && lbaSize > 0
  {
    Legal(l, ops) && forall op :: op in ops && op.Take? ==> BufferRequest(op.n, lbaSize)
  }

  /** The LBA sizes of NVMe devices, a power of two of at least 512, that a buffer is made of. */
  predicate DeviceLbaSize(lbaSize: nat) {
    lbaSize in {512, 1024, 2048, 4096, 8192, 16384, 32768}
  }

  /** Two buffer sizes whose requests are of the same class. */
  function Clash(lbaSize: nat): (c: (nat, nat))
    requires DeviceLbaSize(lbaSize) && lbaSize != 4096
    ensures 0 < c.0 < c.1 && c.0 <= 64 && FreeListIndex(c.0) == FreeListIndex(c.1)
    ensures BufferRequest(c.0, lbaSize) && BufferRequest(c.1, lbaSize)
  {
    if lbaSize == 512 then
      assert 64 == 32768 * 1 / 512 && 128 == 32768 * 2 / 512;
      (64, 128)
    else if lbaSize == 1024 then
      assert 64 == 32768 * 2 / 1024 && 96 == 32768 * 3 / 1024;
      (64, 96)
    else if lbaSize == 2048 then
      assert 64 == 32768 * 4 / 2048 && 80 == 32768 * 5 / 2048;
      (64, 80)
    else
      var small := 32768 / lbaSize;
      assert small == 32768 * 1 / lbaSize && 2 * small == 32768 * 2 / lbaSize;
      (small, 2 * small)
  }

  /** In every pool of more than 128 LBAs: no run of the buffer requests ever makes two requested
      extents collide if and only if LBAs are 4096 bytes. */
  lemma CollisionFreeExactly(lo: nat, hi: nat, lbaSize: nat)
    requires hi - lo > 128 && DeviceLbaSize(lbaSize)
    ensures WellFormed(Fresh(lo, hi))
    ensures lbaSize == 4096 <==>
            forall ops :: BufferRun(Start(lo, hi), ops, lbaSize) ==> !Collides(Run(Start(lo, hi), ops))
  {
    hide Collides, FreeListIndex;
    FreshWellFormed(lo, hi);
    var l := Start(lo, hi);
    if lbaSize == 4096 {
      forall ops | BufferRun(l, ops, lbaSize) ensures !Collides(Run(l, ops)) {
        NeverCollides(lo, hi, ops);
      }
    } else {
      var c := Clash(lbaSize);
      var ops := SameClassCollides(l, c.0, c.1);
      assert BufferRun(l, ops, lbaSize);
    }
  }

  lemma NeverCollides(lo: nat, hi: nat, ops: seq<Op>)
    requires lo < hi && WellFormed(Fresh(lo, hi)) && BufferRun(Start(lo, hi), ops, 4096)
    ensures !Collides(Run(Start(lo, hi), ops))
  {
    hide Legal, Run;
    var l := Start(lo, hi);
    forall op | op in ops ensures ValidOp(op) {}
    var r := Run(l, ops);
    forall e, f | e in Live(r.pool.blocks) && f in Live(r.pool.blocks) && e.start in r.asked && e != f
      ensures !(e.start < f.start < e.start + r.asked[e.start])
    {
      RequestsNeverCollide(lo, hi, ops, e, f);
    }
  }

  lemma RunTwo(l: Ledger, a: Op, b: Op)
    requires WellFormed(l.pool) && Enabled(l, a) && Enabled(Step(l, a), b)
    ensures Legal(l, [a, b]) && Run(l, [a, b]) == Step(Step(l, a), b)
  {
    hide Step, Enabled;
    assert [a, b][1..] == [b] && [b][1..] == [];
    assert Legal(Step(l, a), [b]) && Run(Step(l, a), [b]) == Run(Step(Step(l, a), b), []);
  }

  lemma {:induction false} RunConcat(l: Ledger, ops: seq<Op>, more: seq<Op>)
    requires WellFormed(l.pool) && Legal(l, ops) && Legal(Run(l, ops), more)
    ensures Legal(l, ops + more) && Run(l, ops + more) == Run(Run(l, ops), more)
    decreases |ops|
  {
    hide Step, Enabled;
    if ops == [] {
      assert ops + more == more;
    } else {
      assert (ops + more)[1..] == ops[1..] + more;
      RunConcat(Step(l, ops[0]), ops[1..], more);
    }
  }
}
