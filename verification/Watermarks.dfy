/** The write watermarks of a database file and of its WAL. Any number of threads move one with a
    compare-and-swap loop while others truncate or reset it. A step is one atomic access. */
module Watermarks {
  import opened Basics

  const TRUNCATE_UNIT: nat := 4096

  /** A running loop: the value it expects to find and the one it wants to store. Only a write's
      loop gives up when the location has passed it. */
  datatype Loop = Loop(isWrite: bool, expected: nat, next: nat)

  /** `[lo, hi)` is the file's region; `ended` are the write ends whose loops are over. */
  datatype Mark = Mark(lo: nat, hi: nat, location: nat, loops: map<nat, Loop>, ended: seq<nat>)

  datatype Event =
    | BeginWrite(t: nat, startLba: nat, nrLbas: nat)
    | BeginTruncate(t: nat, newSize: nat)
    | Attempt(t: nat, spurious: bool)  // one pass; a weak compare-and-swap may fail for no reason
    | Reset

  // ---------------------------------------------------------------- ranges

  /** IsLBAInRange of both strategies; `hi - 1` does not wrap because a region never starts at 0. */
  predicate IsLBAInRange(lo: nat, hi: nat, startLba: nat, lbaCount: nat) {
    !(startLba < lo) && !(lbaCount > 0 && startLba + lbaCount - 1 > hi - 1)
  }

  function TruncatedLbas(newSize: nat): nat {
    RequiredLbas(newSize, 0, TRUNCATE_UNIT)
  }

  // ---------------------------------------------------------------- steps

  predicate Allowed(m: Mark, e: Event) {
    match e
    case BeginWrite(t, startLba, nrLbas) => t !in m.loops && IsLBAInRange(m.lo, m.hi, startLba, nrLbas)
    case BeginTruncate(t, _) => t !in m.loops
    case Attempt(t, _) => t in m.loops
    case Reset => true
  }

  function Step(m: Mark, e: Event): Mark
    requires Allowed(m, e)
  {
    match e
    case BeginWrite(t, startLba, nrLbas) => m.(loops := m.loops[t := Loop(true, m.location, startLba + nrLbas)])
    case BeginTruncate(t, newSize) =>
      var next := m.lo + TruncatedLbas(newSize);
      if next > m.hi then m else m.(loops := m.loops[t := Loop(false, m.location, next)])
    case Attempt(t, spurious) =>
      var l := m.loops[t];
      if l.isWrite && l.next < l.expected then m.(loops := m.loops - {t}, ended := m.ended + [l.next])
      else if m.location == l.expected && !spurious then
        m.(location := l.next, loops := m.loops - {t}, ended := if l.isWrite then m.ended + [l.next] else m.ended)
      else m.(loops := m.loops[t := l.(expected := m.location)])
    case Reset => m.(location := m.lo)
  }

  predicate Legal(m: Mark, es: seq<Event>)
    decreases |es|
  {
    es == [] || (Allowed(m, es[0]) && Legal(Step(m, es[0]), es[1..]))
  }

  function Run(m: Mark, es: seq<Event>): Mark
    requires Legal(m, es)
    decreases |es|
  {
    if es == [] then m else Run(Step(m, es[0]), es[1..])
  }

  // ---------------------------------------------------------------- safety

  ghost predicate Safe(m: Mark) {
    && m.lo <= m.location <= m.hi
    && forall t :: t in m.loops ==> m.lo <= m.loops[t].next <= m.hi
  }

  /** A write the range check accepts ends inside the region exactly when it is not empty or
      starts no later than the region's end. */
  ghost predicate EndsInside(m: Mark, e: Event) {
    e.BeginWrite? ==> e.nrLbas > 0 || e.startLba <= m.hi
  }

  lemma StepSafe(m: Mark, e: Event)
    requires Safe(m) && Allowed(m, e)
    ensures Safe(Step(m, e)) <==> EndsInside(m, e)
  {
    var r := Step(m, e);
    if e.BeginWrite? && !EndsInside(m, e) {
      assert e.t in r.loops;
    }
  }

  /** Between its region's bounds at every step of every interleaving of non-empty writes,
      truncations and resets. */
  lemma {:induction false} RunSafe(m: Mark, es: seq<Event>)
    requires Safe(m) && Legal(m, es) && forall e :: e in es && e.BeginWrite? ==> e.nrLbas > 0
    ensures Safe(Run(m, es)) && Run(m, es).lo == m.lo && Run(m, es).hi == m.hi
    decreases |es|
  {
    hide Safe, Allowed;
    if es != [] {
      assert es[0] in es;
      StepSafe(m, es[0]);
      RunSafe(Step(m, es[0]), es[1..]);
    }
  }

  /** An empty write beyond the region passes the check and carries the watermark out. The device
      write comes first: for no blocks the other engines issue a command with a wrapped block
      count, while the asynchronous engine issues none and goes on, if it gets a buffer of no
      bytes. */
  lemma EmptyWriteEscapes(m: Mark, t: nat, startLba: nat) returns (es: seq<Event>)
    requires Safe(m) && t !in m.loops && startLba > m.hi
    ensures es == [BeginWrite(t, startLba, 0), Attempt(t, false)]
    ensures Legal(m, es) && Run(m, es).location == startLba > m.hi
  {
    es := [BeginWrite(t, startLba, 0), Attempt(t, false)];
    var a := Step(m, es[0]);
    assert es[1..][0] == es[1] && es[1..][1..] == [];
    assert Run(Step(a, es[1]), []) == Step(a, es[1]);
  }

  /** The available space, in the source's unsigned 64-bit arithmetic. */
  function AvailableSpace(m: Mark, lbaSize: nat): int {
    Wrapped(Wrapped((m.hi - m.lo) * lbaSize) - Wrapped((m.location - m.lo) * lbaSize))
  }

  /** The subtraction does not wrap while the watermark is safe. */
  lemma SpaceExactly(m: Mark, lbaSize: nat)
    requires Safe(m) && m.hi * lbaSize < U64
    ensures AvailableSpace(m, lbaSize) == (m.hi - m.location) * lbaSize
  {
    TimesMonotone(m.hi - m.lo, m.hi, lbaSize);
    TimesAdd(m.hi - m.location, m.location - m.lo, lbaSize);
    Unwrapped((m.hi - m.location) * lbaSize, (m.location - m.lo) * lbaSize);
  }

  lemma Unwrapped(free: nat, used: nat)
    requires free + used < U64
    ensures Wrapped(Wrapped(free + used) - Wrapped(used)) == free
  {
  }

  // ---------------------------------------------------------------- only writes

  function MaxOf(first: nat, rest: seq<nat>): (r: nat)
    ensures r >= first && forall x :: x in rest ==> x <= r
    ensures r == first || r in rest
  {
    if rest == [] then first else
    var r := MaxOf(first, rest[..|rest| - 1]);
    assert rest == rest[..|rest| - 1] + [rest[|rest| - 1]];
    if r < rest[|rest| - 1] then rest[|rest| - 1] else r
  }

  lemma MaxAppend(first: nat, rest: seq<nat>, x: nat)
    ensures MaxOf(first, rest + [x]) == if MaxOf(first, rest) < x then x else MaxOf(first, rest)
  {
    assert (rest + [x])[..|rest|] == rest;
  }

  /** While there are only writes: the location is the highest end of a finished write, and no
      loop expects more than it. */
  ghost predicate Highest(first: nat, m: Mark) {
    && m.location == MaxOf(first, m.ended)
    && forall t :: t in m.loops ==> m.loops[t].isWrite && m.loops[t].expected <= m.location
  }

  lemma StepHighest(first: nat, m: Mark, e: Event)
    requires Highest(first, m) && Allowed(m, e) && (e.BeginWrite? || e.Attempt?)
    ensures Highest(first, Step(m, e)) && m.location <= Step(m, e).location
  {
    if e.Attempt? {
      MaxAppend(first, m.ended, m.loops[e.t].next);
    }
  }

  /** However the loops interleave, and whatever fails spuriously, the location ends as the maximum
      of where it began and all completed write ends, and it never moves back. */
  lemma {:induction false} OnlyWrites(first: nat, m: Mark, es: seq<Event>)
    requires Highest(first, m) && Legal(m, es) && forall e :: e in es ==> e.BeginWrite? || e.Attempt?
    ensures Highest(first, Run(m, es)) && m.location <= Run(m, es).location
    decreases |es|
  {
    hide Highest, Allowed, Step;
    if es != [] {
      assert es[0] in es;
      StepHighest(first, m, es[0]);
      OnlyWrites(first, Step(m, es[0]), es[1..]);
    }
  }

  // ---------------------------------------------------------------- every interleaving

  /** What an operation does to the watermark when it takes effect. */
  datatype Effect = Raise(t: nat, end: nat) | Put(at: nat) {
    function Value(): nat { if Raise? then end else at }

    function Applied(location: nat): nat { if Raise? && end < location then location else Value() }
  }

  function Fold(location: nat, xs: seq<Effect>): nat
    decreases |xs|
  {
    if xs == [] then location else Fold(xs[0].Applied(location), xs[1..])
  }

  /** The effect of a step, if any. A write takes effect where it stores, or where it loads a location
      already past its end; a truncation or reset where it stores. */
  function EffectOf(m: Mark, e: Event): seq<Effect>
    requires Allowed(m, e)
  {
    match e
    case BeginWrite(t, startLba, nrLbas) => if startLba + nrLbas < m.location then [Raise(t, startLba + nrLbas)] else []
    case BeginTruncate(_, _) => []
    case Attempt(t, spurious) =>
      var l := m.loops[t];
      if l.isWrite && l.next < l.expected then []
      else if m.location == l.expected && !spurious then (if l.isWrite then [Raise(t, l.next)] else [Put(l.next)])
      else if l.isWrite && l.next < m.location then [Raise(t, l.next)]
      else []
    case Reset => [Put(m.lo)]
  }

  function Effects(m: Mark, es: seq<Event>): seq<Effect>
    requires Legal(m, es)
    decreases |es|
  {
    if es == [] then [] else EffectOf(m, es[0]) + Effects(Step(m, es[0]), es[1..])
  }

  lemma {:induction false} FoldConcat(location: nat, xs: seq<Effect>, ys: seq<Effect>)
    ensures Fold(location, xs + ys) == Fold(Fold(location, xs), ys)
    decreases |xs|
  {
    if xs == [] {
      assert xs + ys == ys;
    } else {
      assert (xs + ys)[1..] == xs[1..] + ys;
      FoldConcat(xs[0].Applied(location), xs[1..], ys);
    }
  }

  /** Every interleaving leaves the watermark where its effects, one after the other, leave it. */
  lemma {:induction false} Linear(m: Mark, es: seq<Event>)
    requires Legal(m, es)
    ensures Run(m, es).location == Fold(m.location, Effects(m, es))
    decreases |es|
  {
    if es != [] {
      StepLinear(m, es[0]);
      hide Step, Allowed, EffectOf;
      FoldConcat(m.location, EffectOf(m, es[0]), Effects(Step(m, es[0]), es[1..]));
      Linear(Step(m, es[0]), es[1..]);
    }
  }

  lemma StepLinear(m: Mark, e: Event)
    requires Allowed(m, e)
    ensures Step(m, e).location == Fold(m.location, EffectOf(m, e))
  {
    var xs := EffectOf(m, e);
    if xs != [] { assert xs[1..] == []; }
  }

  /** How many effects are writes of thread `t`. */
  function Raises(xs: seq<Effect>, t: nat): nat {
    if xs == [] then 0 else One(xs[0].Raise? && xs[0].t == t) + Raises(xs[1..], t)
  }

  lemma {:induction false} RaisesConcat(xs: seq<Effect>, ys: seq<Effect>, t: nat)
    ensures Raises(xs + ys, t) == Raises(xs, t) + Raises(ys, t)
  {
    if xs == [] {
      assert xs + ys == ys;
    } else {
      assert (xs + ys)[1..] == xs[1..] + ys;
      RaisesConcat(xs[1..], ys, t);
    }
  }

  /** The loop has loaded a location past its end: it has taken effect and will give up. */
  predicate Passed(l: Loop) { l.isWrite && l.next < l.expected }

  ghost predicate Quiet(es: seq<Event>, t: nat) {
    forall e :: e in es ==> !(e.BeginWrite? && e.t == t) && !(e.BeginTruncate? && e.t == t)
  }

  lemma StepEffects(m: Mark, e: Event, t: nat)
    requires Allowed(m, e) && Quiet([e], t)
    ensures t !in m.loops ==> t !in Step(m, e).loops && Raises(EffectOf(m, e), t) == 0
    ensures t in m.loops && t in Step(m, e).loops ==>
      && Step(m, e).loops[t].isWrite == m.loops[t].isWrite && Step(m, e).loops[t].next == m.loops[t].next
    ensures t in m.loops && m.loops[t].isWrite ==>
      Raises(EffectOf(m, e), t) + One(Passed(m.loops[t]))
        == if t in Step(m, e).loops then One(Passed(Step(m, e).loops[t])) else 1
    ensures forall x :: x in EffectOf(m, e) && x.Raise? && x.t == t ==> t in m.loops && x.end == m.loops[t].next
  {
    assert e in [e];
    var xs := EffectOf(m, e);
    if xs != [] { assert xs[1..] == []; }
  }

  lemma {:induction false} LoopEffects(m: Mark, es: seq<Event>, t: nat)
    requires Legal(m, es) && Quiet(es, t)
    ensures t !in m.loops ==> t !in Run(m, es).loops && Raises(Effects(m, es), t) == 0
    ensures t in m.loops && m.loops[t].isWrite && t !in Run(m, es).loops ==>
      Raises(Effects(m, es), t) + One(Passed(m.loops[t])) == 1
    ensures forall x :: x in Effects(m, es) && x.Raise? && x.t == t ==> t in m.loops && x.end == m.loops[t].next
    decreases |es|
  {
    if es != [] {
      assert Quiet([es[0]], t) by { assert es[0] in es; }
      StepEffects(m, es[0], t);
      hide Step, Allowed, EffectOf, Passed;
      LoopEffects(Step(m, es[0]), es[1..], t);
      RaisesConcat(EffectOf(m, es[0]), Effects(Step(m, es[0]), es[1..]), t);
    }
  }

  /** The effects of a write that begins now and of what follows. */
  function WriteEffects(m: Mark, t: nat, startLba: nat, nrLbas: nat, es: seq<Event>): seq<Effect>
    requires Allowed(m, BeginWrite(t, startLba, nrLbas)) && Legal(Step(m, BeginWrite(t, startLba, nrLbas)), es)
  {
    EffectOf(m, BeginWrite(t, startLba, nrLbas)) + Effects(Step(m, BeginWrite(t, startLba, nrLbas)), es)
  }

  /** Effect `i` is the only one of thread `t`'s write. */
  ghost predicate OnlyRaise(xs: seq<Effect>, t: nat, end: nat, i: nat) {
    && i < |xs| && xs[i] == Raise(t, end)
    && forall j :: 0 <= j < |xs| && xs[j].Raise? && xs[j].t == t ==> j == i
  }

  lemma {:induction false} OneRaise(xs: seq<Effect>, t: nat, end: nat) returns (i: nat)
    requires Raises(xs, t) == 1 && forall x :: x in xs && x.Raise? && x.t == t ==> x.end == end
    ensures OnlyRaise(xs, t, end, i)
  {
    if xs[0].Raise? && xs[0].t == t {
      i := 0;
      assert xs[0] in xs;
      NoRaise(xs[1..], t);
    } else {
      i := OneRaise(xs[1..], t, end);
      i := i + 1;
    }
  }

  lemma {:induction false} NoRaise(xs: seq<Effect>, t: nat)
    requires Raises(xs, t) == 0
    ensures forall j :: 0 <= j < |xs| ==> !(xs[j].Raise? && xs[j].t == t)
  {
    if xs != [] { NoRaise(xs[1..], t); }
  }

  /** A write that has ended took effect exactly once since it began, with its own end. */
  lemma WriteOnce(m: Mark, t: nat, startLba: nat, nrLbas: nat, es: seq<Event>) returns (i: nat)
    requires Allowed(m, BeginWrite(t, startLba, nrLbas)) && Legal(Step(m, BeginWrite(t, startLba, nrLbas)), es)
    requires Quiet(es, t) && t !in Run(Step(m, BeginWrite(t, startLba, nrLbas)), es).loops
    ensures OnlyRaise(WriteEffects(m, t, startLba, nrLbas, es), t, startLba + nrLbas, i)
  {
    var b := BeginWrite(t, startLba, nrLbas);
    var n := Step(m, b);
    LoopEffects(n, es, t);
    RaisesConcat(EffectOf(m, b), Effects(n, es), t);
    if EffectOf(m, b) != [] { assert EffectOf(m, b)[1..] == []; }
    i := OneRaise(WriteEffects(m, t, startLba, nrLbas, es), t, startLba + nrLbas);
  }

  /** A truncation or reset after effect `i` puts the watermark below `end`, and nothing later
      brings it back. */
  ghost predicate LostAfter(xs: seq<Effect>, i: nat, end: nat) {
    exists j :: i < j < |xs| && xs[j].Put? && forall k :: j <= k < |xs| ==> xs[k].Value() < end
  }

  lemma {:induction false} LostExactly(location: nat, xs: seq<Effect>, i: nat)
    requires i < |xs| && xs[i].Raise?
    ensures Fold(location, xs) < xs[i].end <==> LostAfter(xs, i, xs[i].end)
    decreases |xs|
  {
    var n := |xs| - 1;
    var ys, x := xs[..n], xs[n];
    assert xs == ys + [x];
    FoldConcat(location, ys, [x]);
    assert [x][1..] == [];
    if i < n {
      LostExactly(location, ys, i);
      LostStep(ys, x, i, xs[i].end);
    }
  }

  lemma LostStep(ys: seq<Effect>, x: Effect, i: nat, end: nat)
    requires i < |ys|
    ensures LostAfter(ys + [x], i, end) <==> x.Value() < end && (x.Put? || LostAfter(ys, i, end))
  {
    var xs := ys + [x];
    if LostAfter(xs, i, end) {
      var j :| i < j < |xs| && xs[j].Put? && forall k :: j <= k < |xs| ==> xs[k].Value() < end;
      assert xs[|ys|] == x;
      if j < |ys| { assert forall k :: j <= k < |ys| ==> ys[k] == xs[k]; }
    }
    if x.Value() < end && LostAfter(ys, i, end) {
      var j :| i < j < |ys| && ys[j].Put? && forall k :: j <= k < |ys| ==> ys[k].Value() < end;
      assert xs[j].Put? && forall k :: j <= k < |xs| ==> xs[k].Value() < end;
    }
    if x.Value() < end && x.Put? { assert xs[|ys|].Put?; }
  }

  /** When a finished write's advance is lost, for every interleaving: exactly when, after the write
      takes effect, a truncation or reset takes effect below its end and nothing later reaches it. */
  lemma WriteLostExactly(m: Mark, t: nat, startLba: nat, nrLbas: nat, es: seq<Event>) returns (i: nat)
    requires Allowed(m, BeginWrite(t, startLba, nrLbas)) && Legal(Step(m, BeginWrite(t, startLba, nrLbas)), es)
    requires Quiet(es, t) && t !in Run(Step(m, BeginWrite(t, startLba, nrLbas)), es).loops
    ensures OnlyRaise(WriteEffects(m, t, startLba, nrLbas, es), t, startLba + nrLbas, i)
    ensures Run(Step(m, BeginWrite(t, startLba, nrLbas)), es).location < startLba + nrLbas <==>
            LostAfter(WriteEffects(m, t, startLba, nrLbas, es), i, startLba + nrLbas)
  {
    var b := BeginWrite(t, startLba, nrLbas);
    var xs := WriteEffects(m, t, startLba, nrLbas, es);
    i := WriteOnce(m, t, startLba, nrLbas, es);
    LostExactly(m.location, xs, i);
    StepLinear(m, b);
    Linear(Step(m, b), es);
    FoldConcat(m.location, EffectOf(m, b), Effects(Step(m, b), es));
  }

  /** A schedule that loses a write: it read the old location, a truncation comes in between, and the
      write gives up and leaves the shorter file, although its data is beyond the end. */
  lemma TruncateLosesWrite(m: Mark, t: nat, u: nat, startLba: nat, nrLbas: nat) returns (es: seq<Event>)
    requires Safe(m) && t != u && t !in m.loops && u !in m.loops && m.lo <= startLba && 0 < nrLbas
    requires m.lo < startLba + nrLbas < m.location
    ensures es == [BeginWrite(t, startLba, nrLbas), BeginTruncate(u, 0), Attempt(u, false), Attempt(t, false)]
    ensures Legal(m, es) && var r := Run(m, es);
            r.ended == m.ended + [startLba + nrLbas] && r.location == m.lo < startLba + nrLbas && t !in r.loops
  {
    es := [BeginWrite(t, startLba, nrLbas), BeginTruncate(u, 0), Attempt(u, false), Attempt(t, false)];
    var a := Step(m, es[0]);
    var b := Step(a, es[1]);
    var c := Step(b, es[2]);
    var d := Step(c, es[3]);
    OneMore(c, es[3], []);
    OneMore(b, es[2], [es[3]] + []);
    OneMore(a, es[1], [es[2]] + ([es[3]] + []));
    OneMore(m, es[0], [es[1]] + ([es[2]] + ([es[3]] + [])));
    assert es == [es[0]] + ([es[1]] + ([es[2]] + ([es[3]] + [])));
  }

  /** A write gives up only past its end: where the location is exactly its end it goes on to store,
      so that a truncation in between does not lose it. */
  lemma EqualEndStores(m: Mark, t: nat, u: nat, startLba: nat, nrLbas: nat) returns (es: seq<Event>)
    requires Safe(m) && t != u && t !in m.loops && u !in m.loops && m.lo <= startLba && 0 < nrLbas
    requires startLba + nrLbas == m.location
    ensures es == [BeginWrite(t, startLba, nrLbas), BeginTruncate(u, 0), Attempt(u, false),
                    Attempt(t, false), Attempt(t, false)]
    ensures Legal(m, es) && Run(m, es).location == startLba + nrLbas && t !in Run(m, es).loops
  {
    es := [BeginWrite(t, startLba, nrLbas), BeginTruncate(u, 0), Attempt(u, false),
            Attempt(t, false), Attempt(t, false)];
    var a := Step(m, es[0]);
    var b := Step(a, es[1]);
    var c := Step(b, es[2]);
    var d := Step(c, es[3]);
    OneMore(d, es[4], []);
    OneMore(c, es[3], [es[4]] + []);
    OneMore(b, es[2], [es[3]] + ([es[4]] + []));
    OneMore(a, es[1], [es[2]] + ([es[3]] + ([es[4]] + [])));
    OneMore(m, es[0], [es[1]] + ([es[2]] + ([es[3]] + ([es[4]] + []))));
    assert es == [es[0]] + ([es[1]] + ([es[2]] + ([es[3]] + ([es[4]] + []))));
  }

  lemma OneMore(m: Mark, e: Event, es: seq<Event>)
    requires Allowed(m, e) && Legal(Step(m, e), es)
    ensures Legal(m, [e] + es) && Run(m, [e] + es) == Run(Step(m, e), es)
  {
    hide Step, Allowed;
    assert ([e] + es)[1..] == es;
  }

  /** The last store of a run decides: a truncation whose loop succeeds leaves the watermark after
      the fewest 4096-byte blocks that hold the new size, whatever ran between its two steps. */
  lemma TruncateSets(m: Mark, t: nat, newSize: nat, es: seq<Event>, spurious: bool)
    requires t !in m.loops && m.lo + TruncatedLbas(newSize) <= m.hi
    requires Legal(Step(m, BeginTruncate(t, newSize)), es)
    requires forall e :: e in es ==> !(e.Attempt? && e.t == t)
    ensures var r := Run(Step(m, BeginTruncate(t, newSize)), es);
            && t in r.loops
            && (t !in Step(r, Attempt(t, spurious)).loops ==>
                  Step(r, Attempt(t, spurious)).location == m.lo + TruncatedLbas(newSize))
    ensures newSize <= 4096 * TruncatedLbas(newSize) < newSize + 4096
    ensures var r := Run(Step(m, BeginTruncate(t, newSize)), es);
            t !in Step(r, Attempt(t, spurious)).loops ==>
              newSize <= 4096 * (Step(r, Attempt(t, spurious)).location - m.lo) < newSize + 4096
  {
    LoopStays(Step(m, BeginTruncate(t, newSize)), es, t);
  }

  /** A truncation is refused, and changes nothing, exactly when its 4096-byte blocks do not fit the
      region. */
  lemma TruncateRefusedExactly(m: Mark, t: nat, newSize: nat)
    requires t !in m.loops && m.lo <= m.hi
    ensures t in Step(m, BeginTruncate(t, newSize)).loops <==> newSize <= 4096 * (m.hi - m.lo)
    ensures t !in Step(m, BeginTruncate(t, newSize)).loops ==> Step(m, BeginTruncate(t, newSize)) == m
    ensures Step(m, BeginTruncate(t, newSize)).location == m.location
  {
    RequiredIs(newSize, 0, TRUNCATE_UNIT, m.hi - m.lo);
  }

  /** A reset, whatever loops are running, makes the whole region available. */
  lemma ResetFrees(m: Mark, lbaSize: nat)
    requires Safe(m) && m.hi * lbaSize < U64
    ensures Safe(Step(m, Reset)) && Step(m, Reset).loops == m.loops
    ensures AvailableSpace(Step(m, Reset), lbaSize) == (m.hi - m.lo) * lbaSize
  {
    SpaceExactly(Step(m, Reset), lbaSize);
  }

  lemma {:induction false} LoopStays(m: Mark, es: seq<Event>, t: nat)
    requires Legal(m, es) && t in m.loops && forall e :: e in es ==> !(e.Attempt? && e.t == t)
    ensures t in Run(m, es).loops && Run(m, es).loops[t] == m.loops[t]
    decreases |es|
  {
    if es != [] {
      assert es[0] in es;
      LoopStays(Step(m, es[0]), es[1..], t);
    }
  }

  // ---------------------------------------------------------------- truncation's block size

  /** Truncation always counts blocks of 4096 bytes: it keeps the blocks the new size needs, for
      every size, exactly on devices with 4096-byte LBAs. */
  lemma TruncateUnitExactly(lbaSize: nat)
    requires lbaSize > 0
    ensures lbaSize == 4096 <==> forall n: nat :: TruncatedLbas(n) == RequiredLbas(n, 0, lbaSize)
  {
    if lbaSize != TRUNCATE_UNIT {
      var n: nat := Max(lbaSize, TRUNCATE_UNIT);
      RequiredIs(n, 0, TRUNCATE_UNIT, 1);
      RequiredIs(n, 0, lbaSize, 1);
      assert TruncatedLbas(n) != RequiredLbas(n, 0, lbaSize);
    }
  }
}
