/** The prefetching engine: after each read, a slot per thread holds one speculative read of the
    blocks that follow. The command completes at some later moment and sees the device as it is
    then. */
module PrefetchEngine {
  import opened Basics
  import opened Device
  import opened SyncEngine

  datatype Fill = Empty | Filled(bytes: seq<Byte>)

  /** One thread's prefetch; `fill` is what its command has put in the buffer so far. */
  datatype Slot = Slot(active: bool, expectedLba: nat, expectedNrLbas: nat, fill: Fill)

  function Idle(s: Slot): Slot { s.(active := false) }

  const SLOTS: nat := 256
  const NO_JUNK: nat -> Byte := _ => 0

  /** The slot of a thread, by how many threads asked for one before it. */
  function ThreadIndex(before: nat, maxThreads: nat): nat
    requires maxThreads > 0
  {
    before % maxThreads
  }

  /** Every thread's slot is in the array exactly when no more than 256 threads are configured. */
  lemma SlotsExactly(maxThreads: nat)
    requires maxThreads > 0
    ensures maxThreads <= 256 <==> forall before: nat :: ThreadIndex(before, maxThreads) < SLOTS
  {
    if maxThreads > SLOTS {
      assert ThreadIndex(SLOTS, maxThreads) == SLOTS;
    }
  }

  /** Of as many threads as are configured, no two have the same slot; the threads after them have
      the slots of those again. */
  lemma SlotsShared(i: nat, j: nat, maxThreads: nat)
    requires i < j < maxThreads
    ensures ThreadIndex(i, maxThreads) != ThreadIndex(j, maxThreads)
    ensures ThreadIndex(i + maxThreads, maxThreads) == ThreadIndex(i, maxThreads)
  {
    SameRemainder(i, maxThreads);
  }

  lemma SameRemainder(a: nat, p: nat)
    requires p > 0
    ensures (a + p) % p == a % p
  {
    DivMul(a + p, a / p + 1, p);
    DivMul(a + p, a / p + 2, p);
    TimesFacts(a / p, p);
    TimesFacts(a / p + 1, p);
    DivMod(a, p);
    DivMod(a + p, p);
  }

  datatype Engine = Engine(lbaSize: nat, lbaCount: nat, memory: seq<Byte>, slots: seq<Slot>, buffers: int)

  ghost predicate ValidEngine(e: Engine) {
    && e.lbaSize > 0 && |e.memory| == Times(e.lbaCount, e.lbaSize) && |e.slots| == SLOTS
    && forall t :: 0 <= t < SLOTS && e.slots[t].active && e.slots[t].fill.Filled? ==>
         |e.slots[t].fill.bytes| == Times(e.slots[t].expectedNrLbas, e.lbaSize)
  }

  predicate OnDevice(e: Engine, lba: nat, nrLbas: nat) { lba + nrLbas <= e.lbaCount }

  /** The blocks' bytes; whatever `junk` says when they are not all on the device. */
  ghost function BlocksAt(e: Engine, lba: nat, nrLbas: nat, junk: nat -> Byte): (r: seq<Byte>)
    requires ValidEngine(e)
    ensures |r| == Times(nrLbas, e.lbaSize)
  {
    if OnDevice(e, lba, nrLbas) then
      TimesAdd(lba, nrLbas, e.lbaSize);
      TimesMonotone(lba + nrLbas, e.lbaCount, e.lbaSize);
      e.memory[Times(lba, e.lbaSize)..Times(lba, e.lbaSize) + Times(nrLbas, e.lbaSize)]
    else seq(Times(nrLbas, e.lbaSize), junk)
  }

  ghost predicate Good(e: Engine, ctx: CmdContext) {
    ValidEngine(e) && Fits(ctx, e.lbaSize, e.lbaCount) && ctx.nrLbas > 0
  }

  // ---------------------------------------------------------------- steps

  /** The slot's command completes; with an error if it reaches past the device. */
  ghost function CompleteStep(e: Engine, t: nat, junk: nat -> Byte): (r: Engine)
    requires ValidEngine(e) && t < SLOTS
    ensures ValidEngine(r) && r.memory == e.memory
  {
    var s := e.slots[t];
    if s.active && s.fill.Empty?
    then e.(slots := e.slots[t := s.(fill := Filled(BlocksAt(e, s.expectedLba, s.expectedNrLbas, junk)))])
    else e
  }

  ghost predicate Hit(e: Engine, t: nat, ctx: CmdContext)
    requires ValidEngine(e) && t < SLOTS
  {
    e.slots[t].active && ctx.startLba == e.slots[t].expectedLba && ctx.nrLbas == e.slots[t].expectedNrLbas
  }

  /** The data of a read through slot `t`, once its prefetch has completed. */
  ghost function Data(e: Engine, t: nat, ctx: CmdContext): seq<Byte>
    requires Good(e, ctx) && t < SLOTS && (e.slots[t].active ==> e.slots[t].fill.Filled?)
  {
    if Hit(e, t, ctx) then e.slots[t].fill.bytes[ctx.offset..ctx.offset + ctx.nrBytes]
    else FakeRead(e.memory, ctx, e.lbaSize, e.lbaCount)
  }

  function Count(active: bool): int { if active then 1 else 0 }

  /** Wait for the slot's prefetch, serve the read, start the next prefetch; `accepted` says
      whether the device takes that command. */
  ghost function ReadStep(e: Engine, t: nat, ctx: CmdContext, junk: nat -> Byte,
                          accepted: bool): (r: (Engine, seq<Byte>))
    requires Good(e, ctx) && t < SLOTS
    ensures ValidEngine(r.0) && r.0.memory == e.memory
  {
    var w := CompleteStep(e, t, junk);
    var next := Slot(accepted, ctx.startLba + ctx.nrLbas, ctx.nrLbas, Empty);
    (w.(slots := w.slots[t := next], buffers := w.buffers - Count(w.slots[t].active) + Count(accepted)),
     Data(w, t, ctx))
  }

  /** Give the slot's buffer back. */
  function Drained(e: Engine, t: nat): Engine
    requires t < |e.slots|
  {
    e.(slots := e.slots[t := Idle(e.slots[t])], buffers := e.buffers - Count(e.slots[t].active))
  }

  /** Wait for the slot's prefetch and drop it, then write. */
  ghost function WriteStep(e: Engine, t: nat, ctx: CmdContext, data: seq<Byte>, junk: nat -> Byte): (r: Engine)
    requires Good(e, ctx) && t < SLOTS && |data| == ctx.nrBytes
    ensures ValidEngine(r)
  {
    Drained(CompleteStep(e, t, junk), t).(memory := FakeWrite(e.memory, ctx, e.lbaSize, e.lbaCount, data))
  }

  // ---------------------------------------------------------------- coherence

  /** A completed prefetch of blocks on the device holds what the device holds. */
  ghost predicate Coherent(e: Engine, t: nat)
    requires ValidEngine(e) && t < SLOTS
  {
    var s := e.slots[t];
    s.active && s.fill.Filled? && OnDevice(e, s.expectedLba, s.expectedNrLbas) ==>
      s.fill.bytes == BlocksAt(e, s.expectedLba, s.expectedNrLbas, NO_JUNK)
  }

  lemma CoherentRead(e: Engine, t: nat, ctx: CmdContext, junk: nat -> Byte, accepted: bool)
    requires Good(e, ctx) && t < SLOTS && Coherent(e, t)
    ensures ReadStep(e, t, ctx, junk, accepted).1 == FakeRead(e.memory, ctx, e.lbaSize, e.lbaCount)
    ensures Coherent(ReadStep(e, t, ctx, junk, accepted).0, t)
  {
    hide Times, FakeRead;
    ReadWhole(e.memory, ctx, e.lbaSize, e.lbaCount);
  }

  /** The write and the blocks of slot `u` have no byte in common. */
  ghost predicate Apart(e: Engine, u: nat, ctx: CmdContext)
    requires ValidEngine(e) && u < SLOTS
  {
    var lo, n := Times(e.slots[u].expectedLba, e.lbaSize), Times(e.slots[u].expectedNrLbas, e.lbaSize);
    ctx.nrBytes == 0 || n == 0 || Position(ctx, e.lbaSize) + ctx.nrBytes <= lo || lo + n <= Position(ctx, e.lbaSize)
  }

  /** A write through slot `t` cannot make slot `u` stale: it drains the slot, or the slot holds
      nothing yet, or nothing that can be asked for, or no byte that is written. */
  ghost predicate Harmless(e: Engine, t: nat, ctx: CmdContext, u: nat)
    requires ValidEngine(e) && u < SLOTS
  {
    var s := e.slots[u];
    u == t || !s.active || s.fill.Empty? || !OnDevice(e, s.expectedLba, s.expectedNrLbas) || Apart(e, u, ctx)
  }

  lemma SlotPlace(e: Engine, u: nat)
    requires ValidEngine(e) && u < SLOTS && OnDevice(e, e.slots[u].expectedLba, e.slots[u].expectedNrLbas)
    ensures Times(e.slots[u].expectedLba, e.lbaSize) + Times(e.slots[u].expectedNrLbas, e.lbaSize) <= |e.memory|
  {
    var s := e.slots[u];
    TimesAdd(s.expectedLba, s.expectedNrLbas, e.lbaSize);
    TimesMonotone(s.expectedLba + s.expectedNrLbas, e.lbaCount, e.lbaSize);
  }

  lemma CoherentWrite(e: Engine, t: nat, ctx: CmdContext, data: seq<Byte>, junk: nat -> Byte, u: nat)
    requires Good(e, ctx) && t < SLOTS && |data| == ctx.nrBytes && u < SLOTS && Coherent(e, u)
    requires Harmless(e, t, ctx, u)
    ensures Coherent(WriteStep(e, t, ctx, data, junk), u)
  {
    hide Times, Position;
    FitsBytes(ctx, e.lbaSize, e.lbaCount);
    var s := e.slots[u];
    if u != t && s.active && s.fill.Filled? && OnDevice(e, s.expectedLba, s.expectedNrLbas) {
      SlotPlace(e, u);
      var lo, n := Times(s.expectedLba, e.lbaSize), Times(s.expectedNrLbas, e.lbaSize);
      if ctx.nrBytes == 0 {
        assert Replace(e.memory, Position(ctx, e.lbaSize), data) == e.memory;
      } else if n > 0 {
        ReplaceElsewhere(e.memory, Position(ctx, e.lbaSize), data, lo, lo + n);
      }
    }
  }

  /** The old bytes of the range with one byte changed. */
  ghost function Flipped(e: Engine, ctx: CmdContext, i: nat): (data: seq<Byte>)
    requires Good(e, ctx) && i < ctx.nrBytes
    ensures |data| == ctx.nrBytes && data[i] != FakeRead(e.memory, ctx, e.lbaSize, e.lbaCount)[i]
  {
    var old' := FakeRead(e.memory, ctx, e.lbaSize, e.lbaCount);
    old'[i := if old'[i] == 0 then 1 else 0]
  }

  /** Otherwise some data makes it stale: one changed byte in the overlap. */
  lemma FlippedStale(e: Engine, t: nat, ctx: CmdContext, u: nat) returns (data: seq<Byte>)
    requires Good(e, ctx) && t < SLOTS && u < SLOTS && Coherent(e, u) && !Harmless(e, t, ctx, u)
    ensures |data| == ctx.nrBytes && !Coherent(WriteStep(e, t, ctx, data, NO_JUNK), u)
  {
    hide Times, Position;
    FitsBytes(ctx, e.lbaSize, e.lbaCount);
    SlotPlace(e, u);
    var s := e.slots[u];
    var at, lo := Position(ctx, e.lbaSize), Times(s.expectedLba, e.lbaSize);
    var p := if at < lo then lo else at;
    data := Flipped(e, ctx, p - at);
    var w := WriteStep(e, t, ctx, data, NO_JUNK);
    assert w.memory[p] == data[p - at] != e.memory[p];
    assert s.fill.bytes[p - lo] == e.memory[p];
    assert BlocksAt(w, s.expectedLba, s.expectedNrLbas, NO_JUNK)[p - lo] == w.memory[p];
  }

  /** Exactly then a write leaves the other slot coherent whatever it writes. */
  lemma HarmlessExactly(e: Engine, t: nat, ctx: CmdContext, u: nat)
    requires Good(e, ctx) && t < SLOTS && u < SLOTS && Coherent(e, u)
    ensures Harmless(e, t, ctx, u) <==>
            forall data: seq<Byte>, junk | |data| == ctx.nrBytes :: Coherent(WriteStep(e, t, ctx, data, junk), u)
  {
    hide Coherent, Harmless, WriteStep, Fits;
    if Harmless(e, t, ctx, u) {
      forall data: seq<Byte>, junk | |data| == ctx.nrBytes ensures Coherent(WriteStep(e, t, ctx, data, junk), u) {
        CoherentWrite(e, t, ctx, data, junk, u);
      }
    } else {
      var data := FlippedStale(e, t, ctx, u);
    }
  }

  /** A read that hits the whole of a filled slot. */
  function WholeSlot(e: Engine, u: nat): CmdContext
    requires u < |e.slots|
  {
    CmdContext(Times(e.slots[u].expectedNrLbas, e.lbaSize), e.slots[u].expectedNrLbas, e.slots[u].expectedLba, 0)
  }

  /** Such a read returns what the device holds if and only if the slot is coherent. */
  lemma HitExactly(e: Engine, u: nat)
    requires ValidEngine(e) && u < SLOTS && Good(e, WholeSlot(e, u)) && e.slots[u].active && e.slots[u].fill.Filled?
    ensures Coherent(e, u) <==>
            ReadStep(e, u, WholeSlot(e, u), NO_JUNK, false).1
              == FakeRead(e.memory, WholeSlot(e, u), e.lbaSize, e.lbaCount)
  {
    hide Times;
    var s := e.slots[u];
    ReadWhole(e.memory, WholeSlot(e, u), e.lbaSize, e.lbaCount);
    assert s.fill.bytes[0..|s.fill.bytes|] == s.fill.bytes;
    var b := BlocksAt(e, s.expectedLba, s.expectedNrLbas, NO_JUNK);
    assert b[0..|b|] == b;
  }

  /** Only a read of exactly the blocks fetched is served from the slot. Any other read returns what
      the device holds, even from a slot that is stale. */
  lemma OnlyExactHits(e: Engine, t: nat, ctx: CmdContext, junk: nat -> Byte, accepted: bool)
    requires Good(e, ctx) && t < SLOTS
    requires !e.slots[t].active || ctx.startLba != e.slots[t].expectedLba || ctx.nrLbas != e.slots[t].expectedNrLbas
    ensures ReadStep(e, t, ctx, junk, accepted).1 == FakeRead(e.memory, ctx, e.lbaSize, e.lbaCount)
  {
    hide FakeRead, Times;
  }

  /** A write always drops its slot's prefetch and gives the buffer back, whatever it overlaps: the
      next read through the slot returns what the device holds. The other slots stay. */
  lemma WriteDrops(e: Engine, t: nat, ctx: CmdContext, data: seq<Byte>, junk: nat -> Byte, c: CmdContext,
                   accepted: bool)
    requires Good(e, ctx) && t < SLOTS && |data| == ctx.nrBytes && Good(WriteStep(e, t, ctx, data, junk), c)
    ensures var w := WriteStep(e, t, ctx, data, junk);
            && w.buffers == e.buffers - Count(e.slots[t].active) && w.slots == e.slots[t := w.slots[t]]
            && ReadStep(w, t, c, junk, accepted).1 == FakeRead(w.memory, c, e.lbaSize, e.lbaCount)
  {
    hide FakeRead, FakeWrite, Times;
  }

  /** Every read, hit or miss, fetches the blocks that follow: the read of those is a hit. */
  lemma ReadsAhead(e: Engine, t: nat, ctx: CmdContext, junk: nat -> Byte, c: CmdContext)
    requires Good(e, ctx) && t < SLOTS && c.startLba == ctx.startLba + ctx.nrLbas && c.nrLbas == ctx.nrLbas
    ensures Hit(ReadStep(e, t, ctx, junk, true).0, t, c)
    ensures ReadStep(e, t, ctx, junk, true).0.slots == e.slots[t := Slot(true, c.startLba, c.nrLbas, Empty)]
  {
    hide FakeRead, Times;
  }

  // ---------------------------------------------------------------- runs

  datatype Op =
    | DoRead(t: nat, ctx: CmdContext, accepted: bool, junk: nat -> Byte)
    | DoWrite(t: nat, ctx: CmdContext, data: seq<Byte>, junk: nat -> Byte)
    | DoComplete(t: nat, junk: nat -> Byte)

  ghost predicate Enabled(e: Engine, op: Op) {
    && ValidEngine(e) && op.t < SLOTS
    && (op.DoRead? ==> Good(e, op.ctx))
    && (op.DoWrite? ==> Good(e, op.ctx) && |op.data| == op.ctx.nrBytes)
  }

  ghost function Step(e: Engine, op: Op): (r: Engine)
    requires Enabled(e, op)
    ensures ValidEngine(r) && r.lbaSize == e.lbaSize && r.lbaCount == e.lbaCount
  {
    match op
    case DoRead(t, ctx, accepted, junk) => ReadStep(e, t, ctx, junk, accepted).0
    case DoWrite(t, ctx, data, junk) => WriteStep(e, t, ctx, data, junk)
    case DoComplete(t, junk) => CompleteStep(e, t, junk)
  }

  ghost predicate Legal(e: Engine, ops: seq<Op>)
    decreases |ops|
  {
    ValidEngine(e) && (ops == [] || (Enabled(e, ops[0]) && Legal(Step(e, ops[0]), ops[1..])))
  }

  ghost function Run(e: Engine, ops: seq<Op>): (r: Engine)
    requires Legal(e, ops)
    ensures ValidEngine(r)
    decreases |ops|
  {
    if ops == [] then e else Run(Step(e, ops[0]), ops[1..])
  }

  /** What the reads of a run return. */
  ghost function Outputs(e: Engine, ops: seq<Op>): seq<seq<Byte>>
    requires Legal(e, ops)
    decreases |ops|
  {
    if ops == [] then [] else
    var rest := Outputs(Step(e, ops[0]), ops[1..]);
    match ops[0]
    case DoRead(t, ctx, accepted, junk) => [ReadStep(e, t, ctx, junk, accepted).1] + rest
    case _ => rest
  }

  /** What they would return on the flat device. */
  ghost function FlatOutputs(e: Engine, ops: seq<Op>): seq<seq<Byte>>
    requires Legal(e, ops)
    decreases |ops|
  {
    if ops == [] then [] else
    var rest := FlatOutputs(Step(e, ops[0]), ops[1..]);
    match ops[0]
    case DoRead(_, ctx, _, _) => [FakeRead(e.memory, ctx, e.lbaSize, e.lbaCount)] + rest
    case _ => rest
  }

  /** Reads and writes go through the slots in `w`, and no write can make one of those slots stale. */
  ghost predicate Undisturbed(e: Engine, ops: seq<Op>, w: set<nat>)
    requires Legal(e, ops)
    decreases |ops|
  {
    ops == [] || (
      && (ops[0].DoRead? || ops[0].DoWrite? ==> ops[0].t in w)
      && (ops[0].DoWrite? ==> forall u :: u in w && u < SLOTS ==> Harmless(e, ops[0].t, ops[0].ctx, u))
      && Undisturbed(Step(e, ops[0]), ops[1..], w))
  }

  lemma StepCoherent(e: Engine, op: Op, u: nat)
    requires Enabled(e, op) && u < SLOTS && Coherent(e, u)
    requires op.DoWrite? ==> Harmless(e, op.t, op.ctx, u)
    requires op.DoRead? && u == op.t ==> Coherent(e, op.t)
    ensures Coherent(Step(e, op), u)
  {
    hide Times, Position, Data, FakeRead, Harmless;
    if op.DoWrite? { CoherentWrite(e, op.t, op.ctx, op.data, op.junk, u); }
  }

  /** Such a run returns exactly what the flat device would. */
  lemma {:induction false} RunCoherent(e: Engine, ops: seq<Op>, w: set<nat>)
    requires Legal(e, ops) && Undisturbed(e, ops, w)
    requires forall u :: u in w && u < SLOTS ==> Coherent(e, u)
    ensures Outputs(e, ops) == FlatOutputs(e, ops)
    ensures forall u :: u in w && u < SLOTS ==> Coherent(Run(e, ops), u)
    decreases |ops|
  {
    hide Step, Coherent, ReadStep, Harmless, Good, ValidEngine;
    if ops != [] {
      forall u | u in w && u < SLOTS ensures Coherent(Step(e, ops[0]), u) {
        StepCoherent(e, ops[0], u);
      }
      if ops[0].DoRead? { CoherentRead(e, ops[0].t, ops[0].ctx, ops[0].junk, ops[0].accepted); }
      RunCoherent(Step(e, ops[0]), ops[1..], w);
    }
  }

  /** In particular every run through a single slot does, whatever the other slots hold. */
  lemma {:induction false} OneSlotUndisturbed(e: Engine, ops: seq<Op>, t: nat)
    requires Legal(e, ops) && forall op :: op in ops && !op.DoComplete? ==> op.t == t
    ensures Undisturbed(e, ops, {t})
    decreases |ops|
  {
    hide Step, Enabled, Apart, ValidEngine, OnDevice;
    if ops != [] {
      assert ops[0] in ops;
      OneSlotUndisturbed(Step(e, ops[0]), ops[1..], t);
    }
  }

  lemma SingleSlot(e: Engine, ops: seq<Op>, t: nat)
    requires Legal(e, ops) && t < SLOTS && Coherent(e, t) && forall op :: op in ops && !op.DoComplete? ==> op.t == t
    ensures Outputs(e, ops) == FlatOutputs(e, ops)
  {
    OneSlotUndisturbed(e, ops, t);
    RunCoherent(e, ops, {t});
  }

  // ---------------------------------------------------------------- buffers

  ghost function ActiveFrom(slots: seq<Slot>): nat {
    if slots == [] then 0 else (if slots[0].active then 1 else 0) + ActiveFrom(slots[1..])
  }

  lemma {:induction false} ActiveUpdate(slots: seq<Slot>, t: nat, s: Slot)
    requires t < |slots|
    ensures ActiveFrom(slots[t := s]) == ActiveFrom(slots) - Count(slots[t].active) + Count(s.active)
  {
    if t > 0 {
      ActiveUpdate(slots[1..], t - 1, s);
      assert slots[t := s][1..] == slots[1..][t - 1 := s];
    } else {
      assert slots[t := s][1..] == slots[1..];
    }
  }

  lemma {:induction false} NoneActive(slots: seq<Slot>)
    requires forall t :: 0 <= t < |slots| ==> !slots[t].active
    ensures ActiveFrom(slots) == 0
  {
    if slots != [] { NoneActive(slots[1..]); }
  }

  /** Buffers allocated and not freed are as many as there are active prefetches. */
  lemma {:induction false} RunBuffers(e: Engine, ops: seq<Op>)
    requires Legal(e, ops) && e.buffers == ActiveFrom(e.slots)
    ensures Run(e, ops).buffers == ActiveFrom(Run(e, ops).slots)
    decreases |ops|
  {
    hide Good, Data, FakeRead, FakeWrite, Times;
    if ops != [] {
      StepBuffers(e, ops[0]);
      hide Step, Enabled, ActiveFrom;
      RunBuffers(Step(e, ops[0]), ops[1..]);
    }
  }

  lemma StepBuffers(e: Engine, op: Op)
    requires Enabled(e, op) && e.buffers == ActiveFrom(e.slots)
    ensures Step(e, op).buffers == ActiveFrom(Step(e, op).slots)
  {
    hide Data, FakeRead, FakeWrite, Times, ActiveFrom;
    var w := CompleteStep(e, op.t, op.junk);
    ActiveUpdate(e.slots, op.t, w.slots[op.t]);
    assert e.slots[op.t := w.slots[op.t]] == w.slots;
    ActiveUpdate(w.slots, op.t, Step(e, op).slots[op.t]);
  }

  // ---------------------------------------------------------------- across slots

  lemma OutputsFrom(e: Engine, op: Op, ops: seq<Op>)
    requires Enabled(e, op) && Legal(Step(e, op), ops)
    ensures Legal(e, [op] + ops)
    ensures Outputs(e, [op] + ops) ==
      (if op.DoRead? then [ReadStep(e, op.t, op.ctx, op.junk, op.accepted).1] else []) + Outputs(Step(e, op), ops)
    ensures FlatOutputs(e, [op] + ops) ==
      (if op.DoRead? then [FakeRead(e.memory, op.ctx, e.lbaSize, e.lbaCount)] else []) + FlatOutputs(Step(e, op), ops)
  {
    hide Step, FakeRead, ReadStep, Good;
    assert ([op] + ops)[1..] == ops;
  }

  /** A slot is drained only by its own thread. When another thread writes the blocks it has
      fetched, a read that hits it returns what the blocks held before. */
  lemma StaleAcrossSlots(e: Engine, t: nat, u: nat, c0: CmdContext, c1: CmdContext, data: seq<Byte>)
    returns (ops: seq<Op>)
    requires Good(e, c0) && Good(e, c1) && t < SLOTS && u < SLOTS && t != u
    requires c1.startLba == c0.startLba + c0.nrLbas && c1.nrLbas == c0.nrLbas
    requires c1.offset == 0 && c1.nrBytes == |data| == Times(c1.nrLbas, e.lbaSize)
    requires data != FakeRead(e.memory, c1, e.lbaSize, e.lbaCount)
    ensures ops == [DoRead(t, c0, true, NO_JUNK), DoComplete(t, NO_JUNK), DoWrite(u, c1, data, NO_JUNK),
                    DoRead(t, c1, false, NO_JUNK)]
    ensures Legal(e, ops) && |Outputs(e, ops)| == |FlatOutputs(e, ops)| == 2
    ensures Outputs(e, ops)[1] == FakeRead(e.memory, c1, e.lbaSize, e.lbaCount) && FlatOutputs(e, ops)[1] == data
  {
    hide Times, Legal, Outputs, FlatOutputs, FakeRead, FakeWrite, CompleteStep, ReadStep, WriteStep;
    ops := [DoRead(t, c0, true, NO_JUNK), DoComplete(t, NO_JUNK), DoWrite(u, c1, data, NO_JUNK),
            DoRead(t, c1, false, NO_JUNK)];
    var e1 := Step(e, ops[0]);
    var e2 := Step(e1, ops[1]);
    StepKeeps(e, ops[0]);
    StepKeeps(e1, ops[1]);
    var e3 := Step(e2, ops[2]);
    StepKeeps(e2, ops[2]);
    NoOps(Step(e3, ops[3]));
    OutputsFrom(e3, ops[3], []);
    OutputsFrom(e2, ops[2], [ops[3]] + []);
    OutputsFrom(e1, ops[1], [ops[2]] + ([ops[3]] + []));
    OutputsFrom(e, ops[0], [ops[1]] + ([ops[2]] + ([ops[3]] + [])));
    assert ops == [ops[0]] + ([ops[1]] + ([ops[2]] + ([ops[3]] + [])));
    FetchedThenHit(e, t, u, c0, c1, data);
    WrittenThenRead(e2, c1, data);
  }

  /** For every filled slot and every write of another thread: a later hit can be stale if and only
      if the write is not harmless. */
  lemma StaleExactly(e: Engine, t: nat, ctx: CmdContext, u: nat)
    requires Good(e, ctx) && t < SLOTS && u < SLOTS && u != t && Coherent(e, u)
    requires e.slots[u].active && e.slots[u].fill.Filled? && Good(e, WholeSlot(e, u))
    ensures Harmless(e, t, ctx, u) <==>
            forall data: seq<Byte> | |data| == ctx.nrBytes :: FreshHit(WriteStep(e, t, ctx, data, NO_JUNK), u)
  {
    hide Coherent, Harmless, Times, ReadStep, FakeRead, FakeWrite;
    forall data: seq<Byte> | |data| == ctx.nrBytes
      ensures FreshHit(WriteStep(e, t, ctx, data, NO_JUNK), u) <==> Coherent(WriteStep(e, t, ctx, data, NO_JUNK), u)
    {
      HitExactly(WriteStep(e, t, ctx, data, NO_JUNK), u);
    }
    if Harmless(e, t, ctx, u) {
      forall data: seq<Byte> | |data| == ctx.nrBytes ensures FreshHit(WriteStep(e, t, ctx, data, NO_JUNK), u) {
        CoherentWrite(e, t, ctx, data, NO_JUNK, u);
      }
    } else {
      var data := FlippedStale(e, t, ctx, u);
    }
  }

  /** A read that hits the whole slot returns the device's bytes. */
  ghost predicate FreshHit(e: Engine, u: nat)
    requires ValidEngine(e) && u < SLOTS
  {
    Good(e, WholeSlot(e, u)) ==>
      ReadStep(e, u, WholeSlot(e, u), NO_JUNK, false).1 == FakeRead(e.memory, WholeSlot(e, u), e.lbaSize, e.lbaCount)
  }

  lemma StepKeeps(e: Engine, op: Op)
    requires Enabled(e, op)
    ensures forall c :: Good(e, c) ==> Good(Step(e, op), c)
    ensures Step(e, op).memory == if op.DoWrite? then FakeWrite(e.memory, op.ctx, e.lbaSize, e.lbaCount, op.data)
      else e.memory
  {
    hide Times;
  }

  lemma NoOps(e: Engine)
    requires ValidEngine(e)
    ensures Legal(e, []) && Outputs(e, []) == [] && FlatOutputs(e, []) == []
  {
  }

  lemma WrittenThenRead(e: Engine, c: CmdContext, data: seq<Byte>)
    requires Good(e, c) && |data| == c.nrBytes
    ensures FakeRead(FakeWrite(e.memory, c, e.lbaSize, e.lbaCount, data), c, e.lbaSize, e.lbaCount) == data
  {
    var r := FakeRead(FakeWrite(e.memory, c, e.lbaSize, e.lbaCount, data), c, e.lbaSize, e.lbaCount);
    forall i | 0 <= i < |data| ensures r[i] == data[i] {
      ReadAfterWrite(e.memory, c, c, e.lbaSize, e.lbaCount, data, i);
    }
  }

  lemma FetchedThenHit(e: Engine, t: nat, u: nat, c0: CmdContext, c1: CmdContext, data: seq<Byte>)
    requires Good(e, c0) && Good(e, c1) && t < SLOTS && u < SLOTS && t != u
    requires c1.startLba == c0.startLba + c0.nrLbas && c1.nrLbas == c0.nrLbas
    requires c1.offset == 0 && c1.nrBytes == |data| == Times(c1.nrLbas, e.lbaSize)
    ensures var e2 := CompleteStep(ReadStep(e, t, c0, NO_JUNK, true).0, t, NO_JUNK);
            && Good(e2, c1) && e2.memory == e.memory
            && ReadStep(WriteStep(e2, u, c1, data, NO_JUNK), t, c1, NO_JUNK, false).1
                 == FakeRead(e.memory, c1, e.lbaSize, e.lbaCount)
  {
    hide Times, FakeWrite, FakeRead, CompleteStep, ReadStep, BlocksAt;
    FetchedSlot(e, t, c0, c1);
    var e2 := CompleteStep(ReadStep(e, t, c0, NO_JUNK, true).0, t, NO_JUNK);
    assert Good(e2, c1);
    OtherSlot(e2, u, c1, data, t, c1);
    HitReads(WriteStep(e2, u, c1, data, NO_JUNK), t, c1, BlocksAt(e, c1.startLba, c1.nrLbas, NO_JUNK));
    WholeBlocks(e, c1);
  }

  lemma FetchedSlot(e: Engine, t: nat, c0: CmdContext, c1: CmdContext)
    requires Good(e, c0) && Good(e, c1) && t < SLOTS && c1.startLba == c0.startLba + c0.nrLbas && c1.nrLbas == c0.nrLbas
    ensures var e2 := CompleteStep(ReadStep(e, t, c0, NO_JUNK, true).0, t, NO_JUNK);
            && Good(e2, c1) && e2.memory == e.memory
            && e2.slots[t] == Slot(true, c1.startLba, c1.nrLbas, Filled(BlocksAt(e, c1.startLba, c1.nrLbas, NO_JUNK)))
  {
    hide Times, FakeRead;
  }

  lemma OtherSlot(e: Engine, u: nat, ctx: CmdContext, data: seq<Byte>, t: nat, c: CmdContext)
    requires Good(e, ctx) && Good(e, c) && u < SLOTS && t < SLOTS && t != u && |data| == ctx.nrBytes
    ensures var w := WriteStep(e, u, ctx, data, NO_JUNK); Good(w, c) && w.slots[t] == e.slots[t]
  {
    hide Times, FakeWrite;
  }

  lemma HitReads(e: Engine, t: nat, c: CmdContext, bytes: seq<Byte>)
    requires Good(e, c) && t < SLOTS && e.slots[t] == Slot(true, c.startLba, c.nrLbas, Filled(bytes))
    requires c.offset + c.nrBytes <= |bytes|
    ensures ReadStep(e, t, c, NO_JUNK, false).1 == bytes[c.offset..c.offset + c.nrBytes]
  {
    hide Times, FakeRead;
  }

  lemma WholeBlocks(e: Engine, c: CmdContext)
    requires Good(e, c) && c.offset == 0 && c.nrBytes == Times(c.nrLbas, e.lbaSize)
    ensures BlocksAt(e, c.startLba, c.nrLbas, NO_JUNK)[c.offset..c.offset + c.nrBytes]
      == FakeRead(e.memory, c, e.lbaSize, e.lbaCount)
  {
    hide Times;
    ReadWhole(e.memory, c, e.lbaSize, e.lbaCount);
  }

  // ---------------------------------------------------------------- the engine

  class NvmeAsynPrefetchIOEngine {
    const device: NvmeDevice
    const prefetches: array<Slot>

    constructor (device: NvmeDevice)
      requires device.Valid() && device.handedOut == device.givenBack
      ensures this.device == device && fresh(prefetches) && Valid()
    {
      this.device := device;
      prefetches := new Slot[SLOTS](_ => Slot(false, 0, 0, Empty));
      new;
      NoneActive(prefetches[..]);
    }

    ghost function Abs(): Engine
      reads device, device.memory, prefetches
    {
      Engine(device.lbaSize, device.lbaCount, device.memory[..], prefetches[..], device.handedOut - device.givenBack)
    }

    ghost predicate Valid()
      reads device, device.memory, prefetches
    {
      && (prefetches as object) != (device.memory as object)
      && ValidEngine(Abs()) && Abs().buffers == ActiveFrom(prefetches[..])
    }

    /** The command of a slot completes, on its own account. */
    method CompletePrefetch(t: nat, junk: nat -> Byte)
      requires Valid() && t < SLOTS
      modifies prefetches
      ensures Valid() && Abs() == CompleteStep(old(Abs()), t, junk)
    {
      hide Times, BlocksAt, ActiveFrom;
      StepBuffers(Abs(), DoComplete(t, junk));
      var p := prefetches[t];
      if p.active && p.fill.Empty? {
        var bytes := FetchBlocks(p.expectedLba, p.expectedNrLbas, junk);
        prefetches[t] := p.(fill := Filled(bytes));
      }
    }

    method FetchBlocks(lba: nat, nrLbas: nat, junk: nat -> Byte) returns (bytes: seq<Byte>)
      requires ValidEngine(Abs())
      ensures bytes == BlocksAt(Abs(), lba, nrLbas, junk)
    {
      hide Times;
      var n := Times(nrLbas, device.lbaSize);
      if lba + nrLbas > device.lbaCount {
        return seq(n, junk);
      }
      TimesAdd(lba, nrLbas, device.lbaSize);
      TimesMonotone(lba + nrLbas, device.lbaCount, device.lbaSize);
      var from := Times(lba, device.lbaSize);
      bytes := device.memory[..][from..from + n];
    }

    /** Wait for the slot's command, give its buffer back, mark it idle. */
    method DrainPrefetch(t: nat, junk: nat -> Byte)
      requires Valid() && t < SLOTS
      modifies prefetches, device`givenBack
      ensures Valid() && device.memory[..] == old(device.memory[..])
      ensures Abs() == Drained(CompleteStep(old(Abs()), t, junk), t)
    {
      hide Times, BlocksAt, ActiveFrom, CompleteStep;
      StepBuffers(Abs(), DoComplete(t, junk));
      ActiveUpdate(CompleteStep(Abs(), t, junk).slots, t, Idle(CompleteStep(Abs(), t, junk).slots[t]));
      CompletePrefetch(t, junk);
      if prefetches[t].active {
        device.FreeDeviceBuffer();
        prefetches[t] := prefetches[t].(active := false);
      }
    }

    method Write(t: nat, buffer: seq<Byte>, ctx: CmdContext, junk: nat -> Byte)
      requires Valid() && Good(Abs(), ctx) && t < SLOTS && |buffer| == ctx.nrBytes
      modifies prefetches, device.memory, device`handedOut, device`givenBack
      ensures Valid() && Abs() == WriteStep(old(Abs()), t, ctx, buffer, junk)
    {
      hide Times, ActiveFrom, FakeWrite, CompleteStep;
      DrainPrefetch(t, junk);
      var sync := new NvmeSyncIOEngine(device);
      sync.Write(buffer, ctx);
    }

    method Read(t: nat, ctx: CmdContext, junk: nat -> Byte, accepted: bool) returns (buffer: seq<Byte>)
      requires Valid() && Good(Abs(), ctx) && t < SLOTS
      modifies prefetches, device`handedOut, device`givenBack
      ensures Valid() && (Abs(), buffer) == ReadStep(old(Abs()), t, ctx, junk, accepted)
    {
      hide Times, ActiveFrom, FakeRead, BlocksAt;
      ghost var e := Abs();
      StepBuffers(e, DoRead(t, ctx, accepted, junk));
      CompletePrefetch(t, junk);
      var prefetch := prefetches[t];
      var dataFulfilled := false;
      if prefetch.active {
        if ctx.startLba == prefetch.expectedLba && ctx.nrLbas == prefetch.expectedNrLbas {
          buffer := prefetch.fill.bytes[ctx.offset..ctx.offset + ctx.nrBytes];
          dataFulfilled := true;
        }
        device.FreeDeviceBuffer();
        prefetches[t] := prefetch.(active := false);
      }
      if !dataFulfilled {
        var sync := new NvmeSyncIOEngine(device);
        buffer := sync.Read(ctx);
      }
      var next := device.AllocateDeviceBuffer(Times(ctx.nrLbas, device.lbaSize));
      prefetches[t] := Slot(true, ctx.startLba + ctx.nrLbas, ctx.nrLbas, Empty);
      if !accepted {
        device.FreeDeviceBuffer();
        prefetches[t] := prefetches[t].(active := false);
      }
      assert prefetches[..] == ReadStep(e, t, ctx, junk, accepted).0.slots;
    }
  }
}
