/** Any number of threads in the temporary-file layer. GetLBA and GetOrCreateFile look under a
    shared lock, let go of it, and look again under the exclusive lock; the other operations
    hold one lock throughout. A step is what one thread does under one lock. */
module TempConcurrency {
  import opened Basics
  import opened BlockPool
  import opened TempFileModel
  import opened TempFileLaws

  /** A call between its two locks. */
  datatype Pending = Wanting(file: TempName, location: nat, nrLbas: nat) | Creating(file: TempName)

  datatype System = System(st: TempState, pending: map<nat, Pending>)

  datatype Event =
    | Check(t: nat, f: TempName, location: nat, nrLbas: nat)  // GetLBA, shared lock
    | Alloc(t: nat)                                           // GetLBA, exclusive lock
    | Look(t: nat, f: TempName)                               // GetOrCreateFile, shared lock
    | Make(t: nat)                                            // GetOrCreateFile, exclusive lock
    | Release(op: TempOp)                                     // truncate, delete, clear
    | Size(f: TempName)                                       // GetFileSizeLBA, GetSeekBound

  /** How a step ends its call, if it does. Fault: it follows a null pointer, to the file or to one
      of its blocks. */
  datatype Outcome = Waiting | Answer(r: LbaResult) | Done | Fault

  /** The size a file of this name is always asked for. */
  ghost predicate SizeByName(f: TempName, nrLbas: nat, lbaSize: nat) {
    lbaSize > 0 && GetBufferSize(f.bufferSize).Some? && nrLbas == GetBufferSize(f.bufferSize).value / lbaSize
  }

  ghost predicate SysInv(s: System) {
    && TempInv(s.st)
    && forall t :: t in s.pending && s.pending[t].Wanting? ==>
         SizeByName(s.pending[t].file, s.pending[t].nrLbas, s.st.lbaSize)
  }

  ghost predicate Allowed(s: System, e: Event) {
    match e
    case Check(t, _, _, _) => t !in s.pending
    case Alloc(t) => t in s.pending && s.pending[t].Wanting?
    case Look(t, _) => t !in s.pending
    case Make(t) => t in s.pending && s.pending[t].Creating?
    case Release(op) => op.Truncate? || op.Delete? || op.ClearAll?
    case Size(_) => true
  }

  /** What a release has done when it ends: itself, or nothing when the file is gone. A truncation
      that meets a null block has truncated the file down to there. */
  ghost function Performed(st: TempState, op: TempOp): seq<TempOp>
    requires TempInv(st)
  {
    if TempEnabled(st, op) then [op]
    else if op.Truncate? && op.f in st.files then [Truncate(op.f, SizeReached(st, op.f, op.newSize))]
    else []
  }

  ghost function SizeReached(st: TempState, f: TempName, newSize: nat): nat
    requires TempInv(st) && f in st.files
  {
    Times(DownTo(st, f, newSize), st.files[f].blockSize)
  }

  /** The lowest index the walk of a truncation drops. */
  ghost function DownTo(st: TempState, f: TempName, newSize: nat): nat
    requires TempInv(st) && f in st.files
  {
    WalkEnd(st.files[f].blocks, |st.files[f].blocks|, BlockOf(st, f, newSize))
  }

  lemma IndexOf(k: nat, blockSize: nat)
    requires blockSize > 0
    ensures BlockIndex(Times(k, blockSize), blockSize) == k
  {
    hide Times;
    ModMul(k, blockSize);
  }

  lemma ReachedIs(st: TempState, f: TempName, newSize: nat)
    requires TempInv(st) && f in st.files
    ensures TempEnabled(st, Truncate(f, SizeReached(st, f, newSize)))
    ensures TruncateAny(st, f, newSize).st == TempStep(st, Truncate(f, SizeReached(st, f, newSize)))
  {
    FileSize(st, f);
    IndexOf(DownTo(st, f, newSize), st.files[f].blockSize);
    hide TempInv, BlockIndex, FreeDown, Times;
  }

  ghost function Released(st: TempState, op: TempOp): TempState
    requires TempInv(st) && (op.Truncate? || op.Delete? || op.ClearAll?)
  {
    if op.Truncate? then (if op.f in st.files then TruncateAny(st, op.f, op.newSize).st else st)
    else if TempEnabled(st, op) then TempStep(st, op) else st
  }

  lemma ReleasedIs(st: TempState, op: TempOp)
    requires TempInv(st) && (op.Truncate? || op.Delete? || op.ClearAll?)
    ensures var ops := Performed(st, op);
            if ops == [] then Released(st, op) == st
            else |ops| == 1 && TempEnabled(st, ops[0]) && Released(st, op) == TempStep(st, ops[0])
  {
    hide TempInv, FreeDown, FreeBlocks, SizeReached;
    if op.Truncate? && op.f in st.files {
      ReachedIs(st, op.f, op.newSize);
      if TempEnabled(st, op) { TruncatedWhole(st, op.f, op.newSize); }
    }
  }

  lemma TruncatedWhole(st: TempState, f: TempName, newSize: nat)
    requires TempInv(st) && TempEnabled(st, Truncate(f, newSize))
    ensures TruncateAny(st, f, newSize).st == TempStep(st, Truncate(f, newSize))
  {
    FileSize(st, f);
    hide TempInv;
    FreeFrom(st, f, |st.files[f].blocks|, BlockOf(st, f, newSize));
  }

  /** The walk stops at once when there is nothing below. */
  lemma FreeFrom(st: TempState, f: TempName, from: nat, to: nat)
    requires TempInv(st) && f in st.files && forall i :: to <= i < from ==> i in st.files[f].blocks
    ensures WalkEnd(st.files[f].blocks, from, to) <= to
    ensures FreeDown(st, f, from, WalkEnd(st.files[f].blocks, from, to)) == FreeDown(st, f, from, to)
  {
    var e := WalkEnd(st.files[f].blocks, from, to);
    if e < to { assert from == e; }
  }

  lemma FileSize(st: TempState, f: TempName)
    requires TempInv(st) && f in st.files
    ensures st.lbaSize > 0 && st.files[f].blockSize > 0 && st.files[f].blockSize / st.lbaSize > 0
    ensures SizeByName(f, st.files[f].blockSize / st.lbaSize, st.lbaSize) && WellFormed(st.ledger.pool)
  {
    SizeFacts(st, f);
  }

  ghost function Looked(st: TempState, f: TempName, location: nat, nrLbas: nat): Lookup
    requires TempInv(st) && f in st.files
  {
    FileSize(st, f);
    CheckLBA(st, f, location, nrLbas)
  }

  ghost function Served(s: System, p: Pending): (TempState, LbaResult)
    requires SysInv(s) && p in s.pending.Values && p.Wanting? && p.file in s.st.files
  {
    FileSize(s.st, p.file);
    AllocateLBA(s.st, p.file, p.location, p.nrLbas)
  }

  ghost function OutcomeOf(s: System, e: Event): Outcome
    requires SysInv(s) && Allowed(s, e)
  {
    match e
    case Check(_, f, location, nrLbas) =>
      if f !in s.st.files then Fault else (
        match Looked(s.st, f, location, nrLbas)
        case SizeMismatch => Answer(BadSize)
        case Found(lba) => Answer(Lba(lba))
        case Missing => Waiting)
    case Alloc(t) => if s.pending[t].file !in s.st.files then Fault else Answer(Served(s, s.pending[t]).1)
    case Look(_, f) => if f in s.st.files then Done else Waiting
    case Make(_) => Done
    case Release(op) => if TempEnabled(s.st, op) then Done else Fault
    case Size(f) => if f in s.st.files then Done else Fault
  }

  ghost function After(s: System, e: Event): System
    requires SysInv(s) && Allowed(s, e)
  {
    match e
    case Check(t, f, location, nrLbas) =>
      if OutcomeOf(s, e).Waiting? then s.(pending := s.pending[t := Wanting(f, location, nrLbas)]) else s
    case Alloc(t) =>
      var p := s.pending[t];
      System(if p.file in s.st.files then Served(s, p).0 else s.st, s.pending - {t})
    case Look(t, f) =>
      if f in s.st.files then s else s.(pending := s.pending[t := Creating(f)])
    case Make(t) => System(CreateStep(s.st, s.pending[t].file), s.pending - {t})
    case Release(op) => s.(st := Released(s.st, op))
    case Size(_) => s
  }

  /** The operation that takes effect at this step, if any: a call takes effect at its last step. */
  ghost function Effect(s: System, e: Event): seq<TempOp>
    requires SysInv(s) && Allowed(s, e)
  {
    if e.Release? then Performed(s.st, e.op)
    else if OutcomeOf(s, e).Waiting? || OutcomeOf(s, e).Fault? || e.Size? then []
    else
    match e
    case Check(_, f, location, nrLbas) => [Access(f, location, nrLbas)]
    case Alloc(t) => [Access(s.pending[t].file, s.pending[t].location, s.pending[t].nrLbas)]
    case Look(_, f) => [Create(f)]
    case Make(t) => [Create(s.pending[t].file)]
  }

  lemma OneOp(st: TempState, op: TempOp)
    requires TempInv(st) && TempEnabled(st, op)
    ensures TempLegal(st, [op]) && TempRun(st, [op]) == TempStep(st, op)
  {
    hide TempStep, TempEnabled, TempInv;
    assert [op][1..] == [];
  }

  lemma AccessIs(st: TempState, f: TempName, location: nat, nrLbas: nat)
    requires TempInv(st) && f in st.files
    ensures Looked(st, f, location, nrLbas).SizeMismatch? ==> GetLBA(st, f, location, nrLbas) == (st, BadSize)
    ensures Looked(st, f, location, nrLbas).Found? ==>
      GetLBA(st, f, location, nrLbas) == (st, Lba(Looked(st, f, location, nrLbas).lba))
    ensures Looked(st, f, location, nrLbas).Missing? ==> SizeByName(f, nrLbas, st.lbaSize)
    ensures SizeByName(f, nrLbas, st.lbaSize) ==>
      && st.files[f].blockSize > 0 && nrLbas > 0 && WellFormed(st.ledger.pool)
      && GetLBA(st, f, location, nrLbas) == AllocateLBA(st, f, location, nrLbas)
  {
    FileSize(st, f);
  }

  /** A step changes the files as its effect does, and a call that ends answers as if it had run
      alone at that point. */
  lemma StepIsEffect(s: System, e: Event)
    requires SysInv(s) && Allowed(s, e)
    ensures SysInv(After(s, e))
    ensures TempLegal(s.st, Effect(s, e)) && After(s, e).st == TempRun(s.st, Effect(s, e))
    ensures OutcomeOf(s, e).Answer? ==>
      && Effect(s, e) != [] && Effect(s, e)[0].Access? && Effect(s, e)[0].f in s.st.files
      && var op := Effect(s, e)[0]; OutcomeOf(s, e).r == GetLBA(s.st, op.f, op.location, op.nrLbas).1
  {
    hide TempInv, TempRun, TempLegal, SizeByName, AllocateLBA, GetLBA, GetBufferSize, CreateStep;
    EmptyRun(s.st);
    if e.Release? { ReleasedIs(s.st, e.op); }
    hide Performed, Released;
    if Effect(s, e) != [] { OneOp(s.st, Effect(s, e)[0]); }
    match e
    case Check(_, f, location, nrLbas) => if f in s.st.files { AccessIs(s.st, f, location, nrLbas); }
    case Alloc(t) =>
      var p := s.pending[t];
      if p.file in s.st.files { AccessIs(s.st, p.file, p.location, p.nrLbas); }
    case Look(_, f) => CreateAgain(s.st, f);
    case Make(t) =>
    case Release(op) =>
    case Size(_) =>
  }

  lemma EmptyRun(st: TempState)
    requires TempInv(st)
    ensures TempLegal(st, []) && TempRun(st, []) == st
  {
  }

  lemma CreateAgain(st: TempState, f: TempName)
    requires TempInv(st)
    ensures f in st.files ==> CreateStep(st, f) == st
  {
  }

  // ---------------------------------------------------------------- interleavings

  ghost function Next(s: System, e: Event): (r: System)
    requires SysInv(s) && Allowed(s, e)
    ensures SysInv(r)
  {
    StepIsEffect(s, e);
    After(s, e)
  }

  /** Any interleaving of any number of calls. */
  ghost predicate Schedule(s: System, es: seq<Event>)
    requires SysInv(s)
    decreases |es|
  {
    es == [] || (Allowed(s, es[0]) && Schedule(Next(s, es[0]), es[1..]))
  }

  ghost function Exec(s: System, es: seq<Event>): (r: System)
    requires SysInv(s) && Schedule(s, es)
    ensures SysInv(r)
    decreases |es|
  {
    if es == [] then s else Exec(Next(s, es[0]), es[1..])
  }

  ghost function Effects(s: System, es: seq<Event>): seq<TempOp>
    requires SysInv(s) && Schedule(s, es)
    decreases |es|
  {
    if es == [] then [] else Effect(s, es[0]) + Effects(Next(s, es[0]), es[1..])
  }

  /** Every interleaving has the effect of a run of whole operations, one after the other, in the
      order in which the calls end. */
  lemma {:induction false} Linearizable(s: System, es: seq<Event>)
    requires SysInv(s) && Schedule(s, es)
    ensures TempLegal(s.st, Effects(s, es)) && Exec(s, es).st == TempRun(s.st, Effects(s, es))
    decreases |es|
  {
    hide Allowed, Effect, After, TempInv, TempRun, TempLegal;
    if es == [] {
      EmptyRun(s.st);
    } else {
      StepIsEffect(s, es[0]);
      Linearizable(Next(s, es[0]), es[1..]);
      TempRunConcat(s.st, Effect(s, es[0]), Effects(Next(s, es[0]), es[1..]));
    }
  }

  // ---------------------------------------------------------------- one block per index

  /** The step asks the allocator for block `k` of file `f` and gets it. */
  ghost predicate Allocates(s: System, e: Event, f: TempName, k: nat)
    requires SysInv(s) && Allowed(s, e)
  {
    && e.Alloc? && s.pending[e.t].file == f && OutcomeOf(s, e).Answer? && OutcomeOf(s, e).r.Lba?
    && k == BlockOf(s.st, f, s.pending[e.t].location) && !Owns(s.st.files, f, k)
  }

  ghost function BlockOf(st: TempState, f: TempName, location: nat): nat
    requires TempInv(st) && f in st.files
  {
    FileSize(st, f);
    BlockIndex(location, st.files[f].blockSize)
  }

  /** The LBA a GetLBA call for block `k` of file `f` returns at this step, if it does. */
  ghost function Returned(s: System, e: Event, f: TempName, k: nat): set<nat>
    requires SysInv(s) && Allowed(s, e)
  {
    if !OutcomeOf(s, e).Answer? || !OutcomeOf(s, e).r.Lba? then {} else
    StepIsEffect(s, e);
    var op := Effect(s, e)[0];
    if op.f == f && BlockOf(s.st, f, op.location) == k then {OutcomeOf(s, e).r.lba} else {}
  }

  ghost predicate Spares(e: Event, f: TempName) {
    e.Release? ==> !e.op.ClearAll? && (e.op.Truncate? || e.op.Delete? ==> e.op.f != f)
  }

  ghost function At(files: Files, f: TempName, k: nat): set<nat> {
    if Owns(files, f, k) then {StartOf(files, f, k)} else {}
  }

  lemma AccessEntry(st: TempState, g: TempName, location: nat, nrLbas: nat, f: TempName, k: nat)
    requires TempInv(st) && g in st.files
    ensures var r := GetLBA(st, g, location, nrLbas); var here := f == g && k == BlockOf(st, g, location);
            && At(st.files, f, k) <= At(r.0.files, f, k)
            && (Owns(r.0.files, f, k) <==> Owns(st.files, f, k) || (here && r.1.Lba?))
            && (here && r.1.Lba? ==> At(r.0.files, f, k) == {r.1.lba})
  {
    hide TempInv, GetLBA, SizeByName, WellFormed;
    FileSize(st, g);
    AccessFiles(st, g, location, nrLbas);
    AccessMapped(st, g, location, nrLbas);
  }

  lemma AccessMapped(st: TempState, g: TempName, location: nat, nrLbas: nat)
    requires TempInv(st) && g in st.files
    ensures var r := GetLBA(st, g, location, nrLbas).1;
            r.Lba? && Owns(st.files, g, BlockOf(st, g, location)) ==>
              r.lba == StartOf(st.files, g, BlockOf(st, g, location))
  {
  }

  lemma SparedEntry(st: TempState, op: TempOp, f: TempName, k: nat)
    requires TempInv(st) && TempEnabled(st, op) && Spares(Release(op), f) && !op.Access?
    ensures var r := TempStep(st, op).files; At(r, f, k) == At(st.files, f, k)
  {
    hide TempInv, FreeDown, FreeBlocks, GetBufferSize;
    match op
    case Create(g) =>
    case Truncate(g, newSize) =>
      FreeDownFiles(st, g, |st.files[g].blocks|, BlockIndex(newSize, st.files[g].blockSize));
    case Delete(g) => FreeBlocksFiles(st, g);
  }

  lemma SparedRelease(st: TempState, op: TempOp, f: TempName, k: nat)
    requires TempInv(st) && Spares(Release(op), f) && (op.Truncate? || op.Delete? || op.ClearAll?)
    ensures At(Released(st, op).files, f, k) == At(st.files, f, k)
  {
    hide TempInv, TempStep, Released;
    ReleasedIs(st, op);
    if Performed(st, op) != [] {
      SparedEntry(st, Performed(st, op)[0], f, k);
    }
  }

  lemma StepEntry(s: System, e: Event, f: TempName, k: nat)
    requires SysInv(s) && Allowed(s, e) && Spares(e, f)
    ensures var before, after := s.st.files, Next(s, e).st.files;
            && At(before, f, k) <= At(after, f, k)
            && Returned(s, e, f, k) <= At(after, f, k)
            && (Owns(after, f, k) <==> Owns(before, f, k) || Allocates(s, e, f, k))
            && !(Owns(before, f, k) && Allocates(s, e, f, k))
  {
    hide TempInv, SizeByName, AllocateLBA, GetLBA, GetBufferSize, CreateStep, TruncateFile, DeleteFile;
    StepIsEffect(s, e);
    match e
    case Check(_, g, location, nrLbas) =>
      if g in s.st.files { AccessIs(s.st, g, location, nrLbas); AccessEntry(s.st, g, location, nrLbas, f, k); }
    case Alloc(t) =>
      var p := s.pending[t];
      if p.file in s.st.files {
        AccessIs(s.st, p.file, p.location, p.nrLbas);
        AccessEntry(s.st, p.file, p.location, p.nrLbas, f, k);
      }
    case Look(_, g) => CreateAgain(s.st, g);
    case Make(t) => SparedEntry(s.st, Create(s.pending[t].file), f, k);
    case Release(op) => SparedRelease(s.st, op, f, k);
    case Size(_) =>
  }

  ghost function Allocations(s: System, es: seq<Event>, f: TempName, k: nat): nat
    requires SysInv(s) && Schedule(s, es)
    decreases |es|
  {
    if es == [] then 0
    else (if Allocates(s, es[0], f, k) then 1 else 0) + Allocations(Next(s, es[0]), es[1..], f, k)
  }

  ghost function Answers(s: System, es: seq<Event>, f: TempName, k: nat): set<nat>
    requires SysInv(s) && Schedule(s, es)
    decreases |es|
  {
    if es == [] then {} else Returned(s, es[0], f, k) + Answers(Next(s, es[0]), es[1..], f, k)
  }

  /** While the file is not truncated, deleted or cleared, all calls for one of its blocks, on all
      threads, get the same LBA, and exactly one of them allocates it if it was not mapped. */
  lemma {:induction false} OneBlockPerIndex(s: System, es: seq<Event>, f: TempName, k: nat)
    requires SysInv(s) && Schedule(s, es) && forall e :: e in es ==> Spares(e, f)
    ensures var end := Exec(s, es).st.files;
            && At(s.st.files, f, k) + Answers(s, es, f, k) <= At(end, f, k)
            && Allocations(s, es, f, k) == |At(end, f, k)| - |At(s.st.files, f, k)|
    decreases |es|
  {
    hide Allowed, After, Next, SysInv, Spares, Returned, Allocates;
    if es != [] {
      assert es[0] in es;
      StepEntry(s, es[0], f, k);
      OneBlockPerIndex(Next(s, es[0]), es[1..], f, k);
    }
  }

  // ---------------------------------------------------------------- one count per file

  /** The step counts a new file. */
  ghost predicate Counts(s: System, e: Event, f: TempName)
    requires SysInv(s) && Allowed(s, e)
  {
    e.Make? && s.pending[e.t].file == f && Next(s, e).st.activeFiles == s.st.activeFiles + 1
  }

  ghost function TimesCounted(s: System, es: seq<Event>, f: TempName): nat
    requires SysInv(s) && Schedule(s, es)
    decreases |es|
  {
    if es == [] then 0 else (if Counts(s, es[0], f) then 1 else 0) + TimesCounted(Next(s, es[0]), es[1..], f)
  }

  ghost predicate Stays(e: Event, f: TempName) {
    e.Release? ==> !e.op.ClearAll? && (e.op.Delete? ==> e.op.f != f)
  }

  /** The step ends a call on `f` with a null pointer. */
  ghost predicate FaultsOn(s: System, e: Event, f: TempName)
    requires SysInv(s) && Allowed(s, e)
  {
    OutcomeOf(s, e).Fault? && match e
                              case Check(_, g, _, _) => g == f
                              case Alloc(t) => s.pending[t].file == f
                              case Release(op) => (op.Truncate? || op.Delete?) && op.f == f
                              case Size(g) => g == f
                              case _ => false
  }

  lemma StepKeeps(s: System, e: Event, f: TempName)
    requires SysInv(s) && Allowed(s, e) && Stays(e, f)
    ensures One(f in Next(s, e).st.files) == One(f in s.st.files) + One(Counts(s, e, f))
    ensures f in s.st.files ==> (FaultsOn(s, e, f) <==> MeetsNullBlock(s.st, e, f))
  {
    hide TempInv, SizeByName, GetBufferSize, FreeDown, FreeBlocks;
    match e
    case Check(_, g, location, nrLbas) =>
    case Alloc(t) =>
      var p := s.pending[t];
      if p.file in s.st.files {
        AccessIs(s.st, p.file, p.location, p.nrLbas);
        AccessFiles(s.st, p.file, p.location, p.nrLbas);
      }
    case Look(_, g) =>
    case Make(t) =>
    case Release(op) => ReleaseKeeps(s.st, op, f);
    case Size(_) =>
  }

  lemma ReleaseKeeps(st: TempState, op: TempOp, f: TempName)
    requires TempInv(st) && Stays(Release(op), f) && (op.Truncate? || op.Delete?)
    ensures f in Released(st, op).files <==> f in st.files
  {
    hide TempInv, FreeDown, FreeBlocks, GetBufferSize;
    match op
    case Truncate(g, newSize) =>
      if g in st.files { FreeDownFiles(st, g, |st.files[g].blocks|, DownTo(st, g, newSize)); }
    case Delete(g) => if g in st.files { FreeBlocksFiles(st, g); }
  }

  /** The step truncates the file and finds an index on its way down without a block. */
  ghost predicate MeetsNullBlock(st: TempState, e: Event, f: TempName) {
    e.Release? && e.op.Truncate? && e.op.f == f && f in st.files && !Truncatable(st.files[f], e.op.newSize)
  }

  /** How many truncations of the file meet a null block. */
  ghost function NullBlocks(s: System, es: seq<Event>, f: TempName): nat
    requires SysInv(s) && Schedule(s, es)
    decreases |es|
  {
    if es == [] then 0 else One(MeetsNullBlock(s.st, es[0], f)) + NullBlocks(Next(s, es[0]), es[1..], f)
  }

  /** The calls on `f` that follow a null pointer. */
  ghost function Faults(s: System, es: seq<Event>, f: TempName): nat
    requires SysInv(s) && Schedule(s, es)
    decreases |es|
  {
    if es == [] then 0
    else One(FaultsOn(s, es[0], f)) + Faults(Next(s, es[0]), es[1..], f)
  }

  /** While the file is not deleted or cleared, concurrent creates count it once, and once it exists
      the only calls on it that fail are truncations that meet a null block. */
  lemma {:induction false} CountedOnce(s: System, es: seq<Event>, f: TempName)
    requires SysInv(s) && Schedule(s, es) && forall e :: e in es ==> Stays(e, f)
    ensures One(f in Exec(s, es).st.files) == One(f in s.st.files) + TimesCounted(s, es, f)
    ensures f in s.st.files ==> Faults(s, es, f) == NullBlocks(s, es, f)
    ensures Exec(s, es).st.activeFiles == |Exec(s, es).st.files|
    decreases |es|
  {
    hide Allowed, Next, Stays, TempInv, Counts, FaultsOn, MeetsNullBlock;
    if es != [] {
      assert es[0] in es;
      StepKeeps(s, es[0], f);
      CountedOnce(Next(s, es[0]), es[1..], f);
    } else {
      CounterIs(s.st);
    }
  }

  lemma CounterIs(st: TempState)
    requires TempInv(st)
    ensures st.activeFiles == |st.files|
  {
  }

  // ---------------------------------------------------------------- exactly when a call fails

  /** The file of each thread's latest call, from the events alone. */
  function LatestCall(calls: map<nat, TempName>, e: Event): map<nat, TempName> {
    match e
    case Check(t, f, _, _) => calls[t := f]
    case Look(t, f) => calls[t := f]
    case _ => calls
  }

  /** The event looks the file's entry up: either half of GetLBA, a truncation, a deletion or a
      question for the file's size. */
  predicate LooksUp(calls: map<nat, TempName>, e: Event, f: TempName) {
    match e
    case Check(_, g, _, _) => g == f
    case Alloc(t) => t in calls && calls[t] == f
    case Release(op) => (op.Truncate? || op.Delete?) && op.f == f
    case Size(g) => g == f
    case _ => false
  }

  /** Deleting or clearing removes the file, creating it under a known buffer size adds it. */
  predicate PresentAfter(calls: map<nat, TempName>, e: Event, f: TempName, present: bool) {
    match e
    case Make(t) => present || (t in calls && calls[t] == f && GetBufferSize(f.bufferSize).Some?)
    case Release(op) => present && !op.ClearAll? && !(op.Delete? && op.f == f)
    case _ => present
  }

  /** How often the events look the file up while it is gone. */
  function UsesWhileGone(calls: map<nat, TempName>, es: seq<Event>, f: TempName, present: bool): nat
    decreases |es|
  {
    if es == [] then 0
    else One(LooksUp(calls, es[0], f) && !present)
         + UsesWhileGone(LatestCall(calls, es[0]), es[1..], f, PresentAfter(calls, es[0], f, present))
  }

  function CallsOf(s: System): map<nat, TempName> {
    map t | t in s.pending :: s.pending[t].file
  }

  ghost predicate Tracks(s: System, calls: map<nat, TempName>) {
    forall t :: t in s.pending ==> t in calls && calls[t] == s.pending[t].file
  }

  lemma StepPresence(s: System, e: Event, f: TempName, calls: map<nat, TempName>)
    requires SysInv(s) && Allowed(s, e) && Tracks(s, calls)
    ensures Tracks(Next(s, e), LatestCall(calls, e))
    ensures f in Next(s, e).st.files <==> PresentAfter(calls, e, f, f in s.st.files)
    ensures FaultsOn(s, e, f) <==> (LooksUp(calls, e, f) && f !in s.st.files) || MeetsNullBlock(s.st, e, f)
    ensures MeetsNullBlock(s.st, e, f) ==> f in s.st.files
  {
    hide TempInv, SizeByName, GetBufferSize, FreeDown, FreeBlocks;
    match e
    case Check(_, g, location, nrLbas) =>
    case Alloc(t) =>
      var p := s.pending[t];
      if p.file in s.st.files {
        AccessIs(s.st, p.file, p.location, p.nrLbas);
        AccessFiles(s.st, p.file, p.location, p.nrLbas);
      }
    case Look(_, g) =>
    case Make(t) =>
    case Release(op) =>
      if Stays(e, f) && !op.ClearAll? {
        ReleaseKeeps(s.st, op, f);
      } else if op.Delete? && f in s.st.files {
        FreeBlocksFiles(s.st, f);
      }
    case Size(_) =>
  }

  lemma {:induction false} FaultsTracked(s: System, es: seq<Event>, f: TempName, calls: map<nat, TempName>)
    requires SysInv(s) && Schedule(s, es) && Tracks(s, calls)
    ensures Faults(s, es, f) == UsesWhileGone(calls, es, f, f in s.st.files) + NullBlocks(s, es, f)
    decreases |es|
  {
    hide Allowed, Next, TempInv, FaultsOn, Tracks, LatestCall, LooksUp, PresentAfter, MeetsNullBlock;
    if es != [] {
      StepPresence(s, es[0], f, calls);
      FaultsTracked(Next(s, es[0]), es[1..], f, LatestCall(calls, es[0]));
    }
  }

  /** In every schedule the calls on a file that follow a null pointer are exactly those that look
      it up while it is gone, and the truncations that meet a null block. */
  lemma FaultsExactly(s: System, es: seq<Event>, f: TempName)
    requires SysInv(s) && Schedule(s, es)
    ensures Faults(s, es, f) == UsesWhileGone(CallsOf(s), es, f, f in s.st.files) + NullBlocks(s, es, f)
  {
    FaultsTracked(s, es, f, CallsOf(s));
  }

  /** So a file deleted between the two locks of a GetLBA call makes the call fail. */
  lemma DeletedInBetween(s: System, t: nat, f: TempName, location: nat, nrLbas: nat) returns (es: seq<Event>)
    requires SysInv(s) && t !in s.pending && f in s.st.files && Looked(s.st, f, location, nrLbas).Missing?
    ensures es == [Check(t, f, location, nrLbas), Release(Delete(f)), Alloc(t)]
    ensures Schedule(s, es) && Faults(s, es, f) == 1
  {
    hide TempInv, SizeByName, FreeBlocks;
    es := [Check(t, f, location, nrLbas), Release(Delete(f)), Alloc(t)];
    var a := Next(s, es[0]);
    assert a.st == s.st && Allowed(a, es[1]);
    var b := Next(a, es[1]);
    FreeBlocksFiles(a.st, f);
    assert f !in b.st.files && Allowed(b, es[2]) && OutcomeOf(b, es[2]).Fault?;
    FaultsFrom(b, es[2], [], f);
    FaultsFrom(a, es[1], [es[2]], f);
    FaultsFrom(s, es[0], [es[1], es[2]], f);
    assert es == [es[0]] + [es[1], es[2]] && [es[1], es[2]] == [es[1]] + [es[2]];
  }

  lemma FaultsFrom(s: System, e: Event, es: seq<Event>, f: TempName)
    requires SysInv(s) && Allowed(s, e) && Schedule(Next(s, e), es)
    ensures Schedule(s, [e] + es)
    ensures Faults(s, [e] + es, f) == One(FaultsOn(s, e, f)) + Faults(Next(s, e), es, f)
  {
    hide Allowed, Next, TempInv, FaultsOn;
    assert ([e] + es)[1..] == es;
  }

  // ---------------------------------------------------------------- I/O after the locks are gone

  /** The step takes block `k` off the file. A truncation walks down from the number of blocks, so it
      does not reach an index at or above that, nor one below a null block. */
  ghost predicate Drops(st: TempState, e: Event, f: TempName, k: nat)
    requires TempInv(st)
  {
    e.Release? && f in st.files &&
    match e.op
    case Truncate(g, newSize) => g == f && DownTo(st, f, newSize) <= k < |st.files[f].blocks|
    case Delete(g) => g == f
    case ClearAll => true
    case _ => false
  }

  ghost predicate NeverDrops(s: System, es: seq<Event>, f: TempName, k: nat)
    requires SysInv(s) && Schedule(s, es)
    decreases |es|
  {
    es == [] || (!Drops(s.st, es[0], f, k) && NeverDrops(Next(s, es[0]), es[1..], f, k))
  }

  /** The LBA belongs to block `k` of the file now and after every step. */
  ghost predicate HeldThroughout(s: System, es: seq<Event>, f: TempName, k: nat, lba: nat)
    requires SysInv(s) && Schedule(s, es)
    decreases |es|
  {
    At(s.st.files, f, k) == {lba} && (es == [] || HeldThroughout(Next(s, es[0]), es[1..], f, k, lba))
  }

  lemma ReleaseDrops(st: TempState, op: TempOp, f: TempName, k: nat)
    requires TempInv(st) && (op.Truncate? || op.Delete? || op.ClearAll?) && Owns(st.files, f, k)
    ensures At(Released(st, op).files, f, k) == if Drops(st, Release(op), f, k) then {} else At(st.files, f, k)
  {
    hide TempInv, FreeDown, FreeBlocks, GetBufferSize;
    match op
    case Truncate(g, newSize) =>
      if g in st.files { FreeDownFiles(st, g, |st.files[g].blocks|, DownTo(st, g, newSize)); }
    case Delete(g) => if g in st.files { FreeBlocksFiles(st, g); }
    case ClearAll =>
  }

  lemma StepDrops(s: System, e: Event, f: TempName, k: nat)
    requires SysInv(s) && Allowed(s, e) && Owns(s.st.files, f, k)
    ensures At(Next(s, e).st.files, f, k) == if Drops(s.st, e, f, k) then {} else At(s.st.files, f, k)
  {
    hide TempInv, Drops, Spares, TempStep;
    if e.Release? {
      ReleaseDrops(s.st, e.op, f, k);
    } else {
      NoRelease(s.st, e, f, k);
      StepEntry(s, e, f, k);
    }
  }

  lemma NoRelease(st: TempState, e: Event, f: TempName, k: nat)
    requires TempInv(st) && !e.Release?
    ensures !Drops(st, e, f, k) && Spares(e, f)
  {
    hide TempInv;
  }

  /** GetLBA lets go of its locks before the device I/O it is for. From the answer on, through every
      schedule, the LBA stays the block's own exactly when no truncation, deletion or clear drops
      the block; that is when the I/O cannot reach another file's bytes. */
  lemma {:induction false} IoHitsOwnBlock(s: System, es: seq<Event>, f: TempName, k: nat, lba: nat)
    requires SysInv(s) && Schedule(s, es) && At(s.st.files, f, k) == {lba}
    ensures HeldThroughout(s, es, f, k, lba) <==> NeverDrops(s, es, f, k)
    decreases |es|
  {
    hide Allowed, Next, TempInv, Drops;
    if es != [] {
      assert Owns(s.st.files, f, k);
      StepDrops(s, es[0], f, k);
      if !Drops(s.st, es[0], f, k) {
        IoHitsOwnBlock(Next(s, es[0]), es[1..], f, k, lba);
      } else {
        NotHeld(Next(s, es[0]), es[1..], f, k, lba);
      }
    }
  }

  lemma NotHeld(s: System, es: seq<Event>, f: TempName, k: nat, lba: nat)
    requires SysInv(s) && Schedule(s, es) && At(s.st.files, f, k) == {}
    ensures !HeldThroughout(s, es, f, k, lba)
  {
    hide Next, SysInv;
  }

  /** The same from the step at which a call returns the LBA. */
  lemma AnsweredIo(s: System, e: Event, es: seq<Event>, f: TempName, k: nat, lba: nat)
    requires SysInv(s) && Allowed(s, e) && Returned(s, e, f, k) == {lba} && Schedule(Next(s, e), es)
    ensures HeldThroughout(Next(s, e), es, f, k, lba) <==> NeverDrops(Next(s, e), es, f, k)
  {
    hide Next, Returned, SysInv, HeldThroughout, NeverDrops, Schedule;
    AnswerIsCall(s, e, f, k);
    StepEntry(s, e, f, k);
    assert lba in Returned(s, e, f, k);
    IoHitsOwnBlock(Next(s, e), es, f, k, lba);
  }

  lemma AnswerIsCall(s: System, e: Event, f: TempName, k: nat)
    requires SysInv(s) && Allowed(s, e) && Returned(s, e, f, k) != {}
    ensures !e.Release? && Spares(e, f)
  {
    hide TempInv;
  }
}
