/** Runs of whole operations as schedules of steps, and what a schedule can do to an I/O that is
    under way when its block is given back. */
module TempSchedules {
  import opened BlockPool
  import opened TempFileModel
  import opened TempFileLaws
  import opened TempFileFill
  import opened TempConcurrency

  // ---------------------------------------------------------------- schedules of one thread

  lemma FirstEvent(s: System, e: Event, es: seq<Event>)
    requires SysInv(s) && Allowed(s, e) && Schedule(Next(s, e), es)
    ensures Schedule(s, [e] + es) && Exec(s, [e] + es) == Exec(Next(s, e), es)
  {
    hide Allowed, Next, SysInv;
    assert ([e] + es)[1..] == es;
  }

  lemma OneEvent(s: System, e: Event)
    requires SysInv(s) && Allowed(s, e)
    ensures Schedule(s, [e]) && Exec(s, [e]) == Next(s, e)
  {
    hide Allowed, Next, SysInv;
    FirstEvent(s, e, []);
    assert [e] + [] == [e];
  }

  lemma TwoEvents(s: System, e: Event, d: Event)
    requires SysInv(s) && Allowed(s, e) && Allowed(Next(s, e), d)
    ensures Schedule(s, [e, d]) && Exec(s, [e, d]) == Next(Next(s, e), d)
  {
    hide Allowed, Next, SysInv;
    OneEvent(Next(s, e), d);
    FirstEvent(s, e, [d]);
    assert [e] + [d] == [e, d];
  }

  lemma {:induction false} ScheduleConcat(s: System, es: seq<Event>, more: seq<Event>)
    requires SysInv(s) && Schedule(s, es) && Schedule(Exec(s, es), more)
    ensures Schedule(s, es + more) && Exec(s, es + more) == Exec(Exec(s, es), more)
    decreases |es|
  {
    hide Allowed, Next, SysInv;
    if es == [] {
      assert es + more == more;
    } else {
      assert (es + more)[1..] == es[1..] + more;
      ScheduleConcat(Next(s, es[0]), es[1..], more);
    }
  }

  lemma CreateAsSteps(s: System, f: TempName, t: nat) returns (es: seq<Event>)
    requires SysInv(s) && t !in s.pending
    ensures Schedule(s, es) && Exec(s, es) == s.(st := CreateStep(s.st, f))
  {
    hide TempInv, CreateStep, SizeByName;
    CreateAgain(s.st, f);
    if f in s.st.files {
      es := [Look(t, f)];
      OneEvent(s, Look(t, f));
    } else {
      es := [Look(t, f), Make(t)];
      TwoEvents(s, Look(t, f), Make(t));
      assert s.pending[t := Creating(f)] - {t} == s.pending;
    }
  }

  lemma AccessAsSteps(s: System, f: TempName, location: nat, nrLbas: nat, t: nat) returns (es: seq<Event>)
    requires SysInv(s) && t !in s.pending && f in s.st.files
    ensures Schedule(s, es) && Exec(s, es) == s.(st := AccessStep(s.st, f, location, nrLbas))
  {
    hide TempInv, GetLBA, SizeByName, AllocateLBA, CheckLBA;
    AccessIs(s.st, f, location, nrLbas);
    if Looked(s.st, f, location, nrLbas).Missing? {
      es := [Check(t, f, location, nrLbas), Alloc(t)];
      TwoEvents(s, Check(t, f, location, nrLbas), Alloc(t));
      assert s.pending[t := Wanting(f, location, nrLbas)] - {t} == s.pending;
    } else {
      es := [Check(t, f, location, nrLbas)];
      OneEvent(s, Check(t, f, location, nrLbas));
    }
  }

  lemma ReleaseAsStep(s: System, op: TempOp) returns (es: seq<Event>)
    requires SysInv(s) && TempEnabled(s.st, op) && (op.Truncate? || op.Delete? || op.ClearAll?)
    ensures Schedule(s, es) && Exec(s, es) == s.(st := TempStep(s.st, op))
  {
    hide TempInv, TempStep, Released;
    es := [Release(op)];
    ReleasedIs(s.st, op);
    OneEvent(s, Release(op));
  }

  lemma OpAsSteps(s: System, op: TempOp, t: nat) returns (es: seq<Event>)
    requires SysInv(s) && t !in s.pending && TempEnabled(s.st, op)
    ensures Schedule(s, es) && Exec(s, es) == s.(st := TempStep(s.st, op))
  {
    hide SysInv, CreateStep, AccessStep, TruncateFile, DeleteFile, Clear, Schedule, Exec;
    match op
    case Create(f) => es := CreateAsSteps(s, f, t);
    case Access(f, location, nrLbas) => es := AccessAsSteps(s, f, location, nrLbas, t);
    case _ => es := ReleaseAsStep(s, op);
  }

  /** Every run of whole operations is a schedule of one thread. */
  lemma {:induction false} RunAsSchedule(s: System, ops: seq<TempOp>, t: nat) returns (es: seq<Event>)
    requires SysInv(s) && t !in s.pending && TempLegal(s.st, ops)
    ensures Schedule(s, es) && Exec(s, es) == s.(st := TempRun(s.st, ops))
    decreases |ops|
  {
    hide TempInv, TempStep, TempEnabled, Allowed, Next, SizeByName;
    es := [];
    if ops != [] {
      es := OpAsSteps(s, ops[0], t);
      var more := RunAsSchedule(Exec(s, es), ops[1..], t);
      ScheduleConcat(s, es, more);
      es := es + more;
    }
  }

  /** With Linearizable: what schedules make of the files is exactly what runs of whole operations
      make of them. */
  lemma ReachableExactly(s: System, t: nat, st: TempState)
    requires SysInv(s) && t !in s.pending
    ensures (exists es :: Schedule(s, es) && Exec(s, es).st == st) <==>
      exists ops :: TempLegal(s.st, ops) && TempRun(s.st, ops) == st
  {
    hide TempInv, SizeByName, Schedule, Exec, TempLegal, TempRun;
    if es :| Schedule(s, es) && Exec(s, es).st == st {
      Linearizable(s, es);
      assert TempLegal(s.st, Effects(s, es)) && TempRun(s.st, Effects(s, es)) == st;
    }
    if ops :| TempLegal(s.st, ops) && TempRun(s.st, ops) == st {
      var es := RunAsSchedule(s, ops, t);
      assert Schedule(s, es) && Exec(s, es).st == st;
    }
  }

  // ---------------------------------------------------------------- I/O to another file's block

  lemma InPool(st: TempState, f: TempName, k: nat)
    requires TempInv(st) && Owns(st.files, f, k)
    ensures st.ledger.pool.lo <= StartOf(st.files, f, k) < st.ledger.pool.hi
  {
    EntryLive(st, f, k);
    var b := st.ledger.pool.blocks;
    WithinPool(b, st.ledger.pool.lo, st.ledger.pool.hi, Find(b, StartOf(st.files, f, k)));
  }

  lemma Cleared(st: TempState)
    requires TempInv(st)
    ensures TempEnabled(st, ClearAll)
    ensures var r := TempStep(st, ClearAll);
            r.files == map[] && OneFree(r.ledger.pool) && SameDevice(st, r)
  {
    hide TempInv;
    PoolOf(st);
    PoolBounds(st.ledger.pool);
  }

  lemma PoolBounds(p: Pool)
    requires WellFormed(p)
    ensures p.lo < p.hi
  {
  }

  lemma FillPast(st: TempState, g: TempName, i: nat) returns (ops: seq<TempOp>)
    requires TempInv(st) && Filling(st, g, 0) && st.ledger.pool.lo + 8 * i < st.ledger.pool.hi
    ensures TempLegal(st, ops)
    ensures var r := TempRun(st, ops).files;
            r.Keys == st.files.Keys && Owns(r, g, i) && StartOf(r, g, i) == st.ledger.pool.lo + 8 * i
              && r[g].blockSize == 32768
  {
    hide TempInv, Filling, AccessStep, TempRun, TempLegal, TempStep, FullShort;
    FillTo(st, g, 0, i);
    var b := TempRun(st, Fill(g, 0, i));
    InFilling(b, g, i);
    FillStep(b, g, i);
    OneAccess(b, Access(g, 32768 * i, 8));
    ops := Fill(g, 0, i) + [Access(g, 32768 * i, 8)];
    TempRunConcat(st, Fill(g, 0, i), [Access(g, 32768 * i, 8)]);
  }

  lemma CreatedOnly(st: TempState, g: TempName)
    requires TempInv(st) && st.files == map[] && g.bufferSize == "S32K"
    ensures TempStep(st, Create(g)) == CreateStep(st, g) && CreateStep(st, g).files.Keys == {g}
    ensures CreateStep(st, g).ledger == st.ledger
  {
    hide TempInv;
  }

  /** From an empty pool, accesses to one file's blocks one after the other take up any LBA. */
  lemma TakenUp(st: TempState, g: TempName, lba: nat) returns (ops: seq<TempOp>, i: nat)
    requires TempInv(st) && st.lbaSize == 4096 && g.bufferSize == "S32K" && st.files == map[] && OneFree(st.ledger.pool)
    requires st.ledger.pool.lo <= lba < st.ledger.pool.hi
    ensures TempLegal(st, ops)
    ensures var r := TempRun(st, ops).files;
            && r.Keys == {g} && Owns(r, g, i) && StartOf(r, g, i) <= lba < StartOf(r, g, i) + r[g].blockSize / 4096
  {
    hide TempInv, Filling, CreateStep, OneFree, TempRun, TempLegal, TempStep;
    i := (lba - st.ledger.pool.lo) / 8;
    FillFrom(st, g);
    CreatedOnly(st, g);
    ops := FillPast(CreateStep(st, g), g, i);
    FirstOp(st, Create(g), ops);
    ops := [Create(g)] + ops;
  }

  lemma {:induction false} HeldAtEnd(s: System, es: seq<Event>, f: TempName, k: nat, lba: nat)
    requires SysInv(s) && Schedule(s, es) && HeldThroughout(s, es, f, k, lba)
    ensures At(Exec(s, es).st.files, f, k) == {lba}
    decreases |es|
  {
    hide Allowed, Next, SysInv, At;
    if es != [] {
      HeldAtEnd(Next(s, es[0]), es[1..], f, k, lba);
    }
  }

  /** What the dropped block's I/O can hit: from every state in which `lba` is a block of `f`, a
      schedule of one other thread after which that LBA is part of a block of `g`. */
  lemma HitsOtherFile(s: System, f: TempName, k: nat, lba: nat, g: TempName, t: nat) returns (es: seq<Event>, i: nat)
    requires SysInv(s) && s.st.lbaSize == 4096 && At(s.st.files, f, k) == {lba}
    requires g != f && g.bufferSize == "S32K" && t !in s.pending
    ensures Schedule(s, es) && !NeverDrops(s, es, f, k)
    ensures var r := Exec(s, es).st.files;
            && f !in r && Owns(r, g, i) && StartOf(r, g, i) <= lba < StartOf(r, g, i) + r[g].blockSize / 4096
  {
    hide TempInv, TempRun, TempLegal, TempStep, OneFree, Schedule, Exec, NeverDrops, HeldThroughout, SizeByName;
    assert Owns(s.st.files, f, k) && StartOf(s.st.files, f, k) == lba;
    InPool(s.st, f, k);
    Cleared(s.st);
    var c := TempStep(s.st, ClearAll);
    var ops;
    ops, i := TakenUp(c, g, lba);
    FirstOp(s.st, ClearAll, ops);
    es := RunAsSchedule(s, [ClearAll] + ops, t);
    IoHitsOwnBlock(s, es, f, k, lba);
    if NeverDrops(s, es, f, k) { HeldAtEnd(s, es, f, k, lba); }
  }
}
