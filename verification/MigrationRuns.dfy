/** Any number of migrators sharing one manager, interleaved step by step with each other and with all
    other uses of the manager, imports of gossip among them. */
module MigrationRuns {
  import opened Options
  import opened Hlc
  import opened Crdt
  import opened Store
  import opened Migration

  /** Where a migrator is in `runMigrations`; `expiry` is that of the lock it acquired.  From `Checking` to
      `Storing` it is inside Run. */
  datatype Phase =
    | Idle
    | Checking(expiry: int)
    | PreHooks(expiry: int)
    | Command(expiry: int)
    | PostHooks(expiry: int)
    | Storing(expiry: int)
    | Releasing(expiry: int)
    | Waiting
    | Finished
  {
    predicate InRun()
    {
      Checking? || PreHooks? || Command? || PostHooks? || Storing?
    }

    /** Past the check that a migration is needed. */
    predicate Committed()
    {
      PreHooks? || Command? || PostHooks? || Storing?
    }

    /** It has acquired the lock and not yet called ReleaseLock. */
    predicate Engaged()
    {
      InRun() || Releasing?
    }
  }

  /** `holders[i]` is the i-th migrator's host name; `version` the fixed contents of the version file. */
  datatype Setup = Setup(config: Config, holders: seq<string>, version: string)

  /** `reached` counts the Runs that reached the storing of the version, `stored` those that stored it, and
      `misread` those whose read of the version file failed there. */
  datatype System = System(store: Store, wall: int, phases: seq<Phase>, reached: nat, stored: nat, misread: nat)

  /** One step of a migrator.  A hook or command may fail at any step, and so may a read of the file. */
  datatype Move =
    | Acquire(born: int, now: int, check: int)
    | CheckVersion(readable: bool)
    | Progress(ok: bool)
    | StoreVersion(readable: bool, now: int)
    | Release(check: int, now: int)
    | Poll(check: int, again: int)
    | Cancel

  /** A migrator's step, or another use of the manager: a local operation or the import of a message. */
  datatype Event = Migrator(i: nat, move: Move) | Other(op: Op) | Import(message: Gossip, walls: ImportWalls, end: int)

  function Read(setup: Setup, readable: bool): Option<string>
  {
    if readable then Some(setup.version) else None
  }

  /** The step that follows a success, in the order of Run. */
  function NextPhase(p: Phase): Phase
    requires p.PreHooks? || p.Command? || p.PostHooks?
  {
    match p
    case PreHooks(expiry) => Command(expiry)
    case Command(expiry) => PostHooks(expiry)
    case PostHooks(expiry) => Storing(expiry)
  }

  ghost predicate Enabled(setup: Setup, sys: System, e: Event)
  {
    match e
    case Other(op) =>
      // other users leave the migration lock and the stored version alone
      && Timed(op, sys.wall)
      && (op.AcquireLock? || op.ReleaseLock? ==> op.key != setup.config.lockKey)
      && (op.SetMeta? ==> op.key != APP_VERSION)
    case Import(message, walls, end) =>
      // so do other nodes; and the message does not set the clock back
      && sys.wall <= end && UpdateAdvances(sys.store.clock, message.version, walls.now)
      && setup.config.lockKey !in message.locks && APP_VERSION !in message.meta
    case Migrator(i, move) =>
      && i < |sys.phases| == |setup.holders|
      && var p := sys.phases[i];
         match move
         case Acquire(born, now, check) => p.Idle? && sys.wall <= born <= now <= check
         case CheckVersion(_) => p.Checking?
         case Progress(_) => p.PreHooks? || p.Command? || p.PostHooks?
         case StoreVersion(_, now) => p.Storing? && sys.wall <= now
         case Release(check, now) => p.Releasing? && sys.wall <= check <= now
         case Poll(check, again) => p.Waiting? && sys.wall <= check <= again
         case Cancel => p.Waiting?
  }

  ghost function Next(setup: Setup, sys: System, e: Event): System
    requires Enabled(setup, sys, e)
  {
    match e
    case Other(op) => sys.(store := Step(sys.store, op).0, wall := EndOf(op, sys.wall))
    case Import(message, walls, end) => sys.(store := Imported(sys.store, message, walls), wall := end)
    case Migrator(i, move) =>
      var key, holder, ttl := setup.config.lockKey, setup.holders[i], setup.config.lockTimeout;
      var p := sys.phases[i];
      match move
      case Acquire(born, now, check) =>
        var (s, ok) := Acquired(sys.store, key, holder, ttl, born, now, check);
        sys.(store := s, wall := check, phases := sys.phases[i := if ok then Checking(born + ttl) else Waiting])
      case CheckVersion(readable) =>
        var needed := NeedsMigration(setup.config, sys.store, Read(setup, readable));
        sys.(phases := sys.phases[i := if needed == Known(true) then PreHooks(p.expiry) else Releasing(p.expiry)])
      case Progress(ok) =>
        var next := if ok then NextPhase(p) else Releasing(p.expiry);
        sys.(phases := sys.phases[i := next], reached := sys.reached + if next.Storing? then 1 else 0)
      case StoreVersion(readable, now) =>
        var (s, ok) := VersionStored(setup.config, sys.store, Read(setup, readable), now);
        sys.(store := s, wall := now, phases := sys.phases[i := Releasing(p.expiry)],
             stored := sys.stored + if ok then 1 else 0, misread := sys.misread + if ok then 0 else 1)
      case Release(check, now) =>
        sys.(store := Released(sys.store, key, holder, check, now), wall := now, phases := sys.phases[i := Finished])
      case Poll(check, again) =>
        sys.(wall := again, phases := sys.phases[i := if LockHeld(sys.store, key, check, again) then Waiting else Finished])
      case Cancel =>
        sys.(phases := sys.phases[i := Finished])
  }

  predicate Start(setup: Setup, sys: System)
  {
    && setup.config.versionFile != ""
    && |sys.phases| == |setup.holders|
    && (forall i :: 0 <= i < |sys.phases| ==> sys.phases[i] == Idle)
    && sys.reached == sys.stored == sys.misread == 0
  }

  /** No Run outlives the expiry of its lock. */
  predicate OnTime(sys: System)
  {
    forall i :: 0 <= i < |sys.phases| && sys.phases[i].InRun() ==> sys.wall <= sys.phases[i].expiry
  }

  predicate DistinctHolders(setup: Setup)
  {
    forall i, j :: 0 <= i < j < |setup.holders| ==> setup.holders[i] != setup.holders[j]
  }

  /** A release does not hit a later lock of a migrator with the same host name. */
  ghost predicate Harmless(setup: Setup, sys: System, e: Event)
    requires Enabled(setup, sys, e)
  {
    e.Migrator? && e.move.Release? ==>
      forall k :: 0 <= k < |sys.phases| && k != e.i && sys.phases[k].Engaged() && setup.holders[k] == setup.holders[e.i] ==>
        sys.phases[k].expiry <= e.move.check
  }

  /** What a migrator can see to by itself: it releases no later than its own lock expires. */
  ghost predicate Punctual(setup: Setup, sys: System, e: Event)
    requires Enabled(setup, sys, e)
  {
    e.Migrator? && e.move.Release? ==> e.move.check <= sys.phases[e.i].expiry
  }

  ghost predicate Possible(setup: Setup, sys: System, run: seq<Event>)
    decreases |run|
  {
    && OnTime(sys)
    && (run != [] ==>
          && Enabled(setup, sys, run[0]) && Harmless(setup, sys, run[0])
          && Possible(setup, Next(setup, sys, run[0]), run[1..]))
  }

  ghost function After(setup: Setup, sys: System, run: seq<Event>): System
    requires Possible(setup, sys, run)
    decreases |run|
  {
    if run == [] then sys else After(setup, Next(setup, sys, run[0]), run[1..])
  }

  // ---------- The invariant ----------

  /** The stored lock is the one the migrator acquired. */
  predicate Owns(setup: Setup, s: Store, holder: string, expiry: int)
  {
    var key := setup.config.lockKey;
    key in s.locks && s.locks[key].holder == holder && s.locks[key].expiresAt == expiry && !s.locks[key].deleted
  }

  ghost predicate LockOk(setup: Setup, sys: System)
  {
    && |sys.phases| == |setup.holders|
    && (forall i :: 0 <= i < |sys.phases| && sys.phases[i].Engaged() && sys.wall <= sys.phases[i].expiry ==>
          Owns(setup, sys.store, setup.holders[i], sys.phases[i].expiry))
    && (forall i, j :: 0 <= i < j < |sys.phases| && sys.phases[i].Engaged() && sys.phases[j].Engaged() ==>
          sys.phases[i].expiry < sys.wall || sys.phases[j].expiry < sys.wall)
  }

  ghost predicate VersionOk(setup: Setup, sys: System)
  {
    && sys.stored <= 1
    && (sys.stored == 1 ==> MetaGot(sys.store, APP_VERSION).0 == setup.version)
    && (forall i :: 0 <= i < |sys.phases| && sys.phases[i].Committed() ==> sys.stored == 0)
    && sys.reached == sys.stored + sys.misread + (if exists i :: 0 <= i < |sys.phases| && sys.phases[i].Storing? then 1 else 0)
  }

  /** The clock is at or above the stamp of the stored version, so the next version stored replaces it. */
  predicate ClockAhead(s: Store)
  {
    APP_VERSION in s.meta ==> s.meta[APP_VERSION].ts.LessOrEqual(s.clock)
  }

  ghost predicate VersionInv(setup: Setup, sys: System)
  {
    setup.config.versionFile != "" && ClockAhead(sys.store) && |sys.phases| == |setup.holders| && VersionOk(setup, sys)
  }

  ghost predicate Inv(setup: Setup, sys: System)
  {
    LockOk(setup, sys) && VersionInv(setup, sys)
  }

  ghost predicate OneInside(sys: System)
  {
    forall i, j :: 0 <= i < |sys.phases| && 0 <= j < |sys.phases| && sys.phases[i].InRun() && sys.phases[j].InRun() ==> i == j
  }

  /** Under the time bound, two migrators are never inside Run together. */
  lemma OneInRun(setup: Setup, sys: System)
    requires LockOk(setup, sys) && OnTime(sys)
    ensures OneInside(sys)
  {
  }

  // ---------- Steps keep the lock ----------

  lemma OtherKeepsOwners(setup: Setup, sys: System, op: Op)
    requires LockOk(setup, sys) && Enabled(setup, sys, Other(op))
    ensures LockOk(setup, Next(setup, sys, Other(op)))
  {
    var sys' := Next(setup, sys, Other(op));
    OtherKeepsLock(setup, sys.store, op, sys.wall);
    forall i | 0 <= i < |sys.phases| && sys.phases[i].Engaged() && sys'.wall <= sys.phases[i].expiry
      ensures Owns(setup, sys'.store, setup.holders[i], sys.phases[i].expiry)
    {
      assert Owns(setup, sys.store, setup.holders[i], sys.phases[i].expiry);
    }
  }

  /** Other users neither touch nor collect a migration lock that is in force, nor change the version. */
  lemma OtherKeepsLock(setup: Setup, s: Store, op: Op, wall: int)
    requires Timed(op, wall)
    requires op.AcquireLock? || op.ReleaseLock? ==> op.key != setup.config.lockKey
    requires op.SetMeta? ==> op.key != APP_VERSION
    ensures wall <= EndOf(op, wall)
    ensures forall holder, expiry :: Owns(setup, s, holder, expiry) && EndOf(op, wall) <= expiry ==> Owns(setup, Step(s, op).0, holder, expiry)
    ensures MetaGot(Step(s, op).0, APP_VERSION) == MetaGot(s, APP_VERSION)
  {
  }

  lemma ImportKeepsLock(setup: Setup, sys: System, e: Event)
    requires Enabled(setup, sys, e) && e.Import?
    ensures var s' := Next(setup, sys, e).store;
            && sys.wall <= e.end
            && (forall holder, expiry :: Owns(setup, s', holder, expiry) <==> Owns(setup, sys.store, holder, expiry))
            && MetaGot(s', APP_VERSION) == MetaGot(sys.store, APP_VERSION)
  {
  }

  lemma ImportKeepsOwners(setup: Setup, sys: System, e: Event)
    requires LockOk(setup, sys) && Enabled(setup, sys, e) && e.Import?
    ensures LockOk(setup, Next(setup, sys, e))
  {
    ImportKeepsLock(setup, sys, e);
    var sys' := Next(setup, sys, e);
    forall i | 0 <= i < |sys.phases| && sys.phases[i].Engaged() && sys'.wall <= sys.phases[i].expiry
      ensures Owns(setup, sys'.store, setup.holders[i], sys.phases[i].expiry)
    {
      assert Owns(setup, sys.store, setup.holders[i], sys.phases[i].expiry);
    }
  }

  lemma AcquireKeepsOwners(setup: Setup, sys: System, e: Event)
    requires LockOk(setup, sys) && Enabled(setup, sys, e) && e.Migrator? && e.move.Acquire?
    ensures LockOk(setup, Next(setup, sys, e))
  {
    var sys' := Next(setup, sys, e);
    if sys'.phases[e.i].Checking? {
      forall k | 0 <= k < |sys.phases| && k != e.i && sys.phases[k].Engaged()
        ensures sys.phases[k].expiry < sys'.wall
      {
        assert sys.wall <= sys.phases[k].expiry ==> Owns(setup, sys.store, setup.holders[k], sys.phases[k].expiry);
      }
    }
    assert forall k :: 0 <= k < |sys.phases| && k != e.i ==> sys'.phases[k] == sys.phases[k];
  }

  lemma ReleaseKeepsOwners(setup: Setup, sys: System, e: Event)
    requires LockOk(setup, sys) && Enabled(setup, sys, e) && Harmless(setup, sys, e) && e.Migrator? && e.move.Release?
    ensures LockOk(setup, Next(setup, sys, e))
  {
    var sys' := Next(setup, sys, e);
    forall k | 0 <= k < |sys'.phases| && sys'.phases[k].Engaged() && sys'.wall <= sys'.phases[k].expiry
      ensures Owns(setup, sys'.store, setup.holders[k], sys'.phases[k].expiry)
    {
      assert k != e.i && Owns(setup, sys.store, setup.holders[k], sys.phases[k].expiry);
    }
    assert forall k :: 0 <= k < |sys.phases| && k != e.i ==> sys'.phases[k] == sys.phases[k];
  }

  lemma RunStepKeepsOwners(setup: Setup, sys: System, e: Event)
    requires LockOk(setup, sys) && Enabled(setup, sys, e) && e.Migrator? && !e.move.Acquire? && !e.move.Release?
    ensures LockOk(setup, Next(setup, sys, e))
  {
    var sys' := Next(setup, sys, e);
    forall k | 0 <= k < |sys'.phases| && sys'.phases[k].Engaged() && sys'.wall <= sys'.phases[k].expiry
      ensures Owns(setup, sys'.store, setup.holders[k], sys'.phases[k].expiry)
    {
      assert Owns(setup, sys.store, setup.holders[k], sys.phases[k].expiry);
    }
  }

  // ---------- Steps keep the version ----------

  lemma OpKeepsClockAhead(s: Store, op: Op)
    requires ClockAhead(s) && (op.SetMeta? ==> op.key != APP_VERSION)
    ensures ClockAhead(Step(s, op).0)
  {
    var s' := Step(s, op).0;
    assert s.clock.LessOrEqual(s'.clock);
    if APP_VERSION in s.meta { LessIsTotalOrder(s.meta[APP_VERSION].ts, s.clock, s'.clock); }
  }

  lemma ImportKeepsClockAhead(s: Store, g: Gossip, walls: ImportWalls)
    requires ClockAhead(s) && UpdateAdvances(s.clock, g.version, walls.now) && APP_VERSION !in g.meta
    ensures ClockAhead(Imported(s, g, walls))
  {
    var c0 := Updated(s.clock, g.version, walls.now);
    var c1 := WitnessedAll(c0, SessionTs, s.sessions, g.sessions, walls.sessions);
    var c2 := WitnessedAll(c1, LockTs, s.locks, g.locks, walls.locks);
    var c3 := WitnessedAll(c2, RegisterTs, s.meta, g.meta, walls.meta);
    LessIsTotalOrder(s.clock, c0, c1);
    LessIsTotalOrder(s.clock, c1, c2);
    LessIsTotalOrder(s.clock, c2, c3);
    if APP_VERSION in s.meta { LessIsTotalOrder(s.meta[APP_VERSION].ts, s.clock, c3); }
  }

  lemma StoringReplaces(s: Store, value: string, now: int)
    requires ClockAhead(s)
    ensures ClockAhead(MetaSet(s, APP_VERSION, value, now)) && MetaGot(MetaSet(s, APP_VERSION, value, now), APP_VERSION).0 == value
  {
    if APP_VERSION in s.meta { LessIsTotalOrder(s.meta[APP_VERSION].ts, s.clock, Ticked(s.clock, now)); }
  }

  /** The steps outside Run leave the version and all counts alone. */
  lemma OutsideKeepsVersion(setup: Setup, sys: System, e: Event)
    requires VersionInv(setup, sys) && Enabled(setup, sys, e)
    requires e.Migrator? ==> e.move.Acquire? || e.move.Release? || e.move.Poll? || e.move.Cancel?
    ensures VersionInv(setup, Next(setup, sys, e))
  {
    var sys' := Next(setup, sys, e);
    match e
    case Other(op) =>
      OpKeepsClockAhead(sys.store, op);
      OtherKeepsLock(setup, sys.store, op, sys.wall);
    case Import(message, walls, end) =>
      ImportKeepsClockAhead(sys.store, message, walls);
      ImportKeepsLock(setup, sys, e);
    case Migrator(i, move) =>
      if move.Acquire? {
        OpKeepsClockAhead(sys.store, AcquireLock(setup.config.lockKey, setup.holders[i], setup.config.lockTimeout, move.born, move.now, move.check));
      } else if move.Release? {
        OpKeepsClockAhead(sys.store, ReleaseLock(setup.config.lockKey, setup.holders[i], move.check, move.now));
      }
      assert forall k :: 0 <= k < |sys.phases| && k != i ==> sys'.phases[k] == sys.phases[k];
      assert (exists k :: 0 <= k < |sys'.phases| && sys'.phases[k].Storing?) <==> (exists k :: 0 <= k < |sys.phases| && sys.phases[k].Storing?);
  }

  /** The steps inside Run, where nobody else is. */
  lemma InsideKeepsVersion(setup: Setup, sys: System, i: nat, move: Move)
    requires VersionInv(setup, sys) && OneInside(sys) && Enabled(setup, sys, Migrator(i, move))
    requires move.CheckVersion? || move.Progress? || move.StoreVersion?
    ensures VersionInv(setup, Next(setup, sys, Migrator(i, move)))
  {
    var sys' := Next(setup, sys, Migrator(i, move));
    if move.StoreVersion? {
      StoringReplaces(sys.store, setup.version, move.now);
    }
    assert forall k :: 0 <= k < |sys.phases| && k != i ==> sys'.phases[k] == sys.phases[k] && !sys.phases[k].InRun();
    assert (exists k :: 0 <= k < |sys.phases| && sys.phases[k].Storing?) <==> sys.phases[i].Storing?;
    assert (exists k :: 0 <= k < |sys'.phases| && sys'.phases[k].Storing?) <==> sys'.phases[i].Storing?;
  }

  lemma StepKeepsVersion(setup: Setup, sys: System, e: Event)
    requires VersionInv(setup, sys) && OneInside(sys) && Enabled(setup, sys, e)
    ensures VersionInv(setup, Next(setup, sys, e))
  {
    if e.Migrator? && (e.move.CheckVersion? || e.move.Progress? || e.move.StoreVersion?) {
      InsideKeepsVersion(setup, sys, e.i, e.move);
    } else {
      OutsideKeepsVersion(setup, sys, e);
    }
  }

  // ---------- Runs ----------

  lemma StepKeepsInv(setup: Setup, sys: System, e: Event)
    requires Inv(setup, sys) && OnTime(sys) && Enabled(setup, sys, e) && Harmless(setup, sys, e)
    ensures Inv(setup, Next(setup, sys, e))
  {
    OneInRun(setup, sys);
    StepKeepsVersion(setup, sys, e);
    match e
    case Other(op) => OtherKeepsOwners(setup, sys, op);
    case Import(_, _, _) => ImportKeepsOwners(setup, sys, e);
    case Migrator(_, move) =>
      if move.Acquire? { AcquireKeepsOwners(setup, sys, e); }
      else if move.Release? { ReleaseKeepsOwners(setup, sys, e); }
      else { RunStepKeepsOwners(setup, sys, e); }
  }

  lemma {:induction false} RunKeepsInv(setup: Setup, sys: System, run: seq<Event>)
    requires Inv(setup, sys) && Possible(setup, sys, run)
    ensures Inv(setup, After(setup, sys, run)) && OnTime(After(setup, sys, run))
    decreases |run|
  {
    if run != [] {
      StepKeepsInv(setup, sys, run[0]);
      RunKeepsInv(setup, Next(setup, sys, run[0]), run[1..]);
    }
  }

  /** At most one migration: over every interleaving of any number of migrators, with failures anywhere, at
      most one migrator is inside Run at a time, the version is stored at most once, and storing is reached
      at most once more than its read of the version file fails - so at most once when it never does. */
  lemma AtMostOneMigration(setup: Setup, sys: System, run: seq<Event>)
    requires Start(setup, sys) && ClockAhead(sys.store) && Possible(setup, sys, run)
    ensures var end := After(setup, sys, run);
            && OneInside(end)
            && StoredOnce(setup, end)
  {
    RunKeepsInv(setup, sys, run);
    OneInRun(setup, After(setup, sys, run));
    VersionStoredOnce(setup, After(setup, sys, run));
  }

  /** The version has been stored at most once, and storing was reached at most once more than its read of
      the version file failed. */
  ghost predicate StoredOnce(setup: Setup, sys: System)
  {
    && sys.stored <= 1
    && sys.reached <= 1 + sys.misread
    && (sys.stored == 1 ==> MetaGot(sys.store, APP_VERSION).0 == setup.version)
  }

  lemma VersionStoredOnce(setup: Setup, sys: System)
    requires VersionInv(setup, sys)
    ensures StoredOnce(setup, sys)
  {
    if k :| 0 <= k < |sys.phases| && sys.phases[k].Storing? {
      assert sys.phases[k].Committed();
    }
  }

  // ---------- The steps are those of Run ----------

  predicate PreOk(config: Config, w: World)
  {
    config.profile.Some? ==> HooksSucceed(config.profile.value.preHooks, w.pre)
  }

  predicate PostOk(config: Config, w: World)
  {
    config.profile.Some? ==> HooksSucceed(config.profile.value.postHooks, w.post)
  }

  /** A migrator that has just acquired the lock takes its next step inside Run, as w says. */
  ghost function SoloStep(setup: Setup, sys: System, i: nat, w: World): System
    requires i < |sys.phases| == |setup.holders| && sys.wall <= w.now
  {
    match sys.phases[i]
    case Checking(_) => Next(setup, sys, Migrator(i, CheckVersion(w.checkFile.Some?)))
    case PreHooks(_) => Next(setup, sys, Migrator(i, Progress(PreOk(setup.config, w))))
    case Command(_) => Next(setup, sys, Migrator(i, Progress(CommandOf(setup.config) != [] ==> w.command)))
    case PostHooks(_) => Next(setup, sys, Migrator(i, Progress(PostOk(setup.config, w))))
    case Storing(_) => Next(setup, sys, Migrator(i, StoreVersion(w.storeFile.Some?, w.now)))
    case _ => sys
  }

  /** Undisturbed, five such steps do to the store what one call of Run does, and leave the migrator about
      to release; the version counts as stored exactly when Run got as far as storing it. */
  lemma FiveStepsAreRun(setup: Setup, sys: System, i: nat, w: World)
    requires setup.config.versionFile != ""
    requires i < |sys.phases| == |setup.holders| && sys.wall <= w.now && sys.phases[i].Checking?
    requires w.checkFile.Some? ==> w.checkFile.value == setup.version
    requires w.storeFile.Some? ==> w.storeFile.value == setup.version
    ensures var s1 := SoloStep(setup, sys, i, w);
            var s2 := SoloStep(setup, s1, i, w);
            var s3 := SoloStep(setup, s2, i, w);
            var s4 := SoloStep(setup, s3, i, w);
            var s5 := SoloStep(setup, s4, i, w);
            var (store, ok) := AfterRun(setup.config, sys.store, w);
            && s5.store == store
            && s5.phases == sys.phases[i := Releasing(sys.phases[i].expiry)]
            && (s5.stored == sys.stored + 1 <==> ok && NeedsMigration(setup.config, sys.store, w.checkFile) == Known(true))
  {
  }

  // ---------- Which releases are harmless ----------

  /** A release takes away the unexpired lock of another migrator at work exactly when the two have the
      same host name and the lock has not yet reached its expiry. */
  lemma ReleaseTakesExactly(setup: Setup, sys: System, i: nat, check: int, now: int, k: nat)
    requires LockOk(setup, sys) && Enabled(setup, sys, Migrator(i, Release(check, now)))
    requires k < |sys.phases| && k != i && sys.phases[k].Engaged() && sys.wall <= sys.phases[k].expiry
    ensures var sys' := Next(setup, sys, Migrator(i, Release(check, now)));
            !Owns(setup, sys'.store, setup.holders[k], sys.phases[k].expiry) <==>
              setup.holders[i] == setup.holders[k] && check < sys.phases[k].expiry
  {
    assert Owns(setup, sys.store, setup.holders[k], sys.phases[k].expiry);
  }

  lemma PunctualIsHarmless(setup: Setup, sys: System, e: Event)
    requires LockOk(setup, sys) && Enabled(setup, sys, e)
    ensures Punctual(setup, sys, e) ==> Harmless(setup, sys, e)
    ensures DistinctHolders(setup) ==> Harmless(setup, sys, e)
  {
  }

  // ---------- Separate managers ----------

  /** Nodes that each have their own manager are not kept apart by the lock: once the first node has been
      granted it, a second one is granted it too, unless it has meanwhile imported the first node's lock
      and that lock is still in force. */
  lemma SeparateManagersExactly(config: Config, node1: string, boot1: int, holder1: string, born1: int, now1: int, check1: int,
                                send: int, node2: string, boot2: int, heard: bool, walls: ImportWalls,
                                holder2: string, born2: int, now2: int, check2: int)
    ensures var key, ttl := config.lockKey, config.lockTimeout;
            var (first, granted) := Acquired(Booted(node1, boot1), key, holder1, ttl, born1, now1, check1);
            var second := if heard then Imported(Booted(node2, boot2), Snapshot(first, send).1, walls) else Booted(node2, boot2);
            && granted
            && (Acquired(second, key, holder2, ttl, born2, now2, check2).1 <==> !heard || born1 + ttl < check2)
  {
  }
}
