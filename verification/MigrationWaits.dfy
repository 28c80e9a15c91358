/** What a migrator that has waited for the migration lock may conclude from the end of its wait. */
module MigrationWaits {
  import opened Crdt
  import opened Store
  import opened Migration
  import opened MigrationRuns
  import opened LateReleases

  /** A read of the version file, a hook or the command fails. */
  predicate Fails(e: Event)
  {
    e.Migrator? &&
      match e.move
      case CheckVersion(readable) => !readable
      case Progress(ok) => !ok
      case StoreVersion(readable, _) => !readable
      case _ => false
  }

  predicate Smooth(run: seq<Event>)
  {
    forall e :: e in run ==> !Fails(e)
  }

  predicate LockFree(setup: Setup, sys: System)
  {
    setup.config.lockKey !in sys.store.locks || sys.store.locks[setup.config.lockKey].DeadAt(sys.wall)
  }

  predicate IsStored(setup: Setup, sys: System)
  {
    MetaGot(sys.store, APP_VERSION).0 == setup.version
  }

  ghost predicate SomeoneInside(sys: System)
  {
    exists k :: 0 <= k < |sys.phases| && sys.phases[k].InRun()
  }

  ghost predicate AllIdle(sys: System)
  {
    forall i :: 0 <= i < |sys.phases| ==> sys.phases[i].Idle?
  }

  /** Without failures: until a migrator has moved the lock is free, and from then on one of them is inside
      Run or the version is stored. */
  ghost predicate SmoothInv(setup: Setup, sys: System)
  {
    && setup.config.versionFile != "" && |sys.phases| == |setup.holders| && ClockAhead(sys.store)
    && (AllIdle(sys) ==> LockFree(setup, sys))
    && (AllIdle(sys) || SomeoneInside(sys) || IsStored(setup, sys))
  }

  lemma UseKeepsSmooth(setup: Setup, sys: System, e: Event)
    requires SmoothInv(setup, sys) && Enabled(setup, sys, e) && !e.Migrator?
    ensures SmoothInv(setup, Next(setup, sys, e))
  {
    match e
    case Other(op) =>
      OpKeepsClockAhead(sys.store, op);
      OtherKeepsLock(setup, sys.store, op, sys.wall);
      assert Next(setup, sys, e).phases == sys.phases;
    case Import(message, walls, end) =>
      ImportKeepsClockAhead(sys.store, message, walls);
      ImportKeepsLock(setup, sys, e);
      assert Next(setup, sys, e).phases == sys.phases;
  }

  lemma MoveKeepsSmooth(setup: Setup, sys: System, i: nat, move: Move)
    requires SmoothInv(setup, sys) && Enabled(setup, sys, Migrator(i, move)) && !Fails(Migrator(i, move))
    ensures SmoothInv(setup, Next(setup, sys, Migrator(i, move)))
  {
    var sys' := Next(setup, sys, Migrator(i, move));
    assert !sys'.phases[i].Idle?;
    match move
    case Acquire(born, now, check) =>
      OpKeepsClockAhead(sys.store, AcquireLock(setup.config.lockKey, setup.holders[i], setup.config.lockTimeout, born, now, check));
      if SomeoneInside(sys) {
        var k :| 0 <= k < |sys.phases| && sys.phases[k].InRun();
        assert sys'.phases[k].InRun();
      }
      assert sys'.phases[i].InRun() || !AllIdle(sys);
    case Release(check, now) =>
      OpKeepsClockAhead(sys.store, ReleaseLock(setup.config.lockKey, setup.holders[i], check, now));
      OthersStayInside(sys, sys', i);
    case StoreVersion(_, now) =>
      StoringReplaces(sys.store, setup.version, now);
    case Poll(_, _) => OthersStayInside(sys, sys', i);
    case Cancel => OthersStayInside(sys, sys', i);
    case CheckVersion(_) => assert sys'.phases[i].InRun() || IsStored(setup, sys');
    case Progress(_) => assert sys'.phases[i].InRun();
  }

  lemma OthersStayInside(sys: System, sys': System, i: nat)
    requires i < |sys.phases| == |sys'.phases| && !sys.phases[i].InRun()
    requires forall k :: 0 <= k < |sys.phases| && k != i ==> sys'.phases[k] == sys.phases[k]
    ensures SomeoneInside(sys) ==> SomeoneInside(sys')
  {
    if SomeoneInside(sys) {
      var k :| 0 <= k < |sys.phases| && sys.phases[k].InRun();
      assert sys'.phases[k].InRun();
    }
  }

  lemma {:induction false} RunKeepsSmooth(setup: Setup, sys: System, run: seq<Event>, end: System)
    requires SmoothInv(setup, sys) && Reaches(setup, sys, run, end) && Smooth(run)
    ensures SmoothInv(setup, end)
    decreases |run|
  {
    if run != [] {
      assert run[0] in run;
      if run[0].Migrator? {
        MoveKeepsSmooth(setup, sys, run[0].i, run[0].move);
      } else {
        UseKeepsSmooth(setup, sys, run[0]);
      }
      RunKeepsSmooth(setup, Next(setup, sys, run[0]), run[1..], end);
    }
  }

  /** The wait of migrator i would complete with this poll. */
  ghost predicate Completes(setup: Setup, sys: System, i: nat, check: int, again: int)
  {
    Enabled(setup, sys, Migrator(i, Poll(check, again))) && !LockHeld(sys.store, setup.config.lockKey, check, again)
  }

  /** From a free lock, and as long as nothing fails, a wait completes only when the version is stored, or while
      another migrator is still inside Run. */
  lemma CompletedWait(setup: Setup, sys: System, run: seq<Event>, end: System, i: nat, check: int, again: int)
    requires Start(setup, sys) && ClockAhead(sys.store) && LockFree(setup, sys)
    requires Reaches(setup, sys, run, end) && Smooth(run) && Completes(setup, end, i, check, again)
    ensures IsStored(setup, end) || SomeoneInside(end)
  {
    RunKeepsSmooth(setup, sys, run, end);
    assert !end.phases[i].Idle?;
  }

  /** If moreover releases are harmless, and no Run is at work at the very expiry of its lock, the version is
      stored when a wait completes. */
  lemma CompletedWaitMeansStored(setup: Setup, sys: System, run: seq<Event>, i: nat, check: int, again: int)
    requires Start(setup, sys) && ClockAhead(sys.store) && LockFree(setup, sys)
    requires Possible(setup, sys, run) && Smooth(run) && Completes(setup, After(setup, sys, run), i, check, again)
    requires var end := After(setup, sys, run);
             forall k :: 0 <= k < |end.phases| && end.phases[k].InRun() ==> again < end.phases[k].expiry
    ensures IsStored(setup, After(setup, sys, run))
  {
    var end := After(setup, sys, run);
    PossibleReaches(setup, sys, run);
    RunKeepsInv(setup, sys, run);
    CompletedWait(setup, sys, run, end, i, check, again);
    if k :| 0 <= k < |end.phases| && end.phases[k].InRun() {
      assert Owns(setup, end.store, setup.holders[k], end.phases[k].expiry);
    }
  }

  lemma {:induction false} PossibleReaches(setup: Setup, sys: System, run: seq<Event>)
    requires Possible(setup, sys, run)
    ensures Reaches(setup, sys, run, After(setup, sys, run))
    decreases |run|
  {
    if run != [] { PossibleReaches(setup, Next(setup, sys, run[0]), run[1..]); }
  }

  lemma FailedWinnerReleases(setup: Setup, sys: System, i: nat, j: nat) returns (run: seq<Event>, end: System)
    requires i < |sys.phases| == |setup.holders| && j < |sys.phases| && i != j && OnTime(sys)
    requires sys.phases[i].Checking? && sys.phases[j].Waiting? && sys.wall < sys.phases[i].expiry
    requires setup.config.versionFile != "" && Owns(setup, sys.store, setup.holders[i], sys.phases[i].expiry)
    ensures Reaches(setup, sys, run, end) && sys.wall == end.wall && |end.phases| == |sys.phases| && end.phases[i].Finished?
    ensures Completes(setup, end, j, end.wall, end.wall) && end.store.meta == sys.store.meta
  {
    var fail, release := Migrator(i, CheckVersion(false)), Migrator(i, Release(sys.wall, sys.wall));
    var failed := Next(setup, sys, fail);
    end := Next(setup, failed, release);
    Then(setup, failed, release, [], end);
    run := [fail] + ([release] + []);
    Then(setup, sys, fail, [release] + [], end);
  }

  /** A failure is enough for a wait to complete with nothing stored: the winner fails and releases the lock. */
  lemma FailureCompletesWait(setup: Setup, sys: System, i: nat, j: nat) returns (run: seq<Event>, end: System)
    requires Start(setup, sys) && LockFree(setup, sys) && setup.config.lockTimeout > 0
    requires i < |sys.phases| && j < |sys.phases| && i != j
    ensures Reaches(setup, sys, run, end) && sys.wall == end.wall && |end.phases| == |sys.phases| && end.phases[i].Finished?
    ensures Completes(setup, end, j, end.wall, end.wall) && end.store.meta == sys.store.meta
  {
    var t := sys.wall;
    var win, lose := Migrator(i, Acquire(t, t, t)), Migrator(j, Acquire(t, t, t));
    var won := Next(setup, sys, win);
    var rest;
    rest, end := FailedWinnerReleases(setup, Next(setup, won, lose), i, j);
    Then(setup, won, lose, rest, end);
    run := [win] + ([lose] + rest);
    Then(setup, sys, win, [lose] + rest, end);
  }
}
