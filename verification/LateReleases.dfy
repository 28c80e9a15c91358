/** Migrators that may release the migration lock at any time, even after it has expired: when late
    releases let two of them in, and when they let the version be stored twice. */
module LateReleases {
  import opened Store
  import opened Migration
  import opened MigrationRuns

  // ---------- Runs with releases at any time ----------

  /** A run that keeps the time bound; releases may come at any time. */
  ghost predicate Reaches(setup: Setup, sys: System, run: seq<Event>, end: System)
    decreases |run|
  {
    && OnTime(sys)
    && if run == [] then sys == end else Enabled(setup, sys, run[0]) && Reaches(setup, Next(setup, sys, run[0]), run[1..], end)
  }

  ghost predicate AllPunctual(setup: Setup, sys: System, run: seq<Event>)
    decreases |run|
  {
    run != [] && Enabled(setup, sys, run[0]) ==> Punctual(setup, sys, run[0]) && AllPunctual(setup, Next(setup, sys, run[0]), run[1..])
  }

  /** Such a run is covered by `AtMostOneMigration` when every release is punctual or host names differ. */
  lemma {:induction false} PunctualIsPossible(setup: Setup, sys: System, run: seq<Event>, end: System)
    requires Inv(setup, sys) && Reaches(setup, sys, run, end)
    requires AllPunctual(setup, sys, run) || DistinctHolders(setup)
    ensures Possible(setup, sys, run) && After(setup, sys, run) == end
    decreases |run|
  {
    if run != [] {
      PunctualIsHarmless(setup, sys, run[0]);
      StepKeepsInv(setup, sys, run[0]);
      PunctualIsPossible(setup, Next(setup, sys, run[0]), run[1..], end);
    }
  }

  lemma Then(setup: Setup, sys: System, e: Event, rest: seq<Event>, end: System)
    requires OnTime(sys) && Enabled(setup, sys, e) && Reaches(setup, Next(setup, sys, e), rest, end)
    ensures Reaches(setup, sys, [e] + rest, end)
  {
    assert ([e] + rest)[0] == e && ([e] + rest)[1..] == rest;
  }

  // ---------- When late releases do no harm ----------

  ghost predicate SomeFinished(sys: System)
  {
    exists i :: 0 <= i < |sys.phases| && sys.phases[i].Finished?
  }

  /** Of two migrators, one that has released never comes back, so the other is alone. */
  lemma {:induction false} TwoAreSafe(setup: Setup, sys: System, run: seq<Event>, end: System)
    requires |setup.holders| == |sys.phases| <= 2 && Reaches(setup, sys, run, end)
    requires Inv(setup, sys) || SomeFinished(sys)
    ensures OneInside(end)
    decreases |run|
  {
    if run == [] {
      if Inv(setup, sys) {
        OneInRun(setup, sys);
      }
    } else {
      var e, sys' := run[0], Next(setup, sys, run[0]);
      if SomeFinished(sys) {
        var i :| 0 <= i < |sys.phases| && sys.phases[i].Finished?;
        assert sys'.phases[i].Finished?;
      } else if e.Migrator? && e.move.Release? {
        assert sys'.phases[e.i].Finished?;
      } else {
        StepKeepsInv(setup, sys, e);
      }
      TwoAreSafe(setup, sys', run[1..], end);
    }
  }

  ghost predicate AllExpired(sys: System)
  {
    forall i :: 0 <= i < |sys.phases| && sys.phases[i].Engaged() ==> sys.phases[i].expiry <= sys.wall
  }

  lemma StaysExpired(setup: Setup, sys: System, e: Event)
    requires setup.config.lockTimeout <= 0 && Enabled(setup, sys, e) && AllExpired(sys)
    ensures AllExpired(Next(setup, sys, e))
  {
    if e.Other? { OtherKeepsLock(setup, sys.store, e.op, sys.wall); }
    if e.Import? { ImportKeepsLock(setup, sys, e); }
  }

  /** A lock that lives no time cannot be released. */
  lemma {:induction false} NoTimeIsSafe(setup: Setup, sys: System, run: seq<Event>, end: System)
    requires setup.config.lockTimeout <= 0 && Reaches(setup, sys, run, end)
    requires Inv(setup, sys) && AllExpired(sys)
    ensures OneInside(end)
    decreases |run|
  {
    if run == [] {
      OneInRun(setup, sys);
    } else {
      var sys' := Next(setup, sys, run[0]);
      StepKeepsInv(setup, sys, run[0]);
      if run[0].Other? { OtherKeepsLock(setup, sys.store, run[0].op, sys.wall); }
      StaysExpired(setup, sys, run[0]);
      NoTimeIsSafe(setup, sys', run[1..], end);
    }
  }

  // ---------- When they do ----------

  /** Two different migrators inside Run, about to check, and nothing stored since the start. */
  ghost predicate BothChecking(start: System, sys: System, j: nat, k: nat)
  {
    && |sys.phases| == |start.phases| && j < |sys.phases| && k < |sys.phases| && j != k
    && sys.phases[j].Checking? && sys.phases[k].Checking?
    && OnTime(sys) && sys.stored == start.stored && sys.store.meta == start.store.meta
  }

  /** Migrator i has left Run but not released, its lock has expired, and j, of the same host name, has
      acquired the next one. */
  lemma LateReleaseAdmitsThird(setup: Setup, sys: System, i: nat, j: nat, k: nat) returns (run: seq<Event>, end: System)
    requires i < |sys.phases| == |setup.holders| && j < |sys.phases| && k < |sys.phases| && i != j && i != k && j != k
    requires setup.holders[i] == setup.holders[j] && setup.config.lockTimeout > 0 && OnTime(sys)
    requires sys.phases[i].Releasing? && sys.phases[j].Checking? && sys.phases[k].Idle?
    requires sys.wall < sys.phases[j].expiry && Owns(setup, sys.store, setup.holders[j], sys.phases[j].expiry)
    ensures Reaches(setup, sys, run, end) && BothChecking(sys, end, j, k)
  {
    var late, third := Migrator(i, Release(sys.wall, sys.wall)), Migrator(k, Acquire(sys.wall, sys.wall, sys.wall));
    var released := Next(setup, sys, late);
    end := Next(setup, released, third);
    Then(setup, released, third, [], end);
    run := [late] + ([third] + []);
    Then(setup, sys, late, [third] + [], end);
  }

  /** Migrator i has left Run but not released; once its lock has expired, j acquires the next one. */
  lemma LateReleaseFollows(setup: Setup, sys: System, i: nat, j: nat, k: nat, expiry: int) returns (run: seq<Event>, end: System)
    requires i < |sys.phases| == |setup.holders| && j < |sys.phases| && k < |sys.phases| && i != j && i != k && j != k
    requires setup.holders[i] == setup.holders[j] && setup.config.lockTimeout > 0 && OnTime(sys)
    requires sys.phases[i].Releasing? && sys.phases[j].Idle? && sys.phases[k].Idle?
    requires forall n :: 0 <= n < |sys.phases| ==> !sys.phases[n].InRun()
    requires sys.wall <= expiry && Owns(setup, sys.store, setup.holders[i], expiry)
    ensures Reaches(setup, sys, run, end) && BothChecking(sys, end, j, k)
  {
    var second := Migrator(j, Acquire(expiry + 1, expiry + 1, expiry + 1));
    var rest;
    rest, end := LateReleaseAdmitsThird(setup, Next(setup, sys, second), i, j, k);
    run := [second] + rest;
    Then(setup, sys, second, rest, end);
  }

  /** Of three migrators, two with the same host name.  The first leaves Run in time but releases its lock
      only after the expiry; that release frees the second one's lock, and the third joins the second. */
  lemma LateReleaseLetsTwoIn(setup: Setup, sys: System, i: nat, j: nat, k: nat) returns (run: seq<Event>, end: System)
    requires Start(setup, sys) && setup.config.lockTimeout > 0
    requires i < |sys.phases| && j < |sys.phases| && k < |sys.phases| && i != j && i != k && j != k
    requires setup.holders[i] == setup.holders[j]
    ensures Reaches(setup, sys, run, end) && BothChecking(sys, end, j, k)
  {
    var key := setup.config.lockKey;
    var t := if key in sys.store.locks && sys.wall <= sys.store.locks[key].expiresAt then sys.store.locks[key].expiresAt + 1 else sys.wall;
    var first, leave := Migrator(i, Acquire(t, t, t)), Migrator(i, CheckVersion(false));
    var s1 := Next(setup, sys, first);
    var rest;
    rest, end := LateReleaseFollows(setup, Next(setup, s1, leave), i, j, k, t + setup.config.lockTimeout);
    Then(setup, s1, leave, rest, end);
    run := [first] + ([leave] + rest);
    Then(setup, sys, first, [leave] + rest, end);
  }

  lemma EqualHolders(setup: Setup) returns (i: nat, j: nat, k: nat)
    requires !DistinctHolders(setup) && |setup.holders| > 2
    ensures i < |setup.holders| && j < |setup.holders| && k < |setup.holders| && i != j && i != k && j != k
    ensures setup.holders[i] == setup.holders[j]
  {
    i, j :| 0 <= i < j < |setup.holders| && setup.holders[i] == setup.holders[j];
    k := if i > 0 then 0 else if j > 1 then 1 else 2;
  }

  ghost predicate AlwaysOneInside(setup: Setup, sys: System)
  {
    forall run, end :: Reaches(setup, sys, run, end) ==> OneInside(end)
  }

  /** With releases at any time, migrators sharing a manager never meet inside Run exactly when all host
      names differ, or there are at most two migrators, or locks have no time to live. */
  lemma OneInsideExactly(setup: Setup, sys: System)
    requires Start(setup, sys) && ClockAhead(sys.store)
    ensures AlwaysOneInside(setup, sys) <==> DistinctHolders(setup) || |setup.holders| <= 2 || setup.config.lockTimeout <= 0
  {
    if DistinctHolders(setup) || |setup.holders| <= 2 || setup.config.lockTimeout <= 0 {
      forall run, end | Reaches(setup, sys, run, end) ensures OneInside(end) {
        if |setup.holders| <= 2 {
          TwoAreSafe(setup, sys, run, end);
        } else if setup.config.lockTimeout <= 0 {
          NoTimeIsSafe(setup, sys, run, end);
        } else {
          PunctualIsPossible(setup, sys, run, end);
          RunKeepsInv(setup, sys, run);
          OneInRun(setup, end);
        }
      }
    } else {
      var i, j, k := EqualHolders(setup);
      var run, end := LateReleaseLetsTwoIn(setup, sys, i, j, k);
      assert end.phases[j].InRun() && end.phases[k].InRun();
      assert Reaches(setup, sys, run, end) && !OneInside(end);
    }
  }

  // ---------- Storing the version ----------

  ghost predicate AlwaysStoredOnce(setup: Setup, sys: System)
  {
    forall run, end :: Reaches(setup, sys, run, end) ==> StoredOnce(setup, end)
  }

  lemma {:induction false} OneInsideStoresOnce(setup: Setup, sys: System, run: seq<Event>, end: System)
    requires VersionInv(setup, sys) && AlwaysOneInside(setup, sys) && Reaches(setup, sys, run, end)
    ensures StoredOnce(setup, end)
    decreases |run|
  {
    if run == [] {
      VersionStoredOnce(setup, sys);
    } else {
      var e, sys' := run[0], Next(setup, sys, run[0]);
      assert OneInside(sys) by { assert Reaches(setup, sys, [], sys); }
      StepKeepsVersion(setup, sys, e);
      forall rest, last | Reaches(setup, sys', rest, last) ensures OneInside(last) {
        Then(setup, sys, e, rest, last);
      }
      OneInsideStoresOnce(setup, sys', run[1..], end);
    }
  }

  /** Nobody gets past the check while the stored version is that of the file. */
  ghost predicate NothingToDo(setup: Setup, sys: System)
  {
    && setup.config.versionFile != "" && |sys.phases| == |setup.holders|
    && MetaGot(sys.store, APP_VERSION).0 == setup.version
    && (forall i :: 0 <= i < |sys.phases| ==> !sys.phases[i].Committed())
    && sys.reached == sys.stored == 0
  }

  lemma {:induction false} NothingIsStored(setup: Setup, sys: System, run: seq<Event>, end: System)
    requires NothingToDo(setup, sys) && Reaches(setup, sys, run, end)
    ensures StoredOnce(setup, end)
    decreases |run|
  {
    if run != [] {
      if run[0].Other? { OtherKeepsLock(setup, sys.store, run[0].op, sys.wall); }
      NothingIsStored(setup, Next(setup, sys, run[0]), run[1..], end);
    }
  }

  lemma {:induction false} Append(setup: Setup, sys: System, run: seq<Event>, mid: System, more: seq<Event>, end: System)
    requires Reaches(setup, sys, run, mid) && Reaches(setup, mid, more, end)
    ensures Reaches(setup, sys, run + more, end)
    decreases |run|
  {
    if run == [] {
      assert run + more == more;
    } else {
      var e, rest := run[0], run[1..];
      assert run + more == [e] + (rest + more);
      assert Reaches(setup, sys, [e] + (rest + more), end) by {
        Append(setup, Next(setup, sys, e), rest, mid, more, end);
        Then(setup, sys, e, rest + more, end);
      }
    }
  }

  /** A migrator that has passed the check can go on to store the version. */
  lemma GoesOnToStore(setup: Setup, sys: System, i: nat) returns (run: seq<Event>, end: System)
    requires setup.config.versionFile != "" && i < |sys.phases| == |setup.holders| && sys.phases[i].PreHooks? && OnTime(sys)
    ensures Reaches(setup, sys, run, end) && OnTime(end) && end.stored == sys.stored + 1
    ensures end.phases == sys.phases[i := Releasing(sys.phases[i].expiry)]
  {
    var work, store := Migrator(i, Progress(true)), Migrator(i, StoreVersion(true, sys.wall));
    var s1 := Next(setup, sys, work);
    var s2 := Next(setup, s1, work);
    var s3 := Next(setup, s2, work);
    end := Next(setup, s3, store);
    Then(setup, s3, store, [], end);
    Then(setup, s2, work, [store] + [], end);
    Then(setup, s1, work, [work] + ([store] + []), end);
    run := [work] + ([work] + ([work] + ([store] + [])));
    Then(setup, sys, work, [work] + ([work] + ([store] + [])), end);
  }

  /** Two migrators that check together both store. */
  lemma BothStore(setup: Setup, start: System, sys: System, j: nat, k: nat) returns (run: seq<Event>, end: System)
    requires setup.config.versionFile != "" && |sys.phases| == |setup.holders| && BothChecking(start, sys, j, k)
    requires MetaGot(sys.store, APP_VERSION).0 != setup.version
    ensures Reaches(setup, sys, run, end) && end.stored == sys.stored + 2
  {
    var check1, check2 := Migrator(j, CheckVersion(true)), Migrator(k, CheckVersion(true));
    var s1 := Next(setup, sys, check1);
    var s2 := Next(setup, s1, check2);
    var run1, mid := GoesOnToStore(setup, s2, j);
    var run2;
    run2, end := GoesOnToStore(setup, mid, k);
    Append(setup, s2, run1, mid, run2, end);
    Then(setup, s1, check2, run1 + run2, end);
    run := [check1] + ([check2] + (run1 + run2));
    Then(setup, sys, check1, [check2] + (run1 + run2), end);
  }

  /** With releases at any time, migrators sharing a manager store the version at most once exactly when
      they never meet inside Run or the version is already stored. */
  lemma StoredOnceExactly(setup: Setup, sys: System)
    requires Start(setup, sys) && ClockAhead(sys.store)
    ensures AlwaysStoredOnce(setup, sys) <==>
              || DistinctHolders(setup) || |setup.holders| <= 2 || setup.config.lockTimeout <= 0
              || MetaGot(sys.store, APP_VERSION).0 == setup.version
  {
    OneInsideExactly(setup, sys);
    if AlwaysOneInside(setup, sys) || MetaGot(sys.store, APP_VERSION).0 == setup.version {
      forall run, end | Reaches(setup, sys, run, end) ensures StoredOnce(setup, end) {
        if AlwaysOneInside(setup, sys) {
          OneInsideStoresOnce(setup, sys, run, end);
        } else {
          NothingIsStored(setup, sys, run, end);
        }
      }
    } else {
      var i, j, k := EqualHolders(setup);
      var run, mid := LateReleaseLetsTwoIn(setup, sys, i, j, k);
      var more, end := BothStore(setup, sys, mid, j, k);
      Append(setup, sys, run, mid, more, end);
      assert !StoredOnce(setup, end);
    }
  }
}
