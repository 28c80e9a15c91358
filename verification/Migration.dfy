/** Application migrations: what one migrator does, and what one node does with it at start-up.

    Commands, hooks and file reads are outcomes handed in by the environment. */
module Migration {
  import opened Options
  import opened Crdt
  import opened Store
  import Db = Manager

  const APP_VERSION := "app_version"

  datatype Profile = Profile(preHooks: seq<seq<string>>, commands: seq<seq<string>>, postHooks: seq<seq<string>>)

  datatype Config = Config(enabled: bool, lockKey: string, lockTimeout: int, versionFile: string, versionQuery: string,
                           command: seq<string>, profile: Option<Profile>)

  /** What the environment answers during one Run: reads of the version file (`None` is an error),
      and whether each command succeeds. */
  datatype World = World(checkFile: Option<string>, pre: seq<bool>, command: bool, post: seq<bool>,
                         storeFile: Option<string>, now: int)

  datatype Verdict = Unknown | Known(needed: bool)

  function NeedsMigration(config: Config, s: Store, file: Option<string>): Verdict
  {
    if config.versionFile == "" && config.versionQuery == "" then Known(true)
    else if config.versionFile != "" && file.None? then Unknown
    else
      var current := if config.versionFile != "" then file.value else "";
      Known(current != MetaGot(s, APP_VERSION).0)
  }

  predicate Succeeds(outcomes: seq<bool>, i: nat)
  {
    i < |outcomes| ==> outcomes[i]
  }

  /** Empty hooks are skipped; all others must succeed. */
  predicate HooksSucceed(hooks: seq<seq<string>>, outcomes: seq<bool>)
  {
    forall i :: 0 <= i < |hooks| && hooks[i] != [] ==> Succeeds(outcomes, i)
  }

  function CommandOf(config: Config): seq<string>
  {
    if config.command == [] && config.profile.Some? && config.profile.value.commands != []
    then config.profile.value.commands[0]
    else config.command
  }

  predicate WorkSucceeds(config: Config, w: World)
  {
    && (config.profile.Some? ==> HooksSucceed(config.profile.value.preHooks, w.pre))
    && (CommandOf(config) != [] ==> w.command)
    && (config.profile.Some? ==> HooksSucceed(config.profile.value.postHooks, w.post))
  }

  function VersionStored(config: Config, s: Store, file: Option<string>, now: int): (Store, bool)
  {
    if config.versionFile == "" then (s, true)
    else if file.None? then (s, false)
    else (MetaSet(s, APP_VERSION, file.value, now), true)
  }

  /** The store after one Run, and whether it returned without error. */
  function AfterRun(config: Config, s: Store, w: World): (Store, bool)
  {
    match NeedsMigration(config, s, w.checkFile)
    case Unknown => (s, false)
    case Known(needed) =>
      if !needed then (s, true)
      else if !WorkSucceeds(config, w) then (s, false)
      else VersionStored(config, s, w.storeFile, w.now)
  }

  // ---------- What a Run does, told from its inputs ----------

  /** Some hook that is not empty is executed and fails. */
  ghost predicate SomeFails(hooks: seq<seq<string>>, outcomes: seq<bool>)
  {
    exists i :: 0 <= i < |hooks| && i < |outcomes| && hooks[i] != [] && !outcomes[i]
  }

  function PreHooksOf(config: Config): seq<seq<string>>
  {
    if config.profile.Some? then config.profile.value.preHooks else []
  }

  function PostHooksOf(config: Config): seq<seq<string>>
  {
    if config.profile.Some? then config.profile.value.postHooks else []
  }

  /** A migration is needed when nothing tells the version, or when what the file says, or the empty text
      without a file, differs from what is stored; an unreadable file leaves it open. */
  lemma NeededExactly(config: Config, s: Store, file: Option<string>)
    ensures var stored := if "app_version" in s.meta then s.meta["app_version"].value else "";
            && (NeedsMigration(config, s, file) == Known(true) <==>
                  || (config.versionFile == "" && config.versionQuery == "")
                  || (config.versionFile == "" && config.versionQuery != "" && stored != "")
                  || (config.versionFile != "" && file.Some? && file.value != stored))
            && (NeedsMigration(config, s, file) == Unknown <==> config.versionFile != "" && file.None?)
  {
  }

  /** A Run that cannot read the version file fails, and one that finds the stored version succeeds; neither
      touches the store. */
  lemma NothingToRun(config: Config, s: Store, w: World)
    ensures var stored := if "app_version" in s.meta then s.meta["app_version"].value else "";
            && (config.versionFile != "" && w.checkFile.None? ==> AfterRun(config, s, w) == (s, false))
            && (config.versionFile != "" && w.checkFile == Some(stored) ==> AfterRun(config, s, w) == (s, true))
            && (config.versionFile == "" && config.versionQuery != "" && stored == "" ==> AfterRun(config, s, w) == (s, true))
  {
  }

  /** A needed migration fails, and leaves the store alone, when its command fails: the configured one, or the
      profile's first if none is configured. */
  lemma CommandMustSucceed(config: Config, s: Store, w: World)
    requires NeedsMigration(config, s, w.checkFile) == Known(true) && !w.command
    requires || config.command != []
             || (config.profile.Some? && config.profile.value.commands != [] && config.profile.value.commands[0] != [])
    ensures AfterRun(config, s, w) == (s, false)
  {
  }

  /** So it does when a hook fails; and otherwise it succeeds unless the version file cannot be read again,
      and stores what that file then says. */
  lemma RunExactly(config: Config, s: Store, w: World)
    requires NeedsMigration(config, s, w.checkFile) == Known(true)
    ensures SomeFails(PreHooksOf(config), w.pre) || SomeFails(PostHooksOf(config), w.post) ==> AfterRun(config, s, w) == (s, false)
    ensures config.versionFile != "" && w.storeFile.None? ==> AfterRun(config, s, w) == (s, false)
    ensures var quiet := config.command == [] &&
              (config.profile.None? || config.profile.value.commands == [] || config.profile.value.commands[0] == []);
            !SomeFails(PreHooksOf(config), w.pre) && !SomeFails(PostHooksOf(config), w.post) && (w.command || quiet) ==>
              AfterRun(config, s, w) ==
                if config.versionFile == "" then (s, true)
                else if w.storeFile.None? then (s, false)
                else (MetaSet(s, "app_version", w.storeFile.value, w.now), true)
  {
    HooksSucceedExactly(PreHooksOf(config), w.pre);
    HooksSucceedExactly(PostHooksOf(config), w.post);
  }

  lemma HooksSucceedExactly(hooks: seq<seq<string>>, outcomes: seq<bool>)
    ensures HooksSucceed(hooks, outcomes) <==> !SomeFails(hooks, outcomes)
  {
    if i :| 0 <= i < |hooks| && hooks[i] != [] && !Succeeds(outcomes, i) {
      assert SomeFails(hooks, outcomes);
    }
    if i :| 0 <= i < |hooks| && i < |outcomes| && hooks[i] != [] && !outcomes[i] {
      assert !Succeeds(outcomes, i);
    }
  }

  /** A Run that succeeded leaves nothing to do: while the version file keeps its contents, the next Run
      finds no migration needed, whatever its commands would do. */
  lemma SecondRunDoesNothing(config: Config, s: Store, w: World, again: World)
    requires Dominates(s) && config.versionFile != ""
    requires w.checkFile.Some? && w.storeFile == w.checkFile == again.checkFile
    requires AfterRun(config, s, w).1
    ensures var s' := AfterRun(config, s, w).0;
            && MetaGot(s', APP_VERSION).0 == w.checkFile.value
            && AfterRun(config, s', again) == (s', true)
  {
    LocalWritesWin(s, Session("", [], 0, 0, 0, "", 0, s.clock, "", false), APP_VERSION, w.checkFile.value, w.now);
  }

  datatype WaitEvent = Cancelled | Polled(held: bool)
  datatype WaitResult = Completed | ContextError | StillWaiting

  /** What the first event that ends the wait says; a held lock does not end it. */
  function WaitOutcome(events: seq<WaitEvent>): WaitResult
  {
    if events == [] then StillWaiting
    else
      match events[0]
      case Cancelled => ContextError
      case Polled(held) => if held then WaitOutcome(events[1..]) else Completed
  }

  class Migrator {
    const config: Config
    const db: Db.Manager
    const lockKey: string
    const holder: string

    constructor (config: Config, db: Db.Manager, hostname: string, fallback: string)
      ensures this.config == config && this.db == db && lockKey == config.lockKey
      ensures holder == if hostname != "" then hostname else fallback
    {
      this.config, this.db := config, db;
      lockKey := config.lockKey;
      holder := if hostname != "" then hostname else fallback;
    }

    method AcquireLock(born: int, now: int, check: int) returns (ok: bool)
      modifies db, db.clock
      ensures (db.State(), ok) == Acquired(old(db.State()), lockKey, holder, config.lockTimeout, born, now, check)
    {
      ok := db.AcquireLock(lockKey, holder, config.lockTimeout, born, now, check);
    }

    method ReleaseLock(check: int, now: int)
      modifies db, db.clock
      ensures db.State() == Released(old(db.State()), lockKey, holder, check, now)
    {
      db.ReleaseLock(lockKey, holder, check, now);
    }

    /** Runs hooks in order until one fails; returns the index of the failed one and what was executed. */
    method RunHooks(hooks: seq<seq<string>>, outcomes: seq<bool>) returns (failed: Option<nat>, executed: seq<seq<string>>)
      ensures failed.None? <==> HooksSucceed(hooks, outcomes)
      ensures failed.Some? ==>
        && failed.value < |hooks| && hooks[failed.value] != [] && !Succeeds(outcomes, failed.value)
        && HooksSucceed(hooks[..failed.value], outcomes)
      ensures executed == NonEmpty(if failed.Some? && failed.value < |hooks| then hooks[..failed.value + 1] else hooks)
    {
      executed := [];
      for i := 0 to |hooks|
        invariant HooksSucceed(hooks[..i], outcomes)
        invariant executed == NonEmpty(hooks[..i])
      {
        assert hooks[..i + 1][..i] == hooks[..i];
        if hooks[i] == [] {
          continue;
        }
        executed := executed + [hooks[i]];
        if i < |outcomes| && !outcomes[i] {
          assert !Succeeds(outcomes, i);
          return Some(i), executed;
        }
      }
      assert hooks[..|hooks|] == hooks;
      return None, executed;
    }

    method RunPreHooks(w: World) returns (ok: bool, executed: seq<seq<string>>)
      ensures ok <==> !SomeFails(PreHooksOf(config), w.pre)
      ensures HookLog(PreHooksOf(config), w.pre, executed)
    {
      ok, executed := RunAll(PreHooksOf(config), w.pre);
    }

    method RunPostHooks(w: World) returns (ok: bool, executed: seq<seq<string>>)
      ensures ok <==> !SomeFails(PostHooksOf(config), w.post)
      ensures HookLog(PostHooksOf(config), w.post, executed)
    {
      ok, executed := RunAll(PostHooksOf(config), w.post);
    }

    method RunAll(hooks: seq<seq<string>>, outcomes: seq<bool>) returns (ok: bool, executed: seq<seq<string>>)
      ensures ok <==> !SomeFails(hooks, outcomes)
      ensures HookLog(hooks, outcomes, executed)
    {
      HooksSucceedExactly(hooks, outcomes);
      var failed;
      failed, executed := RunHooks(hooks, outcomes);
      ok := failed.None?;
      if failed.Some? {
        forall i | 0 <= i < failed.value ensures hooks[i] == [] || outcomes[i] {
          assert hooks[..failed.value][i] == hooks[i] && (hooks[i] != [] ==> Succeeds(outcomes, i));
        }
        assert FirstToFail(hooks, outcomes, failed.value);
      }
    }

    /** Executes the configured command, or if there is none the profile's first, or nothing. */
    method RunMigrationCommand(w: World) returns (ok: bool, executed: seq<seq<string>>)
      ensures config.command != [] ==> executed == [config.command]
      ensures config.command == [] && config.profile.Some? && config.profile.value.commands != [] && config.profile.value.commands[0] != [] ==>
                executed == [config.profile.value.commands[0]]
      ensures config.command == [] && (config.profile.None? || config.profile.value.commands == [] || config.profile.value.commands[0] == []) ==>
                executed == []
      ensures ok <==> executed == [] || w.command
      ensures executed == if CommandOf(config) == [] then [] else [CommandOf(config)]
    {
      var command := config.command;
      if command == [] && config.profile.Some? && config.profile.value.commands != [] {
        command := config.profile.value.commands[0];
      }
      if command == [] {
        return true, [];
      }
      return w.command, [command];
    }

    method CheckNeeded(file: Option<string>) returns (verdict: Verdict)
      ensures verdict == NeedsMigration(config, db.State(), file)
    {
      if config.versionFile == "" && config.versionQuery == "" {
        return Known(true);
      }
      var current := "";
      if config.versionFile != "" {
        if file.None? {
          return Unknown;
        }
        current := file.value;
      }
      var stored, _ := db.GetMeta(APP_VERSION);
      return Known(current != stored);
    }

    method UpdateVersion(w: World) returns (ok: bool)
      modifies db, db.clock
      ensures (db.State(), ok) == VersionStored(config, old(db.State()), w.storeFile, w.now)
      ensures db.sessions == old(db.sessions) && db.locks == old(db.locks)
    {
      if config.versionFile == "" {
        return true;
      }
      if w.storeFile.None? {
        return false;
      }
      db.SetMeta(APP_VERSION, w.storeFile.value, w.now);
      return true;
    }

    /** Returns also what was executed, in order: hooks before, the command, hooks after, up to a failure. */
    method Run(w: World) returns (ok: bool, executed: seq<seq<string>>)
      modifies db, db.clock
      ensures (db.State(), ok) == AfterRun(config, old(db.State()), w)
      ensures !ok ==> db.State() == old(db.State())
      ensures db.sessions == old(db.sessions) && db.locks == old(db.locks)
      ensures NeedsMigration(config, old(db.State()), w.checkFile) == Known(true) ==> RunLog(config, w, executed)
      ensures NeedsMigration(config, old(db.State()), w.checkFile) != Known(true) ==> executed == []
    {
      executed := [];
      HooksSucceedExactly(PreHooksOf(config), w.pre);
      HooksSucceedExactly(PostHooksOf(config), w.post);
      var verdict := CheckNeeded(w.checkFile);
      if verdict == Unknown {
        return false, executed;
      }
      if !verdict.needed {
        return true, executed;
      }
      ok, executed := RunPreHooks(w);
      if !ok {
        return;
      }
      var command, after;
      ok, command := RunMigrationCommand(w);
      executed := executed + command;
      if !ok {
        return;
      }
      ok, after := RunPostHooks(w);
      executed := executed + after;
      if !ok {
        return;
      }
      ok := UpdateVersion(w);
    }

    /** Polls the lock on each tick of the ticker until it is free or the context is cancelled. */
    method WaitForCompletion(events: seq<WaitEvent>) returns (r: WaitResult)
      ensures r == WaitOutcome(events)
    {
      var i := 0;
      while i < |events|
        invariant 0 <= i <= |events|
        invariant WaitOutcome(events) == WaitOutcome(events[i..])
      {
        if events[i].Cancelled? {
          return ContextError;
        }
        if !events[i].held {
          return Completed;
        }
        i := i + 1;
      }
      return StillWaiting;
    }
  }

  /** The f-th hook is the first that fails. */
  ghost predicate FirstToFail(hooks: seq<seq<string>>, outcomes: seq<bool>, f: nat)
  {
    && f < |hooks| && f < |outcomes| && hooks[f] != [] && !outcomes[f]
    && forall i :: 0 <= i < f ==> hooks[i] == [] || outcomes[i]
  }

  /** What is executed of some hooks: those that are not empty, in order, up to the first that fails. */
  ghost predicate HookLog(hooks: seq<seq<string>>, outcomes: seq<bool>, executed: seq<seq<string>>)
  {
    if SomeFails(hooks, outcomes)
    then exists f: nat :: FirstToFail(hooks, outcomes, f) && executed == NonEmpty(hooks[..f + 1])
    else executed == NonEmpty(hooks)
  }

  /** What a needed Run executes: the hooks before; if none of them fails, the command; if that succeeds, the
      hooks after. */
  ghost predicate RunLog(config: Config, w: World, executed: seq<seq<string>>)
  {
    var before := NonEmpty(PreHooksOf(config));
    var command :=
      if config.command != [] then [config.command]
      else if config.profile.Some? && config.profile.value.commands != [] && config.profile.value.commands[0] != []
      then [config.profile.value.commands[0]]
      else [];
    if SomeFails(PreHooksOf(config), w.pre) then HookLog(PreHooksOf(config), w.pre, executed)
    else if command != [] && !w.command then executed == before + command
    else exists after :: HookLog(PostHooksOf(config), w.post, after) && executed == before + command + after
  }

  function NonEmpty(hooks: seq<seq<string>>): seq<seq<string>>
  {
    if hooks == [] then []
    else
      var last := |hooks| - 1;
      NonEmpty(hooks[..last]) + if hooks[last] == [] then [] else [hooks[last]]
  }

  /** What is executed of a list of hooks are exactly those that are not empty. */
  lemma {:induction false} NonEmptyExactly(hooks: seq<seq<string>>, hook: seq<string>)
    ensures multiset(NonEmpty(hooks))[hook] == if hook == [] then 0 else multiset(hooks)[hook]
  {
    if hooks != [] {
      var last := |hooks| - 1;
      NonEmptyExactly(hooks[..last], hook);
      assert hooks == hooks[..last] + [hooks[last]];
    }
  }

  /** The wait completes exactly when the lock is seen free before any cancellation. */
  lemma {:induction false} WaitCompletesExactly(events: seq<WaitEvent>)
    ensures WaitOutcome(events) == Completed <==>
              exists i :: 0 <= i < |events| && events[i] == Polled(false) && forall j :: 0 <= j < i ==> events[j] == Polled(true)
    ensures WaitOutcome(events) == StillWaiting <==> forall j :: 0 <= j < |events| ==> events[j] == Polled(true)
  {
    if events != [] {
      WaitCompletesExactly(events[1..]);
      if events[0] == Polled(true) {
        if i :| 0 <= i < |events[1..]| && events[1..][i] == Polled(false) && forall j :: 0 <= j < i ==> events[1..][j] == Polled(true) {
          assert events[i + 1] == Polled(false);
          assert forall j :: 0 <= j < i + 1 ==> events[j] == if j == 0 then events[0] else events[1..][j - 1];
        }
        if i :| 0 <= i < |events| && events[i] == Polled(false) && forall j :: 0 <= j < i ==> events[j] == Polled(true) {
          assert events[1..][i - 1] == Polled(false);
          assert forall j :: 0 <= j < i - 1 ==> events[1..][j] == events[j + 1];
        }
        assert forall j :: 0 < j < |events| ==> events[j] == events[1..][j - 1];
        assert forall j :: 0 <= j < |events[1..]| ==> events[1..][j] == events[j + 1];
      } else if events[0] == Polled(false) {
        assert 0 < |events| && events[0] == Polled(false);
      }
    }
  }

  datatype StartUp = Disabled | Migrated | MigrationFailed | Waited(result: WaitResult)

  /** The part of a node's engine that runs migrations at start-up. */
  class Engine {
    const config: Config
    const db: Db.Manager
    var migrator: Migrator?

    constructor (config: Config, db: Db.Manager)
      ensures this.config == config && this.db == db && migrator == null
    {
      this.config, this.db := config, db;
      migrator := null;
    }

    /** Tries the lock; the winner runs and releases, whether or not its Run succeeded; a loser waits. */
    method RunMigrations(hostname: string, fallback: string, born: int, now: int, check: int, w: World,
                         release: int, tick: int, events: seq<WaitEvent>) returns (r: StartUp)
      modifies this, db, db.clock
      ensures !config.enabled ==> r == Disabled && db.State() == old(db.State())
      ensures config.enabled ==>
        var holder := if hostname != "" then hostname else fallback;
        var (s1, won) := Acquired(old(db.State()), config.lockKey, holder, config.lockTimeout, born, now, check);
        if won then
          var (s2, ok) := AfterRun(config, s1, w);
          && db.State() == Released(s2, config.lockKey, holder, release, tick)
          && r == if ok then Migrated else MigrationFailed
        else
          db.State() == s1 && r == Waited(WaitOutcome(events))
      ensures r == Migrated || r == Waited(Completed) ==> migrator != null && migrator.db == db
      ensures r == Disabled || r == MigrationFailed || r == Waited(ContextError) ==> migrator == old(migrator)
    {
      if !config.enabled {
        return Disabled;
      }
      var m := new Migrator(config, db, hostname, fallback);
      var locked := m.AcquireLock(born, now, check);
      if locked {
        var ok, _ := m.Run(w);
        if !ok {
          m.ReleaseLock(release, tick);
          return MigrationFailed;
        }
        m.ReleaseLock(release, tick);
        r := Migrated;
      } else {
        var waited := m.WaitForCompletion(events);
        if waited != Completed {
          return Waited(waited);
        }
        r := Waited(Completed);
      }
      migrator := m;
    }
  }

  /** The winner's lock is free again once it has returned, provided it released it before its expiry. */
  lemma WinnerFreesLock(config: Config, s: Store, holder: string, born: int, now: int, check: int, w: World, release: int, tick: int, later: int)
    requires Acquired(s, config.lockKey, holder, config.lockTimeout, born, now, check).1
    requires release < born + config.lockTimeout
    ensures var s1 := Acquired(s, config.lockKey, holder, config.lockTimeout, born, now, check).0;
            var s3 := Released(AfterRun(config, s1, w).0, config.lockKey, holder, release, tick);
            !LockHeld(s3, config.lockKey, later, later) && Acquired(s3, config.lockKey, "", 0, later, later, later).1
  {
  }
}
