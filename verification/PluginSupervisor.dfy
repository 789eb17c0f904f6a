/** The supervisor of center plugins: one actor per plugin, whose process is switched, rolled back, stopped, watched
    and restarted by several goroutines. Every step is a critical section of the actor's lock. */
module PluginSupervisor {
  import opened Outcomes

  /** An actor, and what runs for it: the live processes, the version each process was started with, the goroutines
      that watch a process, and the goroutines that retry a start. Processes are numbered in the order of their starts. */
  datatype Actor = Actor(process: Option<nat>, version: Option<string>, restartCount: nat, crashStreak: nat,
                         live: set<nat>, versions: map<nat, string>, watchers: set<nat>, retries: nat, started: nat,
                         running: bool)

  const IDLE := Actor(None, None, 0, 0, {}, map[], {}, 0, 0, true)

  /** Stopping a process always ends it, but may report an error; a start succeeds or leaves nothing behind. */
  datatype Act =
    | Recover(version: string, restartCount: nat, starts: bool)
    | Switch(version: string, stops: bool, starts: bool, restores: bool)
    | Rollback(previous: Option<string>, stops: bool, starts: bool)
    | StopPlugin(stops: bool)
    | Close(stops: bool)
    | Exit(process: nat)
    | WatcherFires(process: nat, wasStable: bool)
    | RetryRuns(starts: bool)
    | RetryLeaves

  // ---------------------------------------------------------------------------------------------
  // Steps
  // ---------------------------------------------------------------------------------------------

  /** Starts a process of a version and a watcher for it. */
  function Started(actor: Actor, version: string): Actor {
    actor.(process := Some(actor.started), live := actor.live + {actor.started},
           versions := actor.versions[actor.started := version],
           watchers := actor.watchers + {actor.started}, started := actor.started + 1)
  }

  function Ended(actor: Actor): Actor {
    if actor.process.Some? then actor.(process := None, live := actor.live - {actor.process.value}) else actor
  }

  /** A stop fails only where there is something to stop. */
  predicate StopFails(actor: Actor, stops: bool) {
    actor.process.Some? && !stops
  }

  function Restored(actor: Actor, previous: Option<string>, starts: bool): Actor {
    var restoring := actor.(version := previous);
    if previous.None? then restoring.(process := None)
    else if starts then Started(restoring, previous.value).(crashStreak := 0)
    else restoring.(process := None, crashStreak := actor.crashStreak + 1, retries := actor.retries + 1)
  }

  function Do(actor: Actor, act: Act): Actor {
    match act
    case Recover(version, restartCount, starts) =>
      var recovering := actor.(version := Some(version), restartCount := restartCount);
      if starts then Started(recovering, version).(crashStreak := 0)
      else recovering.(crashStreak := 1, retries := actor.retries + 1)
    case Switch(version, stops, starts, restores) =>
      if !actor.running then actor
      else if StopFails(actor, stops) then Ended(actor)
      else if !starts then Restored(Ended(actor), actor.version, restores)
      else Started(Ended(actor), version).(version := Some(version), restartCount := 0, crashStreak := 0)
    case Rollback(previous, stops, starts) =>
      if StopFails(actor, stops) then Ended(actor) else Restored(Ended(actor), previous, starts)
    case StopPlugin(stops) =>
      if StopFails(actor, stops) then Ended(actor) else Ended(actor).(version := None, restartCount := 0, crashStreak := 0)
    case Close(stops) => Ended(actor).(running := false)
    case Exit(process) => actor.(live := actor.live - {process})
    case WatcherFires(process, wasStable) =>
      if process !in actor.watchers then actor
      else if actor.process != Some(process) then actor.(watchers := actor.watchers - {process})
      else
        Ended(actor).(watchers := actor.watchers - {process}, retries := actor.retries + 1,
                      restartCount := actor.restartCount + 1,
                      crashStreak := (if wasStable then 0 else actor.crashStreak) + 1)
    case RetryRuns(starts) =>
      if actor.retries == 0 || !actor.running then actor
      else if actor.process.Some? || actor.version.None? then actor.(retries := actor.retries - 1)
      else if starts then Started(actor, actor.version.value).(crashStreak := 0, retries := actor.retries - 1)
      else actor.(crashStreak := actor.crashStreak + 1)
    case RetryLeaves =>
      if actor.retries > 0 && !actor.running then actor.(retries := actor.retries - 1) else actor
  }

  function DoAll(acts: seq<Act>): Actor {
    if acts == [] then IDLE else Do(DoAll(acts[..|acts| - 1]), acts[|acts| - 1])
  }

  // ---------------------------------------------------------------------------------------------
  // Exclusivity
  // ---------------------------------------------------------------------------------------------

  /** The actor holds every live process, so there is at most one. */
  predicate Exclusive(actor: Actor) {
    forall process | process in actor.live :: actor.process == Some(process)
  }

  /** A held process has a watcher and a version; numbers are fresh. */
  predicate Tended(actor: Actor) {
    && (actor.process.Some? ==> actor.process.value in actor.watchers && actor.version.Some?)
    && (forall process | process in actor.live :: process < actor.started)
    && (forall process | process in actor.watchers :: process < actor.started)
    && (actor.process.Some? ==> actor.process.value < actor.started)
  }

  /** Recovery takes an actor that holds nothing. */
  predicate Orderly(actor: Actor, act: Act) {
    act.Recover? ==> actor.process.None?
  }

  predicate OrderlyRun(acts: seq<Act>) {
    acts == [] || (OrderlyRun(acts[..|acts| - 1]) && Orderly(DoAll(acts[..|acts| - 1]), acts[|acts| - 1]))
  }

  lemma StepKeepsExclusivity(actor: Actor, act: Act)
    requires Exclusive(actor) && Tended(actor) && Orderly(actor, act)
    ensures Exclusive(Do(actor, act)) && Tended(Do(actor, act))
  {
  }

  /** After any interleaving of the supervisor's critical sections and of processes that exit, every live process is
      the one the actor holds. */
  lemma {:induction false} AtMostOneProcess(acts: seq<Act>)
    requires OrderlyRun(acts)
    ensures Exclusive(DoAll(acts)) && Tended(DoAll(acts)) && |DoAll(acts).live| <= 1
  {
    if acts != [] {
      AtMostOneProcess(acts[..|acts| - 1]);
      StepKeepsExclusivity(DoAll(acts[..|acts| - 1]), acts[|acts| - 1]);
    }
    var actor := DoAll(acts);
    hide DoAll, Do;
    assert Exclusive(actor) && Tended(actor);
    assert actor.live <= if actor.process.Some? then {actor.process.value} else {};
    AtMostOne(actor.live, actor.process);
  }

  lemma AtMostOne(live: set<nat>, process: Option<nat>)
    requires live <= if process.Some? then {process.value} else {}
    ensures |live| <= 1
  {
    if process.Some? && process.value in live {
      assert live == {process.value};
    } else {
      assert live == {};
    }
  }

  /** The recovery at start does not look at what the actor holds: when it succeeds it keeps exclusivity exactly when
      nothing the actor held is alive. */
  lemma RecoveryIsExclusiveExactlyWhenIdle(actor: Actor, version: string, restartCount: nat)
    requires Exclusive(actor) && Tended(actor)
    ensures Exclusive(Do(actor, Recover(version, restartCount, true))) <==> actor.live == {}
  {
    var after := Do(actor, Recover(version, restartCount, true));
    if process :| process in actor.live {
      assert process in after.live && process < actor.started;
    }
  }

  lemma TwoSteps(first: Act, second: Act)
    ensures DoAll([first, second]) == Do(Do(IDLE, first), second)
  {
    assert [first, second][..1] == [first] && [first][..0] == [];
    assert DoAll([]) == IDLE && DoAll([first]) == Do(IDLE, first);
  }

  /** A run that reaches it: a switch that gets hold of the actor before the recovery at start does. */
  lemma RecoveryCanDoubleAProcess(version: string, restartCount: nat)
    ensures var actor := DoAll([Switch(version, true, true, true), Recover(version, restartCount, true)]);
            !Exclusive(actor) && |actor.live| == 2
  {
    TwoSteps(Switch(version, true, true, true), Recover(version, restartCount, true));
    var actor := Do(Do(IDLE, Switch(version, true, true, true)), Recover(version, restartCount, true));
    assert actor.live == {0, 1};
  }

  /** The watcher of a process the actor no longer holds changes nothing but its own end. */
  lemma ReplacedProcessIsIgnored(actor: Actor, process: nat, wasStable: bool)
    requires actor.process != Some(process)
    ensures Do(actor, WatcherFires(process, wasStable)) == actor.(watchers := actor.watchers - {process})
  {
    assert process !in actor.watchers ==> actor.watchers - {process} == actor.watchers;
  }

  // ---------------------------------------------------------------------------------------------
  // Versions
  // ---------------------------------------------------------------------------------------------

  /** The held process was started with the version of the actor. */
  predicate RunsItsVersion(actor: Actor) {
    actor.process.Some? ==>
      actor.process.value in actor.versions && actor.version == Some(actor.versions[actor.process.value])
  }

  lemma StepKeepsVersion(actor: Actor, act: Act)
    requires RunsItsVersion(actor) && Orderly(actor, act)
    ensures RunsItsVersion(Do(actor, act))
  {
  }

  /** After any orderly run whatever is alive was started with the version the actor has by then. */
  lemma {:induction false} LiveProcessRunsTheVersion(acts: seq<Act>)
    requires OrderlyRun(acts)
    ensures RunsItsVersion(DoAll(acts))
    ensures var actor := DoAll(acts); forall process | process in actor.live ::
      process in actor.versions && actor.version == Some(actor.versions[process])
  {
    if acts != [] {
      LiveProcessRunsTheVersion(acts[..|acts| - 1]);
      StepKeepsVersion(DoAll(acts[..|acts| - 1]), acts[|acts| - 1]);
    }
    AtMostOneProcess(acts);
    var actor := DoAll(acts);
    assert RunsItsVersion(actor);
    hide DoAll, Do;
    assert forall process | process in actor.live :: actor.process == Some(process);
  }

  // ---------------------------------------------------------------------------------------------
  // Supervision
  // ---------------------------------------------------------------------------------------------

  /** A plugin with a version is watched, or its start is being retried. */
  predicate Supervised(actor: Actor) {
    actor.version.Some? ==> actor.process.Some? || actor.retries > 0
  }

  /** The step stops a held process and the stop reports an error. */
  predicate Interrupted(actor: Actor, act: Act) {
    match act
    case Switch(_, stops, _, _) => actor.running && StopFails(actor, stops)
    case Rollback(_, stops, _) => StopFails(actor, stops)
    case StopPlugin(stops) => StopFails(actor, stops)
    case _ => false
  }

  /** While the supervisor runs, a step loses a plugin exactly when stopping its process reports an error and no retry
      happens to be under way: then it has a version, no process, and nothing that would start one. */
  lemma SupervisionIsLostExactlyWhenAStopFails(actor: Actor, act: Act)
    requires Supervised(actor) && Tended(actor) && Orderly(actor, act) && actor.running && !act.Close?
    ensures Supervised(Do(actor, act)) <==> !(Interrupted(actor, act) && actor.retries == 0)
  {
  }

  /** A run that reaches it: a switch whose stop of the running version reports an error. */
  lemma SupervisionCanBeLost(version: string, next: string, starts: bool, restores: bool)
    ensures var actor := DoAll([Switch(version, true, true, true), Switch(next, false, starts, restores)]);
            !Supervised(actor) && actor.running && actor.version == Some(version) && actor.live == {}
  {
    TwoSteps(Switch(version, true, true, true), Switch(next, false, starts, restores));
    assert {} + {0} - {0} == {};
  }

  /** Without such errors every run keeps every plugin supervised. */
  predicate Undisturbed(acts: seq<Act>) {
    acts == []
    || (Undisturbed(acts[..|acts| - 1]) && !acts[|acts| - 1].Close? && Orderly(DoAll(acts[..|acts| - 1]), acts[|acts| - 1])
        && !Interrupted(DoAll(acts[..|acts| - 1]), acts[|acts| - 1]))
  }

  lemma NothingIsSupervised()
    ensures Supervised(IDLE) && Tended(IDLE) && Exclusive(IDLE)
  {
  }

  lemma KeepsRunning(actor: Actor, act: Act)
    ensures !act.Close? ==> Do(actor, act).running == actor.running
  {
  }

  lemma {:induction false} UndisturbedRunsKeepSupervision(acts: seq<Act>)
    requires Undisturbed(acts)
    ensures Supervised(DoAll(acts)) && Tended(DoAll(acts)) && Exclusive(DoAll(acts)) && DoAll(acts).running
  {
    hide Do, Interrupted, Supervised, Tended, Exclusive;
    if acts == [] {
      NothingIsSupervised();
    } else {
      var before := DoAll(acts[..|acts| - 1]);
      KeepsRunning(before, acts[|acts| - 1]);
      UndisturbedRunsKeepSupervision(acts[..|acts| - 1]);
      StepKeepsExclusivity(before, acts[|acts| - 1]);
      SupervisionIsLostExactlyWhenAStopFails(before, acts[|acts| - 1]);
    }
  }

  // ---------------------------------------------------------------------------------------------
  // Stopping
  // ---------------------------------------------------------------------------------------------

  /** What the supervisor's own goroutines and the processes do. */
  predicate Background(act: Act) {
    act.Exit? || act.WatcherFires? || act.RetryRuns? || act.RetryLeaves?
  }

  function DoFrom(actor: Actor, acts: seq<Act>): Actor {
    if acts == [] then actor else Do(DoFrom(actor, acts[..|acts| - 1]), acts[|acts| - 1])
  }

  /** A plugin that was stopped stays stopped, whatever watchers and retries are still under way. */
  lemma {:induction false} StoppedStaysStopped(actor: Actor, acts: seq<Act>)
    requires Exclusive(actor) && Tended(actor) && (forall i | 0 <= i < |acts| :: Background(acts[i]))
    ensures var after := DoFrom(Do(actor, StopPlugin(true)), acts);
            after.process.None? && after.version.None? && after.live == {} && after.restartCount == 0
  {
    if acts != [] {
      StoppedStaysStopped(actor, acts[..|acts| - 1]);
      assert Background(acts[|acts| - 1]);
    } else {
      StepKeepsExclusivity(actor, StopPlugin(true));
      var after := Do(actor, StopPlugin(true));
      assert after.process.None?;
      assert forall process | process in after.live :: false;
    }
  }

  /** Once the supervisor was closed nothing is started again. */
  lemma {:induction false} ClosedStaysClosed(actor: Actor, stops: bool, acts: seq<Act>)
    requires Exclusive(actor) && Tended(actor) && (forall i | 0 <= i < |acts| :: Background(acts[i]))
    ensures var after := DoFrom(Do(actor, Close(stops)), acts);
            after.process.None? && after.live == {} && !after.running && after.version == actor.version
  {
    if acts != [] {
      ClosedStaysClosed(actor, stops, acts[..|acts| - 1]);
      assert Background(acts[|acts| - 1]);
    } else {
      StepKeepsExclusivity(actor, Close(stops));
      var after := Do(actor, Close(stops));
      assert after.process.None?;
      assert forall process | process in after.live :: false;
    }
  }

  /** Recovery takes over the version and the restarts on record; a start that fails begins a streak and is retried. */
  lemma RecoveryTakesOver(actor: Actor, version: string, restartCount: nat, starts: bool)
    ensures var after := Do(actor, Recover(version, restartCount, starts));
      && after.version == Some(version) && after.restartCount == restartCount && after.running == actor.running
      && if starts then
           && after.process == Some(actor.started) && actor.started in after.live && actor.started in after.watchers
           && after.versions == actor.versions[actor.started := version]
           && after.crashStreak == 0 && after.retries == actor.retries
         else
           after.process == actor.process && after.live == actor.live && after.crashStreak == 1
           && after.retries == actor.retries + 1
  {
  }

  // ---------------------------------------------------------------------------------------------
  // The actor as an object
  // ---------------------------------------------------------------------------------------------

  class PluginActor {
    var process: Option<nat>
    var version: Option<string>
    var restartCount: nat
    var crashStreak: nat
    var running: bool
    var started: nat
    ghost var live: set<nat>
    ghost var versions: map<nat, string>
    ghost var watchers: set<nat>
    ghost var retries: nat

    ghost function State(): Actor
      reads this
    {
      Actor(process, version, restartCount, crashStreak, live, versions, watchers, retries, started, running)
    }

    /** The actor holds a live and watched process of the version it has, which is the next one to be numbered. */
    ghost predicate Holds(next: nat)
      reads this
    {
      && process == Some(next) && started == next + 1 && next in live && next in watchers
      && next in versions && version == Some(versions[next])
    }

    constructor ()
      ensures State() == IDLE
    {
      process, version, restartCount, crashStreak, running, started := None, None, 0, 0, true, 0;
      live, versions, watchers, retries := {}, map[], {}, 0;
    }

    /** Starts a process of a version with its watcher, or nothing. */
    method StartProcess(next: string, starts: bool) returns (handle: Option<nat>)
      modifies this`started, this`live, this`versions, this`watchers
      ensures handle == if starts then Some(old(started)) else None
      ensures starts ==> State() == Started(old(State()), next).(process := old(process))
      ensures !starts ==> State() == old(State())
    {
      if !starts {
        return None;
      }
      handle := Some(started);
      live := live + {started};
      versions := versions[started := next];
      watchers := watchers + {started};
      started := started + 1;
    }

    /** Detaches the process and stops it. The process has ended in any case, so it is never attached again. */
    method DetachAndStop(stops: bool) returns (ok: bool)
      modifies this`process, this`live
      ensures State() == Ended(old(State())) && (ok <==> !StopFails(old(State()), stops))
      ensures process == None && live == old(live) - (if old(process).Some? then {old(process).value} else {})
      ensures ok <==> old(process) == None || stops
    {
      var held := process;
      process := None;
      if held.None? {
        return true;
      }
      live := live - {held.value};
      return stops;
    }

    /** The version is the previous one in any case. It is started if there is one; a failed start leaves a retry. */
    method RestoreLocked(previous: Option<string>, starts: bool) returns (ok: bool)
      modifies this
      ensures State() == Restored(old(State()), previous, starts)
      ensures ok <==> previous.None? || starts
      ensures version == previous && restartCount == old(restartCount) && running == old(running)
      ensures ok && previous.Some? ==> Holds(old(started)) && crashStreak == 0 && retries == old(retries)
      ensures ok && previous.None? ==> process == None && live == old(live) && retries == old(retries)
      ensures !ok ==> process == None && live == old(live) && retries == old(retries) + 1 && crashStreak == old(crashStreak) + 1
    {
      version := previous;
      if previous.None? {
        process := None;
        return true;
      }
      var handle := StartProcess(previous.value, starts);
      if handle.None? {
        process := None;
        crashStreak := crashStreak + 1;
        retries := retries + 1;
        return false;
      }
      process := handle;
      crashStreak := 0;
      return true;
    }

    /** Switches to another version; when that does not start, the previous one is restored. */
    method SwitchTo(next: string, stops: bool, starts: bool, restores: bool) returns (restored: bool, ok: bool)
      modifies this
      ensures State() == Do(old(State()), Switch(next, stops, starts, restores))
      ensures ok <==> old(running) && (old(process) == None || stops) && starts
      ensures ok ==> version == Some(next) && Holds(old(started)) && restartCount == 0 && crashStreak == 0
      ensures !ok ==> version == old(version) && restartCount == old(restartCount)
      ensures restored <==>
        old(running) && (old(process) == None || stops) && !starts && old(version).Some? && restores
      ensures restored ==> Holds(old(started)) && retries == old(retries)
      ensures !ok && !restored && old(running) ==> process == None
      ensures !old(running) ==> State() == old(State())
      ensures retries == old(retries) +
        if old(running) && (old(process) == None || stops) && !starts && old(version).Some? && !restores then 1 else 0
    {
      if !running {
        return false, false;
      }
      var previous := version;
      var stopped := DetachAndStop(stops);
      if !stopped {
        return false, false;
      }
      var handle := StartProcess(next, starts);
      if handle.None? {
        var ready := RestoreLocked(previous, restores);
        return ready && previous.Some?, false;
      }
      process := handle;
      version := Some(next);
      restartCount := 0;
      crashStreak := 0;
      return false, true;
    }

    /** Goes back to the previous version, or to none; unless the stop fails that is the version afterwards. */
    method RollBack(previous: Option<string>, stops: bool, starts: bool) returns (ok: bool)
      modifies this
      ensures State() == Do(old(State()), Rollback(previous, stops, starts))
      ensures ok <==> (old(process) == None || stops) && (previous.None? || starts)
      ensures version == if old(process) == None || stops then previous else old(version)
      ensures ok && previous.Some? ==> Holds(old(started)) && retries == old(retries)
      ensures ok && previous.None? ==> process == None && retries == old(retries)
      ensures !ok ==> process == None && retries == old(retries) + if old(process) == None || stops then 1 else 0
    {
      var stopped := DetachAndStop(stops);
      if !stopped {
        return false;
      }
      ok := RestoreLocked(previous, starts);
    }

    method Stop(stops: bool) returns (ok: bool)
      modifies this
      ensures State() == Do(old(State()), StopPlugin(stops)) && (ok <==> old(process) == None || stops)
      ensures process == None && retries == old(retries) && started == old(started)
      ensures if ok then version == None && restartCount == 0 && crashStreak == 0
              else version == old(version) && restartCount == old(restartCount) && crashStreak == old(crashStreak)
    {
      ok := DetachAndStop(stops);
      if ok {
        version := None;
        restartCount := 0;
        crashStreak := 0;
      }
    }

    /** What a watcher does once its process has exited or failed three health checks. A process that ran long enough
        ends a streak of crashes before this one is counted. */
    method ProcessFailed(watched: nat, wasStable: bool)
      requires watched in watchers
      modifies this
      ensures State() == Do(old(State()), WatcherFires(watched, wasStable))
      ensures version == old(version) && watchers == old(watchers) - {watched} && started == old(started)
      ensures if old(process) == Some(watched) then
                && process == None && watched !in live && retries == old(retries) + 1
                && restartCount == old(restartCount) + 1
                && crashStreak == if wasStable then 1 else old(crashStreak) + 1
              else
                && process == old(process) && live == old(live) && retries == old(retries)
                && restartCount == old(restartCount) && crashStreak == old(crashStreak)
    {
      watchers := watchers - {watched};
      if process != Some(watched) {
        return;
      }
      process := None;
      live := live - {watched};
      if wasStable {
        crashStreak := 0;
      }
      crashStreak := crashStreak + 1;
      restartCount := restartCount + 1;
      retries := retries + 1;
    }

    /** One round of a retry goroutine, after its delay; it goes on only if the start failed. */
    method Retry(starts: bool) returns (again: bool)
      requires running && retries > 0
      modifies this
      ensures State() == Do(old(State()), RetryRuns(starts))
      ensures again <==> old(process).None? && old(version).Some? && !starts
      ensures version == old(version) && restartCount == old(restartCount)
      ensures retries == if again then old(retries) else old(retries) - 1
      ensures if old(process).None? && old(version).Some? && starts then Holds(old(started)) && crashStreak == 0
              else process == old(process) && live == old(live) && crashStreak == old(crashStreak) + if again then 1 else 0
    {
      if process.Some? || version.None? {
        retries := retries - 1;
        return false;
      }
      var handle := StartProcess(version.value, starts);
      if handle.Some? {
        process := handle;
        crashStreak := 0;
        retries := retries - 1;
        return false;
      }
      crashStreak := crashStreak + 1;
      return true;
    }
  }
}
