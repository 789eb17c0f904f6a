/** The stores and handlers of the control plane as programs: each call is one step of a run. */
module ControlCenter {
  import opened Outcomes
  import opened CommandTable
  import opened ControlPlane
  import opened PolicyGenerations

  class Center {
    var db: Db
    var held: map<nat, Held>
    var reading: map<nat, Reading>
    ghost var trace: seq<Act>

    ghost function State(): System
      reads this
    {
      System(db, held, reading)
    }

    /** The state is the outcome of the calls so far. */
    ghost predicate Valid()
      reads this
    {
      State() == DoAll(START, trace)
    }

    constructor ()
      ensures Valid() && trace == []
    {
      db, held, reading, trace := START.db, map[], map[], [];
    }

    /** The step that was just taken joins the run. */
    ghost method Log(before: System, act: Act)
      requires before == DoAll(START, trace) && State() == Do(before, act)
      modifies this`trace
      ensures Valid() && trace == old(trace) + [act]
    {
      trace := trace + [act];
      assert trace[..|trace| - 1] == old(trace);
    }

    /** An UPDATE that expires rows. */
    static method Expire(commands: Commands, sweep: Sweep, now: int) returns (swept: Commands)
      ensures swept == Swept(commands, sweep, now)
    {
      swept := [];
      for index := 0 to |commands|
        invariant swept == Swept(commands[..index], sweep, now)
      {
        assert commands[..index + 1][..index] == commands[..index];
        var command := commands[index];
        swept := swept + [if Selects(sweep, command, now) then command.(status := Expired) else command];
      }
      assert commands[..|commands|] == commands;
    }

    /** Stages a policy snapshot; leaving before the last statement rolls the transaction back. */
    method StagePolicyReconcile(snapshot: Snapshot, id: string, now: int, lifetime: int) returns (staged: Staged)
      requires Valid()
      modifies this
      ensures Valid() && trace == old(trace) + [StagePolicy(snapshot, id, now, lifetime)]
      ensures staged == AfterStage(old(db), snapshot, id, now, lifetime).1
    {
      ghost var before := State();
      staged := Stage(snapshot, id, now, lifetime);
      Log(before, StagePolicy(snapshot, id, now, lifetime));
    }

    method Stage(snapshot: Snapshot, id: string, now: int, lifetime: int) returns (staged: Staged)
      requires Valid()
      modifies this`db
      ensures (db, staged) == AfterStage(old(db), snapshot, id, now, lifetime)
    {
      hide Swept, Collides, SoundRows, DoAll;
      RunsKeepSoundRows(trace);
      RowIsSound(db, snapshot.node);
      var known := snapshot.node in db.policies;
      var state := StateOf(db, snapshot.node);
      var payloadChanged := !known || state.digest != Some(snapshot.digest);
      var sessionChanged := snapshot.startedAt.Some? && (state.issuedFor.None? || state.issuedFor != snapshot.startedAt);
      var commands := db.commands;
      var pending := FindPolicy(commands, snapshot.node);
      if pending.Some? {
        if !payloadChanged && sessionChanged {
          db := db.(policies := db.policies[snapshot.node := state.(issuedFor := snapshot.startedAt)]);
          return Unchanged;
        }
        var command := commands[pending.value];
        var mayReplace := command.attempts == 0 && (command.request.expiresAt <= now || payloadChanged);
        if !mayReplace {
          return Unchanged;
        }
        commands := Expire(commands, Undelivered(command.id), now);
      }
      var retryDue := state.status.PolicyFailed? && state.retryAfter.Some? && state.retryAfter.value <= now;
      if known && !payloadChanged {
        if state.status.PolicyFailed? && state.retryAfter.None? {
          return Unchanged;
        }
        if !state.status.Unsupported? && !sessionChanged && !retryDue {
          return Unchanged;
        }
      }
      var generation := state.desired;
      if payloadChanged || generation == 0 {
        if generation >= MAX_GENERATION {
          return Rejected(Exhausted);
        }
        generation := generation + 1;
      }
      var request := Request(Policy(generation, snapshot.authorizations), now, now + lifetime);
      var command := New(id, snapshot.node, request, now);
      if !Credentialed(db, snapshot.node) || Collides(commands, command) {
        return Rejected(StateConflict);
      }
      state := PolicyState(generation, Some(snapshot.digest), state.applied, PolicyPending, Some(id), snapshot.startedAt, None);
      db := db.(commands := commands + [command], policies := db.policies[snapshot.node := state]);
      return Created;
    }

    /** The first half of a heartbeat: expires what is due and selects a command. */
    method NextAgentCommand(session: nat, node: string, now: int) returns (command: Option<Command>)
      requires Valid()
      modifies this
      ensures Valid() && trace == old(trace) + [Select(session, node, now)] && command == AfterNext(old(db), node, now).1
    {
      hide NextOf, Swept, DoAll;
      ghost var before := State();
      var commands := Expire(db.commands, DueOf(node), now);
      db := Cleaned(db.(commands := commands));
      var next: Option<nat> := None;
      if node in db.nodes {
        next := SelectNext(db.commands, node, db.nodes[node].enabled);
      }
      if next.Some? {
        command := Some(db.commands[next.value]);
        held := held[session := Held(db.commands[next.value].id, node)];
      } else {
        command := None;
        held := held - {session};
      }
      Log(before, Select(session, node, now));
    }

    /** The second half: the selected command, if it still waits, counts as sent. */
    method MarkAgentCommandSent(session: nat) returns (error: Option<Error>)
      requires Valid() && session in held
      modifies this
      ensures Valid() && trace == old(trace) + [MarkSent(session)]
      ensures error == AfterMarkSent(old(db), old(held[session].id), old(held[session].node)).1
    {
      hide Find, DoAll;
      ghost var before := State();
      var found := Find(db.commands, held[session].id, held[session].node);
      error := Some(NotFound);
      if found.Some? && db.commands[found.value].status.Pending? {
        var command := db.commands[found.value];
        db := db.(commands := db.commands[found.value := command.(attempts := command.attempts + 1)]);
        error := None;
      }
      held := held - {session};
      Log(before, MarkSent(session));
    }

    /** Takes the result of a command. */
    method CompleteAgentCommand(node: string, credential: string, report: Report, decrypted: Option<Request>, now: int)
      returns (error: Option<Error>)
      requires Valid()
      modifies this
      ensures Valid() && trace == old(trace) + [Complete(node, credential, report, decrypted, now)]
      ensures error == AfterComplete(old(db), node, credential, report, decrypted, now).1
    {
      ghost var before := State();
      error := TakeResult(node, credential, report, decrypted, now);
      hide AfterComplete, DoAll;
      Log(before, Complete(node, credential, report, decrypted, now));
    }

    method TakeResult(node: string, credential: string, report: Report, decrypted: Option<Request>, now: int)
      returns (error: Option<Error>)
      modifies this`db
      ensures (db, error) == AfterComplete(old(db), node, credential, report, decrypted, now)
    {
      hide Find, Answers;
      var found := Find(db.commands, report.commandId, node);
      if found.None? || node !in db.nodes || db.nodes[node].credential != Some(credential) {
        return Some(NotFound);
      }
      var command := db.commands[found.value];
      if command.request != report.request {
        return Some(Conflict);
      }
      if !command.status.Pending? {
        if (command.status.Succeeded? || command.status.Failed?) && command.report == Some(report) {
          return None;
        }
        return Some(StateConflict);
      }
      if Encrypted(command.request.body) != decrypted.Some? {
        return Some(StateConflict);
      }
      if decrypted.Some? && decrypted.value != command.request {
        return Some(Conflict);
      }
      if !Answers(command.request.body, report.verdict) {
        return Some(Invalid);
      }
      if command.request.body.Reconcile? {
        error := UpdateInstance(node, command.request.body, report);
        if error.Some? {
          return;
        }
      } else if command.request.body.Policy? {
        error := UpdatePolicy(node, command.request.body.generation, report, now);
        if error.Some? {
          return;
        }
      }
      db := db.(commands := db.commands[found.value := Completed(command, report)]);
      return None;
    }

    /** Records what a result says of a policy. */
    method UpdatePolicy(node: string, generation: nat, report: Report, now: int) returns (error: Option<Error>)
      modifies this`db
      ensures error == if old(AwaitsPolicyResult(db, node, generation, report.commandId)) then None else Some(NotFound)
      ensures db == if error.Some? then old(db) else old(db).(policies :=
        old(db.policies)[node := AfterPolicyResult(old(db.policies[node]), report.verdict, now)])
    {
      if !AwaitsPolicyResult(db, node, generation, report.commandId) {
        return Some(NotFound);
      }
      var state := db.policies[node];
      match report.verdict {
        case Success(_) => state := state.(applied := generation, status := PolicyApplied, retryAfter := None);
        case Failure(retryable, _) =>
          state := state.(status := PolicyFailed, retryAfter := if retryable then Some(now + POLICY_RETRY_DELAY) else None);
      }
      db := db.(policies := db.policies[node := state]);
      return None;
    }

    /** Records what a result says of a plugin instance, unless a later status of the same generation said more. */
    method UpdateInstance(node: string, body: Body, report: Report) returns (error: Option<Error>)
      requires body.Reconcile?
      modifies this`db
      ensures var target := Target(node, body.plugin);
        if old(target in db.instances && db.instances[target].generation == body.generation) then
          error == None && db == old(db).(instances :=
            old(db.instances)[target := AfterReconcileResult(old(db.instances[target]), body, report)])
        else error == Some(if report.verdict.Failure? then NotFound else StateConflict) && db == old(db)
    {
      var target := Target(node, body.plugin);
      if target !in db.instances || db.instances[target].generation != body.generation {
        return Some(if report.verdict.Failure? then NotFound else StateConflict);
      }
      var instance := db.instances[target];
      if report.verdict.Failure? {
        instance := instance.(status := ReconcileFailed);
      } else {
        var newer := instance.actualGeneration > body.generation
                     || (instance.actualGeneration == body.generation && instance.observedAt.Some?
                         && instance.observedAt.value > report.completedAt);
        if !newer {
          var health := if body.state.Running? then Healthy else Unknown;
          instance := instance.(actualGeneration := body.generation,
                                actual := Actual(body.state, body.version, ConfigurationOf(body), health));
        }
        instance := instance.(status := ReconcileSucceeded);
      }
      db := db.(instances := db.instances[target := instance]);
      return None;
    }

    /** Asks for a new generation of a plugin instance; an error rolls the expiry back. */
    method ApplyNodePluginDesired(id: string, node: string, request: Request, now: int) returns (error: Option<Error>)
      requires Valid()
      modifies this
      ensures Valid() && trace == old(trace) + [ApplyPlugin(id, node, request, now)]
      ensures error == AfterApplyPlugin(old(db), id, node, request, now).1
    {
      ghost var before := State();
      error := Apply(id, node, request, now);
      hide AfterApplyPlugin, DoAll;
      Log(before, ApplyPlugin(id, node, request, now));
    }

    method Apply(id: string, node: string, request: Request, now: int) returns (error: Option<Error>)
      modifies this`db
      ensures (db, error) == AfterApplyPlugin(old(db), id, node, request, now)
    {
      hide Swept, Collides, CleanedInstance;
      var body := request.body;
      if !body.Reconcile? {
        return Some(Invalid);
      }
      if node !in db.nodes || !db.nodes[node].enabled || db.nodes[node].credential.None? {
        return Some(NotFound);
      }
      if body.plugin !in db.installations {
        return Some(NotFound);
      }
      if !body.state.Absent? && db.installations[body.plugin] != Some(body.version) {
        return Some(StateConflict);
      }
      var target := Target(node, body.plugin);
      var current := if target in db.instances then db.instances[target].generation else 0;
      if body.generation != current + 1 {
        return Some(StateConflict);
      }
      var commands := Expire(db.commands, DueReconcilesOf(node, body.plugin), now);
      var transaction := Cleaned(db.(commands := commands));
      var command := New(id, node, request, now);
      if Collides(transaction.commands, command) {
        return Some(Conflict);
      }
      db := transaction.(commands := transaction.commands + [command],
                         instances := transaction.instances[target := Desired(transaction, target, body, id)]);
      return None;
    }

    /** Reads the generations of an instance; a status of neither generation is dropped. */
    method ReadPluginStatus(reporter: nat, target: Target, status: PluginStatus) returns (error: Option<Error>)
      requires Valid()
      modifies this
      ensures Valid() && trace == old(trace) + [ReadStatus(reporter, target, status)]
      ensures error == if target in db.instances then None else Some(NotFound)
    {
      hide DoAll;
      ghost var before := State();
      error := if target in db.instances then None else Some(NotFound);
      if target in db.instances && (status.generation == db.instances[target].generation
                                    || status.generation == db.instances[target].actualGeneration) {
        reading := reading[reporter := Reading(target, status)];
      } else {
        reading := reading - {reporter};
      }
      Log(before, ReadStatus(reporter, target, status));
    }

    /** Writes a status that passed the check, unless it is older than what is known by now. */
    method WritePluginStatus(reporter: nat)
      requires Valid() && reporter in reading
      modifies this
      ensures Valid() && trace == old(trace) + [WriteStatus(reporter)]
    {
      hide DoAll;
      ghost var before := State();
      var target, status := reading[reporter].target, reading[reporter].status;
      if target in db.instances {
        var instance := db.instances[target];
        if instance.actualGeneration < status.generation
           || (instance.actualGeneration == status.generation
               && (instance.observedAt.None? || instance.observedAt.value <= status.observedAt)) {
          instance := instance.(actualGeneration := status.generation, observedAt := Some(status.observedAt),
                                actual := status.actual);
        }
        db := db.(instances := db.instances[target := instance]);
      }
      reading := reading - {reporter};
      Log(before, WriteStatus(reporter));
    }

    /** Creates a command; a repeated request under the same ID succeeds again. */
    method CreateAgentCommand(id: string, node: string, request: Request, now: int) returns (error: Option<Error>)
      requires Valid()
      modifies this
      ensures Valid() && trace == old(trace) + [Create(id, node, request, now)]
      ensures error == AfterCreate(old(db), id, node, request, now).1
    {
      hide Swept, Collides, Find, DoAll;
      ghost var before := State();
      error := None;
      if Encrypted(request.body) {
        error := Some(Invalid);
      } else if node !in db.nodes {
        error := Some(NotFound);
      } else {
        var commands := db.commands;
        if request.body.Update? {
          commands := Expire(commands, DueUpdatesOf(node), now);
        }
        var command := New(id, node, request, now);
        if !Collides(commands, command) {
          db := db.(commands := commands + [command]);
        } else {
          var known := Find(commands, id, node);
          if known.Some? && commands[known.value].request == request {
            db := db.(commands := commands);
          } else {
            error := Some(Conflict);
          }
        }
      }
      Log(before, Create(id, node, request, now));
    }

    method ExpireNodePluginCommands(now: int)
      requires Valid()
      modifies this
      ensures Valid() && trace == old(trace) + [ExpireReconciles(now)]
    {
      hide Swept, CleanedInstance, DoAll;
      ghost var before := State();
      var commands := Expire(db.commands, DueReconciles, now);
      db := Cleaned(db.(commands := commands));
      Log(before, ExpireReconciles(now));
    }
  }
}
