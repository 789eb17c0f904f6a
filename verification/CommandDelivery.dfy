/** What every run keeps of the command table, and the order in which commands are delivered. */
module CommandDelivery {
  import opened Outcomes
  import opened CommandTable
  import opened ControlPlane

  lemma NothingEvolves(commands: Commands)
    requires Table(commands)
    ensures Evolved(commands, commands)
  {
  }

  lemma InsertAfterSweepEvolves(commands: Commands, sweep: Sweep, now: int, command: Command)
    requires Table(commands) && !Collides(Swept(commands, sweep, now), command)
    ensures Evolved(commands, Swept(commands, sweep, now) + [command]) && Table(Swept(commands, sweep, now) + [command])
  {
    SweepingEvolves(commands, sweep, now);
    InsertingEvolves(Swept(commands, sweep, now), command);
    EvolvedCompose(commands, Swept(commands, sweep, now), Swept(commands, sweep, now) + [command]);
  }

  lemma StagingEvolves(db: Db, snapshot: Snapshot, id: string, now: int, lifetime: int)
    requires Table(db.commands)
    ensures var next := AfterStage(db, snapshot, id, now, lifetime).0;
            Evolved(db.commands, next.commands) && Table(next.commands)
  {
    hide Table, Evolved, Collides, Swept, GivesWay, CallsForCommand;
    NothingEvolves(db.commands);
    var command := PolicyCommand(db, snapshot, id, now, lifetime);
    if AfterStage(db, snapshot, id, now, lifetime).1.Created? {
      var found := FindPolicy(db.commands, snapshot.node);
      if found.Some? {
        InsertAfterSweepEvolves(db.commands, Undelivered(db.commands[found.value].id), now, command);
      } else {
        InsertingEvolves(db.commands, command);
      }
    }
  }

  lemma CreatingEvolves(db: Db, id: string, node: string, request: Request, now: int)
    requires Table(db.commands)
    ensures var next := AfterCreate(db, id, node, request, now).0;
            Evolved(db.commands, next.commands) && Table(next.commands)
  {
    hide Table, Evolved, Collides, Swept, Find;
    NothingEvolves(db.commands);
    var command := New(id, node, request, now);
    SweepingEvolves(db.commands, DueUpdatesOf(node), now);
    if request.body.Update? {
      if !Collides(Swept(db.commands, DueUpdatesOf(node), now), command) {
        InsertAfterSweepEvolves(db.commands, DueUpdatesOf(node), now, command);
      }
    } else if !Collides(db.commands, command) {
      InsertingEvolves(db.commands, command);
    }
  }

  lemma DiagnosingEvolves(db: Db, id: string, node: string, request: Request, now: int)
    requires Table(db.commands)
    ensures var next := AfterCreateDiagnose(db, id, node, request, now).0;
            Evolved(db.commands, next.commands) && Table(next.commands)
  {
    hide Table, Evolved, Collides;
    NothingEvolves(db.commands);
    if !Collides(db.commands, New(id, node, request, now)) {
      InsertingEvolves(db.commands, New(id, node, request, now));
    }
  }

  lemma ApplyingEvolves(db: Db, id: string, node: string, request: Request, now: int)
    requires Table(db.commands)
    ensures var next := AfterApplyPlugin(db, id, node, request, now).0;
            Evolved(db.commands, next.commands) && Table(next.commands)
  {
    hide Table, Evolved, Collides, Swept;
    NothingEvolves(db.commands);
    if request.body.Reconcile? {
      var sweep := DueReconcilesOf(node, request.body.plugin);
      if !Collides(Swept(db.commands, sweep, now), New(id, node, request, now)) {
        InsertAfterSweepEvolves(db.commands, sweep, now, New(id, node, request, now));
      }
    }
  }

  lemma MarkingEvolves(db: Db, id: string, node: string)
    requires Table(db.commands)
    ensures var next := AfterMarkSent(db, id, node).0; Evolved(db.commands, next.commands) && Table(next.commands)
  {
    hide Table, Evolved;
    NothingEvolves(db.commands);
    var found := Find(db.commands, id, node);
    if found.Some? && db.commands[found.value].status.Pending? {
      var command := db.commands[found.value];
      ReplacingEvolves(db.commands, found.value, command.(attempts := command.attempts + 1));
    }
  }

  lemma CompletingEvolves(db: Db, node: string, credential: string, report: Report, decrypted: Option<Request>, now: int)
    requires Table(db.commands)
    ensures var next := AfterComplete(db, node, credential, report, decrypted, now).0;
            Evolved(db.commands, next.commands) && Table(next.commands)
  {
    hide Table, Evolved, Answers;
    NothingEvolves(db.commands);
    var found := Find(db.commands, report.commandId, node);
    if found.Some? && db.commands[found.value].status.Pending? {
      ReplacingEvolves(db.commands, found.value, Completed(db.commands[found.value], report));
    }
  }

  /** Whatever the step, rows only become their successors, IDs stay unique, and the unique indexes hold. */
  lemma StepEvolves(system: System, act: Act)
    requires Table(system.db.commands)
    ensures Evolved(system.db.commands, Do(system, act).db.commands) && Table(Do(system, act).db.commands)
  {
    var db := system.db;
    hide Table, Evolved, AfterStage, AfterCreate, AfterCreateDiagnose, AfterApplyPlugin, AfterMarkSent, AfterComplete, Swept;
    match act
    case Create(id, node, request, now) => CreatingEvolves(db, id, node, request, now);
    case CreateDiagnose(id, node, request, now) => DiagnosingEvolves(db, id, node, request, now);
    case StagePolicy(snapshot, id, now, lifetime) => StagingEvolves(db, snapshot, id, now, lifetime);
    case Select(_, node, now) => SweepingEvolves(db.commands, DueOf(node), now);
    case MarkSent(session) =>
      NothingEvolves(db.commands);
      if session in system.held {
        MarkingEvolves(db, system.held[session].id, system.held[session].node);
      }
    case Complete(node, credential, report, decrypted, now) => CompletingEvolves(db, node, credential, report, decrypted, now);
    case ApplyPlugin(id, node, request, now) => ApplyingEvolves(db, id, node, request, now);
    case ExpireReconciles(now) => SweepingEvolves(db.commands, DueReconciles, now);
    case List(node, now) => SweepingEvolves(db.commands, DueOf(node), now);
    case ListKind(node, kind, now) => SweepingEvolves(db.commands, DueOfKind(node, kind), now);
    case Recover(_) => SweepingEvolves(db.commands, Unrecoverable, 0);
    case _ => NothingEvolves(db.commands);
  }

  lemma {:induction false} RunEvolves(system: System, acts: seq<Act>)
    requires Table(system.db.commands)
    ensures Evolved(system.db.commands, DoAll(system, acts).db.commands) && Table(DoAll(system, acts).db.commands)
  {
    hide Table, Evolved, Do;
    if acts == [] {
      NothingEvolves(system.db.commands);
    } else {
      var before := DoAll(system, acts[..|acts| - 1]);
      RunEvolves(system, acts[..|acts| - 1]);
      StepEvolves(before, acts[|acts| - 1]);
      EvolvedCompose(system.db.commands, before.db.commands, DoAll(system, acts).db.commands);
    }
  }

  /** Over any run, a command with a terminal status never changes again. */
  lemma TerminalStatusesAreAbsorbing(before: seq<Act>, after: seq<Act>, index: nat)
    requires index < |DoAll(START, before).db.commands|
    requires !DoAll(START, before).db.commands[index].status.Pending?
    ensures index < |DoAll(START, before + after).db.commands|
    ensures DoAll(START, before + after).db.commands[index] == DoAll(START, before).db.commands[index]
  {
    RunEvolves(START, before);
    RunEvolves(DoAll(START, before), after);
    DoAllSplits(START, before, after);
  }

  /** Over any run, a policy command that was sent does not expire and is not replaced: it stays pending until its
      own result arrives. */
  lemma DeliveredPolicyCommandsAreStable(before: seq<Act>, after: seq<Act>, index: nat)
    requires index < |DoAll(START, before).db.commands|
    requires DoAll(START, before).db.commands[index].request.body.Policy?
    requires DoAll(START, before).db.commands[index].status.Pending? && DoAll(START, before).db.commands[index].attempts > 0
    ensures index < |DoAll(START, before + after).db.commands|
    ensures !DoAll(START, before + after).db.commands[index].status.Expired?
    ensures DoAll(START, before + after).db.commands[index].request == DoAll(START, before).db.commands[index].request
  {
    RunEvolves(START, before);
    RunEvolves(DoAll(START, before), after);
    DoAllSplits(START, before, after);
  }

  // ---------------------------------------------------------------------------------------------
  // Statuses
  // ---------------------------------------------------------------------------------------------

  /** Rows keep their status or expire. */
  ghost predicate StatusesOnlyExpire(before: Commands, after: Commands) {
    |before| <= |after| && forall i | 0 <= i < |before| :: after[i].status == before[i].status || after[i].status.Expired?
  }

  lemma CreatingOnlyExpiresStatuses(db: Db, id: string, node: string, request: Request, now: int)
    ensures StatusesOnlyExpire(db.commands, AfterCreate(db, id, node, request, now).0.commands)
  {
    hide Collides, Selects, Find;
  }

  lemma StagingOnlyExpiresStatuses(db: Db, snapshot: Snapshot, id: string, now: int, lifetime: int)
    ensures StatusesOnlyExpire(db.commands, AfterStage(db, snapshot, id, now, lifetime).0.commands)
  {
    hide Collides, GivesWay, CallsForCommand, Selects;
  }

  lemma ApplyingOnlyExpiresStatuses(db: Db, id: string, node: string, request: Request, now: int)
    ensures StatusesOnlyExpire(db.commands, AfterApplyPlugin(db, id, node, request, now).0.commands)
  {
    hide Collides, Selects, CleanedInstance;
  }

  /** Only a result gives a command another status. */
  lemma StepOnlyExpiresStatuses(system: System, act: Act)
    requires !act.Complete?
    ensures StatusesOnlyExpire(system.db.commands, Do(system, act).db.commands)
  {
    hide Collides, Selects, NextOf, CleanedInstance, Find, AfterCreate, AfterStage, AfterApplyPlugin, AfterComplete;
    match act
    case Create(id, node, request, now) => CreatingOnlyExpiresStatuses(system.db, id, node, request, now);
    case StagePolicy(snapshot, id, now, lifetime) => StagingOnlyExpiresStatuses(system.db, snapshot, id, now, lifetime);
    case ApplyPlugin(id, node, request, now) => ApplyingOnlyExpiresStatuses(system.db, id, node, request, now);
    case _ =>
  }

  // ---------------------------------------------------------------------------------------------
  // Repeated results
  // ---------------------------------------------------------------------------------------------

  /** The command of an ID and a node. IDs are unique, so it is the one that is found. */
  lemma FindsTheOne(commands: Commands, index: nat, id: string, node: string)
    requires Table(commands) && Holds(commands, index, id, node)
    ensures Find(commands, id, node) == Some(index)
  {
  }

  /** A result that was taken is on record. */
  lemma TakenResultIsRecorded(db: Db, node: string, credential: string, report: Report, decrypted: Option<Request>, now: int)
    requires Table(db.commands) && AfterComplete(db, node, credential, report, decrypted, now).1.None?
    ensures var next := AfterComplete(db, node, credential, report, decrypted, now).0;
            exists index: nat :: Holds(next.commands, index, report.commandId, node) && Repeated(next.commands[index], report)
  {
    var next := AfterComplete(db, node, credential, report, decrypted, now).0;
    var index := Find(db.commands, report.commandId, node).value;
    hide Find, Table, Answers;
    assert Holds(next.commands, index, report.commandId, node) && Repeated(next.commands[index], report);
  }

  /** A result that is on record is accepted again and changes nothing. */
  lemma RecordedResultIsANoOp(db: Db, index: nat, node: string, credential: string, report: Report,
                              decrypted: Option<Request>, now: int)
    requires Table(db.commands) && Holds(db.commands, index, report.commandId, node)
    requires Repeated(db.commands[index], report)
    requires node in db.nodes && db.nodes[node].credential == Some(credential)
    ensures AfterComplete(db, node, credential, report, decrypted, now) == (db, None)
  {
    FindsTheOne(db.commands, index, report.commandId, node);
    hide Find, Table;
  }

  /** A result that was taken can be repeated right away: it is accepted and changes nothing. */
  lemma RepeatedResultIsANoOp(db: Db, node: string, credential: string, report: Report, decrypted: Option<Request>,
                              now: int, again: Option<Request>, later: int)
    requires Table(db.commands) && AfterComplete(db, node, credential, report, decrypted, now).1.None?
    ensures var next := AfterComplete(db, node, credential, report, decrypted, now).0;
            AfterComplete(next, node, credential, report, again, later) == (next, None)
  {
    var next := AfterComplete(db, node, credential, report, decrypted, now).0;
    CompletingEvolves(db, node, credential, report, decrypted, now);
    TakenResultIsRecorded(db, node, credential, report, decrypted, now);
    assert next.nodes == db.nodes && node in db.nodes && db.nodes[node].credential == Some(credential);
    hide AfterComplete, Table, Evolved;
    var index: nat :| Holds(next.commands, index, report.commandId, node) && Repeated(next.commands[index], report);
    RecordedResultIsANoOp(next, index, node, credential, report, again, later);
  }

  /** It can be repeated after any further run, as long as the node still has the credential it is sent with. */
  lemma RepeatedResultStaysANoOp(before: seq<Act>, after: seq<Act>, node: string, credential: string, report: Report,
                                 decrypted: Option<Request>, now: int, current: string, again: Option<Request>, later: int)
    requires AfterComplete(DoAll(START, before).db, node, credential, report, decrypted, now).1.None?
    requires var db := DoAll(START, before + [Complete(node, credential, report, decrypted, now)] + after).db;
             node in db.nodes && db.nodes[node].credential == Some(current)
    ensures var db := DoAll(START, before + [Complete(node, credential, report, decrypted, now)] + after).db;
            AfterComplete(db, node, current, report, again, later) == (db, None)
  {
    var act := Complete(node, credential, report, decrypted, now);
    var start := DoAll(START, before);
    RunEvolves(START, before);
    DoAllSplits(START, before, [act]);
    DoAllSplits(START, before + [act], after);
    OneStep(start, act);
    StepEvolves(start, act);
    TakenResultIsRecorded(start.db, node, credential, report, decrypted, now);
    hide DoAll, Do, AfterComplete;
    var taken := Do(start, act);
    RunEvolves(taken, after);
    var db := DoAll(taken, after).db;
    var index: nat :| Holds(taken.db.commands, index, report.commandId, node) && Repeated(taken.db.commands[index], report);
    assert Successor(taken.db.commands[index], db.commands[index]);
    hide Table, Evolved;
    RecordedResultIsANoOp(db, index, node, current, report, again, later);
  }

  lemma OneStep(system: System, act: Act)
    ensures DoAll(system, [act]) == Do(system, act)
  {
    hide Do;
    assert [act][..0] == [];
    assert DoAll(system, []) == system;
  }
}
