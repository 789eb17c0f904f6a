/** What the reconcile status of a plugin instance says about its last command. */
module PluginReconciliation {
  import opened Outcomes
  import opened CommandTable
  import opened ControlPlane
  import opened CommandDelivery
  import opened PluginGenerations

  /** A pending reconcile command finds its instance waiting for it. */
  predicate IsAwaited(instances: map<Target, Instance>, command: Command) {
    command.status.Pending? && command.request.body.Reconcile? ==>
      && TargetOf(command) in instances
      && instances[TargetOf(command)].status.ReconcilePending?
      && instances[TargetOf(command)].lastCommand == command.id
  }

  predicate IsLastOf(command: Command, target: Target, instance: Instance) {
    command.id == instance.lastCommand && command.request.body.Reconcile? && TargetOf(command) == target
  }

  /** An instance that waits waits for a command that is pending, or has expired and is not cleaned up yet. */
  ghost predicate WaitsForCommand(commands: Commands, target: Target, instance: Instance) {
    instance.status.ReconcilePending? ==>
      exists i: nat :: i < |commands| && IsLastOf(commands[i], target, instance)
                       && (commands[i].status.Pending? || commands[i].status.Expired?)
  }

  ghost predicate AllAwaited(db: Db) {
    forall i | 0 <= i < |db.commands| :: IsAwaited(db.instances, db.commands[i])
  }

  ghost predicate AllWait(db: Db) {
    forall target | target in db.instances :: WaitsForCommand(db.commands, target, db.instances[target])
  }

  ghost predicate Reconciled(db: Db) {
    Table(db.commands) && AllAwaited(db) && AllWait(db)
  }

  /** No instance waits for a command that has expired. */
  ghost predicate Clean(db: Db) {
    forall target | target in db.instances && db.instances[target].status.ReconcilePending? ::
      !ExpiredReconcile(db.commands, db.instances[target].lastCommand)
  }

  // ---------------------------------------------------------------------------------------------
  // Changes of the command table alone
  // ---------------------------------------------------------------------------------------------

  /** Pending reconcile commands stay or expire; they are not answered and none is added. */
  ghost predicate OnlyExpires(before: Commands, after: Commands) {
    && Evolved(before, after) && NoNewReconcile(before, after)
    && forall i | 0 <= i < |before| && before[i].request.body.Reconcile? :: after[i].status in {before[i].status, Expired}
  }

  lemma ExpiringKeepsAwaited(before: Db, after: Db)
    requires AllAwaited(before) && OnlyExpires(before.commands, after.commands) && after.instances == before.instances
    ensures AllAwaited(after)
  {
    forall i | 0 <= i < |after.commands|
      ensures IsAwaited(after.instances, after.commands[i])
    {
      if i < |before.commands| {
        assert IsAwaited(before.instances, before.commands[i]) && Successor(before.commands[i], after.commands[i]);
      }
    }
  }

  lemma ExpiringKeepsWaiting(before: Commands, after: Commands, target: Target, instance: Instance)
    requires OnlyExpires(before, after) && WaitsForCommand(before, target, instance)
    ensures WaitsForCommand(after, target, instance)
  {
    if instance.status.ReconcilePending? {
      var i: nat :| i < |before| && IsLastOf(before[i], target, instance)
                    && (before[i].status.Pending? || before[i].status.Expired?);
      assert Successor(before[i], after[i]);
      assert IsLastOf(after[i], target, instance);
    }
  }

  lemma ExpiringKeepsReconciled(before: Db, after: Db)
    requires Reconciled(before) && OnlyExpires(before.commands, after.commands) && after.instances == before.instances
    requires Table(after.commands)
    ensures Reconciled(after)
  {
    ExpiringKeepsAwaited(before, after);
    hide Table, Evolved, OnlyExpires, AllAwaited, WaitsForCommand;
    forall target | target in after.instances
      ensures WaitsForCommand(after.commands, target, after.instances[target])
    {
      ExpiringKeepsWaiting(before.commands, after.commands, target, before.instances[target]);
    }
  }

  // ---------------------------------------------------------------------------------------------
  // Cleaning
  // ---------------------------------------------------------------------------------------------

  /** A pending command's instance is not among those cleaned up. */
  lemma PendingIsNotCleaned(commands: Commands, i: nat)
    requires Table(commands) && i < |commands| && commands[i].status.Pending?
    ensures !ExpiredReconcile(commands, commands[i].id)
  {
  }

  lemma CleaningKeepsReconciled(db: Db)
    requires Reconciled(db)
    ensures Reconciled(Cleaned(db)) && Clean(Cleaned(db))
  {
    var after := Cleaned(db);
    forall i | 0 <= i < |after.commands|
      ensures IsAwaited(after.instances, after.commands[i])
    {
      assert IsAwaited(db.instances, db.commands[i]);
      if db.commands[i].status.Pending? {
        PendingIsNotCleaned(db.commands, i);
      }
    }
    hide Table, ExpiredReconcile, WaitsForCommand;
    forall target | target in after.instances
      ensures WaitsForCommand(after.commands, target, after.instances[target])
    {
      CleanedWaits(db.commands, target, db.instances[target]);
    }
  }

  lemma CleanedWaits(commands: Commands, target: Target, instance: Instance)
    requires WaitsForCommand(commands, target, instance)
    ensures WaitsForCommand(commands, target, CleanedInstance(commands, instance))
  {
    hide ExpiredReconcile;
  }

  // ---------------------------------------------------------------------------------------------
  // Steps
  // ---------------------------------------------------------------------------------------------

  lemma SweepingKeepsReconciled(db: Db, sweep: Sweep, now: int)
    requires Reconciled(db)
    ensures Reconciled(SweptDb(db, sweep, now))
  {
    SweepingEvolves(db.commands, sweep, now);
    NothingNew(db.commands, Swept(db.commands, sweep, now));
    hide Table, Selects, Evolved, Reconciled;
    ExpiringKeepsReconciled(db, SweptDb(db, sweep, now));
  }

  /** The target's instance becomes pending on the inserted command. */
  lemma InsertingKeepsReconciled(db: Db, command: Command, instance: Instance)
    requires Reconciled(db) && command.status.Pending? && command.request.body.Reconcile?
    requires !Collides(db.commands, command)
    requires instance.status.ReconcilePending? && instance.lastCommand == command.id
    ensures Reconciled(db.(commands := db.commands + [command], instances := db.instances[TargetOf(command) := instance]))
  {
    var after := db.(commands := db.commands + [command], instances := db.instances[TargetOf(command) := instance]);
    InsertingEvolves(db.commands, command);
    forall i | 0 <= i < |after.commands|
      ensures IsAwaited(after.instances, after.commands[i])
    {
      if i < |db.commands| {
        assert IsAwaited(db.instances, db.commands[i]) && !Exclusive(db.commands[i], command);
      }
    }
    hide Table, Evolved, Collides;
    forall target | target in after.instances
      ensures WaitsForCommand(after.commands, target, after.instances[target])
    {
      if target == TargetOf(command) {
        assert IsLastOf(after.commands[|db.commands|], target, instance);
      } else {
        LaterRowsKeepWaiting(db.commands, command, target, db.instances[target]);
      }
    }
  }

  lemma LaterRowsKeepWaiting(commands: Commands, command: Command, target: Target, instance: Instance)
    requires WaitsForCommand(commands, target, instance)
    ensures WaitsForCommand(commands + [command], target, instance)
  {
    if instance.status.ReconcilePending? {
      var i: nat :| i < |commands| && IsLastOf(commands[i], target, instance)
                    && (commands[i].status.Pending? || commands[i].status.Expired?);
      assert (commands + [command])[i] == commands[i];
    }
  }

  lemma ApplyingKeepsReconciled(db: Db, id: string, node: string, request: Request, now: int)
    requires Reconciled(db)
    ensures Reconciled(AfterApplyPlugin(db, id, node, request, now).0)
  {
    hide Reconciled, Collides, Cleaned, SweptDb;
    if AfterApplyPlugin(db, id, node, request, now).1.None? {
      var swept := SweptDb(db, DueReconcilesOf(node, request.body.plugin), now);
      SweepingKeepsReconciled(db, DueReconcilesOf(node, request.body.plugin), now);
      CleaningKeepsReconciled(swept);
      var expired := Cleaned(swept);
      InsertingKeepsReconciled(expired, New(id, node, request, now),
                               Desired(expired, Target(node, request.body.plugin), request.body, id));
    }
  }

  /** An answered command and its instance are settled together. */
  lemma AnsweringKeepsReconciled(db: Db, index: nat, report: Report, instance: Instance)
    requires Reconciled(db) && index < |db.commands| && db.commands[index].status.Pending?
    requires db.commands[index].request.body.Reconcile? && TargetOf(db.commands[index]) in db.instances
    requires !instance.status.ReconcilePending?
    ensures Reconciled(db.(commands := db.commands[index := Completed(db.commands[index], report)],
                           instances := db.instances[TargetOf(db.commands[index]) := instance]))
  {
    var target := TargetOf(db.commands[index]);
    var commands := db.commands[index := Completed(db.commands[index], report)];
    var after := db.(commands := commands, instances := db.instances[target := instance]);
    ReplacingEvolves(db.commands, index, commands[index]);
    forall i | 0 <= i < |commands|
      ensures IsAwaited(after.instances, commands[i])
    {
      assert IsAwaited(db.instances, db.commands[i]) && IsAwaited(db.instances, db.commands[index]);
      assert i < index ==> db.commands[i].id != db.commands[index].id;
      assert index < i ==> db.commands[index].id != db.commands[i].id;
    }
    hide Table, Evolved;
    forall other | other in after.instances
      ensures WaitsForCommand(commands, other, after.instances[other])
    {
      if other != target {
        OthersStillWait(db.commands, index, commands[index], other, db.instances[other]);
      }
    }
  }

  lemma OthersStillWait(commands: Commands, index: nat, command: Command, other: Target, instance: Instance)
    requires index < |commands| && WaitsForCommand(commands, other, instance)
    requires commands[index].request.body.Reconcile? ==> TargetOf(commands[index]) != other
    ensures WaitsForCommand(commands[index := command], other, instance)
  {
    if instance.status.ReconcilePending? {
      var i: nat :| i < |commands| && IsLastOf(commands[i], other, instance)
                    && (commands[i].status.Pending? || commands[i].status.Expired?);
      assert i != index;
      assert commands[index := command][i] == commands[i];
    }
  }

  lemma CompletingKeepsReconciled(db: Db, node: string, credential: string, report: Report, decrypted: Option<Request>, now: int)
    requires Reconciled(db)
    ensures Reconciled(AfterComplete(db, node, credential, report, decrypted, now).0)
  {
    hide Reconciled, Find, Answers;
    var (next, error) := AfterComplete(db, node, credential, report, decrypted, now);
    var found := Find(db.commands, report.commandId, node);
    if found.Some? && next != db {
      var command := db.commands[found.value];
      if command.request.body.Reconcile? {
        AnsweringKeepsReconciled(db, found.value, report, next.instances[TargetOf(command)]);
      } else {
        OtherAnswersKeepReconciled(db, next, found.value, report);
      }
    }
  }

  lemma OtherAnswersKeepReconciled(db: Db, next: Db, index: nat, report: Report)
    requires Reconciled(db) && index < |db.commands| && db.commands[index].status.Pending?
    requires !db.commands[index].request.body.Reconcile? && next.instances == db.instances
    requires next.commands == db.commands[index := Completed(db.commands[index], report)]
    ensures Reconciled(next)
  {
    ReplacingEvolves(db.commands, index, next.commands[index]);
    NothingNew(db.commands, next.commands);
    hide Table, Evolved, Reconciled;
    ExpiringKeepsReconciled(db, next);
  }

  /** A status event changes neither what an instance waits for nor that it waits. */
  lemma WritingKeepsReconciled(db: Db, target: Target, status: PluginStatus)
    requires Reconciled(db)
    ensures Reconciled(AfterWriteStatus(db, target, status))
  {
    var after := AfterWriteStatus(db, target, status);
    forall i | 0 <= i < |after.commands|
      ensures IsAwaited(after.instances, after.commands[i])
    {
      assert IsAwaited(db.instances, db.commands[i]);
    }
    hide Table;
    forall other | other in after.instances
      ensures WaitsForCommand(after.commands, other, after.instances[other])
    {
      assert WaitsForCommand(db.commands, other, db.instances[other]);
    }
  }

  /** Recovery expires every pending reconcile command; an instance it fails no longer waits. */
  lemma RecoveringKeepsReconciled(db: Db, affected: set<Target>)
    requires Reconciled(db)
    ensures Reconciled(AfterRecover(db, affected))
  {
    var swept, after := SweptDb(db, Unrecoverable, 0), AfterRecover(db, affected);
    SweepingKeepsReconciled(db, Unrecoverable, 0);
    assert forall i | 0 <= i < |after.commands| ::
      !(after.commands[i].status.Pending? && after.commands[i].request.body.Reconcile?);
    hide Table, Selects, Swept;
    forall target | target in after.instances
      ensures WaitsForCommand(after.commands, target, after.instances[target])
    {
      assert WaitsForCommand(swept.commands, target, swept.instances[target]);
    }
  }

  // ---------------------------------------------------------------------------------------------
  // Runs
  // ---------------------------------------------------------------------------------------------

  lemma CreatingOnlyExpires(db: Db, id: string, node: string, request: Request, now: int)
    requires Table(db.commands)
    ensures OnlyExpires(db.commands, AfterCreate(db, id, node, request, now).0.commands)
  {
    CreatingEvolves(db, id, node, request, now);
    CreatingAddsNoReconcile(db, id, node, request, now);
    hide Table, Evolved, Collides, Selects, Find, NoNewReconcile;
  }

  lemma DiagnosingOnlyExpires(db: Db, id: string, node: string, request: Request, now: int)
    requires Table(db.commands)
    ensures OnlyExpires(db.commands, AfterCreateDiagnose(db, id, node, request, now).0.commands)
  {
    DiagnosingEvolves(db, id, node, request, now);
    DiagnosingAddsNoReconcile(db, id, node, request, now);
    hide Table, Evolved, Collides, NoNewReconcile;
  }

  lemma StagingOnlyExpires(db: Db, snapshot: Snapshot, id: string, now: int, lifetime: int)
    requires Table(db.commands)
    ensures OnlyExpires(db.commands, AfterStage(db, snapshot, id, now, lifetime).0.commands)
  {
    StagingEvolves(db, snapshot, id, now, lifetime);
    StagingAddsNoReconcile(db, snapshot, id, now, lifetime);
    hide Table, Evolved, Collides, Selects, GivesWay, CallsForCommand, NoNewReconcile;
  }

  lemma MarkingOnlyExpires(db: Db, id: string, node: string)
    requires Table(db.commands)
    ensures OnlyExpires(db.commands, AfterMarkSent(db, id, node).0.commands)
  {
    MarkingEvolves(db, id, node);
    NothingNew(db.commands, AfterMarkSent(db, id, node).0.commands);
    hide Table, Evolved, NoNewReconcile;
  }

  lemma StepKeepsReconciled(system: System, act: Act)
    requires Reconciled(system.db)
    ensures Reconciled(Do(system, act).db)
  {
    var db := system.db;
    var after := Do(system, act).db;
    hide Reconciled, OnlyExpires, AfterCreate, AfterCreateDiagnose, AfterStage, AfterMarkSent, AfterApplyPlugin, AfterComplete,
         AfterWriteStatus, AfterRecover, Cleaned, Table;
    ReconciledTables(db);
    match act
    case Create(id, node, request, now) =>
      CreatingOnlyExpires(db, id, node, request, now);
      CreatingAddsNoReconcile(db, id, node, request, now);
      CreatingEvolves(db, id, node, request, now);
      ExpiringKeepsReconciled(db, after);
    case CreateDiagnose(id, node, request, now) =>
      DiagnosingOnlyExpires(db, id, node, request, now);
      DiagnosingAddsNoReconcile(db, id, node, request, now);
      DiagnosingEvolves(db, id, node, request, now);
      ExpiringKeepsReconciled(db, after);
    case StagePolicy(snapshot, id, now, lifetime) =>
      StagingOnlyExpires(db, snapshot, id, now, lifetime);
      StagingAddsNoReconcile(db, snapshot, id, now, lifetime);
      StagingEvolves(db, snapshot, id, now, lifetime);
      ExpiringKeepsReconciled(db, after);
    case MarkSent(session) =>
      if session in system.held {
        MarkingOnlyExpires(db, system.held[session].id, system.held[session].node);
        MarkingEvolves(db, system.held[session].id, system.held[session].node);
        MarkingKeepsInstances(db, system.held[session].id, system.held[session].node);
        ExpiringKeepsReconciled(db, after);
      }
    case Select(_, node, now) =>
      SweepingKeepsReconciled(db, DueOf(node), now);
      CleaningKeepsReconciled(SweptDb(db, DueOf(node), now));
    case ExpireReconciles(now) =>
      SweepingKeepsReconciled(db, DueReconciles, now);
      CleaningKeepsReconciled(SweptDb(db, DueReconciles, now));
    case List(node, now) => SweepingKeepsReconciled(db, DueOf(node), now);
    case ListKind(node, kind, now) => SweepingKeepsReconciled(db, DueOfKind(node, kind), now);
    case Complete(node, credential, report, decrypted, now) =>
      CompletingKeepsReconciled(db, node, credential, report, decrypted, now);
    case ApplyPlugin(id, node, request, now) => ApplyingKeepsReconciled(db, id, node, request, now);
    case WriteStatus(reporter) =>
      if reporter in system.reading {
        WritingKeepsReconciled(db, system.reading[reporter].target, system.reading[reporter].status);
      }
    case Recover(affected) => RecoveringKeepsReconciled(db, affected);
    case _ => SameTablesKeepReconciled(db, after);
  }

  lemma ReconciledTables(db: Db)
    requires Reconciled(db)
    ensures Table(db.commands)
  {
  }

  lemma MarkingKeepsInstances(db: Db, id: string, node: string)
    ensures AfterMarkSent(db, id, node).0.instances == db.instances
  {
  }

  lemma SameTablesKeepReconciled(db: Db, after: Db)
    requires Reconciled(db) && after.commands == db.commands && after.instances == db.instances
    ensures Reconciled(after)
  {
    assert forall i | 0 <= i < |db.commands| :: IsAwaited(db.instances, db.commands[i]);
  }

  lemma {:induction false} RunsKeepReconciled(acts: seq<Act>)
    ensures Reconciled(DoAll(START, acts).db)
  {
    hide Do;
    if acts != [] {
      RunsKeepReconciled(acts[..|acts| - 1]);
      StepKeepsReconciled(DoAll(START, acts[..|acts| - 1]), acts[|acts| - 1]);
    }
  }

  /** In every reachable state a pending reconcile command finds its instance waiting for it, and an instance that
      waits does so for a command of its own that is pending or has expired. */
  lemma WaitingIsForACommand(acts: seq<Act>, target: Target)
    requires target in DoAll(START, acts).db.instances
    ensures WaitsForCommand(DoAll(START, acts).db.commands, target, DoAll(START, acts).db.instances[target])
    ensures AllAwaited(DoAll(START, acts).db)
  {
    RunsKeepReconciled(acts);
  }

  /** Once cleaned up, as after every dispatch, an instance waits exactly if a reconcile command of it is pending. */
  lemma WaitingMeansPending(db: Db, target: Target)
    requires Reconciled(db) && Clean(db) && target in db.instances
    ensures db.instances[target].status.ReconcilePending? <==>
            (exists i: nat :: i < |db.commands| && PendingReconcile(db.commands[i], target.node, target.plugin))
  {
    var instance := db.instances[target];
    if instance.status.ReconcilePending? {
      assert WaitsForCommand(db.commands, target, instance);
      var i: nat :| i < |db.commands| && IsLastOf(db.commands[i], target, instance)
                    && (db.commands[i].status.Pending? || db.commands[i].status.Expired?);
      assert !ExpiredReconcile(db.commands, instance.lastCommand);
      assert PendingReconcile(db.commands[i], target.node, target.plugin);
    }
    if i: nat :| i < |db.commands| && PendingReconcile(db.commands[i], target.node, target.plugin) {
      assert IsAwaited(db.instances, db.commands[i]) && TargetOf(db.commands[i]) == target;
    }
  }

  /** Every dispatch leaves the database cleaned up. */
  lemma DispatchCleansUp(acts: seq<Act>, session: nat, node: string, now: int, target: Target)
    requires target in Do(DoAll(START, acts), Select(session, node, now)).db.instances
    ensures var db := Do(DoAll(START, acts), Select(session, node, now)).db;
            db.instances[target].status.ReconcilePending? <==>
            (exists i: nat :: i < |db.commands| && PendingReconcile(db.commands[i], target.node, target.plugin))
  {
    var before := DoAll(START, acts).db;
    RunsKeepReconciled(acts);
    hide DoAll, Reconciled, Clean, Cleaned;
    SweepingKeepsReconciled(before, DueOf(node), now);
    CleaningKeepsReconciled(SweptDb(before, DueOf(node), now));
    WaitingMeansPending(Cleaned(SweptDb(before, DueOf(node), now)), target);
  }
}
