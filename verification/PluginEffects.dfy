/** What single calls do to plugin instances and their commands, field by field. */
module PluginEffects {
  import opened Outcomes
  import opened CommandTable
  import opened ControlPlane
  import opened CommandDelivery
  import opened CommandEffects

  // ---------------------------------------------------------------------------------------------
  // Desired states
  // ---------------------------------------------------------------------------------------------

  /** A reconcile command of the instance that is due and was not sent gives way. */
  predicate DueReconcile(command: Command, target: Target, now: int) {
    && command.status == Pending && command.node == target.node && command.request.body.Reconcile?
    && command.request.body.plugin == target.plugin && command.request.expiresAt <= now && command.attempts == 0
  }

  /** No command has the ID, and none of the instance waits that does not give way. */
  ghost predicate RoomFor(db: Db, id: string, target: Target, now: int) {
    forall i | 0 <= i < |db.commands| ::
      && db.commands[i].id != id
      && (PendingReconcile(db.commands[i], target.node, target.plugin) ==> DueReconcile(db.commands[i], target, now))
  }

  /** A desired state is taken exactly for an enrolled and enabled node and an installed plugin, in its active version
      unless it is to be absent, as the next generation of the instance, while no command stands in the way. */
  lemma DesiredIsTakenExactlyWhen(db: Db, id: string, node: string, request: Request, now: int)
    requires request.body.Reconcile?
    ensures var body, target := request.body, Target(node, request.body.plugin);
            var (next, error) := AfterApplyPlugin(db, id, node, request, now);
      && (error == None <==>
            && node in db.nodes && db.nodes[node].enabled && db.nodes[node].credential.Some?
            && body.plugin in db.installations && (body.state == Absent || db.installations[body.plugin] == Some(body.version))
            && body.generation == (if target in db.instances then db.instances[target].generation else 0) + 1
            && RoomFor(db, id, target, now))
      && (error != None ==> next == db)
  {
    RoomIsNoCollision(db, id, node, request, now);
    hide Swept, Collides, RoomFor, CleanedInstance;
  }

  lemma RoomIsNoCollision(db: Db, id: string, node: string, request: Request, now: int)
    requires request.body.Reconcile?
    ensures var swept := Swept(db.commands, DueReconcilesOf(node, request.body.plugin), now);
            RoomFor(db, id, Target(node, request.body.plugin), now) <==> !Collides(swept, New(id, node, request, now))
  {
    var target := Target(node, request.body.plugin);
    var swept := Swept(db.commands, DueReconcilesOf(node, request.body.plugin), now);
    var command := New(id, node, request, now);
    assert forall i | 0 <= i < |db.commands| ::
      (swept[i].id == command.id || Exclusive(swept[i], command)) <==>
      !(&& db.commands[i].id != id
        && (PendingReconcile(db.commands[i], node, target.plugin) ==> DueReconcile(db.commands[i], target, now)));
  }

  /** A desired state that is taken becomes the last command, and what the instance is to be; what is known of the node
      stays, and nothing is known of a new instance. */
  lemma TakenDesiredIsIssued(db: Db, id: string, node: string, request: Request, now: int)
    requires AfterApplyPlugin(db, id, node, request, now).1 == None
    ensures var body, target := request.body, Target(node, request.body.plugin);
            var next := AfterApplyPlugin(db, id, node, request, now).0;
      && |next.commands| == |db.commands| + 1 && IsNew(next.commands[|db.commands|], id, node, request, now)
      && (forall i | 0 <= i < |db.commands| ::
            next.commands[i] == if DueReconcile(db.commands[i], target, now) then db.commands[i].(status := Expired)
                                else db.commands[i])
      && target in next.instances
      && var after := next.instances[target];
         && after.generation == body.generation && after.state == body.state && after.version == body.version
         && after.configuration == (if body.state == Absent then "" else body.configuration)
         && after.status == ReconcilePending && after.lastCommand == id
         && (target in db.instances ==>
               var before := db.instances[target];
               after.actual == before.actual && after.actualGeneration == before.actualGeneration
               && after.observedAt == before.observedAt)
         && (target !in db.instances ==>
               after.actualGeneration == 0 && after.observedAt == None && after.actual == Actual(Absent, "", "", Unknown))
  {
    hide Collides, ExpiredReconcile;
  }

  /** Other instances keep everything but, at most, a status that still waited for an expired command. */
  lemma TakenDesiredLeavesOthers(db: Db, id: string, node: string, request: Request, now: int, other: Target)
    requires AfterApplyPlugin(db, id, node, request, now).1 == None
    requires other in db.instances && other != Target(node, request.body.plugin)
    ensures var next := AfterApplyPlugin(db, id, node, request, now).0;
      && other in next.instances
      && (next.instances[other] == db.instances[other]
          || (db.instances[other].status == ReconcilePending
              && next.instances[other] == db.instances[other].(status := ReconcileExpired)))
  {
    hide Collides, ExpiredReconcile, Swept;
  }

  // ---------------------------------------------------------------------------------------------
  // Results
  // ---------------------------------------------------------------------------------------------

  /** A status of the instance's own generation was observed after the result, or one of a later generation. */
  predicate KnowsBetter(instance: Instance, generation: nat, completedAt: int) {
    || instance.actualGeneration > generation
    || (instance.actualGeneration == generation && instance.observedAt.Some? && instance.observedAt.value > completedAt)
  }

  /** A reconcile result that is taken settles its command and its instance. A failure leaves what is known of the node;
      a success records what was desired as what there is, unless a status knows better. */
  lemma TakenResultSettlesInstance(db: Db, i: nat, node: string, credential: string, report: Report,
                                   decrypted: Option<Request>, now: int)
    requires Table(db.commands) && Holds(db.commands, i, report.commandId, node) && db.commands[i].status == Pending
    requires db.commands[i].request.body.Reconcile?
    requires AfterComplete(db, node, credential, report, decrypted, now).1 == None
    ensures var body := db.commands[i].request.body;
            var target := Target(node, body.plugin);
            var next := AfterComplete(db, node, credential, report, decrypted, now).0;
      && target in db.instances && next.instances.Keys == db.instances.Keys && next.policies == db.policies
      && (forall other | other in db.instances && other != target :: next.instances[other] == db.instances[other])
      && var before, after := db.instances[target], next.instances[target];
         && after.generation == before.generation && after.state == before.state && after.version == before.version
         && after.configuration == before.configuration && after.lastCommand == before.lastCommand
         && after.observedAt == before.observedAt
         && after.status == (if report.verdict.Success? then ReconcileSucceeded else ReconcileFailed)
         && if report.verdict.Failure? || KnowsBetter(before, body.generation, report.completedAt) then
              after.actual == before.actual && after.actualGeneration == before.actualGeneration
            else
              && after.actualGeneration == body.generation
              && after.actual.state == body.state && after.actual.version == body.version
              && after.actual.configuration == (if body.state == Absent then "" else body.configuration)
              && after.actual.health == if body.state == Running then Healthy else Unknown
  {
    FindsTheOne(db.commands, i, report.commandId, node);
    hide Find, Table, Answers;
  }

  // ---------------------------------------------------------------------------------------------
  // Statuses
  // ---------------------------------------------------------------------------------------------

  /** A status is held for writing exactly when it is of the generation that is desired or of the one the node has. */
  lemma StatusIsHeldExactlyWhenCurrent(system: System, reporter: nat, target: Target, status: PluginStatus)
    ensures var next := Do(system, ReadStatus(reporter, target, status));
      && next == system.(reading := next.reading)
      && (forall other | other != reporter ::
            (other in next.reading <==> other in system.reading)
            && (other in system.reading ==> next.reading[other] == system.reading[other]))
      && (reporter in next.reading <==>
            target in system.db.instances
            && (status.generation == system.db.instances[target].generation
                || status.generation == system.db.instances[target].actualGeneration))
      && (reporter in next.reading ==> next.reading[reporter].target == target && next.reading[reporter].status == status)
  {
  }

  /** What is held is what is written, once. */
  lemma HeldStatusIsWritten(system: System, reporter: nat)
    requires reporter in system.reading
    ensures var next := Do(system, WriteStatus(reporter));
      && next.db == AfterWriteStatus(system.db, system.reading[reporter].target, system.reading[reporter].status)
      && reporter !in next.reading && next.held == system.held
      && (forall other | other in system.reading && other != reporter ::
            other in next.reading && next.reading[other] == system.reading[other])
  {
    hide AfterWriteStatus;
  }

  /** A status that is written replaces what is known of the node exactly when it is of a later generation, or of the
      same and not observed earlier; it never changes what is desired. */
  lemma StatusIsRecordedExactlyWhenNewer(db: Db, target: Target, status: PluginStatus)
    requires target in db.instances
    ensures var before, next := db.instances[target], AfterWriteStatus(db, target, status);
      && next == db.(instances := next.instances) && next.instances.Keys == db.instances.Keys
      && (forall other | other in db.instances && other != target :: next.instances[other] == db.instances[other])
      && var after := next.instances[target];
         && after.generation == before.generation && after.state == before.state && after.version == before.version
         && after.configuration == before.configuration && after.status == before.status
         && after.lastCommand == before.lastCommand
         && if before.actualGeneration < status.generation
               || (before.actualGeneration == status.generation
                   && (before.observedAt == None || before.observedAt.value <= status.observedAt)) then
              && after.actualGeneration == status.generation && after.observedAt == Some(status.observedAt)
              && after.actual == status.actual
            else after == before
  {
  }

  // ---------------------------------------------------------------------------------------------
  // Recovery and expiry
  // ---------------------------------------------------------------------------------------------

  /** Recovery without the key gives up exactly the waiting commands that carry secrets, and exactly the affected
      instances need their configuration anew. */
  lemma RecoveryGivesUpSecrets(db: Db, affected: set<Target>, i: nat, target: Target)
    requires i < |db.commands| && target in db.instances
    ensures var next := AfterRecover(db, affected);
      && |next.commands| == |db.commands| && next.instances.Keys == db.instances.Keys && next.policies == db.policies
      && next.commands[i] ==
           (if db.commands[i].status == Pending && (db.commands[i].request.body.Reconcile? || db.commands[i].request.body.Diagnose?)
            then db.commands[i].(status := Expired) else db.commands[i])
      && next.instances[target] ==
           if target in affected then db.instances[target].(status := ReconcileFailed, configuration := "")
           else db.instances[target]
  {
  }

  /** Expiring reconcile commands gives up exactly those that are due and were not sent, and marks exactly the instances
      that waited for a command that has expired. */
  lemma ExpiryMarksWaitingInstances(system: System, now: int, i: nat, target: Target)
    requires i < |system.db.commands| && target in system.db.instances
    ensures var db, next := system.db, Do(system, ExpireReconciles(now)).db;
      && |next.commands| == |db.commands| && next.instances.Keys == db.instances.Keys
      && next.commands[i] ==
           (if db.commands[i].status == Pending && db.commands[i].request.body.Reconcile?
               && db.commands[i].request.expiresAt <= now && db.commands[i].attempts == 0
            then db.commands[i].(status := Expired) else db.commands[i])
      && (var before := db.instances[target];
          var waits := before.status == ReconcilePending
                       && exists j :: 0 <= j < |next.commands| && next.commands[j].id == before.lastCommand
                                      && next.commands[j].request.body.Reconcile? && next.commands[j].status == Expired;
          next.instances[target] == if waits then before.(status := ReconcileExpired) else before)
  {
    hide Swept;
  }
}
