/** Plugin instances: what every run keeps of generations, pending reconcile commands and observed statuses. */
module PluginGenerations {
  import opened Outcomes
  import opened CommandTable
  import opened ControlPlane
  import opened CommandDelivery

  function TargetOf(command: Command): Target
    requires command.request.body.Reconcile?
  {
    Target(command.node, command.request.body.plugin)
  }

  /** A pending reconcile command is the last one of its instance and carries its generation. */
  predicate IsLast(instances: map<Target, Instance>, command: Command) {
    command.status.Pending? && command.request.body.Reconcile? ==>
      && TargetOf(command) in instances
      && instances[TargetOf(command)].generation == command.request.body.generation
      && instances[TargetOf(command)].lastCommand == command.id
  }

  ghost predicate PendingAreLast(db: Db) {
    forall i | 0 <= i < |db.commands| :: IsLast(db.instances, db.commands[i])
  }

  ghost predicate ActualBehind(instances: map<Target, Instance>) {
    forall target | target in instances :: instances[target].actualGeneration <= instances[target].generation
  }

  /** A status about to be written belongs to a generation the instance has or had. */
  ghost predicate ReadingsBehind(instances: map<Target, Instance>, reading: map<nat, Reading>) {
    forall reporter | reporter in reading ::
      && reading[reporter].target in instances
      && reading[reporter].status.generation <= instances[reading[reporter].target].generation
  }

  ghost predicate Plugins(system: System) {
    && Table(system.db.commands) && PendingAreLast(system.db)
    && ActualBehind(system.db.instances) && ReadingsBehind(system.db.instances, system.reading)
  }

  /** The order of what is known of a node: by generation, then by the time it was observed. */
  predicate KnownBefore(before: Instance, after: Instance) {
    || before.actualGeneration < after.actualGeneration
    || (before.actualGeneration == after.actualGeneration
        && (before.observedAt.None?
            || (after.observedAt.Some? && before.observedAt.value <= after.observedAt.value)))
  }

  ghost predicate InstancesAdvance(before: map<Target, Instance>, after: map<Target, Instance>) {
    forall target | target in before ::
      && target in after && before[target].generation <= after[target].generation
      && KnownBefore(before[target], after[target])
  }

  lemma AdvancesCompose(first: map<Target, Instance>, second: map<Target, Instance>, third: map<Target, Instance>)
    requires InstancesAdvance(first, second) && InstancesAdvance(second, third)
    ensures InstancesAdvance(first, third)
  {
    forall target | target in first
      ensures target in third && first[target].generation <= third[target].generation && KnownBefore(first[target], third[target])
    {
      assert target in second;
    }
  }

  /** Only statuses and configurations changed. */
  predicate SameGeneration(before: Instance, after: Instance) {
    && after.generation == before.generation && after.lastCommand == before.lastCommand
    && after.actualGeneration == before.actualGeneration && after.observedAt == before.observedAt
  }

  ghost predicate SameGenerations(before: map<Target, Instance>, after: map<Target, Instance>) {
    before.Keys == after.Keys && forall target | target in before :: SameGeneration(before[target], after[target])
  }

  lemma SameGenerationsKeep(before: map<Target, Instance>, after: map<Target, Instance>, reading: map<nat, Reading>)
    requires SameGenerations(before, after) && ActualBehind(before) && ReadingsBehind(before, reading)
    ensures InstancesAdvance(before, after) && ActualBehind(after) && ReadingsBehind(after, reading)
  {
    assert forall target | target in before :: SameGeneration(before[target], after[target]);
  }

  lemma UpdatingInstance(before: map<Target, Instance>, target: Target, instance: Instance, reading: map<nat, Reading>)
    requires ActualBehind(before) && ReadingsBehind(before, reading)
    requires instance.actualGeneration <= instance.generation
    requires target in before ==> before[target].generation <= instance.generation && KnownBefore(before[target], instance)
    ensures var after := before[target := instance];
            InstancesAdvance(before, after) && ActualBehind(after) && ReadingsBehind(after, reading)
  {
  }

  // ---------------------------------------------------------------------------------------------
  // Pending reconcile commands
  // ---------------------------------------------------------------------------------------------

  ghost predicate NoNewReconcile(before: Commands, after: Commands) {
    |before| <= |after| && forall i | |before| <= i < |after| :: !after[i].request.body.Reconcile?
  }

  /** The instances await the results they awaited. */
  ghost predicate SameAwaited(before: map<Target, Instance>, after: map<Target, Instance>) {
    forall target | target in before ::
      && target in after && after[target].generation == before[target].generation
      && after[target].lastCommand == before[target].lastCommand
  }

  lemma EvolvingKeepsLast(before: Db, after: Db)
    requires PendingAreLast(before) && Evolved(before.commands, after.commands)
    requires NoNewReconcile(before.commands, after.commands) && SameAwaited(before.instances, after.instances)
    ensures PendingAreLast(after)
  {
    forall i | 0 <= i < |after.commands|
      ensures IsLast(after.instances, after.commands[i])
    {
      if i < |before.commands| {
        assert IsLast(before.instances, before.commands[i]);
        assert Successor(before.commands[i], after.commands[i]);
      }
    }
  }

  lemma CleaningKeepsGenerations(db: Db)
    ensures SameGenerations(db.instances, Cleaned(db).instances)
  {
    hide ExpiredReconcile;
  }

  lemma CreatingAddsNoReconcile(db: Db, id: string, node: string, request: Request, now: int)
    ensures var next := AfterCreate(db, id, node, request, now).0;
            NoNewReconcile(db.commands, next.commands) && next.instances == db.instances
  {
    hide Collides, Selects, Find;
  }

  lemma DiagnosingAddsNoReconcile(db: Db, id: string, node: string, request: Request, now: int)
    ensures var next := AfterCreateDiagnose(db, id, node, request, now).0;
            NoNewReconcile(db.commands, next.commands) && next.instances == db.instances
  {
    hide Collides;
  }

  lemma StagingAddsNoReconcile(db: Db, snapshot: Snapshot, id: string, now: int, lifetime: int)
    ensures var next := AfterStage(db, snapshot, id, now, lifetime).0;
            NoNewReconcile(db.commands, next.commands) && next.instances == db.instances
  {
    hide Collides, GivesWay, CallsForCommand, Selects;
  }

  /** Everything but applying, completing and the status events. */
  predicate Minor(act: Act) {
    !act.ApplyPlugin? && !act.Complete? && !act.WriteStatus? && !act.ReadStatus?
  }

  lemma MinorStepsKeepGenerations(system: System, act: Act)
    requires Minor(act)
    ensures var after := Do(system, act);
      && NoNewReconcile(system.db.commands, after.db.commands)
      && SameGenerations(system.db.instances, after.db.instances) && after.reading == system.reading
  {
    var db := system.db;
    hide AfterCreate, AfterCreateDiagnose, AfterStage, Selects, NextOf, CleanedInstance;
    match act
    case Create(id, node, request, now) => CreatingAddsNoReconcile(db, id, node, request, now);
    case CreateDiagnose(id, node, request, now) => DiagnosingAddsNoReconcile(db, id, node, request, now);
    case StagePolicy(snapshot, id, now, lifetime) => StagingAddsNoReconcile(db, snapshot, id, now, lifetime);
    case Select(_, node, now) => CleaningKeepsGenerations(SweptDb(db, DueOf(node), now));
    case ExpireReconciles(now) => CleaningKeepsGenerations(SweptDb(db, DueReconciles, now));
    case _ =>
  }

  lemma MinorStepsKeepPlugins(system: System, act: Act)
    requires Plugins(system) && Minor(act)
    ensures Plugins(Do(system, act)) && InstancesAdvance(system.db.instances, Do(system, act).db.instances)
  {
    hide Do, Table, Evolved, PendingAreLast, NoNewReconcile, ActualBehind, ReadingsBehind, InstancesAdvance;
    MinorStepsKeepGenerations(system, act);
    StepEvolves(system, act);
    SameGenerationsKeep(system.db.instances, Do(system, act).db.instances, system.reading);
    EvolvingKeepsLast(system.db, Do(system, act).db);
  }

  // ---------------------------------------------------------------------------------------------
  // Applying
  // ---------------------------------------------------------------------------------------------

  /** The inserted command is the only pending reconcile command of its instance. */
  lemma ApplyingKeepsLast(db: Db, id: string, node: string, request: Request, now: int)
    requires Table(db.commands) && PendingAreLast(db) && AfterApplyPlugin(db, id, node, request, now).1.None?
    ensures PendingAreLast(AfterApplyPlugin(db, id, node, request, now).0)
  {
    var (next, error) := AfterApplyPlugin(db, id, node, request, now);
    var plugin := request.body.plugin;
    var expired := Cleaned(SweptDb(db, DueReconcilesOf(node, plugin), now));
    SweepingEvolves(db.commands, DueReconcilesOf(node, plugin), now);
    CleaningKeepsGenerations(SweptDb(db, DueReconcilesOf(node, plugin), now));
    EvolvingKeepsLast(db, expired);
    hide Table, Evolved, Selects, CleanedInstance, Swept;
    forall i | 0 <= i < |next.commands|
      ensures IsLast(next.instances, next.commands[i])
    {
      if i < |expired.commands| {
        assert IsLast(expired.instances, expired.commands[i]);
        assert !Exclusive(expired.commands[i], New(id, node, request, now));
      }
    }
  }

  lemma ApplyingKeepsInstances(db: Db, id: string, node: string, request: Request, now: int, reading: map<nat, Reading>)
    requires ActualBehind(db.instances) && ReadingsBehind(db.instances, reading)
    ensures var next := AfterApplyPlugin(db, id, node, request, now).0;
      && InstancesAdvance(db.instances, next.instances) && ActualBehind(next.instances) && ReadingsBehind(next.instances, reading)
  {
    var (next, error) := AfterApplyPlugin(db, id, node, request, now);
    if error.None? {
      var swept := SweptDb(db, DueReconcilesOf(node, request.body.plugin), now);
      var target := Target(node, request.body.plugin);
      CleaningKeepsGenerations(swept);
      var cleaned := Cleaned(swept);
      SameGenerationsKeep(db.instances, cleaned.instances, reading);
      assert target in db.instances ==> SameGeneration(db.instances[target], cleaned.instances[target]);
      hide Selects, CleanedInstance, Swept, Collides, ActualBehind, ReadingsBehind, InstancesAdvance;
      assert target in cleaned.instances ==> cleaned.instances[target].actualGeneration <= request.body.generation by {
        assert ActualBehind(cleaned.instances);
        BehindAt(cleaned.instances, target);
      }
      UpdatingInstance(cleaned.instances, target, Desired(cleaned, target, request.body, id), reading);
      AdvancesCompose(db.instances, cleaned.instances, next.instances);
    } else {
      SameGenerationsKeep(db.instances, db.instances, reading);
    }
  }

  lemma BehindAt(instances: map<Target, Instance>, target: Target)
    requires ActualBehind(instances)
    ensures target in instances ==> instances[target].actualGeneration <= instances[target].generation
  {
  }

  // ---------------------------------------------------------------------------------------------
  // Completing and statuses
  // ---------------------------------------------------------------------------------------------

  lemma CompletingKeepsInstances(db: Db, node: string, credential: string, report: Report, decrypted: Option<Request>,
                                 now: int, reading: map<nat, Reading>)
    requires ActualBehind(db.instances) && ReadingsBehind(db.instances, reading)
    ensures var next := AfterComplete(db, node, credential, report, decrypted, now).0;
      && InstancesAdvance(db.instances, next.instances) && ActualBehind(next.instances)
      && ReadingsBehind(next.instances, reading) && SameAwaited(db.instances, next.instances)
      && |next.commands| == |db.commands|
  {
    hide Refusal, Repeated, Find, ActualBehind, ReadingsBehind, InstancesAdvance;
    var next := AfterComplete(db, node, credential, report, decrypted, now).0;
    if next.instances == db.instances {
      SameGenerationsKeep(db.instances, db.instances, reading);
    } else {
      var found := Find(db.commands, report.commandId, node).value;
      var target := TargetOf(db.commands[found]);
      BehindAt(db.instances, target);
      UpdatingInstance(db.instances, target, next.instances[target], reading);
    }
  }

  lemma WritingKeepsInstances(db: Db, target: Target, status: PluginStatus, reading: map<nat, Reading>)
    requires ActualBehind(db.instances) && ReadingsBehind(db.instances, reading)
    requires target in db.instances && status.generation <= db.instances[target].generation
    ensures var next := AfterWriteStatus(db, target, status);
      && InstancesAdvance(db.instances, next.instances) && ActualBehind(next.instances)
      && ReadingsBehind(next.instances, reading) && SameAwaited(db.instances, next.instances) && next.commands == db.commands
  {
    hide ActualBehind, ReadingsBehind, InstancesAdvance;
    var next := AfterWriteStatus(db, target, status);
    BehindAt(db.instances, target);
    UpdatingInstance(db.instances, target, next.instances[target], reading);
  }

  lemma ReadingKeepsPlugins(system: System, reporter: nat, target: Target, status: PluginStatus)
    requires Plugins(system)
    ensures Plugins(Do(system, ReadStatus(reporter, target, status)))
    ensures InstancesAdvance(system.db.instances, Do(system, ReadStatus(reporter, target, status)).db.instances)
  {
    BehindAt(system.db.instances, target);
    hide Table, PendingAreLast, ActualBehind;
  }

  lemma StepKeepsPlugins(system: System, act: Act)
    requires Plugins(system)
    ensures Plugins(Do(system, act)) && InstancesAdvance(system.db.instances, Do(system, act).db.instances)
  {
    var db, after := system.db, Do(system, act);
    hide Table, Evolved, PendingAreLast, NoNewReconcile, ActualBehind, InstancesAdvance, SameAwaited,
         AfterApplyPlugin, AfterComplete, AfterWriteStatus;
    if Minor(act) {
      MinorStepsKeepPlugins(system, act);
    } else if act.ReadStatus? {
      ReadingKeepsPlugins(system, act.reporter, act.target, act.status);
    } else {
      StepEvolves(system, act);
      if act.ApplyPlugin? {
        ApplyingKeepsInstances(db, act.id, act.node, act.request, act.now, system.reading);
        if AfterApplyPlugin(db, act.id, act.node, act.request, act.now).1.None? {
          ApplyingKeepsLast(db, act.id, act.node, act.request, act.now);
        } else {
          FailingAppliesNothing(db, act.id, act.node, act.request, act.now);
        }
      } else if act.Complete? {
        CompletingKeepsInstances(db, act.node, act.credential, act.report, act.decrypted, act.now, system.reading);
        NothingNew(db.commands, after.db.commands);
        EvolvingKeepsLast(db, after.db);
      } else if act.reporter in system.reading {
        WritingKeepsInstances(db, system.reading[act.reporter].target, system.reading[act.reporter].status, system.reading);
        NothingNew(db.commands, after.db.commands);
        EvolvingKeepsLast(db, after.db);
      } else {
        NothingAdvances(db.instances);
      }
    }
  }

  lemma NothingNew(before: Commands, after: Commands)
    requires |after| == |before|
    ensures NoNewReconcile(before, after)
  {
  }

  lemma NothingAdvances(instances: map<Target, Instance>)
    ensures InstancesAdvance(instances, instances)
  {
  }

  lemma FailingAppliesNothing(db: Db, id: string, node: string, request: Request, now: int)
    requires AfterApplyPlugin(db, id, node, request, now).1.Some?
    ensures AfterApplyPlugin(db, id, node, request, now).0 == db
  {
    hide Collides, Cleaned, SweptDb;
  }

  // ---------------------------------------------------------------------------------------------
  // Runs
  // ---------------------------------------------------------------------------------------------

  lemma {:induction false} RunsKeepPlugins(acts: seq<Act>)
    ensures Plugins(DoAll(START, acts))
  {
    hide Do;
    if acts != [] {
      RunsKeepPlugins(acts[..|acts| - 1]);
      StepKeepsPlugins(DoAll(START, acts[..|acts| - 1]), acts[|acts| - 1]);
    }
  }

  /** Between any two states of a run, no instance disappears, its generation does not fall, and what is known of the
      node moves forward in generation, then in observation time. */
  lemma {:induction false} KnowledgeNeverGoesBack(before: seq<Act>, after: seq<Act>)
    ensures InstancesAdvance(DoAll(START, before).db.instances, DoAll(START, before + after).db.instances)
  {
    hide Do, Plugins, InstancesAdvance;
    if after == [] {
      assert before + after == before;
      NothingAdvances(DoAll(START, before).db.instances);
    } else {
      var front, last := after[..|after| - 1], after[|after| - 1];
      assert (before + after)[..|before + after| - 1] == before + front && (before + after)[|before + after| - 1] == last;
      KnowledgeNeverGoesBack(before, front);
      var middle := DoAll(START, before + front);
      RunsKeepPlugins(before + front);
      StepKeepsPlugins(middle, last);
      AdvancesCompose(DoAll(START, before).db.instances, middle.db.instances, Do(middle, last).db.instances);
    }
  }

  lemma PendingReconcilesExclude(a: Command, b: Command, node: string, plugin: string)
    requires PendingReconcile(a, node, plugin) && PendingReconcile(b, node, plugin)
    ensures Exclusive(a, b)
  {
  }

  /** In every reachable state at most one reconcile command of an instance is pending, it carries the instance's
      generation, and the node is never ahead of it. */
  lemma ReachableInstancesAreSound(acts: seq<Act>, node: string, plugin: string, i: nat, j: nat)
    requires i < |DoAll(START, acts).db.commands| && j < |DoAll(START, acts).db.commands|
    requires PendingReconcile(DoAll(START, acts).db.commands[i], node, plugin)
    requires PendingReconcile(DoAll(START, acts).db.commands[j], node, plugin)
    ensures i == j
    ensures var db := DoAll(START, acts).db;
            var target := Target(node, plugin);
      && target in db.instances
      && db.instances[target].generation == db.commands[i].request.body.generation
      && db.instances[target].lastCommand == db.commands[i].id
      && db.instances[target].actualGeneration <= db.instances[target].generation
  {
    RunsKeepPlugins(acts);
    var db := DoAll(START, acts).db;
    hide DoAll;
    assert IsLast(db.instances, db.commands[i]);
    PendingReconcilesExclude(db.commands[i], db.commands[j], node, plugin);
    PendingReconcilesExclude(db.commands[j], db.commands[i], node, plugin);
  }

  /** A valid result of a pending reconcile command is taken and updates its instance alone; it sets the actual state
      unless a status of the same generation was observed after it. */
  lemma ValidReconcileResultsAreTaken(acts: seq<Act>, i: nat, credential: string, verdict: Verdict, completedAt: int, now: int)
    requires i < |DoAll(START, acts).db.commands|
    requires var command := DoAll(START, acts).db.commands[i];
      && command.status.Pending? && command.request.body.Reconcile? && Answers(command.request.body, verdict)
      && command.node in DoAll(START, acts).db.nodes
      && DoAll(START, acts).db.nodes[command.node].credential == Some(credential)
    ensures var db := DoAll(START, acts).db;
            var command := db.commands[i];
            var body := command.request.body;
            var target := TargetOf(command);
            var report := Report(command.id, command.request, verdict, completedAt);
            var (next, error) := AfterComplete(db, command.node, credential, report, Some(command.request), now);
      && error == None && target in db.instances && target in next.instances
      && next.instances == db.instances[target := next.instances[target]]
      && next.commands == db.commands[i := Completed(command, report)]
      && next.instances[target].status == (if verdict.Success? then ReconcileSucceeded else ReconcileFailed)
      && (verdict.Success? ==>
            next.instances[target].actualGeneration == next.instances[target].generation == body.generation)
      && (var instance := db.instances[target];
          if verdict.Failure? || (instance.actualGeneration == body.generation && instance.observedAt.Some?
                                  && instance.observedAt.value > completedAt)
          then next.instances[target].actual == instance.actual
          else next.instances[target].actual.state == body.state && next.instances[target].actual.version == body.version)
  {
    RunsKeepPlugins(acts);
    var db := DoAll(START, acts).db;
    hide DoAll;
    var command := db.commands[i];
    assert IsLast(db.instances, command);
    BehindAt(db.instances, TargetOf(command));
    assert Find(db.commands, command.id, command.node) == Some(i);
    hide Find, PendingAreLast, Table, ActualBehind, ReadingsBehind, Answers;
  }

  /** A pending reconcile command that was sent keeps its instance from being changed. */
  lemma ApplyingWaitsForDelivered(db: Db, id: string, node: string, request: Request, now: int, i: nat)
    requires request.body.Reconcile? && i < |db.commands|
    requires PendingReconcile(db.commands[i], node, request.body.plugin) && db.commands[i].attempts > 0
    ensures AfterApplyPlugin(db, id, node, request, now).0 == db
    ensures AfterApplyPlugin(db, id, node, request, now).1.Some?
  {
    var swept := SweptDb(db, DueReconcilesOf(node, request.body.plugin), now);
    assert swept.commands[i] == db.commands[i];
    assert Exclusive(swept.commands[i], New(id, node, request, now));
    assert Collides(swept.commands, New(id, node, request, now));
    hide Collides, Cleaned;
  }

  /** The orders of a result and a status that passed the generation check leave the same instance. */
  predicate Commute(instance: Instance, body: Body, report: Report, status: PluginStatus)
    requires body.Reconcile?
  {
    AfterStatus(AfterReconcileResult(instance, body, report), status)
    == AfterReconcileResult(AfterStatus(instance, status), body, report)
  }

  /** A result of the instance's generation and a status of its generation or of the one the node has commute exactly
      when the result is a failure; or the status is of the older generation and not newer than what is known of it;
      or the status is of the current generation and either is outdated within it, or was observed after the result,
      or says the same. */
  lemma ResultAndStatusCommuteExactlyWhen(instance: Instance, body: Body, report: Report, status: PluginStatus)
    requires body.Reconcile? && body.generation == instance.generation
    requires instance.actualGeneration <= instance.generation
    requires status.generation == instance.generation || status.generation == instance.actualGeneration
    ensures var known := instance.observedAt;
            var health := if body.state.Running? then Healthy else Unknown;
            var reported := Actual(body.state, body.version, ConfigurationOf(body), health);
            Commute(instance, body, report, status)
            <==> (if report.verdict.Failure? then true
                  else if status.generation < instance.generation then known.Some? && known.value >= status.observedAt
                  else if known.Some? && known.value > status.observedAt then instance.actualGeneration == status.generation
                  else status.observedAt > report.completedAt || status.actual == reported)
  {
    var resultFirst := AfterStatus(AfterReconcileResult(instance, body, report), status);
    var statusFirst := AfterReconcileResult(AfterStatus(instance, status), body, report);
    if report.verdict.Success? && status.generation < instance.generation {
      assert resultFirst.observedAt == instance.observedAt;
      assert statusFirst.observedAt ==
        if StatusIsNewer(instance, status) then Some(status.observedAt) else instance.observedAt;
    }
  }
}
