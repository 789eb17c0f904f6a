/** Policy generations: what every run keeps of the policy rows and the pending policy commands. */
module PolicyGenerations {
  import opened Outcomes
  import opened CommandTable
  import opened ControlPlane
  import opened CommandDelivery

  /** Policy commands are created by staging only. */
  predicate Permitted(act: Act) {
    act.Create? ==> !act.request.body.Policy?
  }

  ghost predicate PermittedRun(acts: seq<Act>) {
    forall i | 0 <= i < |acts| :: Permitted(acts[i])
  }

  predicate SoundRow(state: PolicyState) {
    && state.applied <= state.desired <= MAX_GENERATION
    && (state.status.PolicyApplied? ==> state.applied == state.desired)
    && (state.desired == 0 <==> state.digest.None?)
  }

  /** A pending policy command is the last one of its node and carries the desired generation. */
  predicate IsCurrent(db: Db, command: Command) {
    command.status.Pending? && command.request.body.Policy? ==>
      AwaitsPolicyResult(db, command.node, command.request.body.generation, command.id)
  }

  ghost predicate PendingAreCurrent(db: Db) {
    forall i | 0 <= i < |db.commands| :: IsCurrent(db, db.commands[i])
  }

  ghost predicate Policies(db: Db) {
    Table(db.commands) && PendingAreCurrent(db) && SoundRows(db)
  }

  /** How a row may change: a generation rises by one exactly when the digest changes. */
  predicate Advances(before: PolicyState, after: PolicyState) {
    && before.applied <= after.applied
    && after.desired == before.desired + if after.digest != before.digest then 1 else 0
  }

  ghost predicate RowsAdvance(before: Db, after: Db) {
    && before.policies.Keys <= after.policies.Keys
    && forall node :: Advances(StateOf(before, node), StateOf(after, node))
  }

  // ---------------------------------------------------------------------------------------------
  // Staging
  // ---------------------------------------------------------------------------------------------

  lemma PendingPoliciesExclude(a: Command, b: Command, node: string)
    requires PendingPolicy(a, node) && PendingPolicy(b, node)
    ensures Exclusive(a, b)
  {
  }

  /** Staging leaves no other pending policy command of the node. */
  lemma ClearedHasNoPending(db: Db, snapshot: Snapshot, now: int, i: nat)
    requires Table(db.commands) && GivesWay(db, snapshot, now) && i < |db.commands|
    ensures |Cleared(db, snapshot.node, now)| == |db.commands|
    ensures !PendingPolicy(Cleared(db, snapshot.node, now)[i], snapshot.node)
    ensures var cleared := Cleared(db, snapshot.node, now)[i];
            cleared == db.commands[i] || cleared == db.commands[i].(status := Expired)
  {
    var found := FindPolicy(db.commands, snapshot.node);
    if found.Some? && PendingPolicy(db.commands[i], snapshot.node) {
      PendingPoliciesExclude(db.commands[i], db.commands[found.value], snapshot.node);
      PendingPoliciesExclude(db.commands[found.value], db.commands[i], snapshot.node);
    }
  }

  lemma StagingKeepsCurrent(db: Db, snapshot: Snapshot, id: string, now: int, lifetime: int)
    requires Policies(db) && AfterStage(db, snapshot, id, now, lifetime).1.Created?
    ensures PendingAreCurrent(AfterStage(db, snapshot, id, now, lifetime).0)
  {
    var next := AfterStage(db, snapshot, id, now, lifetime).0;
    forall i | 0 <= i < |next.commands|
      ensures IsCurrent(next, next.commands[i])
    {
      if i < |db.commands| {
        ClearedHasNoPending(db, snapshot, now, i);
        assert IsCurrent(db, db.commands[i]);
      }
    }
  }

  lemma BindingKeepsCurrent(before: Db, after: Db)
    requires PendingAreCurrent(before) && after.commands == before.commands
    requires SameTargets(before, after)
    ensures PendingAreCurrent(after)
  {
    forall i | 0 <= i < |after.commands|
      ensures IsCurrent(after, after.commands[i])
    {
      assert IsCurrent(before, before.commands[i]);
    }
  }

  /** The rows await the results they awaited. */
  ghost predicate SameTargets(before: Db, after: Db) {
    forall node | node in before.policies ::
      && node in after.policies && after.policies[node].desired == before.policies[node].desired
      && after.policies[node].lastCommand == before.policies[node].lastCommand
  }

  ghost predicate SoundRows(db: Db) {
    forall node | node in db.policies :: SoundRow(db.policies[node])
  }

  lemma UpdatingRow(before: Db, after: Db, node: string, state: PolicyState)
    requires SoundRows(before) && after.policies == before.policies[node := state]
    requires SoundRow(state) && Advances(StateOf(before, node), state)
    ensures SoundRows(after) && RowsAdvance(before, after)
  {
  }

  lemma BindingChangesRow(db: Db, snapshot: Snapshot, id: string, now: int, lifetime: int)
    requires !AfterStage(db, snapshot, id, now, lifetime).1.Created?
    ensures SameTargets(db, AfterStage(db, snapshot, id, now, lifetime).0)
  {
    hide FindPolicy, Cleared, GivesWay, CallsForCommand, Collides;
  }

  lemma StagingChangesRow(db: Db, snapshot: Snapshot, id: string, now: int, lifetime: int)
    requires SoundRows(db)
    ensures var (next, staged) := AfterStage(db, snapshot, id, now, lifetime);
      && SoundRows(next) && RowsAdvance(db, next)
      && (!staged.Created? ==> next.commands == db.commands && SameTargets(db, next))
  {
    hide SoundRows, RowsAdvance, FindPolicy, Cleared, GivesWay, CallsForCommand, Collides, SameTargets;
    var (next, staged) := AfterStage(db, snapshot, id, now, lifetime);
    if !staged.Created? {
      BindingChangesRow(db, snapshot, id, now, lifetime);
    }
    if next.policies == db.policies {
      NothingAdvances(db, next);
    } else {
      var state := StateOf(db, snapshot.node);
      assert SoundRow(state) by {
        RowIsSound(db, snapshot.node);
      }
      UpdatingRow(db, next, snapshot.node, next.policies[snapshot.node]);
    }
  }

  lemma RowIsSound(db: Db, node: string)
    requires SoundRows(db)
    ensures SoundRow(StateOf(db, node))
  {
  }

  lemma NothingAdvances(before: Db, after: Db)
    requires SoundRows(before) && after.policies == before.policies
    ensures SoundRows(after) && RowsAdvance(before, after) && SameTargets(before, after)
  {
  }

  lemma StagingKeepsPolicies(db: Db, snapshot: Snapshot, id: string, now: int, lifetime: int)
    requires Policies(db)
    ensures var next := AfterStage(db, snapshot, id, now, lifetime).0; Policies(next) && RowsAdvance(db, next)
  {
    hide Table, PendingAreCurrent, Evolved, SoundRows, RowsAdvance, SameTargets, AfterStage;
    StagingEvolves(db, snapshot, id, now, lifetime);
    StagingChangesRow(db, snapshot, id, now, lifetime);
    if AfterStage(db, snapshot, id, now, lifetime).1.Created? {
      StagingKeepsCurrent(db, snapshot, id, now, lifetime);
    } else {
      BindingKeepsCurrent(db, AfterStage(db, snapshot, id, now, lifetime).0);
    }
  }

  // ---------------------------------------------------------------------------------------------
  // The other steps
  // ---------------------------------------------------------------------------------------------

  ghost predicate NoNewPolicy(before: Commands, after: Commands) {
    |before| <= |after| && forall i | |before| <= i < |after| :: !after[i].request.body.Policy?
  }

  lemma EvolvingKeepsCurrent(before: Db, after: Db)
    requires PendingAreCurrent(before) && Evolved(before.commands, after.commands)
    requires NoNewPolicy(before.commands, after.commands) && SameTargets(before, after)
    ensures PendingAreCurrent(after)
  {
    forall i | 0 <= i < |after.commands|
      ensures IsCurrent(after, after.commands[i])
    {
      if i < |before.commands| {
        assert IsCurrent(before, before.commands[i]);
        assert Successor(before.commands[i], after.commands[i]);
      }
    }
  }

  lemma StepAddsNoPolicy(system: System, act: Act)
    requires Permitted(act) && !act.StagePolicy?
    ensures NoNewPolicy(system.db.commands, Do(system, act).db.commands)
  {
    hide Collides, Answers, Selects, NextOf, CleanedInstance, Find, Refusal, AfterStage, AfterCreate, AfterComplete;
    if act.Create? {
      CreatingAddsNoPolicy(system.db, act.id, act.node, act.request, act.now);
    } else if act.Complete? {
      CompletingAddsNothing(system.db, act.node, act.credential, act.report, act.decrypted, act.now);
    }
  }

  lemma CreatingAddsNoPolicy(db: Db, id: string, node: string, request: Request, now: int)
    requires !request.body.Policy?
    ensures NoNewPolicy(db.commands, AfterCreate(db, id, node, request, now).0.commands)
  {
    hide Collides, Selects, Find;
  }

  lemma CompletingAddsNothing(db: Db, node: string, credential: string, report: Report, decrypted: Option<Request>, now: int)
    ensures |AfterComplete(db, node, credential, report, decrypted, now).0.commands| == |db.commands|
  {
    hide Refusal, Find;
  }

  lemma StepKeepsRows(system: System, act: Act)
    requires !act.StagePolicy? && !act.Complete? && !act.MarkUnsupported?
    ensures Do(system, act).db.policies == system.db.policies
  {
    hide Collides, Answers, Selects, NextOf, CleanedInstance, Find, Refusal, AfterStage, Swept, AfterComplete;
  }

  lemma CompletingChangesRow(db: Db, node: string, credential: string, report: Report, decrypted: Option<Request>, now: int)
    requires SoundRows(db)
    ensures var next := AfterComplete(db, node, credential, report, decrypted, now).0;
            SameTargets(db, next) && RowsAdvance(db, next) && SoundRows(next)
  {
    hide SoundRows, RowsAdvance, Refusal, Repeated, Find;
    var next := AfterComplete(db, node, credential, report, decrypted, now).0;
    if next.policies == db.policies {
      NothingAdvances(db, next);
    } else {
      RowIsSound(db, node);
      UpdatingRow(db, next, node, next.policies[node]);
    }
  }

  lemma MarkingChangesRow(db: Db, node: string)
    requires SoundRows(db)
    ensures var next := AfterMarkUnsupported(db, node).0;
            SameTargets(db, next) && RowsAdvance(db, next) && SoundRows(next) && next.commands == db.commands
  {
  }

  /** Whatever the step, rows stay sound and advance. */
  lemma StepAdvancesRows(system: System, act: Act)
    requires SoundRows(system.db)
    ensures SoundRows(Do(system, act).db) && RowsAdvance(system.db, Do(system, act).db)
    ensures !act.StagePolicy? ==> SameTargets(system.db, Do(system, act).db)
  {
    var db := system.db;
    hide SoundRows, RowsAdvance, SameTargets, AfterStage, AfterComplete;
    if act.StagePolicy? {
      StagingChangesRow(db, act.snapshot, act.id, act.now, act.lifetime);
    } else if act.Complete? {
      CompletingChangesRow(db, act.node, act.credential, act.report, act.decrypted, act.now);
    } else if act.MarkUnsupported? {
      MarkingChangesRow(db, act.node);
    } else {
      StepKeepsRows(system, act);
      NothingAdvances(db, Do(system, act).db);
    }
  }

  lemma StepKeepsPolicies(system: System, act: Act)
    requires Policies(system.db) && Permitted(act)
    ensures Policies(Do(system, act).db) && RowsAdvance(system.db, Do(system, act).db)
  {
    var db := system.db;
    hide Table, PendingAreCurrent, Evolved, NoNewPolicy, SoundRows, RowsAdvance, SameTargets, AfterStage;
    if act.StagePolicy? {
      StagingKeepsPolicies(db, act.snapshot, act.id, act.now, act.lifetime);
    } else {
      hide Do;
      StepEvolves(system, act);
      StepAddsNoPolicy(system, act);
      StepAdvancesRows(system, act);
      EvolvingKeepsCurrent(db, Do(system, act).db);
    }
  }

  lemma {:induction false} RunsKeepSoundRows(acts: seq<Act>)
    ensures SoundRows(DoAll(START, acts).db)
  {
    hide Do;
    if acts != [] {
      RunsKeepSoundRows(acts[..|acts| - 1]);
      StepAdvancesRows(DoAll(START, acts[..|acts| - 1]), acts[|acts| - 1]);
    }
  }

  lemma {:induction false} PermittedRunsKeepPolicies(acts: seq<Act>)
    requires PermittedRun(acts)
    ensures Policies(DoAll(START, acts).db)
  {
    hide Do;
    if acts != [] {
      PermittedRunsKeepPolicies(acts[..|acts| - 1]);
      StepKeepsPolicies(DoAll(START, acts[..|acts| - 1]), acts[|acts| - 1]);
    }
  }

  // ---------------------------------------------------------------------------------------------
  // Generations
  // ---------------------------------------------------------------------------------------------

  /** In every reachable state, no step moves a generation other than by one, and by one exactly when the digest of
      the snapshot changes. */
  lemma GenerationsFollowDigests(acts: seq<Act>, act: Act, node: string)
    ensures var before, after := StateOf(DoAll(START, acts).db, node), StateOf(Do(DoAll(START, acts), act).db, node);
      && (after.desired == before.desired + 1 <==> after.digest != before.digest)
      && (after.desired == before.desired <==> after.digest == before.digest)
  {
    RunsKeepSoundRows(acts);
    StepAdvancesRows(DoAll(START, acts), act);
    hide Do, DoAll, SoundRows;
  }

  /** Between two states of a run: generations do not fall, and equal generations are one snapshot. */
  predicate Later(before: PolicyState, after: PolicyState) {
    && before.desired <= after.desired && before.applied <= after.applied
    && (before.desired == after.desired ==> before.digest == after.digest)
  }

  lemma {:induction false} GenerationsNeverFall(before: seq<Act>, after: seq<Act>, node: string)
    ensures Later(StateOf(DoAll(START, before).db, node), StateOf(DoAll(START, before + after).db, node))
  {
    hide Do, SoundRows;
    if after == [] {
      assert before + after == before;
    } else {
      var front, last := after[..|after| - 1], after[|after| - 1];
      assert (before + after)[..|before + after| - 1] == before + front && (before + after)[|before + after| - 1] == last;
      GenerationsNeverFall(before, front, node);
      RunsKeepSoundRows(before + front);
      StepAdvancesRows(DoAll(START, before + front), last);
    }
  }

  /** In every reachable state every row is sound: applied generations do not exceed desired ones, a row that says
      applied has applied what is desired, and a row has a digest exactly when it has a generation. */
  lemma ReachableRowsAreSound(acts: seq<Act>, node: string)
    requires node in DoAll(START, acts).db.policies
    ensures var state := DoAll(START, acts).db.policies[node];
      && state.applied <= state.desired <= MAX_GENERATION
      && (state.status.PolicyApplied? ==> state.applied == state.desired)
      && (state.desired == 0 <==> state.digest.None?)
  {
    RunsKeepSoundRows(acts);
    hide DoAll;
  }

  /** In every reachable state at most one policy command of a node is pending, it is the last command of the node's
      row, and it carries the desired generation. */
  lemma PendingPolicyIsCurrent(acts: seq<Act>, node: string, i: nat, j: nat)
    requires PermittedRun(acts)
    requires i < |DoAll(START, acts).db.commands| && j < |DoAll(START, acts).db.commands|
    requires PendingPolicy(DoAll(START, acts).db.commands[i], node) && PendingPolicy(DoAll(START, acts).db.commands[j], node)
    ensures i == j
    ensures var db := DoAll(START, acts).db;
      && node in db.policies
      && db.policies[node].lastCommand == Some(db.commands[i].id)
      && db.policies[node].desired == db.commands[i].request.body.generation
  {
    PermittedRunsKeepPolicies(acts);
    var db := DoAll(START, acts).db;
    hide DoAll;
    assert IsCurrent(db, db.commands[i]);
    PendingPoliciesExclude(db.commands[i], db.commands[j], node);
    PendingPoliciesExclude(db.commands[j], db.commands[i], node);
  }

  /** A valid result of a pending policy command is taken, and updates exactly the row of its node. */
  lemma ValidResultsAreTaken(acts: seq<Act>, i: nat, credential: string, verdict: Verdict, completedAt: int, now: int)
    requires PermittedRun(acts) && i < |DoAll(START, acts).db.commands|
    requires var command := DoAll(START, acts).db.commands[i];
      && PendingPolicy(command, command.node) && Answers(command.request.body, verdict)
      && command.node in DoAll(START, acts).db.nodes
      && DoAll(START, acts).db.nodes[command.node].credential == Some(credential)
    ensures var db := DoAll(START, acts).db;
            var command := db.commands[i];
            var report := Report(command.id, command.request, verdict, completedAt);
            var (next, error) := AfterComplete(db, command.node, credential, report, None, now);
      && error == None
      && next.commands == db.commands[i := Completed(command, report)]
      && command.node in next.policies && next.policies == db.policies[command.node := next.policies[command.node]]
      && (if verdict.Success? then
            next.policies[command.node].status == PolicyApplied
            && next.policies[command.node].applied == command.request.body.generation == db.policies[command.node].desired
          else
            next.policies[command.node].status == PolicyFailed
            && next.policies[command.node].applied == db.policies[command.node].applied)
  {
    PermittedRunsKeepPolicies(acts);
    var db := DoAll(START, acts).db;
    hide DoAll;
    var command := db.commands[i];
    assert IsCurrent(db, command);
    assert Find(db.commands, command.id, command.node) == Some(i);
    hide Find, PendingAreCurrent, Table;
  }

  /** While a policy command that was sent is pending, staging creates nothing and leaves commands and generations. */
  lemma StagingWaitsForDelivered(db: Db, snapshot: Snapshot, id: string, now: int, lifetime: int, i: nat)
    requires Table(db.commands) && i < |db.commands|
    requires PendingPolicy(db.commands[i], snapshot.node) && db.commands[i].attempts > 0
    ensures var (next, staged) := AfterStage(db, snapshot, id, now, lifetime);
      && staged == Unchanged && next.commands == db.commands
      && next.policies.Keys == db.policies.Keys + (if next == db then {} else {snapshot.node})
      && StateOf(next, snapshot.node).(issuedFor := None) == StateOf(db, snapshot.node).(issuedFor := None)
  {
    var found := FindPolicy(db.commands, snapshot.node);
    PendingPoliciesExclude(db.commands[i], db.commands[found.value], snapshot.node);
    PendingPoliciesExclude(db.commands[found.value], db.commands[i], snapshot.node);
  }
}
