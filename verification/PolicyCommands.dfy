/** What a staged policy command contains, when staging issues one, and what a result of it leaves behind. */
module PolicyCommands {
  import opened Outcomes
  import opened CommandTable
  import opened ControlPlane
  import opened CommandDelivery
  import opened PolicyGenerations
  import opened PolicyReissue

  // ---------------------------------------------------------------------------------------------
  // What staging issues
  // ---------------------------------------------------------------------------------------------

  /** The last command is this snapshot, to be delivered from now on, and the row waits for it. */
  ghost predicate Issues(db: Db, snapshot: Snapshot, id: string, now: int, lifetime: int) {
    && |db.commands| > 0 && snapshot.node in db.policies
    && var command, state := db.commands[|db.commands| - 1], db.policies[snapshot.node];
    && command.id == id && command.node == snapshot.node
    && command.request.body.Policy? && command.request.body.authorizations == snapshot.authorizations
    && command.request.body.generation == state.desired
    && command.request.issuedAt == now && command.request.expiresAt == now + lifetime
    && command.createdAt == now && command.attempts == 0 && command.status == Pending && command.report == None
    && state.digest == Some(snapshot.digest) && state.lastCommand == Some(id) && state.issuedFor == snapshot.startedAt
    && state.status == PolicyPending && state.retryAfter == None
  }

  /** Staging that answers Created issues the snapshot as the last command, expires at most an unsent command of the
      node, and touches no other row. */
  lemma StagingIssuesTheSnapshot(db: Db, snapshot: Snapshot, id: string, now: int, lifetime: int)
    requires Table(db.commands) && AfterStage(db, snapshot, id, now, lifetime).1.Created?
    ensures var next := AfterStage(db, snapshot, id, now, lifetime).0;
            var before, after := StateOf(db, snapshot.node), StateOf(next, snapshot.node);
      && Issues(next, snapshot, id, now, lifetime)
      && |next.commands| == |db.commands| + 1
      && (forall i | 0 <= i < |db.commands| && next.commands[i] != db.commands[i] ::
            PendingPolicy(db.commands[i], snapshot.node) && db.commands[i].attempts == 0
            && next.commands[i] == db.commands[i].(status := Expired))
      && (forall node | node != snapshot.node :: StateOf(next, node) == StateOf(db, node))
      && after.applied == before.applied
      && after.desired == before.desired + if before.digest == Some(snapshot.digest) then 0 else 1
  {
    hide CallsForCommand, Collides;
    var next := AfterStage(db, snapshot, id, now, lifetime).0;
    forall i | 0 <= i < |db.commands| && next.commands[i] != db.commands[i]
      ensures PendingPolicy(db.commands[i], snapshot.node) && db.commands[i].attempts == 0
      ensures next.commands[i] == db.commands[i].(status := Expired)
    {
      var found := FindPolicy(db.commands, snapshot.node).value;
      assert db.commands[i].id == db.commands[found].id;
      assert i == found;
    }
  }

  // ---------------------------------------------------------------------------------------------
  // What a pending command carries
  // ---------------------------------------------------------------------------------------------

  /** One digest always comes with one list of authorizations. */
  ghost predicate OneContent(acts: seq<Act>, content: string -> seq<string>) {
    forall i | 0 <= i < |acts| && acts[i].StagePolicy? :: acts[i].snapshot.authorizations == content(acts[i].snapshot.digest)
  }

  /** A pending policy command carries what the digest of its row stands for. */
  predicate CarriesContent(db: Db, command: Command, content: string -> seq<string>) {
    command.status.Pending? && command.request.body.Policy? ==>
      var digest := StateOf(db, command.node).digest;
      digest.Some? && command.request.body.authorizations == content(digest.value)
  }

  ghost predicate AllCarryContent(db: Db, content: string -> seq<string>) {
    forall i | 0 <= i < |db.commands| :: CarriesContent(db, db.commands[i], content)
  }

  /** A row that still awaits the same result has the same digest. */
  lemma SameTargetIsSameDigest(before: Db, after: Db, node: string)
    requires RowsAdvance(before, after) && SameTargets(before, after) && node in before.policies
    ensures StateOf(after, node).digest == StateOf(before, node).digest
  {
    assert Advances(StateOf(before, node), StateOf(after, node));
  }

  lemma EvolvingCarriesContent(before: Db, after: Db, content: string -> seq<string>)
    requires AllCarryContent(before, content) && PendingAreCurrent(before)
    requires Evolved(before.commands, after.commands) && NoNewPolicy(before.commands, after.commands)
    requires RowsAdvance(before, after) && SameTargets(before, after)
    ensures AllCarryContent(after, content)
  {
    hide RowsAdvance, SameTargets;
    forall i | 0 <= i < |after.commands|
      ensures CarriesContent(after, after.commands[i], content)
    {
      if i < |before.commands| {
        assert Successor(before.commands[i], after.commands[i]);
        assert CarriesContent(before, before.commands[i], content) && IsCurrent(before, before.commands[i]);
        if before.commands[i].node in before.policies {
          SameTargetIsSameDigest(before, after, before.commands[i].node);
        }
      }
    }
  }

  lemma StagingCarriesContent(db: Db, snapshot: Snapshot, id: string, now: int, lifetime: int, content: string -> seq<string>)
    requires Policies(db) && AllCarryContent(db, content) && snapshot.authorizations == content(snapshot.digest)
    requires AfterStage(db, snapshot, id, now, lifetime).1.Created?
    ensures AllCarryContent(AfterStage(db, snapshot, id, now, lifetime).0, content)
  {
    hide PendingAreCurrent, SoundRows, Evolved;
    var next := AfterStage(db, snapshot, id, now, lifetime).0;
    StagingIssuesTheSnapshot(db, snapshot, id, now, lifetime);
    StagingEvolves(db, snapshot, id, now, lifetime);
    hide AfterStage;
    var last := |db.commands|;
    forall i | 0 <= i < |next.commands|
      ensures CarriesContent(next, next.commands[i], content)
    {
      if i < last {
        assert CarriesContent(db, db.commands[i], content);
        assert !Exclusive(next.commands[i], next.commands[last]);
      }
    }
  }

  lemma StepCarriesContent(system: System, act: Act, content: string -> seq<string>)
    requires Policies(system.db) && AllCarryContent(system.db, content) && Permitted(act)
    requires act.StagePolicy? ==> act.snapshot.authorizations == content(act.snapshot.digest)
    ensures AllCarryContent(Do(system, act).db, content)
  {
    var db := system.db;
    hide Table, PendingAreCurrent, Evolved, NoNewPolicy, SoundRows, RowsAdvance, SameTargets, AfterStage, AllCarryContent;
    if act.StagePolicy? && AfterStage(db, act.snapshot, act.id, act.now, act.lifetime).1.Created? {
      StagingCarriesContent(db, act.snapshot, act.id, act.now, act.lifetime, content);
    } else if act.StagePolicy? {
      StagingChangesRow(db, act.snapshot, act.id, act.now, act.lifetime);
      StagingEvolves(db, act.snapshot, act.id, act.now, act.lifetime);
      NothingIsNew(db.commands);
      EvolvingCarriesContent(db, Do(system, act).db, content);
    } else {
      hide Do;
      StepEvolves(system, act);
      StepAddsNoPolicy(system, act);
      StepAdvancesRows(system, act);
      EvolvingCarriesContent(db, Do(system, act).db, content);
    }
  }

  lemma NothingIsNew(commands: Commands)
    ensures NoNewPolicy(commands, commands)
  {
  }

  lemma {:induction false} RunsCarryContent(acts: seq<Act>, content: string -> seq<string>)
    requires PermittedRun(acts) && OneContent(acts, content)
    ensures AllCarryContent(DoAll(START, acts).db, content)
  {
    hide Do, Policies;
    if acts != [] {
      RunsCarryContent(acts[..|acts| - 1], content);
      PermittedRunsKeepPolicies(acts[..|acts| - 1]);
      StepCarriesContent(DoAll(START, acts[..|acts| - 1]), acts[|acts| - 1], content);
    }
  }

  /** In every reachable state a pending policy command carries the authorizations of the digest its row desires. */
  lemma PendingPolicyCarriesItsDigest(acts: seq<Act>, content: string -> seq<string>, node: string, i: nat)
    requires PermittedRun(acts) && OneContent(acts, content)
    requires i < |DoAll(START, acts).db.commands| && PendingPolicy(DoAll(START, acts).db.commands[i], node)
    ensures var db := DoAll(START, acts).db;
      && node in db.policies && db.policies[node].digest.Some?
      && db.commands[i].request.body.authorizations == content(db.policies[node].digest.value)
      && db.commands[i].request.body.generation == db.policies[node].desired
  {
    RunsCarryContent(acts, content);
    PendingPolicyIsCurrent(acts, node, i, i);
    var db := DoAll(START, acts).db;
    hide DoAll;
    assert CarriesContent(db, db.commands[i], content);
  }

  // ---------------------------------------------------------------------------------------------
  // When staging issues, with no command pending
  // ---------------------------------------------------------------------------------------------

  ghost predicate NonePending(commands: Commands, node: string) {
    forall i | 0 <= i < |commands| :: !PendingPolicy(commands[i], node)
  }

  predicate NewSession(state: PolicyState, snapshot: Snapshot) {
    snapshot.startedAt.Some? && state.issuedFor != snapshot.startedAt
  }

  /** What calls for a command when none is pending: another snapshot, a node that did not support policies, a new
      session unless the failure was final, and a retry that is due. */
  predicate Needed(state: PolicyState, snapshot: Snapshot, now: int) {
    || state.digest != Some(snapshot.digest)
    || match state.status
       case Unsupported => true
       case PolicyFailed => state.retryAfter.Some? && (state.retryAfter.value <= now || NewSession(state, snapshot))
       case _ => NewSession(state, snapshot)
  }

  /** With no policy command pending, staging issues one exactly when it is needed and can be issued; when it is not
      needed nothing changes at all. */
  lemma IssuedExactlyWhenNeeded(db: Db, snapshot: Snapshot, id: string, now: int, lifetime: int)
    requires Table(db.commands) && NonePending(db.commands, snapshot.node)
    ensures var (next, staged) := AfterStage(db, snapshot, id, now, lifetime);
            var needed := Needed(StateOf(db, snapshot.node), snapshot, now);
      && (staged.Created? <==> needed && CanIssue(db, snapshot, id))
      && (!needed ==> staged == Unchanged && next == db)
      && (needed && !CanIssue(db, snapshot, id) ==> staged.Rejected? && next == db)
  {
    assert FindPolicy(db.commands, snapshot.node) == None;
    assert GivesWay(db, snapshot, now);
    ClashesOnIdOnly(db, snapshot, id, now, lifetime);
    hide Table, Collides, KnownId, FindPolicy;
  }

  // ---------------------------------------------------------------------------------------------
  // Results
  // ---------------------------------------------------------------------------------------------

  /** A result that is taken settles its command and the row of its node, and nothing else. A failure leaves what was
      desired and applied, and a time for another attempt exactly if it can be retried. */
  lemma TakenResultSettlesRow(db: Db, i: nat, node: string, credential: string, report: Report, decrypted: Option<Request>,
                              now: int)
    requires Table(db.commands) && Holds(db.commands, i, report.commandId, node) && PendingPolicy(db.commands[i], node)
    requires AfterComplete(db, node, credential, report, decrypted, now).1.None?
    ensures var next := AfterComplete(db, node, credential, report, decrypted, now).0;
      && node in db.policies && next.policies.Keys == db.policies.Keys
      && (forall other | other != node :: StateOf(next, other) == StateOf(db, other))
      && (var before, after := db.policies[node], next.policies[node];
          && after.desired == before.desired && after.digest == before.digest
          && after.lastCommand == before.lastCommand == Some(report.commandId) && after.issuedFor == before.issuedFor
          && match report.verdict
             case Success(_) => after.status == PolicyApplied && after.applied == before.desired && after.retryAfter == None
             case Failure(retryable, _) =>
               && after.status == PolicyFailed && after.applied == before.applied
               && after.retryAfter == if retryable then Some(now + 30) else None)
      && |next.commands| == |db.commands|
      && (forall j | 0 <= j < |db.commands| && j != i :: next.commands[j] == db.commands[j])
      && next.commands[i].status == (if report.verdict.Success? then Succeeded else Failed)
      && next.commands[i].report == Some(report)
  {
    FindsTheOne(db.commands, i, report.commandId, node);
    hide Find, Table, Answers;
  }

  /** Once its last command was answered no policy command of a node is pending. */
  lemma AnsweredIsNotPending(db: Db, node: string)
    requires Policies(db) && RowsTell(db) && node in db.policies
    requires db.policies[node].status.PolicyFailed? || db.policies[node].status.PolicyApplied?
    ensures NonePending(db.commands, node)
  {
    var state := db.policies[node];
    assert RowTells(db.commands, node, state);
    var last: nat :| Holds(db.commands, last, state.lastCommand.value, node) && Tells(state, db.commands[last]);
    forall i | 0 <= i < |db.commands|
      ensures !PendingPolicy(db.commands[i], node)
    {
      assert IsCurrent(db, db.commands[i]);
      assert i != last ==> db.commands[i].id != db.commands[last].id;
    }
  }

  /** Staging that asks for what the row has already, for the same session or for none. */
  predicate SameAgain(state: PolicyState, snapshot: Snapshot) {
    state.digest == Some(snapshot.digest) && !NewSession(state, snapshot)
  }

  lemma RunsKeepBoth(acts: seq<Act>)
    requires PermittedRun(acts)
    ensures Policies(DoAll(START, acts).db) && RowsTell(DoAll(START, acts).db)
  {
    PermittedRunsKeepPolicies(acts);
    RunsKeepTelling(acts);
  }

  /** After a failure that can be retried was taken, staging the same snapshot for the same session issues a command
      exactly from thirty seconds later on, if one can be issued. */
  lemma RetryableFailureIsRetriedAfterDelay(acts: seq<Act>, i: nat, credential: string, report: Report, now: int,
                                            snapshot: Snapshot, id: string, later: int, lifetime: int)
    requires PermittedRun(acts) && Holds(DoAll(START, acts).db.commands, i, report.commandId, snapshot.node)
    requires PendingPolicy(DoAll(START, acts).db.commands[i], snapshot.node)
    requires AfterComplete(DoAll(START, acts).db, snapshot.node, credential, report, None, now).1.None?
    requires report.verdict.Failure? && report.verdict.retryable
    requires SameAgain(StateOf(DoAll(START, acts).db, snapshot.node), snapshot)
    ensures var next := AfterComplete(DoAll(START, acts).db, snapshot.node, credential, report, None, now).0;
            CanIssue(next, snapshot, id) ==>
              (AfterStage(next, snapshot, id, later, lifetime).1.Created? <==> later >= now + 30)
  {
    var db := DoAll(START, acts).db;
    RunsKeepBoth(acts);
    hide DoAll;
    var next := AfterComplete(db, snapshot.node, credential, report, None, now).0;
    TakenResultSettlesRow(db, i, snapshot.node, credential, report, None, now);
    FailedIsNotPending(db, i, snapshot.node, credential, report, now);
    hide AfterComplete, Policies, RowsTell, AfterStage, CanIssue, NonePending, Table;
    IssuedExactlyWhenNeeded(next, snapshot, id, later, lifetime);
  }

  lemma FailedIsNotPending(db: Db, i: nat, node: string, credential: string, report: Report, now: int)
    requires Policies(db) && RowsTell(db) && Holds(db.commands, i, report.commandId, node) && PendingPolicy(db.commands[i], node)
    requires AfterComplete(db, node, credential, report, None, now).1.None?
    ensures var next := AfterComplete(db, node, credential, report, None, now).0;
            NonePending(next.commands, node) && Table(next.commands)
  {
    var next := AfterComplete(db, node, credential, report, None, now).0;
    var act := Complete(node, credential, report, None, now);
    var system := System(db, map[], map[]);
    assert Do(system, act).db == next;
    TakenResultSettlesRow(db, i, node, credential, report, None, now);
    hide AfterComplete, Do;
    StepKeepsPolicies(system, act);
    StepKeepsTelling(system, act);
    AnsweredIsNotPending(next, node);
  }

  /** A node that does not support policies keeps what is desired and applied, and has nothing to retry. */
  lemma UnsupportedKeepsGenerations(db: Db, node: string)
    ensures var (next, error) := AfterMarkUnsupported(db, node);
      && (error == None <==> node in db.nodes) && (error != None ==> next == db) && next == db.(policies := next.policies)
      && (forall other | other != node :: StateOf(next, other) == StateOf(db, other))
      && (error == None ==>
            var before, after := StateOf(db, node), StateOf(next, node);
            && after.status == Unsupported && after.retryAfter == None
            && after.desired == before.desired && after.digest == before.digest && after.applied == before.applied
            && after.lastCommand == before.lastCommand && after.issuedFor == before.issuedFor)
  {
  }

  // ---------------------------------------------------------------------------------------------
  // Final failures
  // ---------------------------------------------------------------------------------------------

  predicate FailedForGood(state: PolicyState) {
    state.status.PolicyFailed? && state.retryAfter.None?
  }

  /** Anything but staging another snapshot of the node, or learning that it does not support policies. */
  predicate KeepsDigest(act: Act, node: string, digest: Option<string>) {
    && Permitted(act)
    && (act.StagePolicy? && act.snapshot.node == node ==> Some(act.snapshot.digest) == digest)
    && !(act.MarkUnsupported? && act.node == node)
  }

  lemma FinalFailureStagesNothing(db: Db, snapshot: Snapshot, id: string, now: int, lifetime: int)
    requires Policies(db) && RowsTell(db) && FailedForGood(StateOf(db, snapshot.node))
    requires StateOf(db, snapshot.node).digest == Some(snapshot.digest)
    ensures AfterStage(db, snapshot, id, now, lifetime) == (db, Unchanged)
  {
    AnsweredIsNotPending(db, snapshot.node);
    hide NonePending, RowsTell;
    IssuedExactlyWhenNeeded(db, snapshot, id, now, lifetime);
  }

  lemma StagingElsewhereKeepsRow(db: Db, snapshot: Snapshot, id: string, now: int, lifetime: int, node: string)
    requires snapshot.node != node
    ensures StateOf(AfterStage(db, snapshot, id, now, lifetime).0, node) == StateOf(db, node)
  {
    hide GivesWay, CallsForCommand, Collides, Cleared, FindPolicy;
  }

  /** A row changes by a result only if its last command was pending. */
  lemma AnsweredRowStays(db: Db, other: string, credential: string, report: Report, decrypted: Option<Request>, now: int,
                         node: string)
    requires Policies(db) && RowsTell(db) && FailedForGood(StateOf(db, node))
    ensures StateOf(AfterComplete(db, other, credential, report, decrypted, now).0, node) == StateOf(db, node)
  {
    AnsweredIsNotPending(db, node);
    var found := Find(db.commands, report.commandId, other);
    if found.Some? {
      assert !PendingPolicy(db.commands[found.value], node);
    }
    hide Find, NonePending, Policies, RowsTell, Answers;
  }

  lemma FinalFailureStep(system: System, act: Act, node: string)
    requires Policies(system.db) && RowsTell(system.db) && FailedForGood(StateOf(system.db, node))
    requires KeepsDigest(act, node, StateOf(system.db, node).digest)
    ensures StateOf(Do(system, act).db, node) == StateOf(system.db, node)
  {
    var db := system.db;
    hide Policies, RowsTell, AfterStage, AfterComplete;
    if act.StagePolicy? {
      if act.snapshot.node == node {
        FinalFailureStagesNothing(db, act.snapshot, act.id, act.now, act.lifetime);
      } else {
        StagingElsewhereKeepsRow(db, act.snapshot, act.id, act.now, act.lifetime, node);
      }
    } else if act.Complete? {
      AnsweredRowStays(db, act.node, act.credential, act.report, act.decrypted, act.now, node);
    } else if !act.MarkUnsupported? {
      StepKeepsRows(system, act);
      hide Do;
    }
  }

  /** A failure that cannot be retried is final: over any run that stages no other snapshot of the node its row stays
      as it is, and staging the snapshot again, for whatever session, changes nothing. */
  lemma {:induction false} FinalFailureIsForEver(before: seq<Act>, after: seq<Act>, snapshot: Snapshot, id: string, now: int,
                                                 lifetime: int)
    requires PermittedRun(before) && FailedForGood(StateOf(DoAll(START, before).db, snapshot.node))
    requires StateOf(DoAll(START, before).db, snapshot.node).digest == Some(snapshot.digest)
    requires forall i | 0 <= i < |after| :: KeepsDigest(after[i], snapshot.node, Some(snapshot.digest))
    ensures var db := DoAll(START, before + after).db;
      && StateOf(db, snapshot.node) == StateOf(DoAll(START, before).db, snapshot.node)
      && AfterStage(db, snapshot, id, now, lifetime) == (db, Unchanged)
  {
    assert forall i | |before| <= i < |before + after| :: (before + after)[i] == after[i - |before|];
    RunsKeepBoth(before + after);
    if after == [] {
      assert before + after == before;
    } else {
      var front, last := after[..|after| - 1], after[|after| - 1];
      assert (before + after)[..|before + after| - 1] == before + front && (before + after)[|before + after| - 1] == last;
      FinalFailureIsForEver(before, front, snapshot, id, now, lifetime);
      RunsKeepBoth(before + front);
      hide Do, AfterStage, Policies, RowsTell;
      FinalFailureStep(DoAll(START, before + front), last, snapshot.node);
    }
    FinalFailureStagesNothing(DoAll(START, before + after).db, snapshot, id, now, lifetime);
  }

  /** A final failure is such a row. */
  lemma FinalFailureIsRecorded(db: Db, i: nat, node: string, credential: string, report: Report, decrypted: Option<Request>,
                               now: int)
    requires Table(db.commands) && Holds(db.commands, i, report.commandId, node) && PendingPolicy(db.commands[i], node)
    requires AfterComplete(db, node, credential, report, decrypted, now).1.None? && report.verdict.Failure?
    ensures FailedForGood(StateOf(AfterComplete(db, node, credential, report, decrypted, now).0, node))
       <==> !report.verdict.retryable
  {
    TakenResultSettlesRow(db, i, node, credential, report, decrypted, now);
    hide AfterComplete;
  }
}
