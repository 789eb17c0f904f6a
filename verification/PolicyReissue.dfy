/** When a policy is issued again: what a row says of its last command, and what staging does once that command was
    not sent in time. */
module PolicyReissue {
  import opened Outcomes
  import opened CommandTable
  import opened ControlPlane
  import opened CommandDelivery
  import opened PolicyGenerations

  // ---------------------------------------------------------------------------------------------
  // Rows and their last commands
  // ---------------------------------------------------------------------------------------------

  /** A row that waits has a last command that is pending or expired; one that was answered, an answered one. */
  predicate Tells(state: PolicyState, command: Command) {
    && command.request.body.Policy? && !state.status.NotConfigured?
    && (state.status.PolicyPending? ==> command.status.Pending? || command.status.Expired?)
    && (state.status.PolicyApplied? ==> command.status.Succeeded?)
    && (state.status.PolicyFailed? ==> command.status.Failed?)
  }

  ghost predicate RowTells(commands: Commands, node: string, state: PolicyState) {
    if state.lastCommand.None? then state.status.NotConfigured? || state.status.Unsupported?
    else exists i: nat :: Holds(commands, i, state.lastCommand.value, node) && Tells(state, commands[i])
  }

  ghost predicate RowsTell(db: Db) {
    forall node | node in db.policies :: RowTells(db.commands, node, db.policies[node])
  }

  /** Nothing was answered meanwhile, and the row says what it said, or that policies are not supported. */
  lemma ExpiringKeepsTelling(before: Commands, after: Commands, node: string, state: PolicyState, next: PolicyState)
    requires Evolved(before, after) && StatusesOnlyExpire(before, after) && RowTells(before, node, state)
    requires next.lastCommand == state.lastCommand && (next.status == state.status || next.status.Unsupported?)
    ensures RowTells(after, node, next)
  {
    if state.lastCommand.Some? {
      var i: nat :| Holds(before, i, state.lastCommand.value, node) && Tells(state, before[i]);
      assert Successor(before[i], after[i]);
      assert Holds(after, i, state.lastCommand.value, node) && Tells(next, after[i]);
    }
  }

  lemma StagingKeepsTelling(db: Db, snapshot: Snapshot, id: string, now: int, lifetime: int)
    requires Table(db.commands) && RowsTell(db)
    ensures RowsTell(AfterStage(db, snapshot, id, now, lifetime).0)
  {
    var (next, staged) := AfterStage(db, snapshot, id, now, lifetime);
    StagingEvolves(db, snapshot, id, now, lifetime);
    StagingOnlyExpiresStatuses(db, snapshot, id, now, lifetime);
    hide Table, Evolved, StatusesOnlyExpire, Swept, Cleared, GivesWay, CallsForCommand, Collides, FindPolicy;
    forall node | node in next.policies
      ensures RowTells(next.commands, node, next.policies[node])
    {
      if node == snapshot.node && staged.Created? {
        var last := |next.commands| - 1;
        assert Holds(next.commands, last, id, node) && Tells(next.policies[node], next.commands[last]);
      } else if node in db.policies {
        ExpiringKeepsTelling(db.commands, next.commands, node, db.policies[node], next.policies[node]);
      }
    }
  }

  /** A result and its row are settled together. */
  lemma CompletingKeepsTelling(db: Db, node: string, credential: string, report: Report, decrypted: Option<Request>, now: int)
    requires Table(db.commands) && RowsTell(db)
    ensures RowsTell(AfterComplete(db, node, credential, report, decrypted, now).0)
  {
    var next := AfterComplete(db, node, credential, report, decrypted, now).0;
    var found := Find(db.commands, report.commandId, node);
    if next != db {
      var index := found.value;
      hide Find, Answers, RowTells;
      forall other | other in next.policies
        ensures RowTells(next.commands, other, next.policies[other])
      {
        AnsweringKeepsTelling(db, next, index, report, other);
      }
    }
  }

  lemma AnsweringKeepsTelling(db: Db, next: Db, index: nat, report: Report, other: string)
    requires Table(db.commands) && index < |db.commands| && db.commands[index].status.Pending?
    requires next.commands == db.commands[index := Completed(db.commands[index], report)]
    requires other in db.policies && RowTells(db.commands, other, db.policies[other]) && other in next.policies
    requires var command := db.commands[index];
      if command.request.body.Policy? then
        && AwaitsPolicyResult(db, command.node, command.request.body.generation, command.id)
        && exists now: int :: next.policies
             == db.policies[command.node := AfterPolicyResult(db.policies[command.node], report.verdict, now)]
      else next.policies == db.policies
    ensures RowTells(next.commands, other, next.policies[other])
  {
    var command, state := db.commands[index], db.policies[other];
    if command.request.body.Policy? && command.node == other {
      assert Holds(next.commands, index, command.id, other) && Tells(next.policies[other], next.commands[index]);
    } else if state.lastCommand.Some? {
      var i: nat :| Holds(db.commands, i, state.lastCommand.value, other) && Tells(state, db.commands[i]);
      assert i != index;
      assert Holds(next.commands, i, state.lastCommand.value, other) && Tells(next.policies[other], next.commands[i]);
    }
  }

  lemma StepKeepsTelling(system: System, act: Act)
    requires Table(system.db.commands) && RowsTell(system.db)
    ensures RowsTell(Do(system, act).db)
  {
    var db, next := system.db, Do(system, act).db;
    hide Table, RowTells, AfterStage, AfterComplete;
    if act.StagePolicy? {
      StagingKeepsTelling(db, act.snapshot, act.id, act.now, act.lifetime);
    } else if act.Complete? {
      CompletingKeepsTelling(db, act.node, act.credential, act.report, act.decrypted, act.now);
    } else {
      StepEvolves(system, act);
      StepOnlyExpiresStatuses(system, act);
      if act.MarkUnsupported? {
        NewRowTells(db.commands, act.node);
      } else {
        StepKeepsRows(system, act);
        hide Do;
      }
      hide Evolved, StatusesOnlyExpire;
      forall node | node in next.policies && node in db.policies
        ensures RowTells(next.commands, node, next.policies[node])
      {
        ExpiringKeepsTelling(db.commands, next.commands, node, db.policies[node], next.policies[node]);
      }
    }
  }

  lemma NewRowTells(commands: Commands, node: string)
    ensures RowTells(commands, node, NO_POLICY.(status := Unsupported, retryAfter := None))
  {
  }

  /** In every reachable state every row tells the truth about its last command. */
  lemma {:induction false} RunsKeepTelling(acts: seq<Act>)
    ensures RowsTell(DoAll(START, acts).db)
  {
    hide Do;
    if acts != [] {
      RunsKeepTelling(acts[..|acts| - 1]);
      RunEvolves(START, acts[..|acts| - 1]);
      StepKeepsTelling(DoAll(START, acts[..|acts| - 1]), acts[|acts| - 1]);
    }
  }

  // ---------------------------------------------------------------------------------------------
  // Staging after a command that was not sent
  // ---------------------------------------------------------------------------------------------

  /** The last command of the node's row was never sent, and has expired or is due. */
  ghost predicate LastIsUnsent(db: Db, node: string, i: nat, now: int) {
    && node in db.policies && i < |db.commands| && db.policies[node].lastCommand == Some(db.commands[i].id)
    && db.commands[i].node == node && db.commands[i].attempts == 0
    && (db.commands[i].status.Expired? || (db.commands[i].status.Pending? && db.commands[i].request.expiresAt <= now))
  }

  predicate KnownId(commands: Commands, id: string) {
    exists j :: 0 <= j < |commands| && commands[j].id == id
  }

  /** The last command of a row is the one it tells the truth about. */
  lemma LastCommandTells(db: Db, node: string, i: nat, now: int)
    requires Table(db.commands) && RowsTell(db) && LastIsUnsent(db, node, i, now)
    ensures db.policies[node].status.PolicyPending? || db.policies[node].status.Unsupported?
    ensures db.commands[i].request.body.Policy?
  {
    var state := db.policies[node];
    assert RowTells(db.commands, node, state);
    var j: nat :| Holds(db.commands, j, state.lastCommand.value, node) && Tells(state, db.commands[j]);
    assert j == i;
  }

  /** The pending policy command of the node, if there is one, is the last command. */
  lemma OnlyLastIsPending(db: Db, node: string, i: nat, now: int)
    requires Policies(db) && RowsTell(db) && LastIsUnsent(db, node, i, now)
    ensures FindPolicy(db.commands, node) == if db.commands[i].status.Pending? then Some(i) else None
  {
    LastCommandTells(db, node, i, now);
    var found := FindPolicy(db.commands, node);
    if found.Some? {
      assert IsCurrent(db, db.commands[found.value]);
      assert found.value == i;
    }
  }

  /** With no pending policy command left, an insertion can only clash on the ID. */
  lemma ClashesOnIdOnly(db: Db, snapshot: Snapshot, id: string, now: int, lifetime: int)
    requires Table(db.commands) && GivesWay(db, snapshot, now)
    ensures Collides(Cleared(db, snapshot.node, now), PolicyCommand(db, snapshot, id, now, lifetime)) <==> KnownId(db.commands, id)
  {
    var cleared := Cleared(db, snapshot.node, now);
    var command := PolicyCommand(db, snapshot, id, now, lifetime);
    forall j | 0 <= j < |db.commands|
      ensures |cleared| == |db.commands| && cleared[j].id == db.commands[j].id && !Exclusive(cleared[j], command)
    {
      ClearedHasNoPending(db, snapshot, now, j);
    }
    hide Swept, Cleared, Table, GivesWay, FindPolicy, Exclusive;
    if KnownId(db.commands, id) {
      var j :| 0 <= j < |db.commands| && db.commands[j].id == id;
      assert cleared[j].id == command.id;
    }
    assert |cleared| == |db.commands| by {
      ClearedIsAsLong(db, snapshot.node, now);
    }
  }

  lemma ClearedIsAsLong(db: Db, node: string, now: int)
    ensures |Cleared(db, node, now)| == |db.commands|
  {
  }

  /** What calls for a new command: another snapshot; a row that says unsupported; a new session, but only once the
      old command has been marked expired. While it is still pending a new session is merely noted. */
  predicate Reissues(db: Db, snapshot: Snapshot, expired: bool) {
    || PayloadChanged(db, snapshot)
    || (expired && SessionChanged(db, snapshot))
    || (StateOf(db, snapshot.node).status.Unsupported? && (expired || !SessionChanged(db, snapshot)))
  }

  predicate CanIssue(db: Db, snapshot: Snapshot, id: string) {
    NextGeneration(db, snapshot) <= MAX_GENERATION && Credentialed(db, snapshot.node) && !KnownId(db.commands, id)
  }

  lemma UnsentCalls(db: Db, snapshot: Snapshot, now: int, i: nat)
    requires Policies(db) && RowsTell(db) && LastIsUnsent(db, snapshot.node, i, now)
    ensures var expired := db.commands[i].status.Expired?;
            var noted := FindPolicy(db.commands, snapshot.node).Some? && !PayloadChanged(db, snapshot) && SessionChanged(db, snapshot);
            Reissues(db, snapshot, expired) <==> (GivesWay(db, snapshot, now) && CallsForCommand(db, snapshot, now) && !noted)
  {
    LastCommandTells(db, snapshot.node, i, now);
    OnlyLastIsPending(db, snapshot.node, i, now);
    hide Policies, RowsTell, FindPolicy;
  }

  /** What staging does with such a command: `reissues` says whether the snapshot calls for a new one. */
  ghost predicate StagedAs(db: Db, snapshot: Snapshot, id: string, now: int, lifetime: int, reissues: bool) {
    var (next, staged) := AfterStage(db, snapshot, id, now, lifetime);
    && (staged.Created? <==> reissues && CanIssue(db, snapshot, id))
    && (!reissues ==>
          staged == Unchanged && next.commands == db.commands && snapshot.node in db.policies
          && (next == db || next.policies == db.policies[snapshot.node :=
                db.policies[snapshot.node].(issuedFor := snapshot.startedAt)]))
  }

  lemma StagingUnsent(db: Db, snapshot: Snapshot, id: string, now: int, lifetime: int, i: nat)
    requires Policies(db) && RowsTell(db) && LastIsUnsent(db, snapshot.node, i, now)
    ensures StagedAs(db, snapshot, id, now, lifetime, Reissues(db, snapshot, db.commands[i].status.Expired?))
  {
    UnsentCalls(db, snapshot, now, i);
    PoliciesHaveTable(db);
    hide Policies, RowsTell, FindPolicy, Reissues, CallsForCommand, Cleared;
    if GivesWay(db, snapshot, now) {
      ClashesOnIdOnly(db, snapshot, id, now, lifetime);
    }
    hide GivesWay, Collides, KnownId;
  }

  /** In every reachable state, after a policy command that was not sent and is due or expired: staging creates a
      command exactly when the snapshot calls for one and one can be issued. When it does not call for one, the
      commands stay, and at most the session is noted. */
  lemma UnsentIsReissuedExactlyWhen(acts: seq<Act>, snapshot: Snapshot, id: string, now: int, lifetime: int, i: nat)
    requires PermittedRun(acts) && LastIsUnsent(DoAll(START, acts).db, snapshot.node, i, now)
    ensures var db := DoAll(START, acts).db;
            StagedAs(db, snapshot, id, now, lifetime, Reissues(db, snapshot, db.commands[i].status.Expired?))
  {
    PermittedRunsKeepPolicies(acts);
    RunsKeepTelling(acts);
    hide DoAll, StagedAs, Policies, RowsTell, LastIsUnsent;
    StagingUnsent(DoAll(START, acts).db, snapshot, id, now, lifetime, i);
  }

  lemma PoliciesHaveTable(db: Db)
    requires Policies(db)
    ensures Table(db.commands)
  {
  }

  /** Whether a new session gets a command depends on whether an expiry ran before staging did: with only the session
      changed, a due command that is still pending is left alone, and the same command marked expired is replaced. */
  lemma ExpiryDecides(acts: seq<Act>, snapshot: Snapshot, id: string, now: int, lifetime: int, i: nat)
    requires PermittedRun(acts) && LastIsUnsent(DoAll(START, acts).db, snapshot.node, i, now)
    requires DoAll(START, acts).db.commands[i].status.Pending?
    requires !PayloadChanged(DoAll(START, acts).db, snapshot) && SessionChanged(DoAll(START, acts).db, snapshot)
    requires CanIssue(DoAll(START, acts).db, snapshot, id)
    ensures AfterStage(DoAll(START, acts).db, snapshot, id, now, lifetime).1 == Unchanged
    ensures AfterStage(DoAll(START, acts + [List(snapshot.node, now)]).db, snapshot, id, now, lifetime).1 == Created
  {
    PermittedRunsKeepPolicies(acts);
    RunsKeepTelling(acts);
    OneMore(START, acts, List(snapshot.node, now));
    hide DoAll;
    ExpiryDecidesHere(DoAll(START, acts), snapshot, id, now, lifetime, i);
  }

  lemma ExpiryDecidesHere(system: System, snapshot: Snapshot, id: string, now: int, lifetime: int, i: nat)
    requires Policies(system.db) && RowsTell(system.db) && LastIsUnsent(system.db, snapshot.node, i, now)
    requires system.db.commands[i].status.Pending? && CanIssue(system.db, snapshot, id)
    requires !PayloadChanged(system.db, snapshot) && SessionChanged(system.db, snapshot)
    ensures AfterStage(system.db, snapshot, id, now, lifetime).1 == Unchanged
    ensures AfterStage(Do(system, List(snapshot.node, now)).db, snapshot, id, now, lifetime).1 == Created
  {
    var listing := List(snapshot.node, now);
    var after := Do(system, listing).db;
    ListingExpires(system.db, snapshot, id, now, i);
    PoliciesHaveTable(system.db);
    assert after == SweptDb(system.db, DueOf(snapshot.node), now);
    hide Do, SweptDb, Policies, RowsTell, LastIsUnsent, CanIssue, PayloadChanged, SessionChanged, AfterStage, Table;
    StepKeepsPolicies(system, listing);
    StepKeepsTelling(system, listing);
    StagingUnsent(system.db, snapshot, id, now, lifetime, i);
    StagingUnsent(after, snapshot, id, now, lifetime, i);
  }

  lemma ListingExpires(db: Db, snapshot: Snapshot, id: string, now: int, i: nat)
    requires LastIsUnsent(db, snapshot.node, i, now) && db.commands[i].status.Pending?
    ensures var after := SweptDb(db, DueOf(snapshot.node), now);
      && LastIsUnsent(after, snapshot.node, i, now) && after.commands[i].status.Expired?
      && (PayloadChanged(after, snapshot) <==> PayloadChanged(db, snapshot))
      && (SessionChanged(after, snapshot) <==> SessionChanged(db, snapshot))
      && (CanIssue(after, snapshot, id) <==> CanIssue(db, snapshot, id))
  {
    SweptKeepsIds(db.commands, DueOf(snapshot.node), now, id);
    hide KnownId;
  }

  lemma SweptKeepsIds(commands: Commands, sweep: Sweep, now: int, id: string)
    ensures KnownId(Swept(commands, sweep, now), id) <==> KnownId(commands, id)
  {
    hide Selects;
    var swept := Swept(commands, sweep, now);
    assert forall j | 0 <= j < |commands| :: swept[j].id == commands[j].id;
  }

  lemma OneMore(system: System, acts: seq<Act>, act: Act)
    ensures DoAll(system, acts + [act]) == Do(DoAll(system, acts), act)
  {
    assert (acts + [act])[..|acts + [act]| - 1] == acts;
  }

  // ---------------------------------------------------------------------------------------------
  // Staging the same snapshot for ever
  // ---------------------------------------------------------------------------------------------

  /** The coordinator stages this snapshot for this session again, at any time, or commands are listed, dispatched,
      marked as sent or expired. */
  predicate StagesOrDelivers(act: Act, snapshot: Snapshot) {
    match act
    case StagePolicy(other, _, _, _) =>
      other.node == snapshot.node && other.digest == snapshot.digest && other.startedAt == snapshot.startedAt
    case Select(_, _, _) => true
    case MarkSent(_) => true
    case Leave(_) => true
    case List(_, _) => true
    case ListKind(_, _, _) => true
    case ExpireReconciles(_) => true
    case _ => false
  }

  /** The row waits, for this snapshot and this session. */
  predicate WaitsFor(db: Db, snapshot: Snapshot) {
    StateOf(db, snapshot.node).status.PolicyPending? && !PayloadChanged(db, snapshot) && !SessionChanged(db, snapshot)
  }

  lemma WaitingStagesNothing(db: Db, snapshot: Snapshot, other: Snapshot, id: string, now: int, lifetime: int)
    requires WaitsFor(db, snapshot) && other.node == snapshot.node && other.digest == snapshot.digest
    requires other.startedAt == snapshot.startedAt
    ensures AfterStage(db, other, id, now, lifetime) == (db, Unchanged)
  {
    hide FindPolicy, Cleared, Collides;
  }

  /** While its row waits, staging the snapshot again creates nothing, over any run of such calls and of deliveries
      and expiries between them: once the command has expired unsent, it is never issued again. */
  lemma {:induction false} WaitingIsForEver(system: System, acts: seq<Act>, snapshot: Snapshot)
    requires WaitsFor(system.db, snapshot)
    requires forall i | 0 <= i < |acts| :: StagesOrDelivers(acts[i], snapshot)
    ensures DoAll(system, acts).db.policies == system.db.policies
    ensures |DoAll(system, acts).db.commands| == |system.db.commands| && WaitsFor(DoAll(system, acts).db, snapshot)
  {
    if acts != [] {
      var front, last := acts[..|acts| - 1], acts[|acts| - 1];
      WaitingIsForEver(system, front, snapshot);
      assert StagesOrDelivers(last, snapshot);
      WaitingStep(DoAll(system, front), last, snapshot);
    }
  }

  lemma WaitingStep(system: System, act: Act, snapshot: Snapshot)
    requires WaitsFor(system.db, snapshot) && StagesOrDelivers(act, snapshot)
    ensures Do(system, act).db.policies == system.db.policies
    ensures |Do(system, act).db.commands| == |system.db.commands|
  {
    hide AfterStage, Swept, CleanedInstance, Find, NextOf;
    if act.StagePolicy? {
      WaitingStagesNothing(system.db, snapshot, act.snapshot, act.id, act.now, act.lifetime);
    }
  }

  // ---------------------------------------------------------------------------------------------
  // A run that gets there
  // ---------------------------------------------------------------------------------------------

  /** A node is enrolled, a snapshot is staged, and the command is listed once it is due, before any heartbeat. */
  function Lapse(snapshot: Snapshot, id: string, now: int, lifetime: int): seq<Act> {
    [SetNode(snapshot.node, Node(true, Some(""))), StagePolicy(snapshot, id, now, lifetime), List(snapshot.node, now + lifetime)]
  }

  lemma ThreeSteps(a: Act, b: Act, c: Act)
    ensures DoAll(START, [a, b, c]) == Do(Do(Do(START, a), b), c)
  {
    hide Do;
    assert [a, b, c][..2] == [a, b] && [a, b][..1] == [a] && [a][..0] == [];
    assert DoAll(START, []) == START;
    assert DoAll(START, [a]) == Do(START, a) && DoAll(START, [a, b]) == Do(Do(START, a), b);
  }

  /** Staging on an enrolled node without any row or command. */
  lemma FirstStaging(db: Db, snapshot: Snapshot, id: string, now: int, lifetime: int)
    requires db.commands == [] && db.policies == map[] && Credentialed(db, snapshot.node)
    ensures AfterStage(db, snapshot, id, now, lifetime).0
         == db.(commands := [PolicyCommand(db, snapshot, id, now, lifetime)],
                policies := map[snapshot.node := PolicyState(1, Some(snapshot.digest), 0, PolicyPending, Some(id),
                                                             snapshot.startedAt, None)])
  {
    assert [] + [PolicyCommand(db, snapshot, id, now, lifetime)] == [PolicyCommand(db, snapshot, id, now, lifetime)];
    assert map[][snapshot.node := PolicyState(1, Some(snapshot.digest), 0, PolicyPending, Some(id), snapshot.startedAt, None)]
        == map[snapshot.node := PolicyState(1, Some(snapshot.digest), 0, PolicyPending, Some(id), snapshot.startedAt, None)];
  }

  lemma LapseStages(snapshot: Snapshot, id: string, now: int, lifetime: int)
    requires lifetime > 0
    ensures var acts := Lapse(snapshot, id, now, lifetime);
            var db := Do(Do(Do(START, acts[0]), acts[1]), acts[2]).db;
      && LastIsUnsent(db, snapshot.node, 0, now + lifetime) && |db.commands| == 1 && db.commands[0].status.Expired?
      && WaitsFor(db, snapshot)
  {
    var acts := Lapse(snapshot, id, now, lifetime);
    var enrolled := Do(START, acts[0]).db;
    FirstStaging(enrolled, snapshot, id, now, lifetime);
    hide AfterStage;
  }

  /** The run ends with an expired command that was never sent and a row that waits for it; from then on staging the
      snapshot creates nothing, whatever the times and IDs. */
  lemma LapsedCommandIsNotReissued(snapshot: Snapshot, id: string, now: int, lifetime: int, after: seq<Act>)
    requires lifetime > 0 && forall i | 0 <= i < |after| :: StagesOrDelivers(after[i], snapshot)
    ensures var lapsed := DoAll(START, Lapse(snapshot, id, now, lifetime));
      && LastIsUnsent(lapsed.db, snapshot.node, 0, now + lifetime) && lapsed.db.commands[0].status.Expired?
      && WaitsFor(lapsed.db, snapshot)
      && |DoAll(lapsed, after).db.commands| == 1 && DoAll(lapsed, after).db.policies == lapsed.db.policies
  {
    var acts := Lapse(snapshot, id, now, lifetime);
    ThreeSteps(acts[0], acts[1], acts[2]);
    LapseStages(snapshot, id, now, lifetime);
    var lapsed := Do(Do(Do(START, acts[0]), acts[1]), acts[2]);
    hide DoAll, Do, AfterStage;
    WaitingIsForEver(lapsed, after, snapshot);
  }
}
