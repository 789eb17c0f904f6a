/** Commands other than policies are delivered in the order they were created, one at a time. */
module CommandOrder {
  import opened Outcomes
  import opened CommandTable
  import opened ControlPlane
  import opened CommandDelivery

  predicate Queued(command: Command, node: string) {
    command.node == node && command.status.Pending? && !command.request.body.Policy?
  }

  /** No earlier command of the same node waits. */
  ghost predicate First(commands: Commands, index: nat)
    requires index < |commands|
  {
    forall j | 0 <= j < index :: !Queued(commands[j], commands[index].node)
  }

  ghost predicate SentAreFirst(commands: Commands) {
    forall i | 0 <= i < |commands| && Queued(commands[i], commands[i].node) && commands[i].attempts > 0 :: First(commands, i)
  }

  ghost predicate HeldIsFirst(commands: Commands, held: Held, index: nat) {
    Holds(commands, index, held.id, held.node) && (Queued(commands[index], held.node) ==> First(commands, index))
  }

  /** A selected command exists, and if it still waits it is still first. */
  ghost predicate HeldAreFirst(commands: Commands, held: map<nat, Held>) {
    forall session | session in held :: exists index: nat :: HeldIsFirst(commands, held[session], index)
  }

  ghost predicate Ordered(commands: Commands) {
    forall i, j | 0 <= i < j < |commands| && commands[i].node == commands[j].node ::
      commands[i].createdAt <= commands[j].createdAt
  }

  ghost predicate Fifo(system: System) {
    && Table(system.db.commands) && Ordered(system.db.commands)
    && SentAreFirst(system.db.commands) && HeldAreFirst(system.db.commands, system.held)
  }

  /** The node and the time of a command the step may insert. */
  function Insertion(act: Act): Option<(string, int)> {
    match act
    case Create(_, node, _, now) => Some((node, now))
    case CreateDiagnose(_, node, _, now) => Some((node, now))
    case StagePolicy(snapshot, _, now, _) => Some((snapshot.node, now))
    case ApplyPlugin(_, node, _, now) => Some((node, now))
    case _ => None
  }

  /** The clock has not gone back behind a command of the node. */
  predicate Timely(system: System, act: Act) {
    Insertion(act).Some? ==>
      forall i | 0 <= i < |system.db.commands| && system.db.commands[i].node == Insertion(act).value.0 ::
        system.db.commands[i].createdAt <= Insertion(act).value.1
  }

  predicate TimelyRun(acts: seq<Act>) {
    acts == [] || (TimelyRun(acts[..|acts| - 1]) && Timely(DoAll(START, acts[..|acts| - 1]), acts[|acts| - 1]))
  }

  /** The rows keep their attempts, and a row that is added is unsent. */
  ghost predicate OnlyAdds(before: Commands, after: Commands, insertion: Option<(string, int)>) {
    && |before| <= |after| <= |before| + 1
    && (forall i | 0 <= i < |before| :: after[i].attempts == before[i].attempts)
    && (|after| > |before| ==>
          insertion == Some((after[|before|].node, after[|before|].createdAt)) && after[|before|].attempts == 0)
  }

  lemma StepOnlyAdds(system: System, act: Act)
    requires !act.MarkSent?
    ensures OnlyAdds(system.db.commands, Do(system, act).db.commands, Insertion(act))
  {
    hide Collides, Answers, GivesWay, CallsForCommand, Selects, NextOf, CleanedInstance, Find, Refusal, OnlyAdds;
    match act
    case Create(id, node, request, now) => CreatingOnlyAdds(system.db, id, node, request, now);
    case CreateDiagnose(id, node, request, now) => DiagnosingOnlyAdds(system.db, id, node, request, now);
    case StagePolicy(snapshot, id, now, lifetime) => StagingOnlyAdds(system.db, snapshot, id, now, lifetime);
    case ApplyPlugin(id, node, request, now) => ApplyingOnlyAdds(system.db, id, node, request, now);
    case Complete(node, credential, report, decrypted, now) =>
      CompletingOnlyAdds(system.db, node, credential, report, decrypted, now);
    case _ => ChangingOnlyAdds(system, act);
  }

  lemma DiagnosingOnlyAdds(db: Db, id: string, node: string, request: Request, now: int)
    ensures OnlyAdds(db.commands, AfterCreateDiagnose(db, id, node, request, now).0.commands, Some((node, now)))
  {
    hide Collides;
  }

  lemma ApplyingOnlyAdds(db: Db, id: string, node: string, request: Request, now: int)
    ensures OnlyAdds(db.commands, AfterApplyPlugin(db, id, node, request, now).0.commands, Some((node, now)))
  {
    hide Collides, Selects, CleanedInstance;
  }

  lemma CompletingOnlyAdds(db: Db, node: string, credential: string, report: Report, decrypted: Option<Request>, now: int)
    ensures OnlyAdds(db.commands, AfterComplete(db, node, credential, report, decrypted, now).0.commands, None)
  {
    hide Refusal, Find;
  }

  lemma CreatingOnlyAdds(db: Db, id: string, node: string, request: Request, now: int)
    ensures OnlyAdds(db.commands, AfterCreate(db, id, node, request, now).0.commands, Some((node, now)))
  {
    hide Collides, Selects, Find;
  }

  lemma StagingOnlyAdds(db: Db, snapshot: Snapshot, id: string, now: int, lifetime: int)
    ensures OnlyAdds(db.commands, AfterStage(db, snapshot, id, now, lifetime).0.commands, Some((snapshot.node, now)))
  {
    hide Collides, GivesWay, CallsForCommand, Selects;
  }

  lemma ChangingOnlyAdds(system: System, act: Act)
    requires !act.MarkSent? && !act.Complete? && Insertion(act).None?
    ensures OnlyAdds(system.db.commands, Do(system, act).db.commands, Insertion(act))
  {
    hide Selects, NextOf, CleanedInstance, AfterCreate, AfterCreateDiagnose, AfterStage, AfterApplyPlugin, AfterComplete;
  }

  lemma FirstPersists(before: Commands, after: Commands, index: nat)
    requires Evolved(before, after) && index < |before| && First(before, index)
    ensures First(after, index)
  {
    forall j | 0 <= j < index
      ensures !Queued(after[j], after[index].node)
    {
      assert Successor(before[j], after[j]) && Successor(before[index], after[index]);
    }
  }

  lemma AddingKeepsSent(before: Commands, after: Commands, insertion: Option<(string, int)>)
    requires Evolved(before, after) && OnlyAdds(before, after, insertion) && SentAreFirst(before)
    ensures SentAreFirst(after)
  {
    forall i | 0 <= i < |after| && Queued(after[i], after[i].node) && after[i].attempts > 0
      ensures First(after, i)
    {
      assert i < |before|;
      assert Successor(before[i], after[i]);
      FirstPersists(before, after, i);
    }
  }

  lemma AddingKeepsOrder(before: Commands, after: Commands, insertion: Option<(string, int)>)
    requires Evolved(before, after) && OnlyAdds(before, after, insertion) && Ordered(before)
    requires insertion.Some? ==> forall i | 0 <= i < |before| && before[i].node == insertion.value.0 ::
      before[i].createdAt <= insertion.value.1
    ensures Ordered(after)
  {
    assert forall i | 0 <= i < |before| :: Successor(before[i], after[i]);
  }

  lemma HeldPersists(before: Commands, after: Commands, held: map<nat, Held>)
    requires Evolved(before, after) && HeldAreFirst(before, held)
    ensures HeldAreFirst(after, held)
  {
    forall session | session in held
      ensures exists index: nat :: HeldIsFirst(after, held[session], index)
    {
      var index: nat :| HeldIsFirst(before, held[session], index);
      HeldIsFirstPersists(before, after, held[session], index);
    }
  }

  lemma HeldIsFirstPersists(before: Commands, after: Commands, held: Held, index: nat)
    requires Evolved(before, after) && HeldIsFirst(before, held, index)
    ensures HeldIsFirst(after, held, index)
  {
    assert Successor(before[index], after[index]);
    if Queued(after[index], held.node) {
      FirstPersists(before, after, index);
    }
  }

  lemma OlderPrecedes(commands: Commands, j: nat, index: nat)
    requires Ordered(commands) && j < index < |commands| && commands[j].node == commands[index].node
    requires !commands[index].request.body.Policy?
    ensures !Precedes(commands, index, j)
  {
  }

  /** What dispatch selects is the first of its node, unless it is a policy. */
  lemma NextIsFirst(commands: Commands, node: string, enabled: bool, index: nat)
    requires Ordered(commands) && IsNext(commands, node, enabled, index)
    ensures Queued(commands[index], node) ==> First(commands, index)
  {
    if Queued(commands[index], node) {
      forall j | 0 <= j < index
        ensures !Queued(commands[j], node)
      {
        if commands[j].node == node {
          OlderPrecedes(commands, j, index);
        }
      }
    }
  }

  lemma SelectingHoldsFirst(before: System, session: nat, node: string, now: int)
    requires HeldAreFirst(Do(before, Select(session, node, now)).db.commands, before.held)
    requires Ordered(Do(before, Select(session, node, now)).db.commands)
    ensures HeldAreFirst(Do(before, Select(session, node, now)).db.commands, Do(before, Select(session, node, now)).held)
  {
    hide Ordered, Swept, CleanedInstance, HeldIsFirst, NextOf;
    var after := Do(before, Select(session, node, now));
    if node in before.db.nodes {
      SelectedIsFirst(after.db.commands, node, before.db.nodes[node].enabled);
    }
  }

  lemma SelectedIsFirst(commands: Commands, node: string, enabled: bool)
    requires Ordered(commands)
    ensures var next := NextOf(commands, node, enabled);
            next.Some? ==> HeldIsFirst(commands, Held(commands[next.value].id, node), next.value)
  {
    NextOfIsNext(commands, node, enabled);
    hide Ordered, NextOf;
    var next := NextOf(commands, node, enabled);
    if next.Some? {
      NextIsFirst(commands, node, enabled, next.value);
    }
  }

  /** Marking what a session holds marks the first command, so at most one sent command waits. */
  lemma MarkingKeepsFifo(db: Db, held: map<nat, Held>, session: nat)
    requires Table(db.commands) && Ordered(db.commands) && SentAreFirst(db.commands)
    requires session in held && HeldAreFirst(db.commands, held)
    ensures var after := AfterMarkSent(db, held[session].id, held[session].node).0.commands;
            Table(after) && Ordered(after) && SentAreFirst(after) && HeldAreFirst(after, held)
  {
    var id, node := held[session].id, held[session].node;
    var before, after := db.commands, AfterMarkSent(db, id, node).0.commands;
    MarkingEvolves(db, id, node);
    HeldPersists(before, after, held);
    hide Evolved, Table, Ordered, SentAreFirst, First, Queued;
    var index: nat :| HeldIsFirst(before, held[session], index);
    assert Holds(before, index, id, node) && (Queued(before[index], node) ==> First(before, index));
    FindsTheOne(before, index, id, node);
    hide Find, HeldAreFirst, HeldIsFirst;
    if before[index].status.Pending? {
      MarkedIsFirst(before, index, node);
    }
  }

  lemma MarkedIsFirst(before: Commands, index: nat, node: string)
    requires Ordered(before) && SentAreFirst(before) && index < |before| && before[index].node == node
    requires Queued(before[index], node) ==> First(before, index)
    ensures var after := before[index := before[index].(attempts := before[index].attempts + 1)];
            Ordered(after) && SentAreFirst(after)
  {
    var after := before[index := before[index].(attempts := before[index].attempts + 1)];
    forall i | 0 <= i < |after| && Queued(after[i], after[i].node) && after[i].attempts > 0
      ensures First(after, i)
    {
      assert First(before, i);
    }
  }

  lemma StepKeepsFifo(system: System, act: Act)
    requires Fifo(system) && Timely(system, act)
    ensures Fifo(Do(system, act))
  {
    if act.MarkSent? {
      if act.session in system.held {
        MarkingKeepsFifo(system.db, system.held, act.session);
        hide Table, Ordered, SentAreFirst, HeldIsFirst;
      }
    } else {
      var before, after := system.db.commands, Do(system, act).db.commands;
      StepEvolves(system, act);
      StepOnlyAdds(system, act);
      AddingKeepsOrder(before, after, Insertion(act));
      AddingKeepsSent(before, after, Insertion(act));
      HeldPersists(before, after, system.held);
      if act.Select? {
        SelectingHoldsFirst(system, act.session, act.node, act.now);
      }
      hide Table, Evolved, Ordered, SentAreFirst, OnlyAdds, HeldIsFirst, HeldAreFirst;
    }
  }

  lemma {:induction false} TimelyRunsKeepFifo(acts: seq<Act>)
    requires TimelyRun(acts)
    ensures Fifo(DoAll(START, acts))
  {
    if acts != [] {
      TimelyRunsKeepFifo(acts[..|acts| - 1]);
      StepKeepsFifo(DoAll(START, acts[..|acts| - 1]), acts[|acts| - 1]);
    }
  }

  /** In every run in which the clock does not go back, a sent command that waits is the oldest command waiting on
      its node, policies aside; so at most one sent command waits on a node. */
  lemma DeliveryIsFifo(acts: seq<Act>, i: nat, j: nat)
    requires TimelyRun(acts)
    requires i < |DoAll(START, acts).db.commands| && j < |DoAll(START, acts).db.commands|
    requires Queued(DoAll(START, acts).db.commands[i], DoAll(START, acts).db.commands[i].node)
    requires Queued(DoAll(START, acts).db.commands[j], DoAll(START, acts).db.commands[i].node)
    requires DoAll(START, acts).db.commands[i].attempts > 0
    ensures i <= j && DoAll(START, acts).db.commands[i].createdAt <= DoAll(START, acts).db.commands[j].createdAt
    ensures DoAll(START, acts).db.commands[j].attempts > 0 ==> i == j
  {
    TimelyRunsKeepFifo(acts);
    var commands := DoAll(START, acts).db.commands;
    assert First(commands, i);
    assert commands[j].attempts > 0 ==> First(commands, j);
  }

  // ---------------------------------------------------------------------------------------------
  // A clock that goes back
  // ---------------------------------------------------------------------------------------------

  /** A step that inserts a command keeps the rows in order exactly when its time is not behind any of the node. */
  lemma OrderIsKeptExactlyWhenTimely(system: System, act: Act)
    requires Fifo(system) && Insertion(act).Some?
    requires |Do(system, act).db.commands| > |system.db.commands|
    ensures Ordered(Do(system, act).db.commands) <==> Timely(system, act)
  {
    var before, after := system.db.commands, Do(system, act).db.commands;
    StepEvolves(system, act);
    StepOnlyAdds(system, act);
    hide Do, Table, SentAreFirst, HeldAreFirst;
    var last := |before|;
    assert forall i | 0 <= i < last :: Successor(before[i], after[i]);
    if Timely(system, act) {
      AddingKeepsOrder(before, after, Insertion(act));
    }
    if Ordered(after) {
      forall i | 0 <= i < last && before[i].node == Insertion(act).value.0
        ensures before[i].createdAt <= Insertion(act).value.1
      {
        assert after[i].createdAt <= after[last].createdAt;
      }
    }
  }

  /** The rows of a node after an insertion, when an earlier one was sent and still waits. */
  lemma LaterRowsAreYounger(before: Commands, after: Commands, i: nat, j: nat)
    requires Evolved(before, after) && i < |before| && j < |before| && Ordered(before) && First(before, i)
    requires Queued(after[j], before[i].node) && i != j
    ensures i < j && after[j].createdAt == before[j].createdAt >= before[i].createdAt
  {
    assert Successor(before[j], after[j]);
  }

  /** With a sent command waiting, a command created at `now` is dispatched before it exactly when `now` lies before
      the creation of the sent one, policies aside. */
  lemma SecondGoesAheadExactlyWhenBackdated(system: System, act: Act, i: nat)
    requires Fifo(system) && Insertion(act).Some? && i < |system.db.commands|
    requires var before, after := system.db.commands, Do(system, act).db.commands;
      && |after| == |before| + 1 && !after[|before|].request.body.Policy? && after[|before|].status.Pending?
      && Insertion(act).value.0 == before[i].node
      && Queued(before[i], before[i].node) && before[i].attempts > 0 && Queued(after[i], before[i].node)
    ensures var before, after := system.db.commands, Do(system, act).db.commands;
            var node := before[i].node;
            IsNext(after, node, true, |before|) <==>
            (Insertion(act).value.1 < before[i].createdAt && forall j | 0 <= j < |after| :: !PendingPolicy(after[j], node))
  {
    var before, after := system.db.commands, Do(system, act).db.commands;
    var node, last := before[i].node, |before|;
    StepEvolves(system, act);
    StepOnlyAdds(system, act);
    assert First(before, i) && Successor(before[i], after[i]);
    hide Do, Table, SentAreFirst, HeldAreFirst, First, Evolved;
    if IsNext(after, node, true, last) {
      assert Precedes(after, last, i);
      forall j | 0 <= j < |after|
        ensures !PendingPolicy(after[j], node)
      {
        assert j != last && Eligible(after[j], node, true) ==> Precedes(after, last, j);
      }
    }
    if Insertion(act).value.1 < before[i].createdAt && forall j | 0 <= j < |after| :: !PendingPolicy(after[j], node) {
      forall j | 0 <= j < |after| && j != last && Eligible(after[j], node, true)
        ensures Precedes(after, last, j)
      {
        assert !PendingPolicy(after[j], node);
        if j != i {
          LaterRowsAreYounger(before, after, i, j);
        }
      }
    }
  }

  lemma DoOneMore(acts: seq<Act>, act: Act)
    ensures DoAll(START, acts + [act]) == Do(DoAll(START, acts), act)
  {
    assert (acts + [act])[..|acts + [act]| - 1] == acts;
  }

  /** A heartbeat sends the command that dispatch prefers and leaves the others. */
  lemma HeartbeatSends(system: System, node: string, now: int, index: nat)
    requires Table(system.db.commands) && node in system.db.nodes && system.db.nodes[node].enabled
    requires IsNext(system.db.commands, node, true, index)
    requires forall i | 0 <= i < |system.db.commands| :: system.db.commands[i].request.expiresAt > now
    ensures Do(Do(system, Select(0, node, now)), MarkSent(0)).db.commands
         == system.db.commands[index := system.db.commands[index].(attempts := system.db.commands[index].attempts + 1)]
    ensures Do(Do(system, Select(0, node, now)), MarkSent(0)).db.nodes == system.db.nodes
  {
    SelectsPreferred(system.db, node, now, index);
    var next := AfterNext(system.db, node, now).0;
    MarksPending(next, index, node);
    hide AfterNext, AfterMarkSent, Table, IsNext, Eligible;
  }

  lemma SelectsPreferred(db: Db, node: string, now: int, index: nat)
    requires node in db.nodes && db.nodes[node].enabled && IsNext(db.commands, node, true, index)
    requires forall i | 0 <= i < |db.commands| :: db.commands[i].request.expiresAt > now
    ensures var (next, command) := AfterNext(db, node, now);
            next.commands == db.commands && next.nodes == db.nodes && command == Some(db.commands[index])
  {
    NextOfIsNext(db.commands, node, true);
    NextIsUnique(db.commands, node, true, index, NextOf(db.commands, node, true).value);
    hide NextOf, CleanedInstance, IsNext, Eligible;
    assert Swept(db.commands, DueOf(node), now) == db.commands;
  }

  lemma MarksPending(db: Db, index: nat, node: string)
    requires Table(db.commands) && index < |db.commands| && Eligible(db.commands[index], node, true)
    ensures AfterMarkSent(db, db.commands[index].id, node).0
         == db.(commands := db.commands[index := db.commands[index].(attempts := db.commands[index].attempts + 1)])
  {
    FindsTheOne(db.commands, index, db.commands[index].id, node);
    hide Find, Table;
  }

  lemma CreatingAppends(system: System, id: string, node: string, request: Request, now: int)
    requires request.body.Plain? && node in system.db.nodes
    requires forall i | 0 <= i < |system.db.commands| :: system.db.commands[i].id != id
    ensures Do(system, Create(id, node, request, now)).db
         == system.db.(commands := system.db.commands + [New(id, node, request, now)])
  {
  }

  /** Two commands are created on a node, the second dated before the first; a heartbeat follows each. */
  function BackdatedRun(): seq<Act> {
    var request := Request(Plain(""), 0, 100);
    [SetNode("n", Node(true, None)), Create("a", "n", request, 5), Select(0, "n", 5), MarkSent(0),
     Create("b", "n", request, 3), Select(0, "n", 5), MarkSent(0)]
  }

  lemma AfterFirstHeartbeat()
    ensures var system := DoAll(START, BackdatedRun()[..4]);
      && system.db.nodes == map["n" := Node(true, None)]
      && system.db.commands == [New("a", "n", Request(Plain(""), 0, 100), 5).(attempts := 1)]
  {
    var acts := BackdatedRun();
    var enrolled := Do(START, acts[0]);
    DoOneMore([], acts[0]);
    DoOneMore(acts[..1], acts[1]);
    DoOneMore(acts[..2], acts[2]);
    DoOneMore(acts[..3], acts[3]);
    assert acts[..1] == [] + [acts[0]] && acts[..2] == acts[..1] + [acts[1]];
    assert acts[..3] == acts[..2] + [acts[2]] && acts[..4] == acts[..3] + [acts[3]];
    CreatingAppends(enrolled, "a", "n", Request(Plain(""), 0, 100), 5);
    hide DoAll, Swept, NextOf, Find;
    HeartbeatSends(Do(enrolled, acts[1]), "n", 5, 0);
  }

  /** Without that assumption delivery is not in order: of two commands, the one created second but dated earlier is
      sent while the first, already sent, still waits. */
  lemma ClockMustNotGoBack()
    ensures var commands := DoAll(START, BackdatedRun()).db.commands;
      && |commands| == 2 && Queued(commands[0], commands[1].node) && Queued(commands[1], commands[1].node)
      && commands[0].attempts > 0 && commands[1].attempts > 0
  {
    var acts := BackdatedRun();
    AfterFirstHeartbeat();
    DoOneMore(acts[..4], acts[4]);
    DoOneMore(acts[..5], acts[5]);
    DoOneMore(acts[..6], acts[6]);
    assert acts[..5] == acts[..4] + [acts[4]] && acts[..6] == acts[..5] + [acts[5]] && acts == acts[..6] + [acts[6]];
    var system := DoAll(START, acts[..4]);
    hide DoAll, Swept, NextOf, Find;
    CreatingAppends(system, "b", "n", Request(Plain(""), 0, 100), 3);
    var created := Do(system, acts[4]);
    hide AfterCreate;
    assert Precedes(created.db.commands, 1, 0);
    HeartbeatSends(created, "n", 5, 1);
  }
}
