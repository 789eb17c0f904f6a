/** What single calls do to the command table, field by field. */
module CommandEffects {
  import opened Outcomes
  import opened CommandTable
  import opened ControlPlane
  import opened CommandDelivery

  /** What a new row of the command table holds. */
  predicate IsNew(command: Command, id: string, node: string, request: Request, now: int) {
    && command.id == id && command.node == node && command.request == request && command.createdAt == now
    && command.status == Pending && command.attempts == 0 && command.report == None
  }

  // ---------------------------------------------------------------------------------------------
  // Dispatch
  // ---------------------------------------------------------------------------------------------

  /** The command is due, and may be given up: reconcile and policy commands only while they were not sent. */
  predicate GivenUp(command: Command, now: int) {
    && command.status == Pending && command.request.expiresAt <= now
    && (command.request.body.Reconcile? || command.request.body.Policy? ==> command.attempts == 0)
  }

  /** A dispatch expires exactly the commands of the node that are due and may be given up. */
  lemma DispatchExpiresExactlyTheDue(db: Db, node: string, now: int, i: nat)
    requires i < |db.commands|
    ensures var next := AfterNext(db, node, now).0;
      && |next.commands| == |db.commands| && next.nodes == db.nodes && next.policies == db.policies
      && next.installations == db.installations
      && next.commands[i] ==
           if db.commands[i].node == node && GivenUp(db.commands[i], now) then db.commands[i].(status := Expired)
           else db.commands[i]
  {
    hide CleanedInstance, NextOf;
  }

  /** The command a session of a node may be given. */
  predicate Deliverable(db: Db, command: Command, node: string) {
    && node in db.nodes && command.node == node && command.status == Pending
    && (db.nodes[node].enabled || command.request.body.Policy?)
  }

  /** A dispatch gives out a command that waits and is not given up, before all others: policies first, then the
      oldest, then the first that was inserted. It gives out none exactly when there is none. */
  lemma DispatchSelectsTheFirst(db: Db, node: string, now: int)
    ensures var (next, command) := AfterNext(db, node, now);
            match command
            case None => forall j | 0 <= j < |next.commands| :: !Deliverable(next, next.commands[j], node)
            case Some(first) =>
              && Deliverable(next, first, node) && !GivenUp(first, now)
              && exists i: nat :: i < |next.commands| && next.commands[i] == first
                   && forall j | 0 <= j < |next.commands| && j != i && Deliverable(next, next.commands[j], node) ::
                        var other := next.commands[j];
                        if first.request.body.Policy? != other.request.body.Policy? then first.request.body.Policy?
                        else if first.createdAt != other.createdAt then first.createdAt < other.createdAt
                        else i < j
  {
    var (next, command) := AfterNext(db, node, now);
    if node in db.nodes {
      NextOfIsNext(next.commands, node, db.nodes[node].enabled);
      hide NextOf, CleanedInstance;
      if command.Some? {
        var i := NextOf(next.commands, node, db.nodes[node].enabled).value;
        assert next.commands[i] == command.value;
      }
    }
  }

  /** Marking counts one attempt of the command that waits, and changes nothing else; a command that does not wait is
      not found. */
  lemma MarkingCountsOneAttempt(db: Db, id: string, node: string, i: nat)
    requires Table(db.commands) && Holds(db.commands, i, id, node)
    ensures var (next, error) := AfterMarkSent(db, id, node);
      if db.commands[i].status == Pending then
        && error == None && |next.commands| == |db.commands| && next == db.(commands := next.commands)
        && next.commands[i] == db.commands[i].(attempts := db.commands[i].attempts + 1)
        && (forall j | 0 <= j < |db.commands| && j != i :: next.commands[j] == db.commands[j])
      else error == Some(NotFound) && next == db
  {
    FindsTheOne(db.commands, i, id, node);
    hide Find, Table;
  }

  // ---------------------------------------------------------------------------------------------
  // Creation
  // ---------------------------------------------------------------------------------------------

  /** An update command of the node that is due, and makes room for another one. */
  predicate DueUpdate(command: Command, node: string, now: int) {
    command.node == node && command.status == Pending && command.request.body.Update? && command.request.expiresAt <= now
  }

  /** The command that stands in the way of a new one: it has its ID, or waits and admits no other of its kind. */
  predicate InTheWay(command: Command, id: string, node: string, request: Request, now: int) {
    || command.id == id
    || (&& command.status == Pending && command.node == node
        && (|| (command.request.body.Update? && request.body.Update? && command.request.expiresAt > now)
            || (command.request.body.Policy? && request.body.Policy?)))
  }

  ghost predicate Free(db: Db, id: string, node: string, request: Request, now: int) {
    forall i | 0 <= i < |db.commands| :: !InTheWay(db.commands[i], id, node, request, now)
  }

  /** The request was made under this ID before. */
  ghost predicate Known(commands: Commands, id: string, node: string, request: Request) {
    exists i: nat :: Holds(commands, i, id, node) && commands[i].request == request
  }

  /** The commands once due updates gave way to the request. */
  function Roomy(db: Db, node: string, request: Request, now: int): Commands {
    if request.body.Update? then Swept(db.commands, DueUpdatesOf(node), now) else db.commands
  }

  /** A request that carries no secret, for a known node, is accepted exactly when nothing is in its way, and then is
      the last command, or when it was made under its ID before, and then no command is added. */
  lemma CreatedExactlyWhenFreeOrKnown(db: Db, id: string, node: string, request: Request, now: int)
    requires Table(db.commands)
    ensures var (next, error) := AfterCreate(db, id, node, request, now);
            var free := Free(db, id, node, request, now);
      && (error == None <==> !request.body.Reconcile? && !request.body.Diagnose? && node in db.nodes
                             && (free || Known(db.commands, id, node, request)))
      && (error != None ==> next == db)
      && (error == None ==> next == db.(commands := next.commands) && |next.commands| == |db.commands| + (if free then 1 else 0))
      && (error == None && free ==> IsNew(next.commands[|db.commands|], id, node, request, now))
  {
    var commands := Roomy(db, node, request, now);
    FreeIsNoCollision(db, id, node, request, now);
    KnownIsFound(db, commands, id, node, request);
    assert |commands| == |db.commands|;
    hide Swept, Collides, Free, Known, Find, Table;
  }

  /** What an accepted request does to the commands there were: due updates of the node give way to an update. */
  lemma CreatingExpiresDueUpdatesOnly(db: Db, id: string, node: string, request: Request, now: int, i: nat)
    requires AfterCreate(db, id, node, request, now).1 == None && i < |db.commands|
    ensures var next := AfterCreate(db, id, node, request, now).0;
      && |next.commands| >= |db.commands|
      && next.commands[i] == if request.body.Update? && DueUpdate(db.commands[i], node, now)
                             then db.commands[i].(status := Expired) else db.commands[i]
  {
    hide Collides, Find;
  }

  lemma FreeIsNoCollision(db: Db, id: string, node: string, request: Request, now: int)
    ensures !Encrypted(request.body) ==>
      (Free(db, id, node, request, now) <==> !Collides(Roomy(db, node, request, now), New(id, node, request, now)))
  {
    var commands := Roomy(db, node, request, now);
    var command := New(id, node, request, now);
    if !Encrypted(request.body) {
      assert |commands| == |db.commands|;
      assert forall i | 0 <= i < |db.commands| ::
        InTheWay(db.commands[i], id, node, request, now) <==> (commands[i].id == command.id || Exclusive(commands[i], command));
    }
  }

  lemma KnownIsFound(db: Db, commands: Commands, id: string, node: string, request: Request)
    requires Table(db.commands) && |commands| == |db.commands|
    requires forall i | 0 <= i < |db.commands| ::
      commands[i].id == db.commands[i].id && commands[i].node == db.commands[i].node
      && commands[i].request == db.commands[i].request
    ensures var known := Find(commands, id, node);
            Known(db.commands, id, node, request) <==> known.Some? && commands[known.value].request == request
  {
    var known := Find(commands, id, node);
    if known.Some? && commands[known.value].request == request {
      assert Holds(db.commands, known.value, id, node);
    }
    forall i: nat | Holds(db.commands, i, id, node)
      ensures known == Some(i)
    {
      assert commands[i].id == id && commands[i].node == node;
    }
  }

  // ---------------------------------------------------------------------------------------------
  // Results
  // ---------------------------------------------------------------------------------------------

  /** The row a result settles is still the one the command was issued for. */
  predicate RowIsThere(db: Db, command: Command) {
    match command.request.body
    case Policy(generation, _) =>
      && command.node in db.policies && db.policies[command.node].desired == generation
      && db.policies[command.node].lastCommand == Some(command.id)
    case Reconcile(plugin, generation, _, _, _) =>
      Target(command.node, plugin) in db.instances && db.instances[Target(command.node, plugin)].generation == generation
    case _ => true
  }

  /** A first result of a command is taken exactly when it comes from the node, answers the request that waits, says
      what was asked for, and finds the row it is about. */
  lemma ResultIsTakenExactlyWhen(db: Db, i: nat, node: string, credential: string, report: Report, decrypted: Option<Request>,
                                 now: int)
    requires Table(db.commands) && Holds(db.commands, i, report.commandId, node) && db.commands[i].report != Some(report)
    ensures var command := db.commands[i];
            AfterComplete(db, node, credential, report, decrypted, now).1 == None <==>
      && node in db.nodes && db.nodes[node].credential == Some(credential)
      && command.status == Pending && report.request == command.request
      && decrypted == (if command.request.body.Reconcile? || command.request.body.Diagnose? then Some(command.request) else None)
      && Answers(command.request.body, report.verdict) && RowIsThere(db, command)
  {
    FindsTheOne(db.commands, i, report.commandId, node);
    hide Find, Table, Answers;
  }

  /** A success that is taken reports what the command asked for. */
  lemma AcceptedSuccessMatchesRequest(db: Db, i: nat, node: string, credential: string, report: Report,
                                      decrypted: Option<Request>, now: int)
    requires Table(db.commands) && Holds(db.commands, i, report.commandId, node) && db.commands[i].status == Pending
    requires AfterComplete(db, node, credential, report, decrypted, now).1 == None && report.verdict.Success?
    ensures var body, output := db.commands[i].request.body, report.verdict.output;
      && (body.Update? ==> output.Activated? && output.version == body.version)
      && (body.Policy? ==> output.Enforced? && output.generation == body.generation
                           && output.authorizations == |body.authorizations|)
      && (body.Reconcile? ==> output.Reconciled? && output.plugin == body.plugin && output.generation == body.generation
                              && output.state == body.state && output.version == body.version
                              && output.configuration == if body.state.Absent? then "" else body.configuration)
      && (body.Diagnose? ==> output.Diagnosed?)
  {
    FindsTheOne(db.commands, i, report.commandId, node);
    hide Find, Table;
  }

  /** A result that is taken settles its command and touches no other one; one that is refused changes nothing. */
  lemma ResultSettlesItsCommand(db: Db, i: nat, node: string, credential: string, report: Report, decrypted: Option<Request>,
                                now: int)
    requires Table(db.commands) && Holds(db.commands, i, report.commandId, node)
    ensures var (next, error) := AfterComplete(db, node, credential, report, decrypted, now);
      && (error != None ==> next == db)
      && (error == None ==>
            && next.commands[i].report == Some(report) && |next.commands| == |db.commands|
            && next.commands[i].status == (if db.commands[i].status != Pending then db.commands[i].status
                                           else if report.verdict.Success? then Succeeded else Failed)
            && next.commands[i] == db.commands[i].(status := next.commands[i].status, report := Some(report))
            && forall j | 0 <= j < |db.commands| && j != i :: next.commands[j] == db.commands[j])
  {
    FindsTheOne(db.commands, i, report.commandId, node);
    hide Find, Table, Answers;
  }
}
