/** The commands of the control plane: requests, results, and the statements over the command table. */
module CommandTable {
  import opened Outcomes

  datatype PluginState = Absent | Stopped | Running | Broken

  datatype Body =
    | Update(version: string)
    | Policy(generation: nat, authorizations: seq<string>)
    | Reconcile(plugin: string, generation: nat, state: PluginState, version: string, configuration: string)
    | Diagnose(plugin: string, name: string)
    | Plain(text: string)

  datatype Kind = UpdateKind | PolicyKind | ReconcileKind | DiagnoseKind | PlainKind

  function KindOf(body: Body): Kind {
    match body
    case Update(_) => UpdateKind
    case Policy(_, _) => PolicyKind
    case Reconcile(_, _, _, _, _) => ReconcileKind
    case Diagnose(_, _) => DiagnoseKind
    case Plain(_) => PlainKind
  }

  /** A request. Its digest determines it, so the request stands for the digest. */
  datatype Request = Request(body: Body, issuedAt: int, expiresAt: int)

  datatype Output =
    | Activated(version: string)
    | Enforced(generation: nat, authorizations: nat)
    | Reconciled(plugin: string, generation: nat, state: PluginState, version: string, configuration: string)
    | Diagnosed(text: string)
    | Nothing

  datatype Verdict = Success(output: Output) | Failure(retryable: bool, message: string)

  /** A result as an agent reports it. */
  datatype Report = Report(commandId: string, request: Request, verdict: Verdict, completedAt: int)

  datatype Status = Pending | Succeeded | Failed | Expired

  datatype Command = Command(id: string, node: string, request: Request, status: Status, attempts: nat,
                             createdAt: int, report: Option<Report>)

  /** Rows in the order of their row IDs: an insertion takes the next one. */
  type Commands = seq<Command>

  predicate Encrypted(body: Body) {
    body.Reconcile? || body.Diagnose?
  }

  /** The kinds the agent must not lose once they were sent. */
  predicate Durable(body: Body) {
    body.Reconcile? || body.Policy?
  }

  predicate PendingPolicy(command: Command, node: string) {
    command.status.Pending? && command.node == node && command.request.body.Policy?
  }

  predicate PendingReconcile(command: Command, node: string, plugin: string) {
    command.status.Pending? && command.node == node && command.request.body.Reconcile?
    && command.request.body.plugin == plugin
  }

  // ---------------------------------------------------------------------------------------------
  // Expiry
  // ---------------------------------------------------------------------------------------------

  /** The WHERE clauses of the expiry statements. */
  datatype Sweep =
    | DueOf(node: string)
    | DueOfKind(node: string, kind: Kind)
    | DueReconcilesOf(node: string, plugin: string)
    | DueReconciles
    | DueUpdatesOf(node: string)
    | Undelivered(id: string)
    | Unrecoverable

  predicate Selects(sweep: Sweep, command: Command, now: int) {
    var body, due := command.request.body, command.request.expiresAt <= now;
    && command.status.Pending?
    && match sweep
       case DueOf(node) => command.node == node && due && (Durable(body) ==> command.attempts == 0)
       case DueOfKind(node, kind) =>
         command.node == node && KindOf(body) == kind && due && (Durable(body) ==> command.attempts == 0)
       case DueReconcilesOf(node, plugin) => PendingReconcile(command, node, plugin) && due && command.attempts == 0
       case DueReconciles => body.Reconcile? && due && command.attempts == 0
       case DueUpdatesOf(node) => command.node == node && body.Update? && due
       case Undelivered(id) => command.id == id && command.attempts == 0
       case Unrecoverable => Encrypted(body)
  }

  function Swept(commands: Commands, sweep: Sweep, now: int): (swept: Commands)
    ensures |swept| == |commands|
    ensures forall i | 0 <= i < |commands| ::
      swept[i] == if Selects(sweep, commands[i], now) then commands[i].(status := Expired) else commands[i]
  {
    if commands == [] then []
    else
      var back := commands[|commands| - 1];
      Swept(commands[..|commands| - 1], sweep, now)
      + [if Selects(sweep, back, now) then back.(status := Expired) else back]
  }

  // ---------------------------------------------------------------------------------------------
  // Lookup and insertion
  // ---------------------------------------------------------------------------------------------

  predicate Holds(commands: Commands, index: nat, id: string, node: string) {
    index < |commands| && commands[index].id == id && commands[index].node == node
  }

  function Find(commands: Commands, id: string, node: string): (found: Option<nat>)
    ensures found.Some? ==> Holds(commands, found.value, id, node)
    ensures found.None? ==> forall i | 0 <= i < |commands| :: !(commands[i].id == id && commands[i].node == node)
  {
    if commands == [] then None
    else if commands[|commands| - 1].id == id && commands[|commands| - 1].node == node then Some(|commands| - 1)
    else Find(commands[..|commands| - 1], id, node)
  }

  /** The unique indexes over pending commands. */
  predicate Exclusive(a: Command, b: Command) {
    && a.status.Pending? && b.status.Pending? && a.node == b.node
    && match (a.request.body, b.request.body)
       case (Update(_), Update(_)) => true
       case (Policy(_, _), Policy(_, _)) => true
       case (Reconcile(p, _, _, _, _), Reconcile(q, _, _, _, _)) => p == q
       case _ => false
  }

  predicate Collides(commands: Commands, command: Command) {
    exists i :: 0 <= i < |commands| && (commands[i].id == command.id || Exclusive(commands[i], command))
  }

  function New(id: string, node: string, request: Request, now: int): Command {
    Command(id, node, request, Pending, 0, now, None)
  }

  // ---------------------------------------------------------------------------------------------
  // Selection
  // ---------------------------------------------------------------------------------------------

  predicate Eligible(command: Command, node: string, enabled: bool) {
    command.node == node && command.status.Pending? && (enabled || command.request.body.Policy?)
  }

  /** The order of dispatch: policies first, then by creation time, then by row. */
  predicate Precedes(commands: Commands, i: nat, j: nat)
    requires i < |commands| && j < |commands|
  {
    var a, b := commands[i], commands[j];
    if a.request.body.Policy? != b.request.body.Policy? then a.request.body.Policy?
    else if a.createdAt != b.createdAt then a.createdAt < b.createdAt
    else i < j
  }

  predicate IsNext(commands: Commands, node: string, enabled: bool, index: nat) {
    && index < |commands| && Eligible(commands[index], node, enabled)
    && forall j | 0 <= j < |commands| && j != index && Eligible(commands[j], node, enabled) :: Precedes(commands, index, j)
  }

  lemma PrecedesIsStrict(commands: Commands, i: nat, j: nat)
    requires i < |commands| && j < |commands| && i != j
    ensures Precedes(commands, i, j) != Precedes(commands, j, i)
  {
  }

  /** Dispatch is deterministic. */
  lemma NextIsUnique(commands: Commands, node: string, enabled: bool, i: nat, j: nat)
    requires IsNext(commands, node, enabled, i) && IsNext(commands, node, enabled, j)
    ensures i == j
  {
    if i != j {
      PrecedesIsStrict(commands, i, j);
    }
  }

  function NextOf(commands: Commands, node: string, enabled: bool): (next: Option<nat>)
    ensures next.Some? ==> next.value < |commands|
  {
    if commands == [] then None
    else
      var last := |commands| - 1;
      var next := NextOf(commands[..last], node, enabled);
      if Eligible(commands[last], node, enabled) && (next.None? || Precedes(commands, last, next.value)) then Some(last)
      else next
  }

  lemma {:induction false} NextOfIsNext(commands: Commands, node: string, enabled: bool)
    ensures var next := NextOf(commands, node, enabled);
            if next.Some? then IsNext(commands, node, enabled, next.value)
            else forall j | 0 <= j < |commands| :: !Eligible(commands[j], node, enabled)
  {
    if commands != [] {
      var last := |commands| - 1;
      var front := commands[..last];
      NextOfIsNext(front, node, enabled);
      var next := NextOf(front, node, enabled);
      if next.Some? {
        forall j | 0 <= j < last && j != next.value && Eligible(commands[j], node, enabled)
          ensures Precedes(commands, next.value, j)
        {
          assert front[j] == commands[j] && Precedes(front, next.value, j);
        }
      } else {
        assert forall j | 0 <= j < last :: !Eligible(front[j], node, enabled);
      }
    }
  }

  /** ORDER BY ... LIMIT 1. */
  method SelectNext(commands: Commands, node: string, enabled: bool) returns (next: Option<nat>)
    ensures next == NextOf(commands, node, enabled)
  {
    next := None;
    for index := 0 to |commands|
      invariant next == NextOf(commands[..index], node, enabled)
    {
      assert commands[..index + 1][..index] == commands[..index];
      if Eligible(commands[index], node, enabled) && (next.None? || Precedes(commands, index, next.value)) {
        next := Some(index);
      }
    }
    assert commands[..|commands|] == commands;
  }

  // ---------------------------------------------------------------------------------------------
  // Answers
  // ---------------------------------------------------------------------------------------------

  /** What a result must say to be accepted for a request. */
  predicate Answers(body: Body, verdict: Verdict) {
    verdict.Success? ==>
      match body
      case Update(version) => verdict.output == Activated(version)
      case Policy(generation, authorizations) => verdict.output == Enforced(generation, |authorizations|)
      case Reconcile(plugin, generation, state, version, configuration) =>
        verdict.output == Reconciled(plugin, generation, state, version, if state.Absent? then "" else configuration)
      case Diagnose(_, _) => verdict.output.Diagnosed?
      case Plain(_) => true
  }

  function Completed(command: Command, report: Report): Command {
    command.(status := if report.verdict.Success? then Succeeded else Failed, report := Some(report))
  }

  // ---------------------------------------------------------------------------------------------
  // How the table may change
  // ---------------------------------------------------------------------------------------------

  /** IDs are unique and the unique indexes hold. */
  ghost predicate Table(commands: Commands) {
    forall i, j | 0 <= i < j < |commands| ::
      commands[i].id != commands[j].id && !Exclusive(commands[i], commands[j])
  }

  /** What may become of a row. A row that is not pending stays; one that agents must not lose does not expire
      once it was sent, unless its request can no longer be decrypted. */
  predicate Successor(before: Command, after: Command) {
    && after.id == before.id && after.node == before.node && after.request == before.request
    && after.createdAt == before.createdAt && after.attempts >= before.attempts
    && (!before.status.Pending? ==> after == before)
    && (before.status.Pending? && before.attempts > 0 && Durable(before.request.body) && after.status.Expired? ==>
          Encrypted(before.request.body))
    && (after.status.Pending? ==> after.report == before.report)
  }

  ghost predicate Evolved(before: Commands, after: Commands) {
    |before| <= |after| && forall i | 0 <= i < |before| :: Successor(before[i], after[i])
  }

  lemma EvolvedCompose(first: Commands, second: Commands, third: Commands)
    requires Evolved(first, second) && Evolved(second, third)
    ensures Evolved(first, third)
  {
    forall i | 0 <= i < |first|
      ensures Successor(first[i], third[i])
    {
      assert Successor(first[i], second[i]) && Successor(second[i], third[i]);
    }
  }

  lemma SweepingEvolves(commands: Commands, sweep: Sweep, now: int)
    requires Table(commands)
    ensures Evolved(commands, Swept(commands, sweep, now)) && Table(Swept(commands, sweep, now))
  {
    var swept := Swept(commands, sweep, now);
    forall i, j | 0 <= i < j < |swept|
      ensures swept[i].id != swept[j].id && !Exclusive(swept[i], swept[j])
    {
      assert commands[i].id != commands[j].id && !Exclusive(commands[i], commands[j]);
    }
  }

  lemma InsertingEvolves(commands: Commands, command: Command)
    requires Table(commands) && !Collides(commands, command)
    ensures Evolved(commands, commands + [command]) && Table(commands + [command])
  {
  }

  lemma ReplacingEvolves(commands: Commands, index: nat, command: Command)
    requires Table(commands) && index < |commands| && Successor(commands[index], command)
    ensures Evolved(commands, commands[index := command]) && Table(commands[index := command])
  {
    var next := commands[index := command];
    forall i, j | 0 <= i < j < |next|
      ensures next[i].id != next[j].id && !Exclusive(next[i], next[j])
    {
      assert commands[i].id != commands[j].id && !Exclusive(commands[i], commands[j]);
    }
  }
}
