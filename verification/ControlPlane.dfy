/** The control plane: nodes, commands, policy state and plugin instances, one transaction at a time. */
module ControlPlane {
  import opened Outcomes
  import opened CommandTable

  datatype Node = Node(enabled: bool, credential: Option<string>)

  datatype PolicyStatus = NotConfigured | PolicyPending | PolicyApplied | PolicyFailed | Unsupported

  /** A row of node_policy_state; an empty digest is None. */
  datatype PolicyState = PolicyState(desired: nat, digest: Option<string>, applied: nat, status: PolicyStatus,
                                     lastCommand: Option<string>, issuedFor: Option<int>, retryAfter: Option<int>)

  const NO_POLICY := PolicyState(0, None, 0, NotConfigured, None, None, None)

  datatype Snapshot = Snapshot(node: string, digest: string, authorizations: seq<string>, startedAt: Option<int>)

  datatype Staged = Created | Unchanged | Rejected(error: Error)

  datatype Target = Target(node: string, plugin: string)

  datatype Health = Unknown | Healthy | Unhealthy

  datatype Actual = Actual(state: PluginState, version: string, configuration: string, health: Health)

  datatype ReconcileStatus = ReconcilePending | ReconcileSucceeded | ReconcileFailed | ReconcileExpired

  datatype Instance = Instance(generation: nat, state: PluginState, version: string, configuration: string,
                               actualGeneration: nat, observedAt: Option<int>, actual: Actual,
                               status: ReconcileStatus, lastCommand: string)

  /** A status event of a plugin on a node. */
  datatype PluginStatus = PluginStatus(generation: nat, actual: Actual, observedAt: int)

  /** Installed plugins map to their active version. */
  datatype Db = Db(nodes: map<string, Node>, installations: map<string, Option<string>>, commands: Commands,
                   policies: map<string, PolicyState>, instances: map<Target, Instance>)

  const MAX_GENERATION: nat := 0x7fff_ffff_ffff_ffff
  const POLICY_RETRY_DELAY := 30

  // ---------------------------------------------------------------------------------------------
  // Policies
  // ---------------------------------------------------------------------------------------------

  /** The pending policy command of a node. */
  function FindPolicy(commands: Commands, node: string): (found: Option<nat>)
    ensures found.Some? ==> found.value < |commands| && PendingPolicy(commands[found.value], node)
    ensures found.None? ==> forall i | 0 <= i < |commands| :: !PendingPolicy(commands[i], node)
  {
    if commands == [] then None
    else if PendingPolicy(commands[|commands| - 1], node) then Some(|commands| - 1)
    else FindPolicy(commands[..|commands| - 1], node)
  }

  function StateOf(db: Db, node: string): PolicyState {
    if node in db.policies then db.policies[node] else NO_POLICY
  }

  /** The node has no row, or a row for another snapshot. */
  predicate PayloadChanged(db: Db, snapshot: Snapshot) {
    StateOf(db, snapshot.node).digest != Some(snapshot.digest)
  }

  predicate SessionChanged(db: Db, snapshot: Snapshot) {
    snapshot.startedAt.Some? && StateOf(db, snapshot.node).issuedFor != snapshot.startedAt
  }

  /** Without a pending command in the way, the snapshot calls for a command. */
  predicate CallsForCommand(db: Db, snapshot: Snapshot, now: int) {
    var state := StateOf(db, snapshot.node);
    || PayloadChanged(db, snapshot)
    || state.status.Unsupported?
    || (SessionChanged(db, snapshot) && !(state.status.PolicyFailed? && state.retryAfter.None?))
    || (state.status.PolicyFailed? && state.retryAfter.Some? && state.retryAfter.value <= now)
  }

  /** A pending command gives way only before it was sent, to another payload or after it expired, and never to
      a mere change of session. */
  predicate GivesWay(db: Db, snapshot: Snapshot, now: int) {
    var found := FindPolicy(db.commands, snapshot.node);
    found.Some? ==>
      var pending := db.commands[found.value];
      && pending.attempts == 0
      && (PayloadChanged(db, snapshot) || (pending.request.expiresAt <= now && !SessionChanged(db, snapshot)))
  }

  function NextGeneration(db: Db, snapshot: Snapshot): nat {
    StateOf(db, snapshot.node).desired + if PayloadChanged(db, snapshot) then 1 else 0
  }

  function PolicyCommand(db: Db, snapshot: Snapshot, id: string, now: int, lifetime: int): Command {
    New(id, snapshot.node, Request(Policy(NextGeneration(db, snapshot), snapshot.authorizations), now, now + lifetime), now)
  }

  predicate Credentialed(db: Db, node: string) {
    node in db.nodes && db.nodes[node].credential.Some?
  }

  /** The commands once a pending one gave way. */
  function Cleared(db: Db, node: string, now: int): Commands {
    var found := FindPolicy(db.commands, node);
    if found.Some? then Swept(db.commands, Undelivered(db.commands[found.value].id), now) else db.commands
  }

  function AfterStage(db: Db, snapshot: Snapshot, id: string, now: int, lifetime: int): (Db, Staged) {
    var state := StateOf(db, snapshot.node);
    var command := PolicyCommand(db, snapshot, id, now, lifetime);
    var cleared := Cleared(db, snapshot.node, now);
    if FindPolicy(db.commands, snapshot.node).Some? && !PayloadChanged(db, snapshot) && SessionChanged(db, snapshot) then
      (db.(policies := db.policies[snapshot.node := state.(issuedFor := snapshot.startedAt)]), Unchanged)
    else if !GivesWay(db, snapshot, now) || !CallsForCommand(db, snapshot, now) then (db, Unchanged)
    else if NextGeneration(db, snapshot) > MAX_GENERATION then (db, Rejected(Exhausted))
    else if !Credentialed(db, snapshot.node) || Collides(cleared, command) then (db, Rejected(StateConflict))
    else
      var next := PolicyState(NextGeneration(db, snapshot), Some(snapshot.digest), state.applied, PolicyPending,
                              Some(id), snapshot.startedAt, None);
      (db.(commands := cleared + [command], policies := db.policies[snapshot.node := next]), Created)
  }

  /** Marking a node that has no row yet inserts one without a generation. */
  function AfterMarkUnsupported(db: Db, node: string): (Db, Option<Error>) {
    if node !in db.nodes then (db, Some(Constraint))
    else (db.(policies := db.policies[node := StateOf(db, node).(status := Unsupported, retryAfter := None)]), None)
  }

  /** The row a result of a policy command must find. */
  predicate AwaitsPolicyResult(db: Db, node: string, generation: nat, id: string) {
    node in db.policies && db.policies[node].desired == generation && db.policies[node].lastCommand == Some(id)
  }

  function AfterPolicyResult(state: PolicyState, verdict: Verdict, now: int): PolicyState {
    if verdict.Success? then state.(applied := state.desired, status := PolicyApplied, retryAfter := None)
    else state.(status := PolicyFailed, retryAfter := if verdict.retryable then Some(now + POLICY_RETRY_DELAY) else None)
  }

  // ---------------------------------------------------------------------------------------------
  // Plugin instances
  // ---------------------------------------------------------------------------------------------

  predicate ExpiredReconcile(commands: Commands, id: string) {
    exists i :: 0 <= i < |commands| && commands[i].id == id && commands[i].request.body.Reconcile? && commands[i].status.Expired?
  }

  function CleanedInstance(commands: Commands, instance: Instance): Instance {
    if instance.status.ReconcilePending? && ExpiredReconcile(commands, instance.lastCommand)
    then instance.(status := ReconcileExpired) else instance
  }

  /** Instances whose command expired wait no longer. */
  function Cleaned(db: Db): Db {
    db.(instances := map target | target in db.instances :: CleanedInstance(db.commands, db.instances[target]))
  }

  function SweptDb(db: Db, sweep: Sweep, now: int): Db {
    db.(commands := Swept(db.commands, sweep, now))
  }

  function GenerationOf(db: Db, target: Target): nat {
    if target in db.instances then db.instances[target].generation else 0
  }

  const NEVER_SEEN := Actual(Absent, "", "", Unknown)

  function Desired(db: Db, target: Target, body: Body, id: string): Instance
    requires body.Reconcile?
  {
    if target in db.instances then
      db.instances[target].(generation := body.generation, state := body.state, version := body.version,
                            configuration := ConfigurationOf(body), status := ReconcilePending, lastCommand := id)
    else
      Instance(body.generation, body.state, body.version, ConfigurationOf(body), 0, None, NEVER_SEEN, ReconcilePending, id)
  }

  function ConfigurationOf(body: Body): string
    requires body.Reconcile?
  {
    if body.state.Absent? then "" else body.configuration
  }

  function AfterApplyPlugin(db: Db, id: string, node: string, request: Request, now: int): (Db, Option<Error>) {
    var body := request.body;
    if !body.Reconcile? then (db, Some(Invalid))
    else if !(Credentialed(db, node) && db.nodes[node].enabled) || body.plugin !in db.installations then (db, Some(NotFound))
    else if !body.state.Absent? && db.installations[body.plugin] != Some(body.version) then (db, Some(StateConflict))
    else
      var target := Target(node, body.plugin);
      if body.generation != GenerationOf(db, target) + 1 then (db, Some(StateConflict))
      else
        var expired := Cleaned(SweptDb(db, DueReconcilesOf(node, body.plugin), now));
        if Collides(expired.commands, New(id, node, request, now)) then (db, Some(Conflict))
        else
          (expired.(commands := expired.commands + [New(id, node, request, now)],
                    instances := expired.instances[target := Desired(expired, target, body, id)]), None)
  }

  /** A result older than the last status of the same generation leaves the actual state alone. */
  function AfterReconcileResult(instance: Instance, body: Body, report: Report): Instance
    requires body.Reconcile?
  {
    if report.verdict.Failure? then instance.(status := ReconcileFailed)
    else if instance.actualGeneration > body.generation
         || (instance.actualGeneration == body.generation && instance.observedAt.Some?
             && instance.observedAt.value > report.completedAt)
    then instance.(status := ReconcileSucceeded)
    else
      instance.(actualGeneration := body.generation, status := ReconcileSucceeded,
                actual := Actual(body.state, body.version, ConfigurationOf(body),
                                 if body.state.Running? then Healthy else Unknown))
  }

  /** Reading the generations before a status is written. */
  predicate StatusIsCurrent(db: Db, target: Target, status: PluginStatus) {
    target in db.instances
    && (status.generation == db.instances[target].generation || status.generation == db.instances[target].actualGeneration)
  }

  /** The guard of the statement that writes a status. */
  predicate StatusIsNewer(instance: Instance, status: PluginStatus) {
    || instance.actualGeneration < status.generation
    || (instance.actualGeneration == status.generation
        && (instance.observedAt.None? || instance.observedAt.value <= status.observedAt))
  }

  /** A status written onto an instance. */
  function AfterStatus(instance: Instance, status: PluginStatus): Instance {
    if StatusIsNewer(instance, status)
    then instance.(actualGeneration := status.generation, observedAt := Some(status.observedAt), actual := status.actual)
    else instance
  }

  function AfterWriteStatus(db: Db, target: Target, status: PluginStatus): Db {
    if target in db.instances then db.(instances := db.instances[target := AfterStatus(db.instances[target], status)]) else db
  }

  /** Recovery without the key: encrypted commands expire, instances with a configuration need it anew. */
  function AfterRecover(db: Db, affected: set<Target>): Db {
    SweptDb(db, Unrecoverable, 0).(instances := map target | target in db.instances ::
      if target in affected then db.instances[target].(status := ReconcileFailed, configuration := "")
      else db.instances[target])
  }

  // ---------------------------------------------------------------------------------------------
  // Commands
  // ---------------------------------------------------------------------------------------------

  /** A request that is repeated under its ID is accepted once. */
  function AfterCreate(db: Db, id: string, node: string, request: Request, now: int): (Db, Option<Error>) {
    var command := New(id, node, request, now);
    var commands := if request.body.Update? then Swept(db.commands, DueUpdatesOf(node), now) else db.commands;
    if Encrypted(request.body) then (db, Some(Invalid))
    else if node !in db.nodes then (db, Some(NotFound))
    else if !Collides(commands, command) then (db.(commands := commands + [command]), None)
    else
      var known := Find(commands, id, node);
      if known.Some? && commands[known.value].request == request then (db.(commands := commands), None)
      else (db, Some(Conflict))
  }

  function AfterCreateDiagnose(db: Db, id: string, node: string, request: Request, now: int): (Db, Option<Error>) {
    var command := New(id, node, request, now);
    if !request.body.Diagnose? then (db, Some(Invalid))
    else
      var target := Target(node, request.body.plugin);
      if target !in db.instances then (db, Some(NotFound))
      else if !(db.instances[target].actual.state.Running? && db.instances[target].actual.health.Healthy?) then
        (db, Some(StateConflict))
      else if Collides(db.commands, command) then (db, Some(Conflict))
      else (db.(commands := db.commands + [command]), None)
  }

  function AfterNext(db: Db, node: string, now: int): (Db, Option<Command>) {
    var next := Cleaned(SweptDb(db, DueOf(node), now));
    var found := if node in db.nodes then NextOf(next.commands, node, db.nodes[node].enabled) else None;
    (next, if found.Some? then Some(next.commands[found.value]) else None)
  }

  function AfterMarkSent(db: Db, id: string, node: string): (Db, Option<Error>) {
    var found := Find(db.commands, id, node);
    if found.Some? && db.commands[found.value].status.Pending? then
      var command := db.commands[found.value];
      (db.(commands := db.commands[found.value := command.(attempts := command.attempts + 1)]), None)
    else (db, Some(NotFound))
  }

  /** Why a result is not taken, if it is not. */
  function Refusal(db: Db, command: Command, report: Report, decrypted: Option<Request>): Option<Error> {
    if report.request != command.request then Some(Conflict)
    else if !command.status.Pending? then Some(StateConflict)
    else if Encrypted(command.request.body) != decrypted.Some? then Some(StateConflict)
    else if decrypted.Some? && decrypted.value != command.request then Some(Conflict)
    else if !Answers(command.request.body, report.verdict) then Some(Invalid)
    else None
  }

  predicate Repeated(command: Command, report: Report) {
    command.request == report.request && (command.status.Succeeded? || command.status.Failed?) && command.report == Some(report)
  }

  function AfterResult(db: Db, index: nat, report: Report, now: int): (Db, Option<Error>)
    requires index < |db.commands|
  {
    var command := db.commands[index];
    var next := db.(commands := db.commands[index := Completed(command, report)]);
    match command.request.body
    case Policy(generation, _) =>
      if AwaitsPolicyResult(db, command.node, generation, command.id) then
        (next.(policies := db.policies[command.node := AfterPolicyResult(db.policies[command.node], report.verdict, now)]), None)
      else (db, Some(NotFound))
    case Reconcile(plugin, generation, _, _, _) =>
      var target := Target(command.node, plugin);
      if target in db.instances && db.instances[target].generation == generation then
        var instance := AfterReconcileResult(db.instances[target], command.request.body, report);
        (next.(instances := db.instances[target := instance]), None)
      else (db, Some(if report.verdict.Failure? then NotFound else StateConflict))
    case _ => (next, None)
  }

  function AfterComplete(db: Db, node: string, credential: string, report: Report, decrypted: Option<Request>, now: int)
    : (Db, Option<Error>)
  {
    var found := Find(db.commands, report.commandId, node);
    if found.None? || node !in db.nodes || db.nodes[node].credential != Some(credential) then (db, Some(NotFound))
    else
      var command := db.commands[found.value];
      var refusal := Refusal(db, command, report, decrypted);
      if Repeated(command, report) then (db, None)
      else if refusal.Some? then (db, refusal)
      else AfterResult(db, found.value, report, now)
  }

  // ---------------------------------------------------------------------------------------------
  // Runs
  // ---------------------------------------------------------------------------------------------

  /** Transactions and single statements, in any order. A session selects a command and marks it sent later; a
      reporter reads the generations and writes its status later. */
  datatype Act =
    | Create(id: string, node: string, request: Request, now: int)
    | CreateDiagnose(id: string, node: string, request: Request, now: int)
    | StagePolicy(snapshot: Snapshot, id: string, now: int, lifetime: int)
    | MarkUnsupported(node: string)
    | Select(session: nat, node: string, now: int)
    | MarkSent(session: nat)
    | Leave(session: nat)
    | Complete(node: string, credential: string, report: Report, decrypted: Option<Request>, now: int)
    | ApplyPlugin(id: string, node: string, request: Request, now: int)
    | ReadStatus(reporter: nat, target: Target, status: PluginStatus)
    | WriteStatus(reporter: nat)
    | ExpireReconciles(now: int)
    | List(node: string, now: int)
    | ListKind(node: string, kind: Kind, now: int)
    | Recover(affected: set<Target>)
    | SetNode(node: string, value: Node)
    | SetInstallation(plugin: string, version: Option<string>)

  datatype Held = Held(id: string, node: string)

  datatype Reading = Reading(target: Target, status: PluginStatus)

  /** The database, the commands sessions have selected, and the statuses reporters are about to write. */
  datatype System = System(db: Db, held: map<nat, Held>, reading: map<nat, Reading>)

  const START := System(Db(map[], map[], [], map[], map[]), map[], map[])

  function Do(system: System, act: Act): System {
    var db := system.db;
    match act
    case Create(id, node, request, now) => system.(db := AfterCreate(db, id, node, request, now).0)
    case CreateDiagnose(id, node, request, now) => system.(db := AfterCreateDiagnose(db, id, node, request, now).0)
    case StagePolicy(snapshot, id, now, lifetime) => system.(db := AfterStage(db, snapshot, id, now, lifetime).0)
    case MarkUnsupported(node) => system.(db := AfterMarkUnsupported(db, node).0)
    case Select(session, node, now) =>
      var (next, command) := AfterNext(db, node, now);
      system.(db := next, held := if command.Some? then system.held[session := Held(command.value.id, node)]
                                  else system.held - {session})
    case MarkSent(session) =>
      if session in system.held then
        system.(db := AfterMarkSent(db, system.held[session].id, system.held[session].node).0, held := system.held - {session})
      else system
    case Leave(session) => system.(held := system.held - {session})
    case Complete(node, credential, report, decrypted, now) =>
      system.(db := AfterComplete(db, node, credential, report, decrypted, now).0)
    case ApplyPlugin(id, node, request, now) => system.(db := AfterApplyPlugin(db, id, node, request, now).0)
    case ReadStatus(reporter, target, status) =>
      system.(reading := if StatusIsCurrent(db, target, status) then system.reading[reporter := Reading(target, status)]
                         else system.reading - {reporter})
    case WriteStatus(reporter) =>
      if reporter in system.reading then
        system.(db := AfterWriteStatus(db, system.reading[reporter].target, system.reading[reporter].status),
                reading := system.reading - {reporter})
      else system
    case ExpireReconciles(now) => system.(db := Cleaned(SweptDb(db, DueReconciles, now)))
    case List(node, now) => system.(db := SweptDb(db, DueOf(node), now))
    case ListKind(node, kind, now) => system.(db := SweptDb(db, DueOfKind(node, kind), now))
    case Recover(affected) => system.(db := AfterRecover(db, affected))
    case SetNode(node, value) => system.(db := db.(nodes := db.nodes[node := value]))
    case SetInstallation(plugin, version) => system.(db := db.(installations := db.installations[plugin := version]))
  }

  function DoAll(system: System, acts: seq<Act>): System {
    if acts == [] then system else Do(DoAll(system, acts[..|acts| - 1]), acts[|acts| - 1])
  }

  lemma {:induction false} DoAllSplits(system: System, first: seq<Act>, second: seq<Act>)
    ensures DoAll(system, first + second) == DoAll(DoAll(system, first), second)
  {
    if second == [] {
      assert first + second == first;
    } else {
      var front := second[..|second| - 1];
      assert (first + second)[..|first + second| - 1] == first + front;
      DoAllSplits(system, first, front);
    }
  }
}
