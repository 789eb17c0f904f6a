/** The subscription cache: one call per plugin renders a subscription, and what is returned, cached or not, is what
    the current snapshot renders to. */
module SubscriptionCache {
  import opened Outcomes
  import opened SubscriptionRendering

  datatype Format = Base64 | MihomoYaml | SingBoxJson

  /** What the digest covers of a bound service, and whether plugin and node are up, which it does not cover. */
  datatype Service = Service(plugin: string, id: string, displayName: string, details: string, ready: bool)

  datatype Endpoint = Endpoint(id: string, details: string, overrides: map<string, map<string, nat>>)

  datatype Snapshot = Snapshot(authorization: string, updatedAt: int, node: string, services: seq<Service>,
                               endpoints: seq<Endpoint>, nodeEnabled: bool, enabled: bool, expiresAt: Option<int>,
                               trafficLimit: Option<nat>, trafficUsed: Option<nat>)

  datatype Bound = Bound(id: string, displayName: string)

  datatype Target = Target(id: string, details: string, ports: map<string, nat>)

  datatype Request = Request(authorization: string, node: string, services: seq<Bound>, endpoints: seq<Target>)

  /** The digested input; SHA-256 is taken to be injective, so the input stands for its digest. */
  datatype Input = Input(authorization: string, updatedAt: int, node: string, services: seq<Service>, endpoints: seq<Endpoint>)

  /** What a plugin answers is a function of the digested input and the request. */
  type Plugins = (Input, string, Request) -> seq<Contribution>

  /** The plugin runtime the service was built with, if any, and which plugins answer through it. */
  datatype Runtime = NoRuntime | Runtime(answering: string -> bool)

  const FRESH := 300
  const MAX_AGE := 86400

  predicate Active(snapshot: Snapshot, now: int) {
    && snapshot.nodeEnabled && snapshot.enabled
    && (snapshot.expiresAt.Some? ==> snapshot.expiresAt.value > now)
    && (snapshot.trafficLimit.Some? && snapshot.trafficUsed.Some? ==> snapshot.trafficUsed.value < snapshot.trafficLimit.value)
  }

  datatype SubscriptionStatus = NodeDisabled | Disabled | Lapsed | QuotaExceeded | InUse

  /** The first reason not to serve a subscription, if there is one. */
  function StatusOf(snapshot: Snapshot, now: int): SubscriptionStatus {
    if !snapshot.nodeEnabled then NodeDisabled
    else if !snapshot.enabled then Disabled
    else if snapshot.expiresAt.Some? && snapshot.expiresAt.value <= now then Lapsed
    else if snapshot.trafficLimit.Some? && snapshot.trafficUsed.Some?
            && snapshot.trafficUsed.value >= snapshot.trafficLimit.value then QuotaExceeded
    else InUse
  }

  lemma InUseExactlyWhenActive(snapshot: Snapshot, now: int)
    ensures StatusOf(snapshot, now) == InUse <==> Active(snapshot, now)
  {
  }

  function Masked(services: seq<Service>): seq<Service> {
    if services == [] then [] else [services[0].(ready := true)] + Masked(services[1..])
  }

  function InputOf(snapshot: Snapshot): Input {
    Input(snapshot.authorization, snapshot.updatedAt, snapshot.node, Masked(snapshot.services), snapshot.endpoints)
  }

  // ---------------------------------------------------------------------------------------------
  // Grouping
  // ---------------------------------------------------------------------------------------------

  /** How many leading services belong to the first one's plugin. */
  function Lead(services: seq<Service>): (lead: nat)
    requires services != []
    ensures 1 <= lead <= |services|
    ensures forall i | 0 <= i < lead :: services[i].plugin == services[0].plugin
    ensures lead < |services| ==> services[lead].plugin != services[0].plugin
  {
    if |services| > 1 && services[1].plugin == services[0].plugin then 1 + Lead(services[1..]) else 1
  }

  /** The runs of services of one plugin. */
  function Groups(services: seq<Service>): seq<seq<Service>> {
    if services == [] then [] else [services[..Lead(services)]] + Groups(services[Lead(services)..])
  }

  /** The services of a plugin do not have those of another in between, as when they are sorted by plugin. */
  ghost predicate Grouped(services: seq<Service>) {
    forall i, j, k | 0 <= i < j < k < |services| && services[i].plugin == services[k].plugin ::
      services[j].plugin == services[i].plugin
  }

  function PluginsOf(services: seq<Service>): set<string> {
    set i | 0 <= i < |services| :: services[i].plugin
  }

  function Of(services: seq<Service>, plugin: string): seq<Service> {
    if services == [] then []
    else (if services[0].plugin == plugin then [services[0]] else []) + Of(services[1..], plugin)
  }

  ghost predicate Distinct(groups: seq<seq<Service>>) {
    forall g, h | 0 <= g < h < |groups| && groups[g] != [] && groups[h] != [] :: groups[g][0].plugin != groups[h][0].plugin
  }

  lemma {:induction false} GroupsAreRuns(services: seq<Service>, g: nat)
    requires g < |Groups(services)|
    ensures Groups(services)[g] != [] && Groups(services)[g][0].plugin in PluginsOf(services)
  {
    var lead := Lead(services);
    if g > 0 {
      GroupsAreRuns(services[lead..], g - 1);
      var i :| 0 <= i < |services[lead..]| && services[lead..][i].plugin == Groups(services)[g][0].plugin;
      assert services[lead + i] == services[lead..][i];
    } else {
      assert services[0].plugin in PluginsOf(services);
    }
  }

  lemma {:induction false} EveryPluginHasAGroup(services: seq<Service>, plugin: string)
    requires plugin in PluginsOf(services)
    ensures exists g :: 0 <= g < |Groups(services)| && Groups(services)[g] != [] && Groups(services)[g][0].plugin == plugin
  {
    var lead := Lead(services);
    var rest := services[lead..];
    if services[0].plugin == plugin {
      assert Groups(services)[0][0].plugin == plugin;
    } else {
      var i :| 0 <= i < |services| && services[i].plugin == plugin;
      assert rest[i - lead] == services[i];
      EveryPluginHasAGroup(rest, plugin);
      var g :| 0 <= g < |Groups(rest)| && Groups(rest)[g] != [] && Groups(rest)[g][0].plugin == plugin;
      assert Groups(services)[g + 1] == Groups(rest)[g];
    }
  }

  lemma BetweenIsSame(services: seq<Service>, i: nat, j: nat, k: nat)
    requires Grouped(services) && i < j < k < |services|
    ensures services[i].plugin == services[k].plugin ==> services[j].plugin == services[i].plugin
  {
  }

  lemma LeadDoesNotReturn(services: seq<Service>, i: nat)
    requires services != [] && Grouped(services) && Lead(services) + i < |services|
    ensures services[Lead(services) + i].plugin != services[0].plugin
  {
    hide Grouped;
    var lead := Lead(services);
    hide Lead;
    if i > 0 {
      BetweenIsSame(services, 0, lead, lead + i);
    }
  }

  lemma JoinedIsGrouped(first: seq<Service>, rest: seq<Service>, plugin: string, i: nat, j: nat, k: nat)
    requires forall m | 0 <= m < |first| :: first[m].plugin == plugin
    requires forall m | 0 <= m < |rest| :: rest[m].plugin != plugin
    requires Grouped(rest) && i < j < k < |first + rest| && (first + rest)[i].plugin == (first + rest)[k].plugin
    ensures (first + rest)[j].plugin == (first + rest)[i].plugin
  {
    hide Grouped;
    if k >= |first| {
      assert (first + rest)[k] == rest[k - |first|];
      if i >= |first| {
        BetweenIsSame(rest, i - |first|, j - |first|, k - |first|);
      }
    }
  }

  lemma JoiningKeepsGrouped(first: seq<Service>, rest: seq<Service>, plugin: string)
    requires forall m | 0 <= m < |first| :: first[m].plugin == plugin
    requires forall m | 0 <= m < |rest| :: rest[m].plugin != plugin
    requires Grouped(rest)
    ensures Grouped(first + rest)
  {
    var all := first + rest;
    forall i, j, k | 0 <= i < j < k < |all| && all[i].plugin == all[k].plugin
      ensures all[j].plugin == all[i].plugin
    {
      JoinedIsGrouped(first, rest, plugin, i, j, k);
    }
  }

  lemma LeadIsAlone(services: seq<Service>)
    requires services != [] && Grouped(services)
    ensures services[0].plugin !in PluginsOf(services[Lead(services)..])
  {
    hide Grouped;
    var rest := services[Lead(services)..];
    forall i | 0 <= i < |rest|
      ensures rest[i].plugin != services[0].plugin
    {
      LeadDoesNotReturn(services, i);
    }
  }

  lemma AbsentPlugin(services: seq<Service>, plugin: string)
    requires plugin !in PluginsOf(services)
    ensures forall m | 0 <= m < |services| :: services[m].plugin != plugin
  {
  }

  lemma GroupedFromParts(services: seq<Service>)
    requires services != []
    requires Grouped(services[Lead(services)..]) && services[0].plugin !in PluginsOf(services[Lead(services)..])
    ensures Grouped(services)
  {
    hide Grouped, PluginsOf;
    var lead := Lead(services);
    hide Lead;
    AbsentPlugin(services[lead..], services[0].plugin);
    JoiningKeepsGrouped(services[..lead], services[lead..], services[0].plugin);
    assert services[..lead] + services[lead..] == services;
  }

  lemma GroupedSplits(services: seq<Service>)
    requires services != []
    ensures var rest := services[Lead(services)..];
            Grouped(services) <==> Grouped(rest) && services[0].plugin !in PluginsOf(rest)
  {
    hide *;
    var lead := Lead(services);
    if Grouped(services) {
      GroupedRest(services, lead);
      LeadIsAlone(services);
    }
    if Grouped(services[lead..]) && services[0].plugin !in PluginsOf(services[lead..]) {
      GroupedFromParts(services);
    }
  }

  lemma GroupedRest(services: seq<Service>, from: nat)
    requires from <= |services| && Grouped(services)
    ensures Grouped(services[from..])
  {
    var rest := services[from..];
    forall i, j, k | 0 <= i < j < k < |rest| && rest[i].plugin == rest[k].plugin
      ensures rest[j].plugin == rest[i].plugin
    {
      assert rest[i] == services[from + i] && rest[j] == services[from + j] && rest[k] == services[from + k];
    }
  }

  /** No plugin is called twice exactly when the services are grouped by plugin. */
  lemma {:induction false} NoPluginIsCalledTwice(services: seq<Service>)
    ensures Grouped(services) <==> Distinct(Groups(services))
  {
    if services != [] {
      var rest := services[Lead(services)..];
      GroupedSplits(services);
      NoPluginIsCalledTwice(rest);
      DistinctSplits(services[..Lead(services)], Groups(rest), PluginsOf(rest), rest);
    }
  }

  lemma DistinctSplits(first: seq<Service>, groups: seq<seq<Service>>, plugins: set<string>, rest: seq<Service>)
    requires first != [] && groups == Groups(rest) && plugins == PluginsOf(rest)
    ensures Distinct([first] + groups) <==> Distinct(groups) && first[0].plugin !in plugins
  {
    var all := [first] + groups;
    assert forall g | 0 <= g < |groups| :: all[g + 1] == groups[g];
    forall g | 0 <= g < |groups|
      ensures groups[g] != [] && groups[g][0].plugin in plugins
    {
      GroupsAreRuns(rest, g);
    }
    if first[0].plugin in plugins {
      EveryPluginHasAGroup(rest, first[0].plugin);
      var g :| 0 <= g < |groups| && groups[g] != [] && groups[g][0].plugin == first[0].plugin;
      assert all[0][0].plugin == all[g + 1][0].plugin;
    }
    if Distinct(all) {
      forall g, h | 0 <= g < h < |groups| && groups[g] != [] && groups[h] != []
        ensures groups[g][0].plugin != groups[h][0].plugin
      {
        assert all[g + 1] == groups[g] && all[h + 1] == groups[h];
      }
    }
  }

  lemma {:induction false} OfNothing(services: seq<Service>, plugin: string)
    requires plugin !in PluginsOf(services)
    ensures Of(services, plugin) == []
  {
    if services != [] {
      assert services[0].plugin in PluginsOf(services);
      assert forall i | 0 <= i < |services[1..]| :: services[1..][i] == services[i + 1];
      OfNothing(services[1..], plugin);
    }
  }

  lemma {:induction false} OfLead(services: seq<Service>, lead: nat, plugin: string)
    requires lead <= |services| && forall i | 0 <= i < lead :: services[i].plugin == plugin
    ensures Of(services, plugin) == services[..lead] + Of(services[lead..], plugin)
  {
    if lead > 0 {
      OfLead(services[1..], lead - 1, plugin);
      assert services[1..][lead - 1..] == services[lead..];
      assert [services[0]] + services[1..][..lead - 1] == services[..lead];
    } else {
      assert services[0..] == services && services[..0] == [];
    }
  }

  lemma {:induction false} OfSkips(services: seq<Service>, lead: nat, plugin: string)
    requires lead <= |services| && forall i | 0 <= i < lead :: services[i].plugin != plugin
    ensures Of(services, plugin) == Of(services[lead..], plugin)
  {
    if lead > 0 {
      OfSkips(services[1..], lead - 1, plugin);
      assert services[1..][lead - 1..] == services[lead..];
    } else {
      assert services[0..] == services;
    }
  }

  /** With grouped services each call carries exactly the services of its plugin, in their order. */
  lemma {:induction false} EachCallCarriesItsServices(services: seq<Service>, g: nat)
    requires Grouped(services) && g < |Groups(services)|
    ensures Groups(services)[g] != []
    ensures Groups(services)[g] == Of(services, Groups(services)[g][0].plugin)
  {
    hide Grouped, PluginsOf, Of;
    var lead := Lead(services);
    var rest := services[lead..];
    GroupedSplits(services);
    if g == 0 {
      OfLead(services, lead, services[0].plugin);
      OfNothing(rest, services[0].plugin);
    } else {
      GroupsAreRuns(rest, g - 1);
      EachCallCarriesItsServices(rest, g - 1);
      OfSkips(services, lead, Groups(services)[g][0].plugin);
    }
  }

  // ---------------------------------------------------------------------------------------------
  // Rendering
  // ---------------------------------------------------------------------------------------------

  function Ports(services: seq<Service>, ports: map<string, nat>): map<string, nat> {
    if services == [] then map[]
    else
      var back := services[|services| - 1];
      var front := Ports(services[..|services| - 1], ports);
      if back.id in ports then front[back.id := ports[back.id]] else front
  }

  function TargetFor(endpoint: Endpoint, services: seq<Service>, plugin: string): Target {
    Target(endpoint.id, endpoint.details,
           if plugin in endpoint.overrides then Ports(services, endpoint.overrides[plugin]) else map[])
  }

  function RequestFor(input: Input, services: seq<Service>): Request
    requires services != []
  {
    var bound := seq(|services|, i requires 0 <= i < |services| => Bound(services[i].id, services[i].displayName));
    var targets := seq(|input.endpoints|, i requires 0 <= i < |input.endpoints| =>
      TargetFor(input.endpoints[i], services, services[0].plugin));
    Request(input.authorization, input.node, bound, targets)
  }

  /** The request asks for the services of a group, for this authorization and node, at these endpoints; an endpoint
      carries exactly the ports it overrides for services of the group. */
  ghost predicate Asks(request: Request, authorization: string, node: string, endpoints: seq<Endpoint>, group: seq<Service>)
    requires group != []
  {
    && request.authorization == authorization && request.node == node
    && |request.services| == |group|
    && (forall i | 0 <= i < |group| ::
          request.services[i].id == group[i].id && request.services[i].displayName == group[i].displayName)
    && |request.endpoints| == |endpoints|
    && (forall j | 0 <= j < |endpoints| ::
          && request.endpoints[j].id == endpoints[j].id && request.endpoints[j].details == endpoints[j].details
          && OverridesOf(request.endpoints[j].ports, endpoints[j], group))
  }

  predicate Lists(services: seq<Service>, id: string) {
    exists i :: 0 <= i < |services| && services[i].id == id
  }

  ghost predicate OverridesOf(ports: map<string, nat>, endpoint: Endpoint, group: seq<Service>)
    requires group != []
  {
    && (forall id :: id in ports <==>
          && Lists(group, id) && group[0].plugin in endpoint.overrides && id in endpoint.overrides[group[0].plugin])
    && (forall id | id in ports :: ports[id] == endpoint.overrides[group[0].plugin][id])
  }

  lemma {:induction false} PortsAreOverrides(services: seq<Service>, ports: map<string, nat>)
    ensures forall id :: id in Ports(services, ports) <==> id in ports && Lists(services, id)
    ensures forall id | id in Ports(services, ports) :: Ports(services, ports)[id] == ports[id]
  {
    if services != [] {
      var front, back := services[..|services| - 1], services[|services| - 1];
      PortsAreOverrides(front, ports);
      forall id
        ensures Lists(services, id) <==> id == back.id || Lists(front, id)
      {
        assert forall i | 0 <= i < |front| :: front[i] == services[i];
        assert services[|services| - 1].id == back.id;
      }
    }
  }

  /** What a plugin is asked. */
  lemma RequestAsks(input: Input, group: seq<Service>)
    requires group != []
    ensures Asks(RequestFor(input, group), input.authorization, input.node, input.endpoints, group)
  {
    var request := RequestFor(input, group);
    forall j | 0 <= j < |input.endpoints|
      ensures OverridesOf(request.endpoints[j].ports, input.endpoints[j], group)
    {
      var endpoint := input.endpoints[j];
      if group[0].plugin in endpoint.overrides {
        PortsAreOverrides(group, endpoint.overrides[group[0].plugin]);
      }
    }
  }

  /** Nothing else is asked: two requests for the same are the same. */
  lemma AskedOnce(a: Request, b: Request, authorization: string, node: string, endpoints: seq<Endpoint>, group: seq<Service>)
    requires group != [] && Asks(a, authorization, node, endpoints, group) && Asks(b, authorization, node, endpoints, group)
    ensures a == b
  {
    assert a.services == b.services;
    forall j | 0 <= j < |endpoints|
      ensures a.endpoints[j] == b.endpoints[j]
    {
      assert a.endpoints[j].ports == b.endpoints[j].ports;
    }
    assert a.endpoints == b.endpoints;
  }

  /** A request, and the plugin it is for. */
  datatype Call = Call(plugin: string, request: Request)

  /** Call g asks the plugin of group g for the services of that group. */
  ghost predicate CallsEach(calls: seq<Call>, authorization: string, node: string, endpoints: seq<Endpoint>,
                            groups: seq<seq<Service>>)
  {
    && |calls| == |groups|
    && forall g | 0 <= g < |groups| ::
         && groups[g] != [] && calls[g].plugin == groups[g][0].plugin
         && Asks(calls[g].request, authorization, node, endpoints, groups[g])
  }

  /** What the plugins answer to the calls, in order. */
  function AnswersTo(plugins: Plugins, input: Input, calls: seq<Call>): seq<Contribution> {
    if calls == [] then []
    else
      AnswersTo(plugins, input, calls[..|calls| - 1])
      + plugins(input, calls[|calls| - 1].plugin, calls[|calls| - 1].request)
  }

  lemma OneMoreAnswer(plugins: Plugins, input: Input, calls: seq<Call>, call: Call)
    ensures AnswersTo(plugins, input, calls + [call]) == AnswersTo(plugins, input, calls) + plugins(input, call.plugin, call.request)
  {
    assert (calls + [call])[..|calls|] == calls;
  }

  lemma CallsOneMore(calls: seq<Call>, call: Call, authorization: string, node: string, endpoints: seq<Endpoint>,
                     groups: seq<seq<Service>>, group: seq<Service>)
    requires CallsEach(calls, authorization, node, endpoints, groups) && group != [] && call.plugin == group[0].plugin
    requires Asks(call.request, authorization, node, endpoints, group)
    ensures CallsEach(calls + [call], authorization, node, endpoints, groups + [group])
  {
    hide Asks;
  }

  /** What the plugins contribute for an input, group by group. */
  function Answers(plugins: Plugins, input: Input, services: seq<Service>): seq<Contribution> {
    if services == [] then []
    else
      var group := services[..Lead(services)];
      plugins(input, group[0].plugin, RequestFor(input, group)) + Answers(plugins, input, services[Lead(services)..])
  }

  /** The document an input renders to, if its contributions can be aggregated. */
  function Rendering(plugins: Plugins, canonical: Canonical, limit: nat, input: Input): Option<Document> {
    var answers := Answers(plugins, input, input.services);
    if Aggregable(answers, canonical, limit) then Some(Aggregated(answers, canonical)) else None
  }

  lemma {:induction false} MaskedServices(services: seq<Service>)
    ensures |Masked(services)| == |services|
    ensures forall i | 0 <= i < |services| :: Masked(services)[i] == services[i].(ready := true)
  {
    if services != [] {
      MaskedServices(services[1..]);
    }
  }

  /** A render is cached for exactly this authorization, node, endpoints and services; whether the services are up makes
      no difference to it. */
  lemma InputsAgreeExactlyWhen(a: Snapshot, b: Snapshot)
    ensures InputOf(a) == InputOf(b) <==>
      && a.authorization == b.authorization && a.updatedAt == b.updatedAt && a.node == b.node && a.endpoints == b.endpoints
      && |a.services| == |b.services|
      && forall i | 0 <= i < |a.services| ::
           a.services[i].plugin == b.services[i].plugin && a.services[i].id == b.services[i].id
           && a.services[i].displayName == b.services[i].displayName && a.services[i].details == b.services[i].details
  {
    MaskedServices(a.services);
    MaskedServices(b.services);
    if Masked(a.services) == Masked(b.services) {
      assert forall i | 0 <= i < |a.services| :: Masked(a.services)[i] == Masked(b.services)[i];
    }
  }

  lemma {:induction false} ReadyServices(services: seq<Service>)
    requires forall i | 0 <= i < |services| :: services[i].ready
    ensures Masked(services) == services
  {
    MaskedServices(services);
  }

  /** The end of the run of services that starts at an index. */
  method RunEnd(services: seq<Service>, start: nat) returns (end: nat)
    requires start < |services|
    ensures start < end <= |services| && end - start == Lead(services[start..])
  {
    end := start + 1;
    while end < |services| && services[end].plugin == services[start].plugin
      invariant start < end <= |services|
      invariant forall i | start <= i < end :: services[i].plugin == services[start].plugin
    {
      end := end + 1;
    }
    LeadIsRun(services[start..], end - start);
  }

  method AllReady(services: seq<Service>) returns (ready: bool)
    ensures ready <==> forall i | 0 <= i < |services| :: services[i].ready
  {
    for index := 0 to |services|
      invariant forall i | 0 <= i < index :: services[i].ready
    {
      if !services[index].ready {
        return false;
      }
    }
    return true;
  }

  ghost predicate Up(services: seq<Service>, answering: string -> bool) {
    forall i | 0 <= i < |services| :: services[i].ready && answering(services[i].plugin)
  }

  lemma AnswersSplit(plugins: Plugins, input: Input, services: seq<Service>, start: nat, end: nat)
    requires start < end <= |services| && end - start == Lead(services[start..])
    ensures Answers(plugins, input, services[start..])
         == plugins(input, services[start].plugin, RequestFor(input, services[start..end]))
            + Answers(plugins, input, services[end..])
  {
    hide RequestFor, Lead;
    assert services[start..][..end - start] == services[start..end];
    assert services[start..][end - start..] == services[end..];
  }

  lemma GroupsSplit(services: seq<Service>, start: nat, end: nat)
    requires start < end <= |services| && end - start == Lead(services[start..])
    ensures Groups(services[start..]) == [services[start..end]] + Groups(services[end..])
  {
    assert services[start..][..end - start] == services[start..end];
    assert services[start..][end - start..] == services[end..];
  }

  /** Calls each plugin for its group of services; any service that is down or any failing call fails all. On success
      each group was asked for by one call, and the contributions are the answers to those calls. */
  method CallPlugins(services: seq<Service>, input: Input, plugins: Plugins, answering: string -> bool)
    returns (contributions: Option<seq<Contribution>>, ghost calls: seq<Call>)
    ensures contributions.Some? <==> Up(services, answering)
    ensures contributions.Some? ==> contributions.value == Answers(plugins, input, services)
    ensures contributions.Some? ==> contributions.value == AnswersTo(plugins, input, calls)
    ensures contributions.Some? ==> CallsEach(calls, input.authorization, input.node, input.endpoints, Groups(services))
  {
    hide Answers, RequestFor, Groups, CallsEach, AnswersTo, Asks;
    var collected: seq<Contribution> := [];
    calls := [];
    ghost var groups: seq<seq<Service>> := [];
    NoCalls(plugins, input);
    var start := 0;
    while start < |services|
      invariant start <= |services| && forall i | 0 <= i < start :: services[i].ready && answering(services[i].plugin)
      invariant Answers(plugins, input, services) == collected + Answers(plugins, input, services[start..])
      invariant Groups(services) == groups + Groups(services[start..])
      invariant collected == AnswersTo(plugins, input, calls)
      invariant CallsEach(calls, input.authorization, input.node, input.endpoints, groups)
    {
      var end := RunEnd(services, start);
      AnswersSplit(plugins, input, services, start, end);
      GroupsSplit(services, start, end);
      LeadingPlugin(services, start, end);
      var group := services[start..end];
      var ready := AllReady(group);
      if !ready || !answering(group[0].plugin) {
        DownSomewhere(services, start, end, answering);
        return None, calls;
      }
      assert forall i | start <= i < end :: services[i] == group[i - start];
      var request := RequestFor(input, group);
      RequestAsks(input, group);
      collected := collected + plugins(input, group[0].plugin, request);
      OneMoreAnswer(plugins, input, calls, Call(group[0].plugin, request));
      CallsOneMore(calls, Call(group[0].plugin, request), input.authorization, input.node, input.endpoints, groups, group);
      calls, groups := calls + [Call(group[0].plugin, request)], groups + [group];
      start := end;
    }
    assert services[start..] == [];
    NoAnswers(plugins, input);
    assert groups + [] == groups;
    return Some(collected), calls;
  }

  lemma NoCalls(plugins: Plugins, input: Input)
    ensures AnswersTo(plugins, input, []) == []
    ensures CallsEach([], input.authorization, input.node, input.endpoints, [])
  {
  }

  lemma LeadingPlugin(services: seq<Service>, start: nat, end: nat)
    requires start < end <= |services| && end - start == Lead(services[start..])
    ensures forall i | start <= i < end :: services[i].plugin == services[start].plugin
  {
    forall i | start <= i < end
      ensures services[i].plugin == services[start].plugin
    {
      assert services[i] == services[start..][i - start];
    }
  }

  lemma DownSomewhere(services: seq<Service>, start: nat, end: nat, answering: string -> bool)
    requires start < end <= |services| && !Up(services[start..end], answering)
    ensures !Up(services, answering)
  {
    var i :| 0 <= i < end - start && !(services[start..end][i].ready && answering(services[start..end][i].plugin));
    assert services[start + i] == services[start..end][i];
  }

  lemma NoAnswers(plugins: Plugins, input: Input)
    ensures Answers(plugins, input, []) == [] && Groups([]) == []
  {
  }

  /** The document is what the answers to the calls aggregate to. */
  ghost predicate Renders(plugins: Plugins, input: Input, calls: seq<Call>, canonical: Canonical, limit: nat, document: Document) {
    var answers := AnswersTo(plugins, input, calls);
    Aggregable(answers, canonical, limit) && document == Aggregated(answers, canonical)
  }

  /** Not too many services, a runtime to reach their plugins through if there are any, and all of them up. */
  ghost predicate Reachable(services: seq<Service>, maximum: nat, runtime: Runtime) {
    |services| <= maximum && (services != [] ==> runtime.Runtime? && Up(services, runtime.answering))
  }

  /** Renders a snapshot exactly when its plugins can be reached and their contributions aggregated. The plugins were
      asked for exactly the services of the snapshot. */
  method RenderSnapshot(snapshot: Snapshot, plugins: Plugins, canonical: Canonical, limit: nat, maximum: nat, runtime: Runtime)
    returns (document: Option<Document>, ghost calls: seq<Call>)
    ensures document == if Reachable(snapshot.services, maximum, runtime)
                        then Rendering(plugins, canonical, limit, InputOf(snapshot)) else None
    ensures document.Some? ==>
      && CallsEach(calls, snapshot.authorization, snapshot.node, snapshot.endpoints, Groups(snapshot.services))
      && Renders(plugins, InputOf(snapshot), calls, canonical, limit, document.value)
  {
    hide Aggregable, Aggregated, Answers, Groups, CallsEach, AnswersTo;
    calls := [];
    if |snapshot.services| > maximum {
      return None, calls;
    }
    if |snapshot.services| > 0 && runtime.NoRuntime? {
      return None, calls;
    }
    var input := InputOf(snapshot);
    var answering := if runtime.Runtime? then runtime.answering else _ => false;
    var contributions;
    contributions, calls := CallPlugins(snapshot.services, input, plugins, answering);
    if contributions.None? {
      return None, calls;
    }
    ReadyServices(snapshot.services);
    document := AggregateSubscription(contributions.value, canonical, limit);
  }

  lemma LeadIsRun(services: seq<Service>, lead: nat)
    requires 1 <= lead <= |services| && forall i | 0 <= i < lead :: services[i].plugin == services[0].plugin
    requires lead < |services| ==> services[lead].plugin != services[0].plugin
    ensures Lead(services) == lead
  {
  }

  // ---------------------------------------------------------------------------------------------
  // The cache
  // ---------------------------------------------------------------------------------------------

  datatype Key = Key(authorization: string, format: Format)

  datatype Row = Row(content: seq<string>, renderedAt: int, input: Input)

  datatype Cached = Cached(document: Document, renderedAt: int)

  datatype Response = Response(content: seq<string>, renderedAt: int, cached: bool)

  datatype Failure = Inactive | Unavailable | Storage

  function Part(document: Document, format: Format): seq<string> {
    match format
    case Base64 => document.uris
    case MihomoYaml => document.mihomo
    case SingBoxJson => document.singBox
  }

  predicate Within(renderedAt: int, now: int, age: int) {
    renderedAt <= now && now - renderedAt <= age
  }

  /** A row holds its part of what its input renders to. */
  predicate TrueRow(row: Row, format: Format, plugins: Plugins, canonical: Canonical, limit: nat) {
    var document := Rendering(plugins, canonical, limit, row.input);
    document.Some? && row.content == Part(document.value, format)
  }

  class Cache {
    const plugins: Plugins
    const canonical: Canonical
    const limit: nat
    const maximum: nat
    var rows: map<Key, Row>

    ghost predicate Valid()
      reads this
    {
      && (forall key | key in rows :: TrueRow(rows[key], key.format, plugins, canonical, limit))
      && (forall key, format: Format | key in rows ::
            Key(key.authorization, format) in rows && rows[Key(key.authorization, format)].renderedAt == rows[key].renderedAt
            && rows[Key(key.authorization, format)].input == rows[key].input)
    }

    /** The cache holds a render of the input that is not older than `age`. */
    predicate Usable(authorization: string, input: Input, now: int, age: int)
      reads this
    {
      var key := Key(authorization, Base64);
      key in rows && rows[key].input == input && Within(rows[key].renderedAt, now, age)
    }

    /** The snapshot can be rendered now. */
    ghost predicate Renderable(snapshot: Snapshot, runtime: Runtime)
      reads this
    {
      Reachable(snapshot.services, maximum, runtime) && Rendering(plugins, canonical, limit, InputOf(snapshot)).Some?
    }

    constructor (plugins: Plugins, canonical: Canonical, limit: nat, maximum: nat)
      ensures Valid() && rows == map[] && this.plugins == plugins && this.canonical == canonical
      ensures this.limit == limit && this.maximum == maximum
    {
      this.plugins, this.canonical, this.limit, this.maximum, rows := plugins, canonical, limit, maximum, map[];
    }

    /** Stores the three formats of one render. */
    method Save(authorization: string, document: Document, renderedAt: int, input: Input)
      requires Valid() && Rendering(plugins, canonical, limit, input) == Some(document)
      modifies this`rows
      ensures Valid()
      ensures forall format: Format ::
        Key(authorization, format) in rows
        && rows[Key(authorization, format)] == Row(Part(document, format), renderedAt, input)
      ensures forall key: Key | key.authorization != authorization ::
        (key in rows <==> key in old(rows)) && (key in rows ==> rows[key] == old(rows)[key])
    {
      hide Rendering;
      var formats := [Base64, MihomoYaml, SingBoxJson];
      var transaction := rows;
      for index := 0 to |formats|
        invariant forall i | 0 <= i < index ::
          Key(authorization, formats[i]) in transaction
          && transaction[Key(authorization, formats[i])] == Row(Part(document, formats[i]), renderedAt, input)
        invariant forall key: Key | key.authorization != authorization ::
          (key in transaction <==> key in rows) && (key in transaction ==> transaction[key] == rows[key])
      {
        transaction := transaction[Key(authorization, formats[index]) := Row(Part(document, formats[index]), renderedAt, input)];
      }
      forall format: Format
        ensures Key(authorization, format) in transaction
        ensures transaction[Key(authorization, format)] == Row(Part(document, format), renderedAt, input)
      {
        assert formats[0] == Base64 && formats[1] == MihomoYaml && formats[2] == SingBoxJson;
        match format
        case Base64 =>
        case MihomoYaml =>
        case SingBoxJson =>
      }
      ghost var before := rows;
      rows := transaction;
      forall key | key in rows
        ensures TrueRow(rows[key], key.format, plugins, canonical, limit)
      {
        assert key.authorization != authorization ==> TrueRow(before[key], key.format, plugins, canonical, limit);
        assert key.authorization == authorization ==> key == Key(authorization, key.format);
      }
    }

    /** Reads the formats stored for an input; they must all be there and of one time. */
    method Load(authorization: string, input: Input) returns (cached: Option<Cached>)
      requires Valid()
      ensures cached.Some? <==> Key(authorization, Base64) in rows && rows[Key(authorization, Base64)].input == input
      ensures cached.Some? ==>
        && Rendering(plugins, canonical, limit, input) == Some(cached.value.document)
        && cached.value.renderedAt == rows[Key(authorization, Base64)].renderedAt
    {
      hide Rendering;
      var formats := [Base64, MihomoYaml, SingBoxJson];
      var contents: map<Format, seq<string>> := map[];
      var renderedAt := 0;
      for index := 0 to |formats|
        invariant forall i | 0 <= i < index ::
          var key := Key(authorization, formats[i]);
          formats[i] in contents <==> key in rows && rows[key].input == input
        invariant forall format | format in contents ::
          var key := Key(authorization, format);
          key in rows && rows[key].input == input && contents[format] == rows[key].content && renderedAt == rows[key].renderedAt
        invariant forall i | index <= i < |formats| :: formats[i] !in contents
        invariant contents == map[] ==> renderedAt == 0
      {
        var key := Key(authorization, formats[index]);
        if key in rows && rows[key].input == input {
          assert forall format | format in contents :: rows[Key(authorization, format)].renderedAt == rows[key].renderedAt;
          if renderedAt != 0 && renderedAt != rows[key].renderedAt {
            return None;
          }
          renderedAt := rows[key].renderedAt;
          contents := contents[formats[index] := rows[key].content];
        }
      }
      assert formats[0] == Base64 && formats[1] == MihomoYaml && formats[2] == SingBoxJson;
      if Base64 !in contents || MihomoYaml !in contents || SingBoxJson !in contents {
        return None;
      }
      return Some(Cached(Document(contents[Base64], contents[MihomoYaml], contents[SingBoxJson]), renderedAt));
    }

    /** Answers a request for a subscription, from the cache if it is fresh, by rendering, or from the cache if the
        plugins fail and it is not too old. A cache that cannot be read, or a render that cannot be stored, is an
        error even when an older render could be returned. */
    method RenderSubscription(snapshot: Snapshot, format: Format, now: int, runtime: Runtime, readable: bool, writable: bool)
      returns (response: Option<Response>, failure: Option<Failure>, ghost calls: seq<Call>)
      requires Valid()
      modifies this`rows
      ensures Valid() && (response.Some? <==> failure.None?)
      ensures failure == Some(Inactive) <==> !Active(snapshot, now)
      ensures response.Some? ==>
        && Rendering(plugins, canonical, limit, InputOf(snapshot)).Some?
        && response.value.content == Part(Rendering(plugins, canonical, limit, InputOf(snapshot)).value, format)
        && response.value.renderedAt <= now <= response.value.renderedAt + 86400
      ensures failure == Some(Unavailable) <==>
        (Active(snapshot, now) && readable && !old(Usable(snapshot.authorization, InputOf(snapshot), now, 86400))
         && !Renderable(snapshot, runtime))
      ensures failure == Some(Storage) <==>
        (Active(snapshot, now)
         && (!readable || (!old(Usable(snapshot.authorization, InputOf(snapshot), now, 300))
                           && Renderable(snapshot, runtime) && !writable)))
      ensures response.Some? ==>
        (response.value.cached <==> old(Usable(snapshot.authorization, InputOf(snapshot), now, 300))
                                    || !Renderable(snapshot, runtime))
      ensures response.None? || response.value.cached ==> rows == old(rows)
      ensures response.Some? && !response.value.cached ==>
        response.value.renderedAt == now && Usable(snapshot.authorization, InputOf(snapshot), now, 0)
      ensures response.Some? && !response.value.cached ==>
        && CallsEach(calls, snapshot.authorization, snapshot.node, snapshot.endpoints, Groups(snapshot.services))
        && exists document :: Renders(plugins, InputOf(snapshot), calls, canonical, limit, document)
                              && response.value.content == Part(document, format)
    {
      hide Rendering, InputOf, Reachable, CallsEach, Groups, Renders;
      calls := [];
      InUseExactlyWhenActive(snapshot, now);
      if StatusOf(snapshot, now) != InUse {
        return None, Some(Inactive), calls;
      }
      var input := InputOf(snapshot);
      if !readable {
        return None, Some(Storage), calls;
      }
      var cached := Load(snapshot.authorization, input);
      if cached.Some? && Within(cached.value.renderedAt, now, FRESH) {
        return Some(Response(Part(cached.value.document, format), cached.value.renderedAt, true)), None, calls;
      }
      var document;
      document, calls := RenderSnapshot(snapshot, plugins, canonical, limit, maximum, runtime);
      if document.Some? {
        if !writable {
          return None, Some(Storage), calls;
        }
        Save(snapshot.authorization, document.value, now, input);
        return Some(Response(Part(document.value, format), now, false)), None, calls;
      }
      if cached.Some? && Within(cached.value.renderedAt, now, MAX_AGE) {
        return Some(Response(Part(cached.value.document, format), cached.value.renderedAt, true)), None, calls;
      }
      return None, Some(Unavailable), calls;
    }
  }
}
