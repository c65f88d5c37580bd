/** The Windows network policy: a state file written ahead of every change to routes, DNS servers and firewall
    rules, and a recovery that undoes what the file records. An operation is a list of effects, each of them
    atomic; a crash may come between any two. */
module NetworkPolicies {
  import opened Prelude

  type Address = nat
  const ANY: Address := 0

  /** A setting of one's own has servers in it; without any, the interface is reset. */
  type OwnServers = s: seq<Address> | s != [] witness [0]

  datatype Prefix = LowHalf | HighHalf | Host(address: Address)
  datatype Route = Route(prefix: Prefix, interface: nat, nextHop: Address, metric: nat)
  datatype RuleKind = Ipv6 | DnsUdp | DnsTcp
  datatype RuleName = Ours(kind: RuleKind, identifier: nat) | Foreign(number: nat)
  datatype Rule = Rule(name: RuleName, aliases: seq<nat>)

  /** `dns` holds the interfaces with servers of their own; the others use what the network gives them. */
  datatype System = System(routes: set<Route>, dns: map<nat, OwnServers>, rules: set<Rule>)

  datatype EndpointRoute = EndpointRoute(interface: nat, nextHop: Address, created: bool)
  datatype Tunnel = Tunnel(interface: nat, lowCreated: bool, highCreated: bool, dnsBefore: seq<Address>)
  datatype State = State(endpoint: Address, route: EndpointRoute, active: bool, tunnel: Option<Tunnel>,
                         rules: seq<RuleName>)
  datatype World = World(system: System, file: Option<State>)

  /** What the commands find outside the tables: the physical default route, the adapter, the servers
      on offer and the other physical adapters. */
  datatype Env = Env(gateway: Option<(nat, Address)>, adapter: nat, offered: Offered, aliases: seq<nat>)

  /** The servers each network offers its interface. */
  type Offered = map<nat, seq<Address>>

  datatype Effect =
    | Write(state: State)
    | Unlink
    | AddRoute(route: Route)
    | RemoveRoutes(prefix: Prefix, interface: nat, nextHop: Address)
    | SetDns(index: nat, servers: OwnServers)
    | ResetDns(index: nat)
    | AddRule(rule: Rule)
    | RemoveRules(name: RuleName)

  predicate Matches(r: Route, prefix: Prefix, interface: nat, nextHop: Address) {
    r.prefix == prefix && r.interface == interface && r.nextHop == nextHop
  }

  predicate HasRoute(s: System, prefix: Prefix, interface: nat, nextHop: Address) {
    exists r | r in s.routes :: Matches(r, prefix, interface, nextHop)
  }

  /** The servers an interface asks. */
  function Servers(s: System, offered: Offered, interface: nat): seq<Address> {
    if interface in s.dns then s.dns[interface] else if interface in offered then offered[interface] else []
  }

  function Change(s: System, e: Effect): System {
    match e
    case AddRoute(route) => s.(routes := s.routes + {route})
    case RemoveRoutes(prefix, interface, nextHop) =>
      s.(routes := set r | r in s.routes && !Matches(r, prefix, interface, nextHop))
    case SetDns(index, servers) => s.(dns := s.dns[index := servers])
    case ResetDns(index) => s.(dns := s.dns - {index})
    case AddRule(rule) => s.(rules := s.rules + {rule})
    case RemoveRules(name) => s.(rules := set r | r in s.rules && r.name != name)
    case _ => s
  }

  function Apply(w: World, e: Effect): World {
    match e
    case Write(state) => w.(file := Some(state))
    case Unlink => w.(file := None)
    case _ => w.(system := Change(w.system, e))
  }

  function ApplyAll(w: World, plan: seq<Effect>): World
    decreases |plan|
  {
    if plan == [] then w else ApplyAll(Apply(w, plan[0]), plan[1..])
  }

  // ---- The operations as plans ----

  function When(condition: bool, e: Effect): seq<Effect> {
    if condition then [e] else []
  }

  function UndoDns(t: Tunnel): Effect {
    if t.dnsBefore != [] then SetDns(t.interface, t.dnsBefore) else ResetDns(t.interface)
  }

  function UndoTunnel(st: State): seq<Effect> {
    match st.tunnel
    case None => []
    case Some(t) =>
      When(t.lowCreated, RemoveRoutes(LowHalf, t.interface, ANY))
      + When(t.highCreated, RemoveRoutes(HighHalf, t.interface, ANY))
      + [UndoDns(t)]
  }

  function UndoEndpoint(st: State): seq<Effect> {
    When(st.route.created, RemoveRoutes(Host(st.endpoint), st.route.interface, st.route.nextHop))
  }

  function UndoRules(names: seq<RuleName>): seq<Effect> {
    if names == [] then [] else [RemoveRules(names[0])] + UndoRules(names[1..])
  }

  function UndoCommands(st: State): seq<Effect> {
    UndoTunnel(st) + UndoEndpoint(st) + UndoRules(st.rules)
  }

  function RecoverPlan(file: Option<State>): seq<Effect> {
    match file
    case None => []
    case Some(st) => UndoCommands(st) + [Unlink]
  }

  function EndpointState(s: System, endpoint: Address, gateway: (nat, Address)): State {
    State(endpoint, EndpointRoute(gateway.0, gateway.1, !HasRoute(s, Host(endpoint), gateway.0, gateway.1)), false,
          None, [])
  }

  function EndpointPlan(s: System, endpoint: Address, gateway: (nat, Address)): seq<Effect> {
    var st := EndpointState(s, endpoint, gateway);
    [Write(st)] + When(st.route.created, AddRoute(Route(Host(endpoint), gateway.0, gateway.1, 1)))
  }

  predicate Prepared(w: World, endpoint: Address) {
    w.file.Some? && w.file.value.endpoint == endpoint
  }

  /** Nothing for the same endpoint; else the old file is recovered first. Without a physical default route
      the command that looks for it fails after that. */
  function PreparePlan(w: World, endpoint: Address, env: Env): seq<Effect> {
    if Prepared(w, endpoint) then []
    else
      var recovery := RecoverPlan(w.file);
      recovery + match env.gateway
                 case None => []
                 case Some(gateway) => EndpointPlan(ApplyAll(w, recovery).system, endpoint, gateway)
  }

  function TunnelState(s: System, st: State, env: Env, identifier: nat): State {
    st.(tunnel := Some(Tunnel(env.adapter,
                              !HasRoute(s, LowHalf, env.adapter, ANY),
                              !HasRoute(s, HighHalf, env.adapter, ANY),
                              Servers(s, env.offered, env.adapter))),
        rules := [Ours(Ipv6, identifier), Ours(DnsUdp, identifier), Ours(DnsTcp, identifier)])
  }

  function TunnelCommands(t: Tunnel, env: Env, identifier: nat, tunnelDns: Address): seq<Effect> {
    When(t.lowCreated, AddRoute(Route(LowHalf, t.interface, ANY, 1)))
    + When(t.highCreated, AddRoute(Route(HighHalf, t.interface, ANY, 1)))
    + [SetDns(t.interface, [tunnelDns]), AddRule(Rule(Ours(Ipv6, identifier), []))]
    + When(env.aliases != [], AddRule(Rule(Ours(DnsUdp, identifier), env.aliases)))
    + When(env.aliases != [], AddRule(Rule(Ours(DnsTcp, identifier), env.aliases)))
  }

  predicate Fails(failAt: nat, commands: seq<Effect>) {
    failAt < |commands|
  }

  /** The commands run in one script, which stops at the first that fails; then everything is recovered. */
  function TunnelPlan(w: World, st: State, env: Env, identifier: nat, tunnelDns: Address, failAt: nat): seq<Effect> {
    var logged := TunnelState(w.system, st, env, identifier);
    var commands := TunnelCommands(logged.tunnel.value, env, identifier, tunnelDns);
    [Write(logged)]
    + if Fails(failAt, commands) then commands[..failAt] + RecoverPlan(Some(logged))
      else commands + [Write(logged.(active := true))]
  }

  function InstallPlan(w: World, endpoint: Address, env: Env, identifier: nat, tunnelDns: Address, failAt: nat)
    : seq<Effect>
  {
    var preparation := PreparePlan(w, endpoint, env);
    var w1 := ApplyAll(w, preparation);
    if Prepared(w1, endpoint)
    then preparation + TunnelPlan(w1, w1.file.value, env, identifier, tunnelDns, failAt)
    else preparation
  }

  // ---- What recovery achieves ----

  /** Routes and rules as they were, and every interface asks the same servers. */
  ghost predicate Restored(origin: System, s: System, offered: Offered) {
    s.routes == origin.routes && s.rules == origin.rules && forall i: nat ::
      Servers(s, offered, i) == Servers(origin, offered, i)
  }

  /** The tables after a recovery. */
  function Recovered(w: World): System {
    ApplyAll(w, RecoverPlan(w.file)).system
  }

  /** Recovery would restore the origin. */
  ghost predicate Recoverable(origin: System, w: World, offered: Offered) {
    Restored(origin, Recovered(w), offered)
  }

  /** The names a file would remove are not those of rules that were there before. */
  ghost predicate FreshNames(s: System, identifier: nat) {
    forall r, kind | r in s.rules :: r.name != Ours(kind, identifier)
  }

  function ChangeAll(s: System, plan: seq<Effect>): System
    decreases |plan|
  {
    if plan == [] then s else ChangeAll(Change(s, plan[0]), plan[1..])
  }

  predicate Command(e: Effect) {
    !e.Write? && !e.Unlink?
  }

  lemma {:induction false} CommandsChange(w: World, plan: seq<Effect>)
    requires forall i | 0 <= i < |plan| :: Command(plan[i])
    ensures ApplyAll(w, plan) == World(ChangeAll(w.system, plan), w.file)
    decreases |plan|
  {
    if plan != [] {
      assert Command(plan[0]);
      CommandsChange(Apply(w, plan[0]), plan[1..]);
    }
  }

  lemma {:induction false} ApplySplits(w: World, a: seq<Effect>, b: seq<Effect>)
    ensures ApplyAll(w, a + b) == ApplyAll(ApplyAll(w, a), b)
    decreases |a|
  {
    hide Apply;
    if a == [] {
      assert a + b == b;
    } else {
      assert (a + b)[1..] == a[1..] + b;
      ApplySplits(Apply(w, a[0]), a[1..], b);
    }
  }

  lemma {:induction false} ChangeSplits(s: System, a: seq<Effect>, b: seq<Effect>)
    ensures ChangeAll(s, a + b) == ChangeAll(ChangeAll(s, a), b)
    decreases |a|
  {
    hide Change;
    if a == [] {
      assert a + b == b;
    } else {
      assert (a + b)[1..] == a[1..] + b;
      ChangeSplits(Change(s, a[0]), a[1..], b);
    }
  }

  // ---- What a state undoes ----

  predicate Undoes(st: State, r: Route) {
    || (st.tunnel.Some? && st.tunnel.value.lowCreated && Matches(r, LowHalf, st.tunnel.value.interface, ANY))
    || (st.tunnel.Some? && st.tunnel.value.highCreated && Matches(r, HighHalf, st.tunnel.value.interface, ANY))
    || (st.route.created && Matches(r, Host(st.endpoint), st.route.interface, st.route.nextHop))
  }

  function DnsUndone(dns: map<nat, OwnServers>, tunnel: Option<Tunnel>): map<nat, OwnServers> {
    match tunnel
    case None => dns
    case Some(t) => if t.dnsBefore != [] then dns[t.interface := t.dnsBefore] else dns - {t.interface}
  }

  function RoutesLeft(routes: set<Route>, st: State): set<Route> {
    set r | r in routes && !Undoes(st, r)
  }

  function RulesLeft(rules: set<Rule>, names: seq<RuleName>): set<Rule> {
    set r | r in rules && r.name !in names
  }

  /** The system after recovery, table by table. */
  function Undone(s: System, st: State): System {
    System(RoutesLeft(s.routes, st), DnsUndone(s.dns, st.tunnel), RulesLeft(s.rules, st.rules))
  }

  lemma {:induction false} RulesUndone(s: System, names: seq<RuleName>)
    ensures ChangeAll(s, UndoRules(names)) == s.(rules := RulesLeft(s.rules, names))
    ensures forall i | 0 <= i < |UndoRules(names)| :: Command(UndoRules(names)[i])
    decreases |names|
  {
    if names == [] {
      assert RulesLeft(s.rules, names) == s.rules;
    } else {
      var s1 := Change(s, RemoveRules(names[0]));
      RulesUndone(s1, names[1..]);
      assert RulesLeft(s1.rules, names[1..]) == RulesLeft(s.rules, names);
    }
  }

  function Without(routes: set<Route>, condition: bool, prefix: Prefix, interface: nat, nextHop: Address): set<Route> {
    set r | r in routes && !(condition && Matches(r, prefix, interface, nextHop))
  }

  lemma RemovesWhen(s: System, condition: bool, prefix: Prefix, interface: nat, nextHop: Address)
    ensures ChangeAll(s, When(condition, RemoveRoutes(prefix, interface, nextHop)))
            == s.(routes := Without(s.routes, condition, prefix, interface, nextHop))
  {
    OneWhen(s, condition, RemoveRoutes(prefix, interface, nextHop));
    if !condition { assert Without(s.routes, condition, prefix, interface, nextHop) == s.routes; }
  }

  lemma TunnelUndone(s: System, st: State, t: Tunnel)
    requires st.tunnel == Some(t)
    ensures ChangeAll(s, UndoTunnel(st)) ==
              s.(routes := Without(Without(s.routes, t.lowCreated, LowHalf, t.interface, ANY),
                                   t.highCreated, HighHalf, t.interface, ANY),
                 dns := DnsUndone(s.dns, Some(t)))
  {
    hide Change, Without, When;
    var low, high := RemoveRoutes(LowHalf, t.interface, ANY), RemoveRoutes(HighHalf, t.interface, ANY);
    RemovesWhen(s, t.lowCreated, LowHalf, t.interface, ANY);
    var s1 := ChangeAll(s, When(t.lowCreated, low));
    RemovesWhen(s1, t.highCreated, HighHalf, t.interface, ANY);
    ChangeSplits(s, When(t.lowCreated, low), When(t.highCreated, high));
    ChangeSplits(s, When(t.lowCreated, low) + When(t.highCreated, high), [UndoDns(t)]);
    DnsStep(ChangeAll(s1, When(t.highCreated, high)), t);
  }

  lemma DnsStep(s: System, t: Tunnel)
    ensures ChangeAll(s, [UndoDns(t)]) == s.(dns := DnsUndone(s.dns, Some(t)))
  {
    assert [UndoDns(t)][1..] == [];
  }

  lemma RoutesUndone(s: System, st: State)
    ensures ChangeAll(s, UndoTunnel(st) + UndoEndpoint(st)) ==
              s.(routes := RoutesLeft(s.routes, st), dns := DnsUndone(s.dns, st.tunnel))
  {
    hide ChangeAll, DnsUndone, UndoTunnel;
    ChangeSplits(s, UndoTunnel(st), UndoEndpoint(st));
    var s1 := ChangeAll(s, UndoTunnel(st));
    if st.tunnel.None? {
      NoTunnelUndone(s, st);
    } else {
      TunnelUndone(s, st, st.tunnel.value);
    }
    RemovesWhen(s1, st.route.created, Host(st.endpoint), st.route.interface, st.route.nextHop);
    assert Without(s1.routes, st.route.created, Host(st.endpoint), st.route.interface, st.route.nextHop)
           == RoutesLeft(s.routes, st);
  }

  lemma NoTunnelUndone(s: System, st: State)
    requires st.tunnel.None?
    ensures ChangeAll(s, UndoTunnel(st)) == s && DnsUndone(s.dns, st.tunnel) == s.dns
  {
  }

  lemma UndoesByCommands(st: State)
    ensures forall i | 0 <= i < |UndoTunnel(st) + UndoEndpoint(st)| :: Command((UndoTunnel(st) + UndoEndpoint(st))[i])
  {
  }

  lemma OneWhen(s: System, condition: bool, e: Effect)
    ensures ChangeAll(s, When(condition, e)) == if condition then Change(s, e) else s
  {
    if condition { assert [e][1..] == []; }
  }

  /** Recovery undoes exactly what the file records, and removes the file. */
  lemma RecoverUndoes(w: World)
    requires w.file.Some?
    ensures ApplyAll(w, RecoverPlan(w.file)) == World(Undone(w.system, w.file.value), None)
    ensures ApplyAll(w, UndoCommands(w.file.value)) == World(Undone(w.system, w.file.value), w.file)
  {
    hide Change, Undoes, DnsUndone, UndoTunnel, UndoEndpoint, UndoRules;
    var st := w.file.value;
    var first := UndoTunnel(st) + UndoEndpoint(st);
    RoutesUndone(w.system, st);
    UndoesByCommands(st);
    var s1 := ChangeAll(w.system, first);
    RulesUndone(s1, st.rules);
    ChangeSplits(w.system, first, UndoRules(st.rules));
    CommandsChange(w, UndoCommands(st));
    ApplySplits(w, UndoCommands(st), [Unlink]);
    var w1 := ApplyAll(w, UndoCommands(st));
    assert ApplyAll(w1, [Unlink]) == Apply(w1, Unlink) by { assert [Unlink][1..] == []; }
  }

  lemma RecoveredMeans(w: World)
    ensures Recovered(w) == if w.file.Some? then Undone(w.system, w.file.value) else w.system
  {
    hide Undone, UndoCommands;
    if w.file.Some? { RecoverUndoes(w); }
  }

  /** Recoverability in terms of the tables. */
  lemma RecoverableMeans(origin: System, w: World, offered: Offered)
    ensures Recoverable(origin, w, offered) <==>
            Restored(origin, if w.file.Some? then Undone(w.system, w.file.value) else w.system, offered)
  {
    hide Undone, Restored, Recovered;
    RecoveredMeans(w);
  }

  /** An effect on the tables that recovery takes back. */
  ghost predicate Absorbed(st: State, e: Effect) {
    match e
    case AddRoute(route) => Undoes(st, route)
    case RemoveRoutes(prefix, interface, nextHop) => forall r | Matches(r, prefix, interface, nextHop) :: Undoes(st, r)
    case SetDns(index, _) => st.tunnel.Some? && st.tunnel.value.interface == index
    case ResetDns(index) => st.tunnel.Some? && st.tunnel.value.interface == index
    case AddRule(rule) => rule.name in st.rules
    case RemoveRules(name) => name in st.rules
    case _ => false
  }

  lemma AbsorbedUndone(s: System, st: State, e: Effect)
    requires Absorbed(st, e)
    ensures Undone(Change(s, e), st) == Undone(s, st)
  {
    var s1 := Change(s, e);
    assert Undone(s1, st).routes == Undone(s, st).routes;
    assert Undone(s1, st).rules == Undone(s, st).rules;
    if e.SetDns? || e.ResetDns? {
      assert DnsUndone(s1.dns, st.tunnel).Keys == DnsUndone(s.dns, st.tunnel).Keys;
      assert DnsUndone(s1.dns, st.tunnel) == DnsUndone(s.dns, st.tunnel);
    }
  }

  lemma {:induction false} AbsorbedAll(w: World, plan: seq<Effect>)
    requires w.file.Some? && forall i | 0 <= i < |plan| :: Absorbed(w.file.value, plan[i])
    ensures var w1 := ApplyAll(w, plan);
            w1.file == w.file && Undone(w1.system, w.file.value) == Undone(w.system, w.file.value)
    decreases |plan|
  {
    hide Absorbed, Undone, Change;
    if plan != [] {
      AbsorbedCommand(w.file.value, plan[0]);
      AbsorbedUndone(w.system, w.file.value, plan[0]);
      AbsorbedAll(Apply(w, plan[0]), plan[1..]);
    }
  }

  lemma AbsorbedCommand(st: State, e: Effect)
    requires Absorbed(st, e)
    ensures Command(e)
  {
  }

  lemma UndoIsAbsorbed(st: State)
    ensures forall i | 0 <= i < |UndoCommands(st)| :: Absorbed(st, UndoCommands(st)[i])
  {
    hide Matches;
    RuleUndoAbsorbed(st, st.rules);
  }

  lemma {:induction false} RuleUndoAbsorbed(st: State, names: seq<RuleName>)
    requires forall name | name in names :: name in st.rules
    ensures forall i | 0 <= i < |UndoRules(names)| :: Absorbed(st, UndoRules(names)[i])
  {
    hide Undoes, Matches;
    if names != [] {
      assert names[0] in names && forall name | name in names[1..] :: name in names;
      RuleUndoAbsorbed(st, names[1..]);
    }
  }

  // ---- Crashes ----

  /** A prefix of a plan of absorbed effects, then perhaps more. */
  lemma PrefixAbsorbed(w: World, plan: seq<Effect>, k: nat)
    requires w.file.Some? && k <= |plan| && forall i | 0 <= i < |plan| :: Absorbed(w.file.value, plan[i])
    ensures var w1 := ApplyAll(w, plan[..k]);
            w1.file == w.file && Undone(w1.system, w.file.value) == Undone(w.system, w.file.value)
  {
    hide Absorbed, Undone, Apply;
    AbsorbedAll(w, plan[..k]);
  }

  /** A recovery that crashes anywhere can be run again, and leaves exactly what it would have left. */
  lemma RecoverSurvivesCrash(w: World, k: nat)
    requires k <= |RecoverPlan(w.file)|
    ensures Recovered(ApplyAll(w, RecoverPlan(w.file)[..k])) == Recovered(w)
  {
    hide Absorbed, Undone, UndoCommands, Recovered;
    if w.file.Some? {
      var st := w.file.value;
      var plan := RecoverPlan(w.file);
      var w1 := ApplyAll(w, plan[..k]);
      RecoverUndoes(w);
      RecoveredMeans(w);
      RecoveredMeans(w1);
      if k == |plan| {
        assert plan[..k] == plan;
      } else {
        UndoIsAbsorbed(st);
        PrefixAbsorbed(w, UndoCommands(st), k);
        assert plan[..k] == UndoCommands(st)[..k];
      }
    }
  }

  lemma RecoverRestores(origin: System, w: World, offered: Offered)
    requires Recoverable(origin, w, offered)
    ensures var w1 := ApplyAll(w, RecoverPlan(w.file));
            w1.file == None && Restored(origin, w1.system, offered)
  {
    hide Undone, Restored, UndoCommands;
    RecoveredMeans(w);
    if w.file.Some? { RecoverUndoes(w); }
  }

  /** Writing the file of a new endpoint before anything is changed. */
  lemma EndpointWritten(s: System, endpoint: Address, gateway: (nat, Address))
    ensures Undone(s, EndpointState(s, endpoint, gateway)) == s
  {
    var st := EndpointState(s, endpoint, gateway);
    assert RoutesLeft(s.routes, st) == s.routes;
    assert RulesLeft(s.rules, st.rules) == s.rules;
  }

  lemma EndpointAbsorbed(s: System, endpoint: Address, gateway: (nat, Address))
    ensures var st := EndpointState(s, endpoint, gateway);
            st.route.created ==> Absorbed(st, AddRoute(Route(Host(endpoint), gateway.0, gateway.1, 1)))
  {
  }

  lemma EndpointSurvivesCrash(origin: System, w: World, endpoint: Address, env: Env, gateway: (nat, Address), k: nat)
    requires w.file == None && Restored(origin, w.system, env.offered)
             && k <= |EndpointPlan(w.system, endpoint, gateway)|
    ensures Recoverable(origin, ApplyAll(w, EndpointPlan(w.system, endpoint, gateway)[..k]), env.offered)
  {
    hide Absorbed, Undone, Restored, EndpointState;
    var plan := EndpointPlan(w.system, endpoint, gateway);
    var st := EndpointState(w.system, endpoint, gateway);
    var w1 := ApplyAll(w, plan[..k]);
    RecoverableMeans(origin, w1, env.offered);
    EndpointWritten(w.system, endpoint, gateway);
    EndpointAbsorbed(w.system, endpoint, gateway);
    if k > 0 {
      AbsorbedAll(Apply(w, Write(st)), plan[..k][1..]);
    }
  }

  /** Any prefix of a preparation leaves a world from which recovery restores the origin. */
  lemma PrepareSurvivesCrash(origin: System, w: World, endpoint: Address, env: Env, k: nat)
    requires Recoverable(origin, w, env.offered) && k <= |PreparePlan(w, endpoint, env)|
    ensures Recoverable(origin, ApplyAll(w, PreparePlan(w, endpoint, env)[..k]), env.offered)
  {
    hide EndpointPlan, Recovered, Restored;
    var plan := PreparePlan(w, endpoint, env);
    if !Prepared(w, endpoint) {
      var recovery := RecoverPlan(w.file);
      if k <= |recovery| {
        assert plan[..k] == recovery[..k];
        RecoverSurvivesCrash(w, k);
      } else {
        var w1 := ApplyAll(w, recovery);
        var rest := EndpointPlan(w1.system, endpoint, env.gateway.value);
        RecoverRestores(origin, w, env.offered);
        assert plan[..k] == recovery + rest[..k - |recovery|];
        ApplySplits(w, recovery, rest[..k - |recovery|]);
        EndpointSurvivesCrash(origin, w1, endpoint, env, env.gateway.value, k - |recovery|);
      }
    }
  }

  /** Nothing that the tunnel part of a file records is in place: its routes, rules and servers. Holds when
      there is no tunnel part. */
  ghost predicate TunnelIdle(s: System, st: State, offered: Offered) {
    && (forall r | r in s.routes && st.tunnel.Some? ::
          && !(st.tunnel.value.lowCreated && Matches(r, LowHalf, st.tunnel.value.interface, ANY))
          && !(st.tunnel.value.highCreated && Matches(r, HighHalf, st.tunnel.value.interface, ANY)))
    && (forall r | r in s.rules :: r.name !in st.rules)
    && (forall i: nat :: Servers(s, offered, i) == Servers(s.(dns := DnsUndone(s.dns, st.tunnel)), offered, i))
  }

  /** The endpoint part of a file alone. */
  function EndpointOnly(st: State): State {
    st.(tunnel := None, rules := [])
  }

  lemma TunnelWritten(s: System, st: State, env: Env, identifier: nat)
    requires FreshNames(s, identifier)
    ensures var logged := TunnelState(s, st, env, identifier);
            && Undone(s, logged).routes == Undone(s, EndpointOnly(st)).routes
            && Undone(s, logged).rules == s.rules
            && forall i: nat :: Servers(Undone(s, logged), env.offered, i) == Servers(s, env.offered, i)
  {
    var logged := TunnelState(s, st, env, identifier);
    assert RulesLeft(s.rules, logged.rules) == s.rules;
    assert RoutesLeft(s.routes, logged) == RoutesLeft(s.routes, EndpointOnly(st));
  }

  lemma IdleMeans(s: System, st: State, offered: Offered)
    ensures TunnelIdle(s, st, offered) <==>
            && Undone(s, st).routes == Undone(s, EndpointOnly(st)).routes
            && Undone(s, st).rules == s.rules
            && forall i: nat :: Servers(Undone(s, st), offered, i) == Servers(s, offered, i)
  {
    var all, some := RoutesLeft(s.routes, st), RoutesLeft(s.routes, EndpointOnly(st));
    if forall r | r in s.rules :: r.name !in st.rules {
      assert RulesLeft(s.rules, st.rules) == s.rules;
    }
    if TunnelIdle(s, st, offered) {
      assert all == some;
    }
    if all == some {
      forall r | r in s.routes && st.tunnel.Some?
        ensures !(st.tunnel.value.lowCreated && Matches(r, LowHalf, st.tunnel.value.interface, ANY))
        ensures !(st.tunnel.value.highCreated && Matches(r, HighHalf, st.tunnel.value.interface, ANY))
      {
        assert r in some ==> r in all;
      }
    }
  }

  /** Logging a tunnel over whatever the file says keeps the origin recoverable exactly when the tunnel part
      of the file was idle: writing it forgets the routes, rules and servers recorded before. */
  lemma LogKeepsOrigin(origin: System, w: World, st: State, env: Env, identifier: nat)
    requires w.file == Some(st) && Recoverable(origin, w, env.offered) && FreshNames(w.system, identifier)
    ensures Recoverable(origin, Apply(w, Write(TunnelState(w.system, st, env, identifier))), env.offered)
            <==> TunnelIdle(w.system, st, env.offered)
  {
    hide Undone, TunnelState, TunnelIdle, FreshNames, Recoverable;
    var logged := TunnelState(w.system, st, env, identifier);
    RecoverableMeans(origin, w, env.offered);
    RecoverableMeans(origin, Apply(w, Write(logged)), env.offered);
    TunnelWritten(w.system, st, env, identifier);
    IdleMeans(w.system, st, env.offered);
  }

  ghost predicate AllAbsorbed(st: State, plan: seq<Effect>) {
    forall i | 0 <= i < |plan| :: Absorbed(st, plan[i])
  }

  lemma AbsorbedTogether(st: State, a: seq<Effect>, b: seq<Effect>)
    requires AllAbsorbed(st, a) && AllAbsorbed(st, b)
    ensures AllAbsorbed(st, a + b)
  {
    hide Absorbed;
  }

  lemma CommandsAbsorbed(s: System, st: State, env: Env, identifier: nat, tunnelDns: Address)
    ensures var logged := TunnelState(s, st, env, identifier);
            AllAbsorbed(logged, TunnelCommands(logged.tunnel.value, env, identifier, tunnelDns))
  {
    hide HasRoute, Servers;
    var logged := TunnelState(s, st, env, identifier);
    var t := logged.tunnel.value;
    var low := When(t.lowCreated, AddRoute(Route(LowHalf, t.interface, ANY, 1)));
    var high := When(t.highCreated, AddRoute(Route(HighHalf, t.interface, ANY, 1)));
    var always := [SetDns(t.interface, [tunnelDns]), AddRule(Rule(Ours(Ipv6, identifier), []))];
    var udp := When(env.aliases != [], AddRule(Rule(Ours(DnsUdp, identifier), env.aliases)));
    var tcp := When(env.aliases != [], AddRule(Rule(Ours(DnsTcp, identifier), env.aliases)));
    assert logged.rules[0] == Ours(Ipv6, identifier) && logged.rules[1] == Ours(DnsUdp, identifier);
    assert logged.rules[2] == Ours(DnsTcp, identifier);
    AbsorbedTogether(logged, low, high);
    AbsorbedTogether(logged, low + high, always);
    AbsorbedTogether(logged, low + high + always, udp);
    AbsorbedTogether(logged, low + high + always + udp, tcp);
  }

  lemma ActiveUndone(s: System, st: State)
    ensures Undone(s, st.(active := true)) == Undone(s, st)
  {
    assert RoutesLeft(s.routes, st.(active := true)) == RoutesLeft(s.routes, st);
  }

  /** From every later point of the installation, whether its commands succeed or not, recovery leaves what it
      leaves from the first. */
  lemma TunnelRecovered(w: World, st: State, env: Env, identifier: nat, tunnelDns: Address, failAt: nat, k: nat)
    requires w.file == Some(st) && 0 < k <= |TunnelPlan(w, st, env, identifier, tunnelDns, failAt)|
    ensures Recovered(ApplyAll(w, TunnelPlan(w, st, env, identifier, tunnelDns, failAt)[..k]))
            == Undone(w.system, TunnelState(w.system, st, env, identifier))
  {
    hide Undone, Recovered, Absorbed, HasRoute, Servers, TunnelCommands, Apply;
    var plan := TunnelPlan(w, st, env, identifier, tunnelDns, failAt);
    var logged := TunnelState(w.system, st, env, identifier);
    var commands := TunnelCommands(logged.tunnel.value, env, identifier, tunnelDns);
    var w1 := Apply(w, Write(logged));
    CommandsAbsorbed(w.system, st, env, identifier, tunnelDns);
    assert w1 == World(w.system, Some(logged)) by { WriteMeans(w, logged); }
    RecoveredMeans(w1);
    var run := if Fails(failAt, commands) then commands[..failAt] else commands;
    var tail := if Fails(failAt, commands) then RecoverPlan(Some(logged)) else [Write(logged.(active := true))];
    assert plan == [Write(logged)] + (run + tail);
    PlanPrefix(w, Write(logged), run, tail, k);
    if k - 1 <= |run| {
      StaysRecovered(w1, run[..k - 1]);
    } else {
      var w2 := ApplyAll(w1, run);
      StaysRecovered(w1, run);
      if Fails(failAt, commands) {
        RecoverSurvivesCrash(w2, k - 1 - |run|);
      } else {
        assert tail[..k - 1 - |run|] == tail;
        ActivationKeeps(w2, logged);
      }
    }
  }

  /** So logging the tunnel decides for the rest of the installation. */
  lemma TunnelSurvivesCrash(origin: System, w: World, st: State, env: Env, identifier: nat, tunnelDns: Address,
                            failAt: nat, k: nat)
    requires w.file == Some(st) && Recoverable(origin, w, env.offered) && FreshNames(w.system, identifier)
    requires 0 < k <= |TunnelPlan(w, st, env, identifier, tunnelDns, failAt)|
    ensures Recoverable(origin, ApplyAll(w, TunnelPlan(w, st, env, identifier, tunnelDns, failAt)[..k]), env.offered)
            <==> TunnelIdle(w.system, st, env.offered)
  {
    hide Undone, TunnelIdle, FreshNames, Recovered, TunnelState, TunnelPlan, Restored;
    var logged := TunnelState(w.system, st, env, identifier);
    LogKeepsOrigin(origin, w, st, env, identifier);
    WriteMeans(w, logged);
    RecoveredMeans(Apply(w, Write(logged)));
    TunnelRecovered(w, st, env, identifier, tunnelDns, failAt, k);
  }

  lemma PlanPrefix(w: World, first: Effect, a: seq<Effect>, b: seq<Effect>, k: nat)
    requires 0 < k <= 1 + |a| + |b|
    ensures ApplyAll(w, ([first] + (a + b))[..k]) ==
              if k - 1 <= |a| then ApplyAll(Apply(w, first), a[..k - 1])
              else ApplyAll(ApplyAll(Apply(w, first), a), b[..k - 1 - |a|])
  {
    hide Apply;
    var plan := ([first] + (a + b))[..k];
    if k - 1 <= |a| {
      assert plan[1..] == a[..k - 1];
    } else {
      assert plan[1..] == a + b[..k - 1 - |a|];
      ApplySplits(Apply(w, first), a, b[..k - 1 - |a|]);
    }
  }

  lemma WriteMeans(w: World, st: State)
    ensures Apply(w, Write(st)) == World(w.system, Some(st))
  {
  }

  lemma StaysRecovered(w: World, plan: seq<Effect>)
    requires w.file.Some? && forall i | 0 <= i < |plan| :: Absorbed(w.file.value, plan[i])
    ensures ApplyAll(w, plan).file == w.file
    ensures Recovered(ApplyAll(w, plan)) == Recovered(w)
  {
    hide Undone, Recovered, Absorbed;
    AbsorbedAll(w, plan);
    RecoveredMeans(w);
    RecoveredMeans(ApplyAll(w, plan));
  }

  lemma ActivationKeeps(w: World, st: State)
    requires w.file == Some(st)
    ensures Recovered(ApplyAll(w, [Write(st.(active := true))])) == Recovered(w)
  {
    hide Undone, Recovered;
    var plan := [Write(st.(active := true))];
    assert plan[1..] == [] && ApplyAll(w, plan) == Apply(w, plan[0]);
    ActiveUndone(w.system, st);
    RecoveredMeans(w);
    RecoveredMeans(ApplyAll(w, plan));
  }

  /** What the caller of install has to see to: no tunnel of an earlier installation for the same endpoint is
      still in place. */
  ghost predicate Installable(w: World, endpoint: Address, offered: Offered) {
    Prepared(w, endpoint) ==> TunnelIdle(w.system, w.file.value, offered)
  }

  /** A preparation that succeeds leaves the endpoint's file, with an idle tunnel part if it wrote it. */
  lemma PreparedIdle(w: World, endpoint: Address, env: Env, identifier: nat)
    requires FreshNames(w.system, identifier) && Prepared(ApplyAll(w, PreparePlan(w, endpoint, env)), endpoint)
    ensures var w1 := ApplyAll(w, PreparePlan(w, endpoint, env));
            && FreshNames(w1.system, identifier)
            && (!Prepared(w, endpoint) ==> TunnelIdle(w1.system, w1.file.value, env.offered))
            && (Prepared(w, endpoint) ==> w1 == w)
  {
    hide Undone, UndoCommands, HasRoute;
    if !Prepared(w, endpoint) {
      var recovery := RecoverPlan(w.file);
      var cleared := ApplyAll(w, recovery);
      if env.gateway.None? { NoGateway(w, endpoint, env); }
      if w.file.Some? {
        RecoverUndoes(w);
        UndoneRules(w.system, w.file.value);
      }
      if env.gateway.Some? {
        var plan := EndpointPlan(cleared.system, endpoint, env.gateway.value);
        ApplySplits(w, recovery, plan);
        EndpointResult(cleared, endpoint, env.gateway.value);
      }
    }
  }

  lemma NoGateway(w: World, endpoint: Address, env: Env)
    requires !Prepared(w, endpoint) && env.gateway.None?
    ensures ApplyAll(w, PreparePlan(w, endpoint, env)).file == None
  {
    hide Undone, UndoCommands;
    assert RecoverPlan(w.file) + [] == RecoverPlan(w.file);
    if w.file.Some? { RecoverUndoes(w); }
  }

  lemma UndoneRules(s: System, st: State)
    ensures Undone(s, st).rules <= s.rules
  {
  }

  lemma EndpointResult(w: World, endpoint: Address, gateway: (nat, Address))
    ensures var w1 := ApplyAll(w, EndpointPlan(w.system, endpoint, gateway));
            w1.file == Some(EndpointState(w.system, endpoint, gateway)) && w1.system.rules == w.system.rules
  {
    hide HasRoute;
    var st := EndpointState(w.system, endpoint, gateway);
    var add := AddRoute(Route(Host(endpoint), gateway.0, gateway.1, 1));
    var plan := EndpointPlan(w.system, endpoint, gateway);
    var w1 := World(w.system, Some(st));
    assert plan[1..] == When(st.route.created, add);
    assert ApplyAll(w, plan) == ApplyAll(w1, plan[1..]);
    if st.route.created {
      assert [add][1..] == [];
      assert ApplyAll(w1, [add]) == Apply(w1, add);
    }
  }

  /** Crash safety of install, exactly: from every point of it recovery restores the origin if and only if
      the caller had made sure that no earlier tunnel was in place. */
  lemma InstallCrashSafeIff(origin: System, w: World, endpoint: Address, env: Env, identifier: nat, tunnelDns: Address,
                            failAt: nat)
    requires Recoverable(origin, w, env.offered) && FreshNames(w.system, identifier)
    ensures var plan := InstallPlan(w, endpoint, env, identifier, tunnelDns, failAt);
            (forall k: nat | k <= |plan| :: Recoverable(origin, ApplyAll(w, plan[..k]), env.offered))
            <==> Installable(w, endpoint, env.offered)
  {
    hide Recoverable, TunnelIdle, PreparePlan, TunnelPlan, FreshNames;
    var plan := InstallPlan(w, endpoint, env, identifier, tunnelDns, failAt);
    var preparation := PreparePlan(w, endpoint, env);
    var w1 := ApplyAll(w, preparation);
    PrepareRecoverable(origin, w, endpoint, env);
    if Prepared(w1, endpoint) { PreparedIdle(w, endpoint, env, identifier); }
    if Installable(w, endpoint, env.offered) {
      forall k: nat | k <= |plan|
        ensures Recoverable(origin, ApplyAll(w, plan[..k]), env.offered)
      {
        InstallAt(origin, w, endpoint, env, identifier, tunnelDns, failAt, k);
      }
    } else {
      PreparedAlready(w, endpoint, env);
      TunnelPlanLength(w1, w1.file.value, env, identifier, tunnelDns, failAt);
      var k: nat := |preparation| + 1;
      InstallAt(origin, w, endpoint, env, identifier, tunnelDns, failAt, k);
      assert !Recoverable(origin, ApplyAll(w, plan[..k]), env.offered);
    }
  }

  lemma PreparedAlready(w: World, endpoint: Address, env: Env)
    requires Prepared(w, endpoint)
    ensures PreparePlan(w, endpoint, env) == [] && ApplyAll(w, PreparePlan(w, endpoint, env)) == w
  {
  }

  lemma TunnelPlanLength(w: World, st: State, env: Env, identifier: nat, tunnelDns: Address, failAt: nat)
    ensures |TunnelPlan(w, st, env, identifier, tunnelDns, failAt)| > 0
  {
    hide TunnelCommands;
  }

  lemma PrepareRecoverable(origin: System, w: World, endpoint: Address, env: Env)
    requires Recoverable(origin, w, env.offered)
    ensures Recoverable(origin, ApplyAll(w, PreparePlan(w, endpoint, env)), env.offered)
  {
    hide Recoverable, PreparePlan;
    var plan := PreparePlan(w, endpoint, env);
    PrepareSurvivesCrash(origin, w, endpoint, env, |plan|);
    assert plan[..|plan|] == plan;
  }

  /** One point of an installation. */
  lemma InstallAt(origin: System, w: World, endpoint: Address, env: Env, identifier: nat, tunnelDns: Address,
                  failAt: nat, k: nat)
    requires Recoverable(origin, w, env.offered) && FreshNames(w.system, identifier)
    requires k <= |InstallPlan(w, endpoint, env, identifier, tunnelDns, failAt)|
    ensures var plan := InstallPlan(w, endpoint, env, identifier, tunnelDns, failAt);
            Recoverable(origin, ApplyAll(w, plan[..k]), env.offered)
            <==> (k > |PreparePlan(w, endpoint, env)| ==> Installable(w, endpoint, env.offered))
  {
    hide Recoverable, TunnelIdle, PreparePlan, TunnelPlan, FreshNames;
    var plan := InstallPlan(w, endpoint, env, identifier, tunnelDns, failAt);
    var preparation := PreparePlan(w, endpoint, env);
    if k <= |preparation| {
      assert plan[..k] == preparation[..k];
      PrepareSurvivesCrash(origin, w, endpoint, env, k);
    } else {
      var w1 := ApplyAll(w, preparation);
      PreparedIdle(w, endpoint, env, identifier);
      PrepareRecoverable(origin, w, endpoint, env);
      var rest := TunnelPlan(w1, w1.file.value, env, identifier, tunnelDns, failAt);
      assert plan[..k] == preparation + rest[..k - |preparation|];
      ApplySplits(w, preparation, rest[..k - |preparation|]);
      TunnelSurvivesCrash(origin, w1, w1.file.value, env, identifier, tunnelDns, failAt, k - |preparation|);
    }
  }

  // ---- Runs ----

  datatype Operation =
    | Prepare(endpoint: Address, env: Env)
    | Install(endpoint: Address, env: Env, identifier: nat, tunnelDns: Address, failAt: nat)
    | Recover

  /** An operation that crashes after `steps` effects, if it has more. */
  datatype Attempt = Attempt(op: Operation, steps: nat)

  function Plan(w: World, op: Operation): seq<Effect> {
    match op
    case Prepare(endpoint, env) => PreparePlan(w, endpoint, env)
    case Install(endpoint, env, identifier, tunnelDns, failAt) =>
      InstallPlan(w, endpoint, env, identifier, tunnelDns, failAt)
    case Recover => RecoverPlan(w.file)
  }

  function Ran(w: World, plan: seq<Effect>, steps: nat): World {
    ApplyAll(w, plan[..Min(steps, |plan|)])
  }

  ghost predicate Legal(w: World, op: Operation, offered: Offered) {
    match op
    case Prepare(_, env) => env.offered == offered
    case Install(endpoint, env, identifier, _, _) =>
      env.offered == offered && FreshNames(w.system, identifier) && Installable(w, endpoint, offered)
    case Recover => true
  }

  function RunAll(w: World, attempts: seq<Attempt>): World
    decreases |attempts|
  {
    if attempts == [] then w else RunAll(Ran(w, Plan(w, attempts[0].op), attempts[0].steps), attempts[1..])
  }

  ghost predicate LegalRun(w: World, attempts: seq<Attempt>, offered: Offered)
    decreases |attempts|
  {
    attempts == [] ||
    (Legal(w, attempts[0].op, offered)
     && LegalRun(Ran(w, Plan(w, attempts[0].op), attempts[0].steps), attempts[1..], offered))
  }

  lemma AttemptKeepsOrigin(origin: System, w: World, a: Attempt, offered: Offered)
    requires Recoverable(origin, w, offered) && Legal(w, a.op, offered)
    ensures Recoverable(origin, Ran(w, Plan(w, a.op), a.steps), offered)
  {
    hide Recovered, Restored, PreparePlan, InstallPlan, RecoverPlan, FreshNames, Installable;
    var k: nat := Min(a.steps, |Plan(w, a.op)|);
    match a.op
    case Prepare(endpoint, env) => PrepareSurvivesCrash(origin, w, endpoint, env, k);
    case Install(endpoint, env, identifier, tunnelDns, failAt) =>
      InstallCrashSafeIff(origin, w, endpoint, env, identifier, tunnelDns, failAt);
    case Recover => RecoverSurvivesCrash(w, k);
  }

  lemma {:induction false} RunKeepsOrigin(origin: System, w: World, attempts: seq<Attempt>, offered: Offered)
    requires Recoverable(origin, w, offered) && LegalRun(w, attempts, offered)
    ensures Recoverable(origin, RunAll(w, attempts), offered)
    decreases |attempts|
  {
    hide Recoverable, Legal, Ran, Plan;
    if attempts != [] {
      AttemptKeepsOrigin(origin, w, attempts[0], offered);
      RunKeepsOrigin(origin, Ran(w, Plan(w, attempts[0].op), attempts[0].steps), attempts[1..], offered);
    }
  }

  /** Starting without a state file, after any run of preparations, installations and recoveries, each of
      them crashed anywhere or not at all: one complete recovery restores routes, rules and servers, and no
      route that was there at the start is missing before it. */
  lemma RunRestores(w: World, attempts: seq<Attempt>, offered: Offered)
    requires w.file == None && LegalRun(w, attempts, offered)
    ensures var w1 := RunAll(w, attempts);
            var w2 := ApplyAll(w1, RecoverPlan(w1.file));
            && w.system.routes <= w1.system.routes
            && w2.file == None && Restored(w.system, w2.system, offered)
  {
    hide RunAll, LegalRun, Undone;
    var w1 := RunAll(w, attempts);
    RunKeepsOrigin(w.system, w, attempts, offered);
    RecoverRestores(w.system, w1, offered);
    RecoverableMeans(w.system, w1, offered);
    if w1.file.Some? { UndoneRoutes(w1.system, w1.file.value); }
  }

  lemma UndoneRoutes(s: System, st: State)
    ensures Undone(s, st).routes <= s.routes
  {
  }

  // ---- What an installation puts in place ----

  /** The route to one half of the addresses, if it is not there yet. */
  function Half(s: System, prefix: Prefix, adapter: nat): set<Route> {
    if HasRoute(s, prefix, adapter, ANY) then {} else {Route(prefix, adapter, ANY, 1)}
  }

  /** The rules against traffic past the tunnel: all of IPv6, and port 53 on the physical adapters, if any. */
  function Blocks(env: Env, identifier: nat): set<Rule> {
    {Rule(Ours(Ipv6, identifier), [])} +
    if env.aliases == [] then {} else {Rule(Ours(DnsUdp, identifier), env.aliases),
      Rule(Ours(DnsTcp, identifier), env.aliases)}
  }

  /** The tables with the tunnel in them. */
  function WithTunnel(s: System, env: Env, identifier: nat, tunnelDns: Address): System {
    System(s.routes + Half(s, LowHalf, env.adapter) + Half(s, HighHalf, env.adapter),
           s.dns[env.adapter := [tunnelDns]],
           s.rules + Blocks(env, identifier))
  }

  lemma CommandsPutInPlace(s: System, st: State, env: Env, identifier: nat, tunnelDns: Address)
    ensures var t := TunnelState(s, st, env, identifier).tunnel.value;
            ChangeAll(s, TunnelCommands(t, env, identifier, tunnelDns)) == WithTunnel(s, env, identifier, tunnelDns)
  {
    hide HasRoute, Servers, When, ChangeAll;
    var t := TunnelState(s, st, env, identifier).tunnel.value;
    var addLow := AddRoute(Route(LowHalf, t.interface, ANY, 1));
    var addHigh := AddRoute(Route(HighHalf, t.interface, ANY, 1));
    var addUdp := AddRule(Rule(Ours(DnsUdp, identifier), env.aliases));
    var addTcp := AddRule(Rule(Ours(DnsTcp, identifier), env.aliases));
    var low, high := When(t.lowCreated, addLow), When(t.highCreated, addHigh);
    var always := [SetDns(t.interface, [tunnelDns]), AddRule(Rule(Ours(Ipv6, identifier), []))];
    var udp, tcp := When(env.aliases != [], addUdp), When(env.aliases != [], addTcp);
    ChangeSplits(s, low, high);
    ChangeSplits(s, low + high, always);
    ChangeSplits(s, low + high + always, udp);
    ChangeSplits(s, low + high + always + udp, tcp);
    OneWhen(s, t.lowCreated, addLow);
    var s1 := ChangeAll(s, low);
    OneWhen(s1, t.highCreated, addHigh);
    var s2 := ChangeAll(s1, high);
    TwoChanges(s2, always[0], always[1]);
    var s3 := ChangeAll(s2, always);
    OneWhen(s3, env.aliases != [], addUdp);
    OneWhen(ChangeAll(s3, udp), env.aliases != [], addTcp);
  }

  lemma TwoChanges(s: System, first: Effect, second: Effect)
    ensures ChangeAll(s, [first, second]) == Change(Change(s, first), second)
  {
    assert [first, second][1..] == [second] && [second][1..] == [];
    assert ChangeAll(s, [first, second]) == ChangeAll(Change(s, first), [second]);
  }

  /** An installation goes through when it is prepared and none of its commands fails. */
  predicate GoesThrough(w: World, endpoint: Address, env: Env, identifier: nat, tunnelDns: Address, failAt: nat) {
    var w1 := ApplyAll(w, PreparePlan(w, endpoint, env));
    && Prepared(w1, endpoint)
    && !Fails(failAt, TunnelCommands(TunnelState(w1.system, w1.file.value, env, identifier).tunnel.value, env,
                                     identifier, tunnelDns))
  }

  /** One that goes through leaves the tables of the preparation with the tunnel in them -- both halves of the
      addresses through the adapter, its one DNS server and the rules -- and an active file that records it. */
  lemma InstallPutsInPlace(w: World, endpoint: Address, env: Env, identifier: nat, tunnelDns: Address, failAt: nat)
    requires GoesThrough(w, endpoint, env, identifier, tunnelDns, failAt)
    ensures var w1 := ApplyAll(w, PreparePlan(w, endpoint, env));
            var w2 := ApplyAll(w, InstallPlan(w, endpoint, env, identifier, tunnelDns, failAt));
            && w2.system == WithTunnel(w1.system, env, identifier, tunnelDns)
            && HasRoute(w2.system, LowHalf, env.adapter, ANY) && HasRoute(w2.system, HighHalf, env.adapter, ANY)
            && w2.file == Some(TunnelState(w1.system, w1.file.value, env, identifier).(active := true))
  {
    hide PreparePlan, TunnelCommands, ChangeAll, HasRoute, Servers, WithTunnel;
    var w1 := ApplyAll(w, PreparePlan(w, endpoint, env));
    var logged := TunnelState(w1.system, w1.file.value, env, identifier);
    var commands := TunnelCommands(logged.tunnel.value, env, identifier, tunnelDns);
    var rest := [Write(logged)] + commands + [Write(logged.(active := true))];
    assert TunnelPlan(w1, w1.file.value, env, identifier, tunnelDns, failAt) == rest;
    ApplySplits(w, PreparePlan(w, endpoint, env), rest);
    TunnelRuns(w1, logged, commands, env, identifier, tunnelDns);
    CommandsPutInPlace(w1.system, w1.file.value, env, identifier, tunnelDns);
    HalvesThere(w1.system, env, identifier, tunnelDns);
  }

  lemma TunnelRuns(w: World, logged: State, commands: seq<Effect>, env: Env, identifier: nat, tunnelDns: Address)
    requires logged.tunnel.Some? && commands == TunnelCommands(logged.tunnel.value, env, identifier, tunnelDns)
    ensures ApplyAll(w, [Write(logged)] + commands + [Write(logged.(active := true))])
            == World(ChangeAll(w.system, commands), Some(logged.(active := true)))
  {
    hide TunnelCommands, ChangeAll;
    OnlyCommands(logged.tunnel.value, env, identifier, tunnelDns);
    var w1 := World(w.system, Some(logged));
    assert [Write(logged)][1..] == [] && ApplyAll(w, [Write(logged)]) == Apply(w, Write(logged)) == w1;
    ApplySplits(w, [Write(logged)], commands);
    ApplySplits(w, [Write(logged)] + commands, [Write(logged.(active := true))]);
    CommandsChange(w1, commands);
    var w2 := ApplyAll(w1, commands);
    var last := [Write(logged.(active := true))];
    assert last[1..] == [] && ApplyAll(w2, last) == Apply(w2, last[0]);
  }

  lemma HalvesThere(s: System, env: Env, identifier: nat, tunnelDns: Address)
    ensures var after := WithTunnel(s, env, identifier, tunnelDns);
            HasRoute(after, LowHalf, env.adapter, ANY) && HasRoute(after, HighHalf, env.adapter, ANY)
  {
    var after := WithTunnel(s, env, identifier, tunnelDns);
    forall prefix | prefix == LowHalf || prefix == HighHalf
      ensures HasRoute(after, prefix, env.adapter, ANY)
    {
      if HasRoute(s, prefix, env.adapter, ANY) {
        var r :| r in s.routes && Matches(r, prefix, env.adapter, ANY);
        assert r in after.routes;
      } else {
        assert Route(prefix, env.adapter, ANY, 1) in after.routes;
        assert Matches(Route(prefix, env.adapter, ANY, 1), prefix, env.adapter, ANY);
      }
    }
  }

  // ---- What does not come back ----

  /** The settings with the adapter's servers as its own, if it has any. */
  function OwnDns(s: System, env: Env): map<nat, OwnServers> {
    var servers := Servers(s, env.offered, env.adapter);
    if servers == [] then s.dns - {env.adapter} else s.dns[env.adapter := servers]
  }

  lemma OwnDnsIff(s: System, env: Env)
    ensures OwnDns(s, env) == s.dns <==> env.adapter in s.dns || Servers(s, env.offered, env.adapter) == []
  {
    var before := Servers(s, env.offered, env.adapter);
    if env.adapter in s.dns {
      assert s.dns[env.adapter := s.dns[env.adapter]] == s.dns;
    } else if before == [] {
      assert s.dns - {env.adapter} == s.dns;
    } else {
      assert env.adapter in s.dns[env.adapter := before];
    }
  }

  /** One effect that leaves the settings alone. */
  predicate KeepsDns(e: Effect) {
    !e.SetDns? && !e.ResetDns?
  }

  lemma {:induction false} DnsKept(w: World, plan: seq<Effect>)
    requires forall e | e in plan :: KeepsDns(e)
    ensures ApplyAll(w, plan).system.dns == w.system.dns
    decreases |plan|
  {
    if plan != [] {
      assert KeepsDns(plan[0]);
      DnsKept(Apply(w, plan[0]), plan[1..]);
    }
  }

  /** Any prefix of a first preparation leaves the settings alone, before a recovery and after it. */
  lemma PreparationKeepsDns(w: World, endpoint: Address, env: Env, k: nat)
    requires w.file == None && env.gateway.Some? && k <= |PreparePlan(w, endpoint, env)|
    ensures var w1 := ApplyAll(w, PreparePlan(w, endpoint, env)[..k]);
            w1.system.dns == w.system.dns && Recovered(w1).dns == w.system.dns
  {
    hide HasRoute, Recovered;
    var plan := PreparePlan(w, endpoint, env);
    var st := EndpointState(w.system, endpoint, env.gateway.value);
    assert plan == EndpointPlan(w.system, endpoint, env.gateway.value);
    DnsKept(w, plan[..k]);
    RecoveredMeans(ApplyAll(w, plan[..k]));
    if k > 0 {
      EndpointAbsorbed(w.system, endpoint, env.gateway.value);
      AbsorbedAll(Apply(w, plan[0]), plan[..k][1..]);
    }
  }

  /** The servers an interface asks come back; the setting they come from does not always. From every point of a
      first installation, whether it succeeds, fails or is cut off, the recovery restores the settings if and
      only if the tunnel was not logged yet, or the adapter had servers of its own, or it had none at all. */
  lemma DnsModeIff(w: World, endpoint: Address, env: Env, identifier: nat, tunnelDns: Address, failAt: nat, k: nat)
    requires w.file == None && env.gateway.Some?
    requires k <= |InstallPlan(w, endpoint, env, identifier, tunnelDns, failAt)|
    ensures var w1 := ApplyAll(w, InstallPlan(w, endpoint, env, identifier, tunnelDns, failAt)[..k]);
            var logged := k > |PreparePlan(w, endpoint, env)|;
            && Recovered(w1).dns == (if logged then OwnDns(w.system, env) else w.system.dns)
            && (Recovered(w1).dns == w.system.dns
                <==> !logged || env.adapter in w.system.dns || Servers(w.system, env.offered, env.adapter) == [])
  {
    hide Recovered, PreparePlan, TunnelPlan, HasRoute;
    OwnDnsIff(w.system, env);
    var plan := InstallPlan(w, endpoint, env, identifier, tunnelDns, failAt);
    var preparation := PreparePlan(w, endpoint, env);
    FirstPreparation(w, endpoint, env);
    if k <= |preparation| {
      assert plan[..k] == preparation[..k];
      PreparationKeepsDns(w, endpoint, env, k);
    } else {
      var w1 := ApplyAll(w, preparation);
      var rest := TunnelPlan(w1, w1.file.value, env, identifier, tunnelDns, failAt);
      assert plan[..k] == preparation + rest[..k - |preparation|];
      ApplySplits(w, preparation, rest[..k - |preparation|]);
      TunnelRecovered(w1, w1.file.value, env, identifier, tunnelDns, failAt, k - |preparation|);
      assert preparation[..|preparation|] == preparation;
      PreparationKeepsDns(w, endpoint, env, |preparation|);
    }
  }

  /** An adapter that takes the server its network offers has it as its own after one installation and one
      recovery. */
  lemma OfferedServersBecomeOwn(endpoint: Address, identifier: nat, tunnelDns: Address)
    ensures var w := World(System({}, map[], {}), None);
            var env := Env(Some((1, 2)), 7, map[7 := [8]], []);
            var w1 := ApplyAll(w, InstallPlan(w, endpoint, env, identifier, tunnelDns, MOST_COMMANDS));
            Prepared(w1, endpoint) && Recovered(w1).dns == map[7 := [8]] != w.system.dns
  {
    hide PreparePlan, TunnelPlan, InstallPlan, Recovered;
    var w := World(System({}, map[], {}), None);
    var env := Env(Some((1, 2)), 7, map[7 := [8]], []);
    var plan := InstallPlan(w, endpoint, env, identifier, tunnelDns, MOST_COMMANDS);
    assert plan[..|plan|] == plan;
    FirstInstall(w, endpoint, env, identifier, tunnelDns, identifier + 1);
    FirstInstallLogs(w, endpoint, env, identifier, tunnelDns);
    DnsModeIff(w, endpoint, env, identifier, tunnelDns, MOST_COMMANDS, |plan|);
    assert Servers(w.system, env.offered, 7) == [8];
  }

  lemma FirstInstallLogs(w: World, endpoint: Address, env: Env, identifier: nat, tunnelDns: Address)
    requires w.file == None && env.gateway.Some?
    ensures |InstallPlan(w, endpoint, env, identifier, tunnelDns, MOST_COMMANDS)| > |PreparePlan(w, endpoint, env)|
  {
    hide PreparePlan, TunnelPlan;
    FirstPreparation(w, endpoint, env);
    var w1 := ApplyAll(w, PreparePlan(w, endpoint, env));
    TunnelPlanLength(w1, w1.file.value, env, identifier, tunnelDns, MOST_COMMANDS);
  }

  /** The route to the endpoint, through the interface and gateway the file names, is there. */
  predicate RouteInPlace(w: World) {
    w.file.Some? && HasRoute(w.system, Host(w.file.value.endpoint), w.file.value.route.interface,
                             w.file.value.route.nextHop)
  }

  /** A completed preparation has the endpoint's route in place if and only if it wrote the file itself or found
      the route there: it trusts a file for its endpoint. */
  lemma PreparedRouteIff(w: World, endpoint: Address, env: Env)
    requires Prepared(ApplyAll(w, PreparePlan(w, endpoint, env)), endpoint)
    ensures RouteInPlace(ApplyAll(w, PreparePlan(w, endpoint, env))) <==> !Prepared(w, endpoint) || RouteInPlace(w)
  {
    hide RecoverPlan, HasRoute;
    if Prepared(w, endpoint) {
      PreparedAlready(w, endpoint, env);
    } else if env.gateway.None? {
      NoGateway(w, endpoint, env);
    } else {
      var recovery := RecoverPlan(w.file);
      var cleared := ApplyAll(w, recovery);
      ApplySplits(w, recovery, EndpointPlan(cleared.system, endpoint, env.gateway.value));
      RouteAfterPlan(cleared, endpoint, env.gateway.value);
    }
  }

  lemma RouteAfterPlan(w: World, endpoint: Address, gateway: (nat, Address))
    ensures RouteInPlace(ApplyAll(w, EndpointPlan(w.system, endpoint, gateway)))
  {
    var st := EndpointState(w.system, endpoint, gateway);
    var route := Route(Host(endpoint), gateway.0, gateway.1, 1);
    var plan := EndpointPlan(w.system, endpoint, gateway);
    var w1 := World(w.system, Some(st));
    WriteMeans(w, st);
    assert ApplyAll(w, plan) == ApplyAll(w1, plan[1..]);
    if st.route.created {
      assert plan[1..] == [AddRoute(route)] && [AddRoute(route)][1..] == [];
      assert ApplyAll(w1, [AddRoute(route)]) == Apply(w1, AddRoute(route));
      assert Matches(route, Host(endpoint), gateway.0, gateway.1);
    } else {
      assert plan[1..] == [];
    }
  }

  /** An effect that brings no route to a host. */
  predicate NoHostRoute(e: Effect) {
    e.AddRoute? ==> !e.route.prefix.Host?
  }

  lemma {:induction false} NoHostRoutes(w: World, plan: seq<Effect>, endpoint: Address, interface: nat,
                                        nextHop: Address)
    requires forall e | e in plan :: NoHostRoute(e)
    requires !HasRoute(w.system, Host(endpoint), interface, nextHop)
    ensures !HasRoute(ApplyAll(w, plan).system, Host(endpoint), interface, nextHop)
    decreases |plan|
  {
    if plan != [] {
      assert NoHostRoute(plan[0]);
      NoHostRoutes(Apply(w, plan[0]), plan[1..], endpoint, interface, nextHop);
    }
  }

  lemma TunnelNoHostRoutes(t: Tunnel, env: Env, identifier: nat, tunnelDns: Address)
    ensures forall e | e in TunnelCommands(t, env, identifier, tunnelDns) :: NoHostRoute(e)
  {
    hide When, NoHostRoute;
    NoHostWhen(t.lowCreated, AddRoute(Route(LowHalf, t.interface, ANY, 1)));
    NoHostWhen(t.highCreated, AddRoute(Route(HighHalf, t.interface, ANY, 1)));
    NoHostWhen(true, SetDns(t.interface, [tunnelDns]));
    NoHostWhen(true, AddRule(Rule(Ours(Ipv6, identifier), [])));
    NoHostWhen(env.aliases != [], AddRule(Rule(Ours(DnsUdp, identifier), env.aliases)));
    NoHostWhen(env.aliases != [], AddRule(Rule(Ours(DnsTcp, identifier), env.aliases)));
  }

  lemma NoHostWhen(condition: bool, e: Effect)
    requires e.AddRoute? ==> !e.route.prefix.Host?
    ensures NoHostRoute(e) && forall x | x in When(condition, e) :: NoHostRoute(x)
  {
  }

  /** A crash right after the file is written, and no later preparation or installation for the endpoint ever
      adds its route: both go through, and the route is still missing. */
  lemma CrashForgetsRoute(w: World, endpoint: Address, env: Env, env2: Env, identifier: nat, tunnelDns: Address)
    requires w.file == None && env.gateway.Some?
    requires !HasRoute(w.system, Host(endpoint), env.gateway.value.0, env.gateway.value.1)
    ensures var w1 := Ran(w, PreparePlan(w, endpoint, env), 1);
            var w2 := ApplyAll(w1, InstallPlan(w1, endpoint, env2, identifier, tunnelDns, MOST_COMMANDS));
            && Prepared(w1, endpoint) && PreparePlan(w1, endpoint, env2) == [] && !RouteInPlace(w1)
            && Prepared(w2, endpoint) && w2.file.value.active && !RouteInPlace(w2)
  {
    hide TunnelCommands, HasRoute;
    var st := EndpointState(w.system, endpoint, env.gateway.value);
    var plan := PreparePlan(w, endpoint, env);
    assert plan == [Write(st)] + When(st.route.created,
                                      AddRoute(Route(Host(endpoint), env.gateway.value.0, env.gateway.value.1, 1)));
    var w1 := World(w.system, Some(st));
    assert plan[..1] == [Write(st)] && [Write(st)][1..] == [];
    assert ApplyAll(w, [Write(st)]) == Apply(w, Write(st)) == w1;
    assert Ran(w, plan, 1) == w1;
    PreparedAlready(w1, endpoint, env2);
    var logged := TunnelState(w1.system, st, env2, identifier);
    var commands := TunnelCommands(logged.tunnel.value, env2, identifier, tunnelDns);
    TunnelNames(logged.tunnel.value, env2, identifier, tunnelDns);
    TunnelNoHostRoutes(logged.tunnel.value, env2, identifier, tunnelDns);
    var rest := [Write(logged)] + commands + [Write(logged.(active := true))];
    assert InstallPlan(w1, endpoint, env2, identifier, tunnelDns, MOST_COMMANDS) == rest;
    NoHostRoutes(w1, rest, endpoint, env.gateway.value.0, env.gateway.value.1);
    LastFile(w1, [Write(logged)] + commands, logged.(active := true));
  }

  lemma {:induction false} AddedRuleStays(w: World, plan: seq<Effect>, rule: Rule)
    requires AddRule(rule) in plan || rule in w.system.rules
    requires forall e | e in plan :: !e.RemoveRules?
    ensures rule in ApplyAll(w, plan).system.rules
    decreases |plan|
  {
    if plan != [] {
      assert forall e | e in plan :: e == plan[0] || e in plan[1..];
      AddedRuleStays(Apply(w, plan[0]), plan[1..], rule);
    }
  }

  lemma {:induction false} LastFile(w: World, plan: seq<Effect>, st: State)
    ensures ApplyAll(w, plan + [Write(st)]).file == Some(st)
  {
    ApplySplits(w, plan, [Write(st)]);
    assert [Write(st)][1..] == [];
  }

  /** After an installation that went through, installing again for the same endpoint without a recovery in
      between is what `Installable` excludes. */
  lemma SecondInstallForgets(w: World, st: State, env: Env, identifier: nat, tunnelDns: Address)
    requires w.file == Some(st)
    ensures var commands := TunnelCommands(TunnelState(w.system, st, env, identifier).tunnel.value, env, identifier,
                                           tunnelDns);
            var w1 := ApplyAll(w, TunnelPlan(w, st, env, identifier, tunnelDns, |commands|));
            !Installable(w1, st.endpoint, env.offered)
  {
    hide Undone, HasRoute, Servers, Apply, ApplyAll;
    var logged := TunnelState(w.system, st, env, identifier);
    var commands := TunnelCommands(logged.tunnel.value, env, identifier, tunnelDns);
    var plan := TunnelPlan(w, st, env, identifier, tunnelDns, |commands|);
    var rule := Rule(Ours(Ipv6, identifier), []);
    Ipv6Added(logged.tunnel.value, env, identifier, tunnelDns);
    assert plan == [Write(logged)] + commands + [Write(logged.(active := true))];
    AddedRuleStays(w, plan, rule);
    LastFile(w, [Write(logged)] + commands, logged.(active := true));
    assert logged.rules[0] in logged.rules;
  }

  lemma Ipv6Added(t: Tunnel, env: Env, identifier: nat, tunnelDns: Address)
    ensures var commands := TunnelCommands(t, env, identifier, tunnelDns);
            AddRule(Rule(Ours(Ipv6, identifier), [])) in commands && forall e | e in commands :: !e.RemoveRules?
  {
    var pair := [SetDns(t.interface, [tunnelDns]), AddRule(Rule(Ours(Ipv6, identifier), []))];
    assert pair[1] in pair;
  }

  predicate Names(identifier: nat, e: Effect) {
    e.AddRule? ==> e.rule.name.Ours? && e.rule.name.identifier == identifier
  }

  lemma {:induction false} OthersStayFresh(w: World, plan: seq<Effect>, identifier: nat, other: nat)
    requires identifier != other && FreshNames(w.system, other)
    requires forall e | e in plan :: Names(identifier, e)
    ensures FreshNames(ApplyAll(w, plan).system, other)
    decreases |plan|
  {
    if plan != [] {
      assert Names(identifier, plan[0]);
      OthersStayFresh(Apply(w, plan[0]), plan[1..], identifier, other);
    }
  }

  lemma TunnelNames(t: Tunnel, env: Env, identifier: nat, tunnelDns: Address)
    ensures var commands := TunnelCommands(t, env, identifier, tunnelDns);
            |commands| <= MOST_COMMANDS && forall e | e in commands :: Names(identifier, e)
  {
    hide When, Names;
    NamesWhen(t.lowCreated, AddRoute(Route(LowHalf, t.interface, ANY, 1)), identifier);
    NamesWhen(t.highCreated, AddRoute(Route(HighHalf, t.interface, ANY, 1)), identifier);
    NamesWhen(true, SetDns(t.interface, [tunnelDns]), identifier);
    NamesWhen(true, AddRule(Rule(Ours(Ipv6, identifier), [])), identifier);
    NamesWhen(env.aliases != [], AddRule(Rule(Ours(DnsUdp, identifier), env.aliases)), identifier);
    NamesWhen(env.aliases != [], AddRule(Rule(Ours(DnsTcp, identifier), env.aliases)), identifier);
  }

  lemma NamesWhen(condition: bool, e: Effect, identifier: nat)
    requires e.AddRule? ==> e.rule.name.Ours? && e.rule.name.identifier == identifier
    ensures |When(condition, e)| <= 1 && Names(identifier, e) && forall x | x in When(condition, e) ::
            Names(identifier, x)
  {
  }

  const MOST_COMMANDS: nat := 6

  /** A first installation on a machine without a state file: it can be undone, and leaves the names of
      other installations free. */
  lemma FirstInstall(w: World, endpoint: Address, env: Env, identifier: nat, tunnelDns: Address, other: nat)
    requires w.file == None && env.gateway.Some? && identifier != other
    requires FreshNames(w.system, identifier) && FreshNames(w.system, other)
    ensures var w1 := ApplyAll(w, InstallPlan(w, endpoint, env, identifier, tunnelDns, MOST_COMMANDS));
            && Prepared(w1, endpoint) && FreshNames(w1.system, other)
            && Recoverable(w.system, w1, env.offered) && !Installable(w1, endpoint, env.offered)
  {
    hide Recoverable, FreshNames, TunnelCommands, EndpointState, EndpointPlan, Installable, Apply;
    var plan := InstallPlan(w, endpoint, env, identifier, tunnelDns, MOST_COMMANDS);
    FirstPreparation(w, endpoint, env);
    InstallAt(w.system, w, endpoint, env, identifier, tunnelDns, MOST_COMMANDS, |plan|);
    assert plan[..|plan|] == plan;
    PreparedIdle(w, endpoint, env, other);
    var preparation := PreparePlan(w, endpoint, env);
    var w1 := ApplyAll(w, preparation);
    var st := w1.file.value;
    var logged := TunnelState(w1.system, st, env, identifier);
    var commands := TunnelCommands(logged.tunnel.value, env, identifier, tunnelDns);
    TunnelNames(logged.tunnel.value, env, identifier, tunnelDns);
    var rest := [Write(logged)] + commands + [Write(logged.(active := true))];
    assert TunnelPlan(w1, st, env, identifier, tunnelDns, MOST_COMMANDS) == rest;
    assert TunnelPlan(w1, st, env, identifier, tunnelDns, |commands|) == rest;
    ApplySplits(w, preparation, rest);
    OthersStayFresh(w1, rest, identifier, other);
    LastFile(w1, [Write(logged)] + commands, logged.(active := true));
    SecondInstallForgets(w1, st, env, identifier, tunnelDns);
  }

  lemma FirstPreparation(w: World, endpoint: Address, env: Env)
    requires w.file == None && env.gateway.Some?
    ensures Recoverable(w.system, w, env.offered) && Installable(w, endpoint, env.offered)
    ensures var w1 := ApplyAll(w, PreparePlan(w, endpoint, env));
            Prepared(w1, endpoint)
  {
    hide TunnelIdle, HasRoute;
    EndpointResult(w, endpoint, env.gateway.value);
    assert [] + EndpointPlan(w.system, endpoint, env.gateway.value)
           == EndpointPlan(w.system, endpoint, env.gateway.value);
  }

  /** Installing twice for one endpoint loses the origin for good: from every point of the second installation
      on, whether its commands succeed, fail or are cut off, the recovery that follows does not restore it. */
  lemma InstallTwiceLosesOrigin(w: World, endpoint: Address, env: Env, identifier: nat, tunnelDns: Address,
                                env2: Env, identifier2: nat, tunnelDns2: Address, failAt: nat, k: nat)
    requires w.file == None && env.gateway.Some? && identifier != identifier2 && env2.offered == env.offered
    requires FreshNames(w.system, identifier) && FreshNames(w.system, identifier2)
    ensures var w1 := ApplyAll(w, InstallPlan(w, endpoint, env, identifier, tunnelDns, MOST_COMMANDS));
            var plan := InstallPlan(w1, endpoint, env2, identifier2, tunnelDns2, failAt);
            && Restored(w.system, ApplyAll(w1, RecoverPlan(w1.file)).system, env.offered)
            && (0 < k <= |plan| ==>
                  var w2 := ApplyAll(w1, plan[..k]);
                  !Restored(w.system, ApplyAll(w2, RecoverPlan(w2.file)).system, env.offered))
  {
    hide FreshNames, InstallPlan, Restored, Installable;
    FirstInstall(w, endpoint, env, identifier, tunnelDns, identifier2);
    var w1 := ApplyAll(w, InstallPlan(w, endpoint, env, identifier, tunnelDns, MOST_COMMANDS));
    PreparedAlready(w1, endpoint, env2);
    if 0 < k <= |InstallPlan(w1, endpoint, env2, identifier2, tunnelDns2, failAt)| {
      InstallAt(w.system, w1, endpoint, env2, identifier2, tunnelDns2, failAt, k);
    }
  }

  // ---- The object ----

  datatype Outcome = Done | Failed | Crashed

  class NetworkPolicy {
    var system: System
    var file: Option<State>

    function Current(): World
      reads this
    {
      World(system, file)
    }

    /** Runs effects one by one until `steps` of them are done. */
    method Perform(plan: seq<Effect>, steps: nat) returns (left: nat, crashed: bool)
      modifies this
      ensures Current() == Ran(old(Current()), plan, steps)
      ensures crashed <==> steps < |plan|
      ensures left == if crashed then 0 else steps - |plan|
    {
      hide Change;
      left := steps;
      ghost var start := Current();
      for i := 0 to |plan|
        invariant left + i == steps
        invariant Current() == ApplyAll(start, plan[..i])
      {
        if left == 0 {
          return 0, true;
        }
        ghost var before := Current();
        match plan[i] {
          case Write(state) => file := Some(state);
          case Unlink => file := None;
          case _ => system := Change(system, plan[i]);
        }
        left := left - 1;
        assert plan[..i + 1] == plan[..i] + [plan[i]] && [plan[i]][1..] == [];
        ApplySplits(start, plan[..i], [plan[i]]);
        assert ApplyAll(before, [plan[i]]) == Apply(before, plan[i]);
      }
      assert plan[..|plan|] == plan;
      return left, false;
    }

    static method RouteScript(state: State) returns (commands: seq<Effect>)
      ensures commands == UndoTunnel(state) + UndoEndpoint(state)
    {
      commands := [];
      if state.tunnel.Some? {
        var tunnel := state.tunnel.value;
        if tunnel.lowCreated {
          commands := commands + [RemoveRoutes(LowHalf, tunnel.interface, ANY)];
        }
        if tunnel.highCreated {
          commands := commands + [RemoveRoutes(HighHalf, tunnel.interface, ANY)];
        }
        if tunnel.dnsBefore != [] {
          commands := commands + [SetDns(tunnel.interface, tunnel.dnsBefore)];
        } else {
          commands := commands + [ResetDns(tunnel.interface)];
        }
      }
      if state.route.created {
        commands := commands + [RemoveRoutes(Host(state.endpoint), state.route.interface, state.route.nextHop)];
      }
    }

    /** The recovery script for a file. */
    static method Script(state: State) returns (commands: seq<Effect>)
      ensures commands == UndoCommands(state)
    {
      hide UndoTunnel, UndoEndpoint;
      commands := RouteScript(state);
      ghost var routes := commands;
      assert state.rules[..0] == [];
      for i := 0 to |state.rules|
        invariant commands == routes + UndoRules(state.rules[..i])
      {
        RuleUndoAppends(state.rules, i);
        commands := commands + [RemoveRules(state.rules[i])];
      }
      assert state.rules[..|state.rules|] == state.rules;
    }

    method Recover(steps: nat) returns (left: nat, outcome: Outcome)
      modifies this
      ensures Current() == Ran(old(Current()), RecoverPlan(old(file)), steps)
      ensures outcome == if steps < |RecoverPlan(old(file))| then Crashed else Done
      ensures left == if outcome == Crashed then 0 else steps - |RecoverPlan(old(file))|
    {
      hide Apply, ApplyAll, UndoCommands;
      if file == None {
        EmptyRun(Current(), steps);
        return steps, Done;
      }
      ghost var start := Current();
      var commands := Script(file.value);
      assert RecoverPlan(start.file) == commands + [Unlink];
      var crashed;
      left, crashed := Perform(commands, steps);
      RanSplits(start, commands, [Unlink], steps);
      if crashed {
        return 0, Crashed;
      }
      left, crashed := Perform([Unlink], left);
      return left, if crashed then Crashed else Done;
    }

    /** Fails, after recovering an old file, when there is no physical default route. */
    method Prepare(endpoint: Address, env: Env, steps: nat) returns (left: nat, outcome: Outcome)
      modifies this
      ensures Current() == Ran(old(Current()), PreparePlan(old(Current()), endpoint, env), steps)
      ensures var plan := PreparePlan(old(Current()), endpoint, env);
              && (outcome == Crashed <==> steps < |plan|)
              && (outcome == Done ==> Prepared(Current(), endpoint))
              && (outcome == Failed ==> !Prepared(Current(), endpoint))
              && left == if outcome == Crashed then 0 else steps - |plan|
      ensures outcome == Done ==>
                (RouteInPlace(Current()) <==> !Prepared(old(Current()), endpoint) || RouteInPlace(old(Current())))
    {
      hide RecoverPlan, HasRoute, ApplyAll, Change, RouteInPlace;
      ghost var start := Current();
      if file.Some? && file.value.endpoint == endpoint {
        EmptyRun(start, steps);
        return steps, Done;
      }
      left, outcome := Recover(steps);
      ghost var recovery := RecoverPlan(start.file);
      ghost var cleared := ApplyAll(start, recovery);
      RecoveryClears(start);
      RanWhole(start, recovery, steps);
      if outcome == Crashed {
        RanSplits(start, recovery, PreparePlan(start, endpoint, env)[|recovery|..], steps);
        assert PreparePlan(start, endpoint, env) == recovery + PreparePlan(start, endpoint, env)[|recovery|..];
        return;
      }
      if env.gateway == None {
        assert recovery + [] == recovery;
        return left, Failed;
      }
      var route := EndpointRoute(env.gateway.value.0, env.gateway.value.1,
                                 !HasRoute(system, Host(endpoint), env.gateway.value.0, env.gateway.value.1));
      var state := State(endpoint, route, false, None, []);
      ghost var rest := EndpointPlan(cleared.system, endpoint, env.gateway.value);
      RanSplits(start, recovery, rest, steps);
      var add := When(route.created, AddRoute(Route(Host(endpoint), route.interface, route.nextHop, 1)));
      var crashed;
      var before := left;
      left, crashed := Perform([Write(state)], before);
      RanSplits(cleared, [Write(state)], add, before);
      if crashed {
        return 0, Crashed;
      }
      ghost var written := Current();
      WrittenOnce(cleared, state, before);
      var after := left;
      left, crashed := Perform(add, after);
      OnlyAdds(written, route.created, AddRoute(Route(Host(endpoint), route.interface, route.nextHop, 1)), after);
      if crashed {
        return left, Crashed;
      }
      RanWhole(start, PreparePlan(start, endpoint, env), steps);
      PreparedRouteIff(start, endpoint, env);
      return left, Done;
    }

    /** The commands stop at the one that fails, if any does; then everything is recovered and the
        installation fails. */
    method Install(endpoint: Address, env: Env, identifier: nat, tunnelDns: Address, failAt: nat, steps: nat)
      returns (left: nat, outcome: Outcome)
      modifies this
      ensures Current() == Ran(old(Current()),
                               InstallPlan(old(Current()), endpoint, env, identifier, tunnelDns, failAt), steps)
      ensures var plan := InstallPlan(old(Current()), endpoint, env, identifier, tunnelDns, failAt);
              && (outcome == Crashed <==> steps < |plan|)
              && (outcome == Done <==>
                    steps >= |plan| && GoesThrough(old(Current()), endpoint, env, identifier, tunnelDns, failAt))
      ensures outcome == Done ==>
                var prepared := ApplyAll(old(Current()), PreparePlan(old(Current()), endpoint, env));
                && system == WithTunnel(prepared.system, env, identifier, tunnelDns)
                && HasRoute(system, LowHalf, env.adapter, ANY) && HasRoute(system, HighHalf, env.adapter, ANY)
                && file.Some? && file.value.active
    {
      hide RecoverPlan, HasRoute, ApplyAll, Change, PreparePlan, Servers, TunnelCommands, WithTunnel;
      ghost var start := Current();
      ghost var preparation := PreparePlan(start, endpoint, env);
      left, outcome := Prepare(endpoint, env, steps);
      RanWhole(start, preparation, steps);
      if outcome == Crashed {
        ghost var plan := InstallPlan(start, endpoint, env, identifier, tunnelDns, failAt);
        RanSplits(start, preparation, plan[|preparation|..], steps);
        assert plan == preparation + plan[|preparation|..];
        return;
      }
      if outcome == Failed {
        return;
      }
      ghost var w1 := Current();
      var state := file.value;
      var logged := TunnelState(system, state, env, identifier);
      var commands := TunnelCommands(logged.tunnel.value, env, identifier, tunnelDns);
      ghost var rest := TunnelPlan(w1, state, env, identifier, tunnelDns, failAt);
      RanSplits(start, preparation, rest, steps);
      var first := left;
      var crashed;
      left, crashed := Perform([Write(logged)], first);
      ghost var tail := rest[1..];
      assert rest == [Write(logged)] + tail;
      RanSplits(w1, [Write(logged)], tail, first);
      if crashed {
        return 0, Crashed;
      }
      WrittenOnce(w1, logged, first);
      OnlyCommands(logged.tunnel.value, env, identifier, tunnelDns);
      left, outcome := Activate(logged, commands, failAt, left);
      if outcome == Done {
        RanWhole(start, InstallPlan(start, endpoint, env, identifier, tunnelDns, failAt), steps);
        InstallPutsInPlace(start, endpoint, env, identifier, tunnelDns, failAt);
      }
    }

    /** The script and what follows it. */
    method Activate(logged: State, commands: seq<Effect>, failAt: nat, steps: nat) returns (left: nat, outcome: Outcome)
      requires file == Some(logged) && forall e | e in commands :: Command(e)
      modifies this
      ensures var plan := if Fails(failAt, commands) then commands[..failAt] + RecoverPlan(Some(logged))
                          else commands + [Write(logged.(active := true))];
              && Current() == Ran(old(Current()), plan, steps)
              && (outcome == Crashed <==> steps < |plan|)
              && (outcome == Done <==> steps >= |plan| && !Fails(failAt, commands))
    {
      hide RecoverPlan, ApplyAll, Change;
      ghost var start := Current();
      var run := if Fails(failAt, commands) then commands[..failAt] else commands;
      var crashed;
      left, crashed := Perform(run, steps);
      RanSplits(start, run, if Fails(failAt, commands) then RecoverPlan(Some(logged))
                else [Write(logged.(active := true))], steps);
      if crashed {
        return 0, Crashed;
      }
      RanWhole(start, run, steps);
      CommandsChange(start, run);
      if Fails(failAt, commands) {
        var recovered;
        left, recovered := Recover(left);
        return left, if recovered == Crashed then Crashed else Failed;
      }
      left, crashed := Perform([Write(logged.(active := true))], left);
      return left, if crashed then Crashed else Done;
    }
  }

  lemma EmptyRun(w: World, steps: nat)
    ensures Ran(w, [], steps) == w
  {
  }

  lemma RanWhole(w: World, plan: seq<Effect>, steps: nat)
    ensures steps >= |plan| ==> Ran(w, plan, steps) == ApplyAll(w, plan)
  {
    hide ApplyAll;
    assert plan[..|plan|] == plan;
  }

  lemma RanSplits(w: World, a: seq<Effect>, b: seq<Effect>, steps: nat)
    ensures Ran(w, a + b, steps) == if steps < |a| then Ran(w, a, steps) else Ran(Ran(w, a, steps), b, steps - |a|)
  {
    hide ApplyAll;
    if steps < |a| {
      assert (a + b)[..steps] == a[..steps];
    } else {
      var k := Min(steps - |a|, |b|);
      assert a[..|a|] == a;
      assert (a + b)[..|a| + k] == a + b[..k];
      ApplySplits(w, a, b[..k]);
    }
  }

  lemma RecoveryClears(w: World)
    ensures ApplyAll(w, RecoverPlan(w.file)).file == None
  {
    hide Undone, UndoCommands;
    if w.file.Some? { RecoverUndoes(w); }
  }

  lemma WrittenOnce(w: World, st: State, steps: nat)
    requires steps > 0
    ensures Ran(w, [Write(st)], steps) == World(w.system, Some(st))
  {
    var plan := [Write(st)];
    assert plan[..Min(steps, 1)] == plan && plan[1..] == [];
    assert ApplyAll(w, plan) == ApplyAll(Apply(w, plan[0]), plan[1..]);
  }

  lemma OnlyCommands(t: Tunnel, env: Env, identifier: nat, tunnelDns: Address)
    ensures forall e | e in TunnelCommands(t, env, identifier, tunnelDns) :: Command(e)
  {
    hide When, Command;
    CommandWhen(t.lowCreated, AddRoute(Route(LowHalf, t.interface, ANY, 1)));
    CommandWhen(t.highCreated, AddRoute(Route(HighHalf, t.interface, ANY, 1)));
    CommandWhen(true, SetDns(t.interface, [tunnelDns]));
    CommandWhen(true, AddRule(Rule(Ours(Ipv6, identifier), [])));
    CommandWhen(env.aliases != [], AddRule(Rule(Ours(DnsUdp, identifier), env.aliases)));
    CommandWhen(env.aliases != [], AddRule(Rule(Ours(DnsTcp, identifier), env.aliases)));
  }

  lemma CommandWhen(condition: bool, e: Effect)
    requires !e.Write? && !e.Unlink?
    ensures Command(e) && forall x | x in When(condition, e) :: Command(x)
  {
  }

  lemma OnlyAdds(w: World, condition: bool, e: Effect, steps: nat)
    requires Command(e)
    ensures Ran(w, When(condition, e), steps).file == w.file
  {
    var k := Min(steps, |When(condition, e)|);
    CommandsChange(w, When(condition, e)[..k]);
  }

  lemma {:induction false} RuleUndoAppends(names: seq<RuleName>, i: nat)
    requires i <= |names|
    ensures i < |names| ==> UndoRules(names[..i + 1]) == UndoRules(names[..i]) + [RemoveRules(names[i])]
    decreases i
  {
    if i < |names| {
      UndoRulesAppend(names[..i], names[i]);
      assert names[..i + 1] == names[..i] + [names[i]];
    }
  }

  lemma {:induction false} UndoRulesAppend(names: seq<RuleName>, name: RuleName)
    ensures UndoRules(names + [name]) == UndoRules(names) + [RemoveRules(name)]
  {
    if names != [] {
      UndoRulesAppend(names[1..], name);
      assert (names + [name])[1..] == names[1..] + [name];
    }
  }
}
