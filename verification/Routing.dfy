/** What carries a request from a hostname and a path to a blue or a green workload, and the single
    steps by which the deploy commands change it.

    A request crosses several hops: the shared edge picks one of the two routing stacks, the route
    object of that stack names a Service or the shared gateway, the gateway's server block names a
    Service, and a Service is either a legacy per-colour one or the stable one, whose selector
    holds the colour. */
module Routing {
  import opened Base

  datatype Colour = Blue | Green

  type Host = string
  type Path = string

  /** The Contour HTTPProxy set and the Gateway API HTTPRoute set. */
  datatype Stack = Contour | Gateway

  /** A Service that a route or a server block names. */
  datatype Upstream = Legacy(colour: Colour) | Stable

  /** The backend of one HTTPRoute rule: a Service, or the shared gateway that intercepts errors. */
  datatype Backend = Direct(upstream: Upstream) | Shared

  /** The loaded host table of the shared edge, with the stack an unlisted hostname reaches. */
  datatype Edge = Edge(table: map<Host, Stack>, fallback: Stack)

  /** One state of the cluster. `front` is the stack that owns the node ports when no shared edge
      is installed; `deployments` and `services` are the per-colour workload objects. */
  datatype View = View(
    proxies: map<Host, map<Path, Upstream>>,
    routes: map<Host, map<Path, Backend>>,
    blocks: map<Host, map<Path, Upstream>>,
    selector: Option<Colour>,
    grpc: Option<Colour>,
    recorded: Option<Colour>,
    edge: Option<Edge>,
    front: Stack,
    deployments: set<Colour>,
    services: set<Colour>)

  function Opposite(c: Colour): Colour {
    if c == Blue then Green else Blue
  }

  function Other(s: Stack): Stack {
    if s == Contour then Gateway else Contour
  }

  // ----- how a request resolves

  /** The stack an edge hands a hostname to. */
  function PickedBy(e: Edge, h: Host): Stack {
    if h in e.table then e.table[h] else e.fallback
  }

  /** The stack a hostname is handed to. */
  function Pick(v: View, h: Host): Stack {
    match v.edge
    case None => v.front
    case Some(e) => PickedBy(e, h)
  }

  predicate Holds(v: View, s: Stack, h: Host) {
    if s == Contour then h in v.proxies else h in v.routes
  }

  predicate Routed(v: View, h: Host) {
    h in v.proxies || h in v.routes
  }

  /** The stack picked for the hostname has a route object for it. */
  predicate Reaches(v: View, h: Host) {
    Holds(v, Pick(v, h), h)
  }

  function UpstreamColour(v: View, u: Upstream): Option<Colour> {
    match u
    case Legacy(c) => Some(c)
    case Stable => v.selector
  }

  function BlockColour(v: View, h: Host, p: Path): Option<Colour> {
    if h in v.blocks && p in v.blocks[h] then UpstreamColour(v, v.blocks[h][p]) else None
  }

  /** The colour stack `s` sends a request for `h` and `p` to. */
  function ColourThrough(v: View, s: Stack, h: Host, p: Path): Option<Colour> {
    if s == Contour then
      if h in v.proxies && p in v.proxies[h] then UpstreamColour(v, v.proxies[h][p]) else None
    else if h in v.routes && p in v.routes[h] then
      match v.routes[h][p]
      case Direct(u) => UpstreamColour(v, u)
      case Shared => BlockColour(v, h, p)
    else None
  }

  /** The colour that answers a request, `None` when some hop leads nowhere. */
  function Resolve(v: View, h: Host, p: Path): Option<Colour> {
    ColourThrough(v, Pick(v, h), h, p)
  }

  // ----- what a manifest build renders

  /** The rules of one hostname: each path, and whether the shared gateway intercepts its errors. */
  type Rules = map<Path, bool>

  /** The hostnames of one deploy in file order, with the rules rendered for each. */
  datatype Conf = Conf(hosts: seq<Host>, rules: map<Host, Rules>)

  predicate Distinct(hosts: seq<Host>) {
    forall i, j :: 0 <= i < j < |hosts| ==> hosts[i] != hosts[j]
  }

  predicate ValidConf(conf: Conf) {
    && Distinct(conf.hosts)
    && conf.rules.Keys == set h | h in conf.hosts
  }

  /** A hostname gets a route document only when at least one rule was rendered for it. */
  predicate Published(conf: Conf, h: Host) {
    h in conf.rules && conf.rules[h] != map[]
  }

  /** A server block is written only when at least one of its paths is proxied by the gateway. */
  predicate Intercepted(rules: Rules) {
    exists p :: p in rules && rules[p]
  }

  function ProxyOf(rules: Rules): map<Path, Upstream> {
    map p | p in rules :: Stable
  }

  function RouteOf(rules: Rules): map<Path, Backend> {
    map p | p in rules :: if rules[p] then Shared else Direct(Stable)
  }

  function BlockOf(rules: Rules): map<Path, Upstream> {
    map p | p in rules && rules[p] :: Stable
  }

  // ----- the host table of the shared edge

  /** The answers one rebuild of the host table gets: which stacks answered as installed, whether
      the gateway data plane Service exists, and whether each route list came back. A failed
      `kubectl get` reads as "absent" or as an empty list. */
  datatype Reads = Reads(contour: bool, gateway: bool, service: bool, proxiesListed: bool, routesListed: bool)

  predicate Available(r: Reads, s: Stack) {
    if s == Contour then r.contour else r.gateway && r.service
  }

  function SeenProxies(v: View, r: Reads): set<Host> {
    if r.contour && r.proxiesListed then v.proxies.Keys else {}
  }

  function SeenRoutes(v: View, r: Reads): set<Host> {
    if r.gateway && r.routesListed then v.routes.Keys else {}
  }

  /** The stack the host table names: the preferred one when both describe the hostname. */
  function Entry(v: View, r: Reads, preferred: Stack, h: Host): Stack {
    if h in SeenProxies(v, r) && h in SeenRoutes(v, r) then preferred
    else if h in SeenProxies(v, r) then Contour
    else Gateway
  }

  /** Entries whose stack has no backend are dropped, so those hostnames reach the fallback. */
  function HostTable(v: View, r: Reads, preferred: Stack): Edge {
    Edge(
      map h | h in SeenProxies(v, r) + SeenRoutes(v, r) && Available(r, Entry(v, r, preferred, h))
        :: Entry(v, r, preferred, h),
      if Available(r, Gateway) then Gateway else Contour)
  }

  /** Where a rebuild sends a hostname, from the reads and from whether it has an HTTPProxy and whether it
      has an HTTPRoute. */
  function Sends(r: Reads, preferred: Stack, proxied: bool, routed: bool): Stack {
    var seesProxy, seesRoute := proxied && r.contour && r.proxiesListed, routed && r.gateway && r.routesListed;
    var entry := if seesProxy && seesRoute then preferred else if seesProxy then Contour else Gateway;
    if (seesProxy || seesRoute) && entry == Contour && r.contour then Contour
    else if r.gateway && r.service then Gateway else Contour
  }

  lemma {:induction false} RebuildSends(v: View, r: Reads, preferred: Stack, h: Host)
    ensures Pick(Apply(v, Refresh(preferred, r)), h) == Sends(r, preferred, h in v.proxies, h in v.routes)
  {
  }

  predicate AnyBackend(r: Reads) {
    Available(r, Contour) || Available(r, Gateway)
  }

  /** The answers for which a rebuild that prefers `dest` sends a host it describes there. A list that
      failed hides its hosts; a hidden host reaches the fallback. */
  predicate PicksDest(v: View, r: Reads, dest: Stack, h: Host) {
    if dest == Gateway then Available(r, Gateway) && (h in SeenProxies(v, r) ==> h in SeenRoutes(v, r))
    else h in SeenProxies(v, r) || !Available(r, Gateway)
  }

  // ----- the steps

  /** One call that took effect. */
  datatype Step =
    | Select(colour: Colour)
    | Install(conf: Conf)
    | Publish(stack: Stack, host: Host, rules: Rules)
    | Refresh(preferred: Stack, answers: Reads)
    | Restore(edge: Edge)
    | Remove(stack: Stack, host: Host)
    | Grpc(colour: Colour)
    | Record(colour: Colour)
    | DropService(colour: Colour)
    | DropDeployment(colour: Colour)
    | Create(colours: set<Colour>)

  function InstalledBlocks(v: View, conf: Conf): map<Host, map<Path, Upstream>> {
    v.blocks + map h | h in conf.rules && Intercepted(conf.rules[h]) :: BlockOf(conf.rules[h])
  }

  function Apply(v: View, s: Step): View {
    match s
    case Select(c) => v.(selector := Some(c))
    case Install(conf) => v.(blocks := InstalledBlocks(v, conf))
    case Publish(stack, h, rules) =>
      if stack == Contour then v.(proxies := v.proxies[h := ProxyOf(rules)])
      else v.(routes := v.routes[h := RouteOf(rules)])
    case Refresh(preferred, r) => v.(edge := Some(HostTable(v, r, preferred)))
    case Restore(e) => v.(edge := Some(e))
    case Remove(stack, h) =>
      if stack == Contour then v.(proxies := v.proxies - {h}) else v.(routes := v.routes - {h})
    case Grpc(c) => v.(grpc := Some(c))
    case Record(c) => v.(recorded := Some(c))
    case DropService(c) => v.(services := v.services - {c})
    case DropDeployment(c) => v.(deployments := v.deployments - {c})
    case Create(cs) => v.(services := v.services + cs, deployments := v.deployments + cs)
  }

  function Exec(v: View, log: seq<Step>): View
    decreases |log|
  {
    if log == [] then v else Exec(Apply(v, log[0]), log[1..])
  }

  lemma {:induction false} ExecConcat(v: View, a: seq<Step>, b: seq<Step>)
    ensures Exec(v, a + b) == Exec(Exec(v, a), b)
    decreases |a|
  {
    if a == [] {
      assert a + b == b;
    } else {
      assert (a + b)[0] == a[0] && (a + b)[1..] == a[1..] + b;
      ExecConcat(Apply(v, a[0]), a[1..], b);
    }
  }

  /** `P` holds before the first step of the log, after the last and in every state between. */
  ghost predicate Along(v: View, log: seq<Step>, P: View -> bool) {
    forall k :: 0 <= k <= |log| ==> P(Exec(v, log[..k]))
  }

  lemma {:induction false} AlongEmpty(v: View, P: View -> bool)
    requires P(v)
    ensures Along(v, [], P)
  {
    var none: seq<Step> := [];
    forall k | 0 <= k <= |none| ensures P(Exec(v, none[..k])) {
      assert none[..k] == [];
    }
  }

  lemma {:induction false} AlongOne(v: View, s: Step, P: View -> bool)
    requires P(v) && P(Apply(v, s))
    ensures Along(v, [s], P) && Exec(v, [s]) == Apply(v, s)
  {
    assert [s][1..] == [];
    assert Exec(v, [s]) == Exec(Apply(v, s), []);
    forall k | 0 <= k <= 1 ensures P(Exec(v, [s][..k])) {
      if k == 0 { assert [s][..k] == []; } else { assert [s][..k] == [s]; }
    }
  }

  lemma {:induction false} AlongConcat(v: View, a: seq<Step>, b: seq<Step>, P: View -> bool)
    requires Along(v, a, P) && Along(Exec(v, a), b, P)
    ensures Along(v, a + b, P) && Exec(v, a + b) == Exec(Exec(v, a), b)
  {
    ExecConcat(v, a, b);
    forall k | 0 <= k <= |a + b| ensures P(Exec(v, (a + b)[..k])) {
      if k <= |a| {
        assert (a + b)[..k] == a[..k];
      } else {
        assert (a + b)[..k] == a + b[..k - |a|];
        ExecConcat(v, a, b[..k - |a|]);
      }
    }
  }

  lemma {:induction false} AlongEmptyExactly(v: View, P: View -> bool)
    ensures Along(v, [], P) <==> P(v)
  {
    var none: seq<Step> := [];
    if P(v) { AlongEmpty(v, P); }
    if Along(v, none, P) { assert P(Exec(v, none[..0])); }
  }

  lemma {:induction false} AlongOneExactly(v: View, s: Step, P: View -> bool)
    ensures Along(v, [s], P) <==> P(v) && P(Apply(v, s))
    ensures Exec(v, [s]) == Apply(v, s)
  {
    assert [s][1..] == [];
    assert Exec(v, [s]) == Apply(v, s);
    if P(v) && P(Apply(v, s)) { AlongOne(v, s, P); }
    if Along(v, [s], P) {
      assert P(Exec(v, [s][..0])) && P(Exec(v, [s][..1]));
      assert [s][..0] == [] && [s][..1] == [s];
    }
  }

  lemma {:induction false} AlongConcatExactly(v: View, a: seq<Step>, b: seq<Step>, P: View -> bool)
    ensures Along(v, a + b, P) <==> Along(v, a, P) && Along(Exec(v, a), b, P)
    ensures Exec(v, a + b) == Exec(Exec(v, a), b)
  {
    ExecConcat(v, a, b);
    if Along(v, a, P) && Along(Exec(v, a), b, P) { AlongConcat(v, a, b, P); }
    if Along(v, a + b, P) {
      forall k | 0 <= k <= |a| ensures P(Exec(v, a[..k])) {
        assert (a + b)[..k] == a[..k];
      }
      forall k | 0 <= k <= |b| ensures P(Exec(Exec(v, a), b[..k])) {
        assert (a + b)[..|a| + k] == a + b[..k];
        ExecConcat(v, a, b[..k]);
      }
    }
  }

  lemma {:induction false} AlongEnds(v: View, log: seq<Step>, P: View -> bool)
    requires Along(v, log, P)
    ensures P(v) && P(Exec(v, log))
  {
    assert log[..0] == [] && log[..|log|] == log;
    assert P(Exec(v, log[..0])) && P(Exec(v, log[..|log|]));
  }
}
