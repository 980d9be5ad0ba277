/** The promotion protocol: what `switchTraffic` and the apply half of the deploy `callback` do to
    the cluster, as a function of their inputs and of every answer the outside gives them.

    A run is the log of the calls that took effect together with how the command ended. A world
    fixes the answers, so a statement over all worlds covers a failure at every call and readiness
    that changes between calls. */
module Promotion {
  import opened Base
  import opened Routing

  datatype Run = Run(log: seq<Step>, status: Status)

  /** The second part runs only when the first ended normally. */
  function Then(a: Run, b: Run): Run {
    if a.status.Ok? then Run(a.log + b.log, b.status) else a
  }

  lemma {:induction false} ThenAssoc(a: Run, b: Run, c: Run)
    ensures Then(a, Then(b, c)) == Then(Then(a, b), c)
  {
    if a.status.Ok? && b.status.Ok? {
      assert a.log + (b.log + c.log) == (a.log + b.log) + c.log;
    }
  }

  function Skip(): Run { Run([], Ok) }

  /** A check the command makes itself. */
  function Check(ok: bool): Run { Run([], if ok then Ok else Refused) }

  /** A call that changes nothing modelled here but may throw. */
  function Pass(ok: bool): Run { Run([], if ok then Ok else Failed) }

  /** One call; when it throws it had no effect. */
  function Call(s: Step, ok: bool): Run { if ok then Run([s], Ok) else Run([], Failed) }

  /** How a refresh that rebuilt the table ended: every call and wait passed, one threw, or the swap or
      the manifest was refused and a table was put back. That is the one from before, unless the swap
      failed at once over the left-over file of an older run. */
  datatype Ending = Settled | Stuck | RolledBack(edge: Edge)

  /** The answers one `refreshUnderpostIngress` gets. `loaded`: the new table reached the running
      edge. Whether the refresh settled does not follow: a readiness read that fails silently skips the
      reload, nothing restarts, and every wait passes over the old table. */
  datatype RefreshAnswers = RefreshAnswers(installed: bool, answers: Reads, loaded: bool, ending: Ending)

  /** Whether the refresh goes as far as rebuilding the table; otherwise it reports `false`. */
  predicate Updates(a: RefreshAnswers) {
    a.installed && AnyBackend(a.answers)
  }

  function RefreshRun(preferred: Stack, a: RefreshAnswers): Run {
    if !Updates(a) then Skip()
    else Run((if a.loaded then [Refresh(preferred, a.answers)] else [])
             + (if a.ending.RolledBack? then [Restore(a.ending.edge)] else []),
             if a.ending.Settled? then Ok else Failed)
  }

  /** The table of a refresh is put back before the refresh throws. */
  predicate PutsBack(a: RefreshAnswers) {
    Updates(a) && a.ending.RolledBack?
  }

  /** What a refresh makes of the edge before any roll-back. */
  function Refreshed(v: View, preferred: Stack, a: RefreshAnswers): View {
    if Updates(a) && a.loaded then Apply(v, Refresh(preferred, a.answers)) else v
  }

  lemma {:induction false} RefreshedIs(v: View, preferred: Stack, a: RefreshAnswers, P: View -> bool)
    ensures Exec(v, RefreshRun(preferred, a).log)
         == if PutsBack(a) then Apply(v, Restore(a.ending.edge)) else Refreshed(v, preferred, a)
    ensures Along(v, RefreshRun(preferred, a).log, P) <==>
            P(v) && P(Refreshed(v, preferred, a)) && (PutsBack(a) ==> P(Apply(v, Restore(a.ending.edge))))
  {
    var load := if Updates(a) && a.loaded then [Refresh(preferred, a.answers)] else [];
    var back := if PutsBack(a) then [Restore(a.ending.edge)] else [];
    var u := Refreshed(v, preferred, a);
    AlongEmptyExactly(v, P);
    AlongOneExactly(v, Refresh(preferred, a.answers), P);
    AlongEmptyExactly(u, P);
    if PutsBack(a) { AlongOneExactly(u, Restore(a.ending.edge), P); }
    AlongConcatExactly(v, load, back, P);
    assert RefreshRun(preferred, a).log == load + back;
  }

  /** A property holds along two parts exactly when it holds along the first and, if that ended
      normally, along the second from there. */
  lemma {:induction false} AlongThenExactly(v: View, a: Run, b: Run, P: View -> bool)
    ensures Along(v, Then(a, b).log, P) <==> Along(v, a.log, P) && (a.status.Ok? ==> Along(Exec(v, a.log), b.log, P))
    ensures Exec(v, Then(a, b).log) == if a.status.Ok? then Exec(Exec(v, a.log), b.log) else Exec(v, a.log)
  {
    AlongConcatExactly(v, a.log, b.log, P);
  }

  lemma {:induction false} ThenAlong(v: View, a: Run, b: Run, P: View -> bool)
    requires Along(v, a.log, P)
    requires a.status.Ok? ==> Along(Exec(v, a.log), b.log, P)
    ensures Along(v, Then(a, b).log, P)
    ensures a.status.Ok? ==> Exec(v, Then(a, b).log) == Exec(Exec(v, a.log), b.log)
  {
    AlongThenExactly(v, a, b, P);
  }

  lemma {:induction false} AlongCallExactly(v: View, s: Step, ok: bool, P: View -> bool)
    ensures Along(v, Call(s, ok).log, P) <==> P(v) && (ok ==> P(Apply(v, s)))
    ensures Exec(v, Call(s, ok).log) == if ok then Apply(v, s) else v
  {
    AlongEmptyExactly(v, P);
    AlongOneExactly(v, s, P);
  }

  /** A multi-document apply goes on past a rejected document and throws at the end. */
  function PublishSteps(stack: Stack, hosts: seq<Host>, conf: Conf, accepted: set<Host>): seq<Step>
    requires forall h :: h in hosts ==> h in conf.rules
  {
    if hosts == [] then []
    else
      (if Published(conf, hosts[0]) && hosts[0] in accepted
       then [Publish(stack, hosts[0], conf.rules[hosts[0]])] else [])
      + PublishSteps(stack, hosts[1..], conf, accepted)
  }

  predicate AllAccepted(conf: Conf, accepted: set<Host>) {
    forall h :: h in conf.hosts && Published(conf, h) ==> h in accepted
  }

  predicate AnyPublished(conf: Conf) {
    exists h :: h in conf.hosts && Published(conf, h)
  }

  predicate AnyBlock(conf: Conf) {
    exists h :: h in conf.hosts && h in conf.rules && Intercepted(conf.rules[h])
  }

  function PublishRun(conf: Conf, stack: Stack, accepted: set<Host>): Run
    requires ValidConf(conf)
  {
    Run(PublishSteps(stack, conf.hosts, conf, accepted), if AllAccepted(conf, accepted) then Ok else Failed)
  }

  /** Deletes are issued host by host; an empty name is never passed to `kubectl`. */
  function RemoveSteps(stack: Stack, hosts: seq<Host>): seq<Step> {
    if hosts == [] then []
    else (if hosts[0] == "" then [] else [Remove(stack, hosts[0])]) + RemoveSteps(stack, hosts[1..])
  }

  function RemoveRun(stack: Stack, hosts: seq<Host>, done: nat): Run {
    if done < |hosts| then Run(RemoveSteps(stack, hosts[..done]), Failed)
    else Run(RemoveSteps(stack, hosts), Ok)
  }

  /** The answers given while the routing layers converge and the selector moves. */
  datatype PromoteWorld = PromoteWorld(
    bootstrapped: bool,
    installed: bool,
    gatewayApplied: bool,
    accepted: set<Host>,
    first: RefreshAnswers,
    removed: nat,
    second: RefreshAnswers,
    flipped: bool,
    stableServing: bool,
    rolledBack: bool)

  function DestStack(gatewayApi: bool): Stack {
    if gatewayApi then Gateway else Contour
  }

  function InstallRun(conf: Conf, dest: Stack, w: PromoteWorld): Run {
    if dest == Gateway && AnyBlock(conf) then Call(Install(conf), w.installed) else Skip()
  }

  /** `mustExist`: the deploy command applies `proxy.yaml` without looking whether it is empty. */
  function ApplyRun(conf: Conf, dest: Stack, mustExist: bool, w: PromoteWorld): Run
    requires ValidConf(conf)
  {
    if !AnyPublished(conf) then Pass(dest == Gateway || !mustExist)
    else Then(Pass(dest == Contour || w.gatewayApplied), PublishRun(conf, dest, w.accepted))
  }

  /** The hosts whose old route is deleted before the run goes on or stops. */
  function Removed(conf: Conf, w: PromoteWorld): seq<Host> {
    if w.removed < |conf.hosts| then conf.hosts[..w.removed] else conf.hosts
  }

  function MigrateRun(conf: Conf, dest: Stack, w: PromoteWorld): Run {
    Then(RefreshRun(dest, w.first),
         if !Updates(w.first) then Skip()
         else Then(RemoveRun(Other(dest), conf.hosts, w.removed), RefreshRun(dest, w.second)))
  }

  function FlipRun(bootstrap: Colour, desired: Colour, awaits: bool, w: PromoteWorld): Run {
    Then(if desired != bootstrap then Call(Select(desired), w.flipped) else Skip(),
         if !awaits || w.stableServing then Skip()
         else Run(if desired != bootstrap && w.rolledBack then [Select(bootstrap)] else [], Failed))
  }

  function PromoteRun(conf: Conf, dest: Stack, mustExist: bool, bootstrap: Colour, desired: Colour,
                      awaits: bool, w: PromoteWorld): Run
    requires ValidConf(conf)
  {
    Then(Call(Select(bootstrap), w.bootstrapped),
    Then(InstallRun(conf, dest, w),
    Then(ApplyRun(conf, dest, mustExist, w),
    Then(MigrateRun(conf, dest, w),
         FlipRun(bootstrap, desired, awaits, w)))))
  }

  /** Everything between the two selector writes. */
  function ConvergeRun(conf: Conf, dest: Stack, mustExist: bool, w: PromoteWorld): Run
    requires ValidConf(conf)
  {
    Then(InstallRun(conf, dest, w), Then(ApplyRun(conf, dest, mustExist, w), MigrateRun(conf, dest, w)))
  }

  lemma {:induction false} PromoteShape(conf: Conf, dest: Stack, mustExist: bool, bootstrap: Colour, desired: Colour,
                     awaits: bool, w: PromoteWorld)
    requires ValidConf(conf)
    ensures PromoteRun(conf, dest, mustExist, bootstrap, desired, awaits, w)
         == Then(Call(Select(bootstrap), w.bootstrapped),
                 Then(ConvergeRun(conf, dest, mustExist, w), FlipRun(bootstrap, desired, awaits, w)))
  {
    var i, a := InstallRun(conf, dest, w), ApplyRun(conf, dest, mustExist, w);
    var m, f := MigrateRun(conf, dest, w), FlipRun(bootstrap, desired, awaits, w);
    ThenAssoc(a, m, f);
    ThenAssoc(i, Then(a, m), f);
  }

  // ----- switchTraffic

  datatype SwitchIn = SwitchIn(conf: Conf, target: Colour, gatewayApi: bool, grpcManifest: bool)

  /** `seen` is what `getCurrentTraffic` reported, `seenServing` whether that colour's Service had
      a ready endpoint. */
  datatype SwitchWorld = SwitchWorld(
    ready: bool,
    serving: bool,
    seen: Option<Colour>,
    seenServing: bool,
    built: bool,
    promote: PromoteWorld,
    grpcApplied: bool,
    stored: bool)

  function SwitchBootstrap(sw: SwitchIn, w: SwitchWorld): Colour {
    if w.seen.Some? && w.seenServing then w.seen.value else sw.target
  }

  function SwitchRun(sw: SwitchIn, w: SwitchWorld): Run
    requires ValidConf(sw.conf)
  {
    Then(Check(w.ready && w.serving),
    Then(Pass(w.built),
    Then(PromoteRun(sw.conf, DestStack(sw.gatewayApi), false, SwitchBootstrap(sw, w), sw.target, true, w.promote),
    Then(if sw.grpcManifest then Call(Grpc(sw.target), w.grpcApplied) else Skip(),
         Call(Record(sw.target), w.stored)))))
  }

  // ----- the apply half of the deploy callback

  /** `versions` is empty and `traffic` is `None` when the option was not given. `manifest` holds
      the colours whose objects the built `deployment.yaml` contains. */
  datatype DeployIn = DeployIn(
    conf: Conf,
    gatewayApi: bool,
    versions: seq<Colour>,
    traffic: Option<Colour>,
    updateDeployment: bool,
    updateProxy: bool,
    remove: bool,
    manifest: set<Colour>,
    grpcManifest: Option<Colour>)

  /** `live` is the colour read at the start, `seen` the one read again before routing. */
  datatype DeployWorld = DeployWorld(
    live: Option<Colour>,
    dropped: nat,
    swept: bool,
    created: set<Colour>,
    grpcApplied: bool,
    seen: Option<Colour>,
    seenServing: bool,
    desiredReady: bool,
    desiredServing: bool,
    promote: PromoteWorld,
    certificates: bool)

  /** The colour a promote routes to next; with none live the canonical first colour is blue. */
  function NextTraffic(live: Option<Colour>): Colour {
    if live == Some(Blue) then Green else Blue
  }

  function DeployVersions(d: DeployIn, live: Option<Colour>): seq<Colour> {
    if d.versions != [] then d.versions
    else if d.traffic.Some? then [d.traffic.value]
    else [NextTraffic(live)]
  }

  function DropSteps(versions: seq<Colour>): seq<Step> {
    if versions == [] then []
    else [DropService(versions[0]), DropDeployment(versions[0])] + DropSteps(versions[1..])
  }

  function DropRun(versions: seq<Colour>, done: nat): Run {
    if done < |DropSteps(versions)| then Run(DropSteps(versions)[..done], Failed)
    else Run(DropSteps(versions), Ok)
  }

  function CreateRun(d: DeployIn, w: DeployWorld): Run {
    Then(Run([Create(d.manifest * w.created)], if d.manifest <= w.created then Ok else Failed),
         if d.grpcManifest.Some? then Call(Grpc(d.grpcManifest.value), w.grpcApplied) else Skip())
  }

  predicate SeenReady(w: DeployWorld) {
    w.seen.Some? && w.seenServing
  }

  function DesiredTraffic(d: DeployIn, w: DeployWorld): Colour {
    if d.traffic.Some? then d.traffic.value
    else if SeenReady(w) then w.seen.value
    else DeployVersions(d, w.live)[0]
  }

  function DeployBootstrap(d: DeployIn, w: DeployWorld): Colour {
    if SeenReady(w) then w.seen.value else DesiredTraffic(d, w)
  }

  function RouteRun(d: DeployIn, w: DeployWorld): Run
    requires ValidConf(d.conf)
  {
    Then(Check(!d.updateDeployment || (w.desiredReady && w.desiredServing)),
         PromoteRun(d.conf, DestStack(d.gatewayApi), true, DeployBootstrap(d, w), DesiredTraffic(d, w),
                    d.updateDeployment, w.promote))
  }

  function DeployRun(d: DeployIn, w: DeployWorld): Run
    requires ValidConf(d.conf)
  {
    Then(if d.updateDeployment then DropRun(DeployVersions(d, w.live), w.dropped) else Skip(),
    Then(Pass(w.swept),
         if d.remove then Skip()
         else
           Then(if d.updateDeployment then CreateRun(d, w) else Skip(),
           Then(if d.updateProxy then RouteRun(d, w) else Skip(),
                Pass(w.certificates)))))
  }
}
