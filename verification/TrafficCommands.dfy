/** The two commands as they run: a cluster object changed call by call, with early exits. Each
    method is proved to perform exactly the run that Promotion specifies for the same answers, and the
    commands promise, of their own object and of the calls they added to its log, what is proved about
    runs. */
module TrafficCommands {
  import opened Base
  import opened Routing
  import opened Promotion
  import opened SingleFlip
  import opened ColourSafety
  import opened Migration
  import opened FirstState
  import opened WholeSwitch
  import Completion
  import DefaultDeploy
  import SelectorHistory

  lemma {:induction false} ExecThen(v: View, a: Run, b: Run)
    requires a.status.Ok?
    ensures Exec(v, Then(a, b).log) == Exec(Exec(v, a.log), b.log)
  {
    ExecConcat(v, a.log, b.log);
  }

  lemma {:induction false} ExecOne(v: View, s: Step)
    ensures Exec(v, [s]) == Apply(v, s)
  {
    assert [s][1..] == [];
  }

  /** Doing `b` after `a` is doing `Then(a, b)`. */
  lemma {:induction false} Chain(v0: View, l0: seq<Step>, a: Run, b: Run, l1: seq<Step>, v1: View, l2: seq<Step>, v2: View)
    requires a.status.Ok? && l1 == l0 + a.log && v1 == Exec(v0, a.log)
    requires l2 == l1 + b.log && v2 == Exec(v1, b.log)
    ensures l2 == l0 + Then(a, b).log && v2 == Exec(v0, Then(a, b).log)
  {
    ExecConcat(v0, a.log, b.log);
  }

  /** The part of a multi-document apply that concerns one host. */
  function PublishHere(stack: Stack, h: Host, conf: Conf, accepted: set<Host>): seq<Step>
    requires h in conf.rules
  {
    if Published(conf, h) && h in accepted then [Publish(stack, h, conf.rules[h])] else []
  }

  lemma {:induction false} PublishSnoc(stack: Stack, hosts: seq<Host>, h: Host, conf: Conf, accepted: set<Host>)
    requires h in conf.rules && forall x :: x in hosts ==> x in conf.rules
    ensures PublishSteps(stack, hosts + [h], conf, accepted)
         == PublishSteps(stack, hosts, conf, accepted) + PublishHere(stack, h, conf, accepted)
    decreases |hosts|
  {
    if hosts == [] {
      assert (hosts + [h])[1..] == [];
    } else {
      assert (hosts + [h])[0] == hosts[0] && (hosts + [h])[1..] == hosts[1..] + [h];
      PublishSnoc(stack, hosts[1..], h, conf, accepted);
    }
  }

  lemma {:induction false} RemoveSnoc(stack: Stack, hosts: seq<Host>, h: Host)
    ensures RemoveSteps(stack, hosts + [h]) == RemoveSteps(stack, hosts) + if h == "" then [] else [Remove(stack, h)]
    decreases |hosts|
  {
    if hosts == [] {
      assert (hosts + [h])[1..] == [];
    } else {
      assert (hosts + [h])[0] == hosts[0] && (hosts + [h])[1..] == hosts[1..] + [h];
      RemoveSnoc(stack, hosts[1..], h);
    }
  }

  lemma {:induction false} DropSnoc(versions: seq<Colour>, c: Colour)
    ensures DropSteps(versions + [c]) == DropSteps(versions) + [DropService(c), DropDeployment(c)]
    decreases |versions|
  {
    if versions == [] {
      assert (versions + [c])[1..] == [];
    } else {
      assert (versions + [c])[0] == versions[0] && (versions + [c])[1..] == versions[1..] + [c];
      DropSnoc(versions[1..], c);
    }
  }

  lemma {:induction false} DropLength(versions: seq<Colour>)
    ensures |DropSteps(versions)| == 2 * |versions|
  {
    if versions != [] { DropLength(versions[1..]); }
  }

  lemma {:induction false} DropAt(versions: seq<Colour>, i: nat)
    requires i <= |versions|
    ensures |DropSteps(versions)| == 2 * |versions|
    ensures DropSteps(versions)[..2 * i] == DropSteps(versions[..i])
    ensures i < |versions| ==> DropSteps(versions)[..2 * i + 1] == DropSteps(versions[..i]) + [DropService(versions[i])]
  {
    DropLength(versions);
    if i == 0 {
      assert versions[..0] == [];
      if |versions| > 0 { assert DropSteps(versions)[..1] == [DropService(versions[0])]; }
    } else {
      DropAt(versions[1..], i - 1);
      var front := [DropService(versions[0]), DropDeployment(versions[0])];
      assert versions[..i][1..] == versions[1..][..i - 1];
      assert DropSteps(versions)[..2 * i] == front + DropSteps(versions[1..])[..2 * (i - 1)];
      if i < |versions| {
        assert DropSteps(versions)[..2 * i + 1] == front + DropSteps(versions[1..])[..2 * (i - 1) + 1];
      }
    }
  }

  // ----- what the commands promise of their own object

  /** The deploy answers from one colour. */
  ghost predicate ServedBy(v: View, conf: Conf, current: Colour) {
    Uniform(v, conf, current) && (v.selector == None || v.selector == Some(current))
  }

  ghost predicate KeepsRouted(v: View, conf: Conf, dest: Stack, mustExist: bool, w: PromoteWorld, all: set<Host>)
    requires ValidConf(conf)
  {
    w.bootstrapped && InstallRun(conf, dest, w).status.Ok? && ApplyRun(conf, dest, mustExist, w).status.Ok? ==>
      EdgeKeeps(v, conf, dest, w, all)
  }

  lemma {:induction false} PromoteFacts(v: View, conf: Conf, dest: Stack, mustExist: bool, bootstrap: Colour, desired: Colour,
                                        awaits: bool, w: PromoteWorld)
    requires ValidConf(conf)
    ensures var run := PromoteRun(conf, dest, mustExist, bootstrap, desired, awaits, w); var u := Exec(v, run.log);
      && Completion.Left(u, run.status) == Completion.PromotionLeaves(v, conf, dest, mustExist, bootstrap, desired, awaits, w)
      && (run.status.Ok? ==> u.selector == Some(desired))
      && u.services == v.services && u.deployments == v.deployments && u.grpc == v.grpc && u.recorded == v.recorded
      && forall all :: AllReach(all)(v) ==>
           (Along(v, run.log, AllReach(all)) <==> KeepsRouted(v, conf, dest, mustExist, w, all))
  {
    hide PromoteRun, ConvergeRun, Reaches, EdgeKeeps, Completion.PromotionLeaves;
    Completion.PromotionEndsExactly(v, conf, dest, mustExist, bootstrap, desired, awaits, w);
    PromoteSelector(v, conf, dest, mustExist, bootstrap, desired, awaits, w);
    PromoteSteps(conf, dest, mustExist, bootstrap, desired, awaits, w);
    FrameKeeps(v, PromoteRun(conf, dest, mustExist, bootstrap, desired, awaits, w).log);
    forall all | AllReach(all)(v)
      ensures Along(v, PromoteRun(conf, dest, mustExist, bootstrap, desired, awaits, w).log, AllReach(all))
        <==> KeepsRouted(v, conf, dest, mustExist, w, all)
    {
      PromoteNeverUnroutes(v, conf, dest, mustExist, bootstrap, desired, awaits, w, all);
    }
  }

  /** The Gateway stack's own file is refused, with some route to publish after it. */
  predicate GatewayRefused(conf: Conf, gatewayApi: bool, w: PromoteWorld) {
    gatewayApi && !w.gatewayApplied && exists h :: h in conf.hosts && Completion.HasRule(conf, h)
  }

  lemma {:induction false} SwitchRefused(v: View, sw: SwitchIn, w: SwitchWorld)
    requires ValidConf(sw.conf)
    ensures GatewayRefused(sw.conf, sw.gatewayApi, w.promote) ==>
      var run := SwitchRun(sw, w); var u := Exec(v, run.log);
      !run.status.Ok? && u.routes == v.routes && u.proxies == v.proxies && u.edge == v.edge
  {
    hide PromoteRun, Completion.PromotionLeaves;
    Completion.SwitchEndsExactly(v, sw, w);
    if GatewayRefused(sw.conf, sw.gatewayApi, w.promote) {
      var b := SwitchBootstrap(sw, w);
      Completion.RefusedGatewayStops(v, sw.conf, false, b, sw.target, true, w.promote);
      Completion.PromotionEndsExactly(v, sw.conf, Gateway, false, b, sw.target, true, w.promote);
    }
  }

  lemma {:induction false} SwitchFacts(v: View, sw: SwitchIn, w: SwitchWorld)
    requires ValidConf(sw.conf)
    ensures var run := SwitchRun(sw, w); var u := Exec(v, run.log);
      && Completion.Left(u, run.status) == Completion.SwitchLeaves(v, sw, w)
      && u.services == v.services && u.deployments == v.deployments
      && (GatewayRefused(sw.conf, sw.gatewayApi, w.promote) ==>
            !run.status.Ok? && u.routes == v.routes && u.proxies == v.proxies && u.edge == v.edge)
      && (run.status.Ok? ==> u.selector == Some(sw.target) && u.recorded == u.selector && (sw.grpcManifest ==> u.grpc == u.selector))
      && (!run.status.Ok? ==> u.recorded == v.recorded)
      && forall current :: ServedBy(v, sw.conf, current) ==>
           (Along(v, run.log, OneColour(sw.conf, current)) <==> SwitchCarries(v, sw, w, current))
  {
    hide SwitchRun, PromoteRun, ConvergeRun, Uniform, SwitchCarries, Completion.SwitchLeaves, GatewayRefused;
    Completion.SwitchEndsExactly(v, sw, w);
    SwitchRefused(v, sw, w);
    SwitchOutcome(v, sw, w);
    SwitchIsGated(sw, w);
    DefaultDeploy.WorkloadsKept(v, SwitchRun(sw, w).log);
    forall current | ServedBy(v, sw.conf, current)
      ensures Along(v, SwitchRun(sw, w).log, OneColour(sw.conf, current)) <==> SwitchCarries(v, sw, w, current)
    {
      SwitchNeverSplits(v, sw, w, current);
    }
  }

  /** The traffic asked for; without one the colour seen live and ready, and failing that the first version. */
  predicate RoutedColour(d: DeployIn, w: DeployWorld, selector: Option<Colour>) {
    if d.traffic.Some? then selector == d.traffic
    else if w.seen.Some? && w.seenServing then selector == w.seen
    else selector == Some(Completion.Requested(d, w.live)[0])
  }

  lemma {:induction false} RouteFacts(v: View, d: DeployIn, w: DeployWorld)
    requires ValidConf(d.conf)
    ensures var run := RouteRun(d, w); var u := Exec(v, run.log);
      && Completion.Left(u, run.status) == Completion.RoutingLeaves(v, d, w)
      && (run.status.Ok? ==> RoutedColour(d, w, u.selector))
      && forall current :: ServedBy(v, d.conf, current) ==>
           (Along(v, run.log, OneColour(d.conf, current)) <==> RouteCarries(v, d, w, current))
  {
    hide RouteRun, ConvergeRun, Uniform, RouteCarries, Completion.RoutingLeaves;
    Completion.RouteEnds(v, d, w);
    if RouteRun(d, w).status.Ok? { Completion.RoutedColourExactly(v, d, w); }
    forall current | ServedBy(v, d.conf, current)
      ensures Along(v, RouteRun(d, w).log, OneColour(d.conf, current)) <==> RouteCarries(v, d, w, current)
    {
      DeployRouteNeverSplits(v, d, w, current);
    }
  }

  lemma {:induction false} DeployFacts(v: View, d: DeployIn, w: DeployWorld)
    requires ValidConf(d.conf)
    ensures Completion.Left(Exec(v, DeployRun(d, w).log), DeployRun(d, w).status) == Completion.DeployLeaves(v, d, w)
    ensures DeployRun(d, w).status.Ok? && d.traffic.Some? && d.updateProxy && !d.remove ==>
      Exec(v, DeployRun(d, w).log).selector == d.traffic
    ensures DefaultDeploy.IsDefault(d) ==>
      Exec(v, DeployRun(d, w).log).selector
        == if DefaultDeploy.DeployWrites(d, w) then Some(DesiredTraffic(d, w)) else v.selector
    ensures DefaultDeploy.IsDefault(d) && DefaultDeploy.LiveStands()(v) ==>
      (Along(v, DeployRun(d, w).log, DefaultDeploy.LiveStands()) <==> DefaultDeploy.SparesLive(v, DefaultDeploy.Deploy(d, w)))
  {
    hide DeployRun, DefaultDeploy.SparesLive, DefaultDeploy.DeployWrites, Completion.DeployLeaves;
    Completion.DeployEndsExactly(v, d, w);
    if DeployRun(d, w).status.Ok? && d.traffic.Some? && d.updateProxy && !d.remove { Completion.DeployMoves(v, d, w); }
    if DefaultDeploy.IsDefault(d) {
      SelectorHistory.DefaultDeploySelector(v, d, w);
      if DefaultDeploy.LiveStands()(v) { DefaultDeploy.DeployKeepsLive(v, d, w); }
    }
  }

  class Cluster {
    var proxies: map<Host, map<Path, Upstream>>
    var routes: map<Host, map<Path, Backend>>
    var blocks: map<Host, map<Path, Upstream>>
    var selector: Option<Colour>
    var grpc: Option<Colour>
    var recorded: Option<Colour>
    var edge: Option<Edge>
    var front: Stack
    var deployments: set<Colour>
    var services: set<Colour>

    /** Every call that took effect so far. */
    ghost var log: seq<Step>

    function Now(): View
      reads this
    {
      View(proxies, routes, blocks, selector, grpc, recorded, edge, front, deployments, services)
    }

    /** What was done since `before` is exactly `run`, and it ended with `s`. */
    ghost predicate Followed(before: View, logBefore: seq<Step>, run: Run, s: Status)
      reads this
    {
      log == logBefore + run.log && Now() == Exec(before, run.log) && s == run.status
    }

    /** The calls made since the log read `logBefore`. */
    ghost function Since(logBefore: seq<Step>): seq<Step>
      requires |logBefore| <= |log|
      reads this
    {
      log[|logBefore|..]
    }

    /** The stable Service is applied with its selector colour replaced. */
    method ApplyTrafficService(c: Colour, ok: bool) returns (s: Status)
      modifies this
      ensures Followed(old(Now()), old(log), Call(Select(c), ok), s)
    {
      ghost var before := Now();
      if !ok { return Failed; }
      selector := Some(c);
      log := log + [Select(c)];
      ExecOne(before, Select(c));
      s := Ok;
    }

    /** The built server blocks replace those of the same hosts in the running gateway; a rejected
        set is put back before the exception, so the running configuration does not change. */
    method InstallGatewayConf(conf: Conf, ok: bool) returns (s: Status)
      modifies this
      ensures Followed(old(Now()), old(log),
                if AnyBlock(conf) then Call(Install(conf), ok) else Skip(), s)
    {
      ghost var before := Now();
      if !AnyBlock(conf) { return Ok; }
      if !ok { return Failed; }
      blocks := InstalledBlocks(Now(), conf);
      log := log + [Install(conf)];
      ExecOne(before, Install(conf));
      s := Ok;
    }

    method PublishOne(stack: Stack, h: Host, conf: Conf, accepted: set<Host>)
      requires h in conf.rules
      modifies this
      ensures Followed(old(Now()), old(log), Run(PublishHere(stack, h, conf, accepted), Ok), Ok)
    {
      if Published(conf, h) && h in accepted {
        ghost var step := Publish(stack, h, conf.rules[h]);
        ExecOne(Now(), step);
        if stack == Contour {
          proxies := proxies[h := ProxyOf(conf.rules[h])];
        } else {
          routes := routes[h := RouteOf(conf.rules[h])];
        }
        log := log + [step];
      }
    }

    /** One multi-document `kubectl apply` of the route objects of a deploy. */
    method ApplyRouteFile(conf: Conf, stack: Stack, accepted: set<Host>) returns (s: Status)
      requires ValidConf(conf)
      modifies this
      ensures Followed(old(Now()), old(log), PublishRun(conf, stack, accepted), s)
    {
      ghost var v0, l0 := Now(), log;
      ghost var done := Run([], Ok);
      var i := 0;
      while i < |conf.hosts|
        invariant 0 <= i <= |conf.hosts|
        invariant done == Run(PublishSteps(stack, conf.hosts[..i], conf, accepted), Ok)
        invariant Followed(v0, l0, done, Ok)
      {
        ghost var v1, l1 := Now(), log;
        PublishSnoc(stack, conf.hosts[..i], conf.hosts[i], conf, accepted);
        assert conf.hosts[..i + 1] == conf.hosts[..i] + [conf.hosts[i]];
        PublishOne(stack, conf.hosts[i], conf, accepted);
        Chain(v0, l0, done, Run(PublishHere(stack, conf.hosts[i], conf, accepted), Ok), l1, v1, log, Now());
        done := Then(done, Run(PublishHere(stack, conf.hosts[i], conf, accepted), Ok));
        i := i + 1;
      }
      assert conf.hosts[..i] == conf.hosts;
      s := if AllAccepted(conf, accepted) then Ok else Failed;
    }

    /** `refreshUnderpostIngress`: rebuilds the host table of the shared edge from the live routes. Whether
        it reports `true` says nothing about whether the edge loaded the new table; a table it loaded and
        could not make permanent is taken back before it throws. */
    method RefreshUnderpostIngress(preferred: Stack, a: RefreshAnswers) returns (s: Status, updated: bool)
      modifies this
      ensures Followed(old(Now()), old(log), RefreshRun(preferred, a), s)
      ensures Completion.Left(Now(), s) == Completion.RefreshLeaves(old(Now()), preferred, a)
      ensures s.Ok? ==> updated == Updates(a)
    {
      ghost var before := Now();
      Completion.RefreshEnds(before, preferred, a);
      updated := false;
      if !a.installed { return Ok, false; }
      if !AnyBackend(a.answers) { return Ok, false; }
      if a.loaded {
        edge := Some(HostTable(Now(), a.answers, preferred));
        log := log + [Refresh(preferred, a.answers)];
        ExecOne(before, Refresh(preferred, a.answers));
      }
      if a.ending.RolledBack? {
        ExecOne(Now(), Restore(a.ending.edge));
        edge := Some(a.ending.edge);
        log := log + [Restore(a.ending.edge)];
        ExecConcat(before, if a.loaded then [Refresh(preferred, a.answers)] else [], [Restore(a.ending.edge)]);
      }
      if !a.ending.Settled? { return Failed, false; }
      return Ok, true;
    }

    method RemoveOne(stack: Stack, h: Host)
      modifies this
      ensures Followed(old(Now()), old(log), Run(if h == "" then [] else [Remove(stack, h)], Ok), Ok)
    {
      if h != "" {
        ExecOne(Now(), Remove(stack, h));
        if stack == Contour { proxies := proxies - {h}; } else { routes := routes - {h}; }
        log := log + [Remove(stack, h)];
      }
    }

    /** Deletes the route kind of the inactive stack, host by host; the delete after the `done`th
        throws. */
    method RemoveInactiveHostRoutes(hosts: seq<Host>, stack: Stack, done: nat) returns (s: Status)
      modifies this
      ensures Followed(old(Now()), old(log), RemoveRun(stack, hosts, done), s)
      ensures s == if done < |hosts| then Failed else Ok
      ensures Now() == Completion.Without(old(Now()), Other(stack), if done < |hosts| then hosts[..done] else hosts)
    {
      Completion.RemoveEnds(Now(), hosts, Other(stack), done);
      ghost var v0, l0 := Now(), log;
      ghost var run := Run([], Ok);
      var i := 0;
      while i < |hosts| && i < done
        invariant 0 <= i <= |hosts| && i <= done
        invariant run == Run(RemoveSteps(stack, hosts[..i]), Ok)
        invariant Followed(v0, l0, run, Ok)
      {
        ghost var v1, l1 := Now(), log;
        ghost var one := Run(if hosts[i] == "" then [] else [Remove(stack, hosts[i])], Ok);
        RemoveSnoc(stack, hosts[..i], hosts[i]);
        assert hosts[..i + 1] == hosts[..i] + [hosts[i]];
        RemoveOne(stack, hosts[i]);
        Chain(v0, l0, run, one, l1, v1, log, Now());
        run := Then(run, one);
        i := i + 1;
      }
      assert done >= |hosts| ==> hosts[..i] == hosts;
      s := if done < |hosts| then Failed else Ok;
    }

    /** The first refresh, the removal it allows, and the second refresh. */
    method MigrateHosts(conf: Conf, dest: Stack, w: PromoteWorld) returns (s: Status)
      modifies this
      ensures Followed(old(Now()), old(log), MigrateRun(conf, dest, w), s)
      ensures Completion.Left(Now(), s) == Completion.MigrationLeaves(old(Now()), conf, dest, w)
    {
      Completion.MigrateEnds(Now(), conf, dest, w);
      ghost var v0, l0 := Now(), log;
      ghost var first, second := RefreshRun(dest, w.first), RefreshRun(dest, w.second);
      ghost var removal := RemoveRun(Other(dest), conf.hosts, w.removed);
      ThenAssoc(first, removal, second);
      var updated;
      s, updated := RefreshUnderpostIngress(dest, w.first);
      if !s.Ok? { return; }
      if !updated {
        assert first.log + [] == first.log;
        return;
      }
      ghost var v1, l1 := Now(), log;
      s := RemoveInactiveHostRoutes(conf.hosts, Other(dest), w.removed);
      Chain(v0, l0, first, removal, l1, v1, log, Now());
      if !s.Ok? { return; }
      v1, l1 := Now(), log;
      s, updated := RefreshUnderpostIngress(dest, w.second);
      Chain(v0, l0, Then(first, removal), second, l1, v1, log, Now());
    }

    /** The second selector write, the final wait, and the write that takes it back. */
    method Flip(bootstrap: Colour, desired: Colour, awaits: bool, w: PromoteWorld) returns (s: Status)
      modifies this
      ensures Followed(old(Now()), old(log), FlipRun(bootstrap, desired, awaits, w), s)
      ensures old(selector) == Some(bootstrap) ==>
        Completion.Left(Now(), s) == Completion.FlipLeaves(old(Now()), bootstrap, desired, awaits, w)
    {
      if selector == Some(bootstrap) { Completion.FlipEnds(Now(), bootstrap, desired, awaits, w); }
      ghost var v0, l0 := Now(), log;
      ghost var flip := if desired != bootstrap then Call(Select(desired), w.flipped) else Skip();
      s := Ok;
      if desired != bootstrap {
        s := ApplyTrafficService(desired, w.flipped);
        if !s.Ok? { return; }
      }
      ghost var tail := if !awaits || w.stableServing then Skip()
                        else Run(if desired != bootstrap && w.rolledBack then [Select(bootstrap)] else [], Failed);
      assert Followed(v0, l0, flip, s);
      ExecThen(v0, flip, tail);
      if awaits && !w.stableServing {
        if desired != bootstrap {
          s := ApplyTrafficService(bootstrap, w.rolledBack);
          if w.rolledBack { ExecOne(Exec(v0, flip.log), Select(bootstrap)); }
        }
        assert l0 + flip.log + tail.log == l0 + (flip.log + tail.log);
        return Failed;
      }
      assert flip.log + [] == flip.log;
    }

    /** Server blocks, route objects and the edge: everything between the two selector writes. */
    method ConvergeRouting(conf: Conf, dest: Stack, mustExist: bool, w: PromoteWorld) returns (s: Status)
      requires ValidConf(conf)
      modifies this
      ensures Followed(old(Now()), old(log), ConvergeRun(conf, dest, mustExist, w), s)
    {
      ghost var v0, l0 := Now(), log;
      ghost var install, apply, migrate :=
        InstallRun(conf, dest, w), ApplyRun(conf, dest, mustExist, w), MigrateRun(conf, dest, w);
      ThenAssoc(install, apply, migrate);
      s := Ok;
      if dest == Gateway {
        s := InstallGatewayConf(conf, w.installed);
      }
      assert Followed(v0, l0, install, s);
      if !s.Ok? { return; }
      ghost var v1, l1 := Now(), log;
      s := ApplyRouteFiles(conf, dest, mustExist, w);
      Chain(v0, l0, install, apply, l1, v1, log, Now());
      if !s.Ok? { return; }
      v1, l1 := Now(), log;
      s := MigrateHosts(conf, dest, w);
      Chain(v0, l0, Then(install, apply), migrate, l1, v1, log, Now());
    }

    /** The sequence both commands share, from the bootstrap write to the end of the final wait. */
    method Promote(conf: Conf, dest: Stack, mustExist: bool, bootstrap: Colour, desired: Colour,
                   awaits: bool, w: PromoteWorld) returns (s: Status)
      requires ValidConf(conf)
      modifies this
      ensures Followed(old(Now()), old(log), PromoteRun(conf, dest, mustExist, bootstrap, desired, awaits, w), s)
      ensures Completion.Left(Now(), s)
           == Completion.PromotionLeaves(old(Now()), conf, dest, mustExist, bootstrap, desired, awaits, w)
      ensures |old(log)| <= |log| && (s.Ok? ==> selector == Some(desired))
      ensures services == old(services) && deployments == old(deployments) && grpc == old(grpc) && recorded == old(recorded)
      ensures forall all :: AllReach(all)(old(Now())) ==>
        (Along(old(Now()), Since(old(log)), AllReach(all)) <==> KeepsRouted(old(Now()), conf, dest, mustExist, w, all))
    {
      PromoteFacts(Now(), conf, dest, mustExist, bootstrap, desired, awaits, w);
      ghost var v0, l0 := Now(), log;
      ghost var first, converge := Call(Select(bootstrap), w.bootstrapped), ConvergeRun(conf, dest, mustExist, w);
      ghost var flip := FlipRun(bootstrap, desired, awaits, w);
      PromoteShape(conf, dest, mustExist, bootstrap, desired, awaits, w);
      ThenAssoc(first, converge, flip);
      s := ApplyTrafficService(bootstrap, w.bootstrapped);
      if !s.Ok? { return; }
      ghost var v1, l1 := Now(), log;
      s := ConvergeRouting(conf, dest, mustExist, w);
      Chain(v0, l0, first, converge, l1, v1, log, Now());
      if !s.Ok? { return; }
      v1, l1 := Now(), log;
      s := Flip(bootstrap, desired, awaits, w);
      Chain(v0, l0, Then(first, converge), flip, l1, v1, log, Now());
    }

    /** `gateway.yaml` and `httproute.yaml`, or `proxy.yaml`. A file without objects is skipped,
        except that the deploy command hands an empty `proxy.yaml` to `kubectl`, which throws. */
    method ApplyRouteFiles(conf: Conf, dest: Stack, mustExist: bool, w: PromoteWorld) returns (s: Status)
      requires ValidConf(conf)
      modifies this
      ensures Followed(old(Now()), old(log), ApplyRun(conf, dest, mustExist, w), s)
      ensures s == if Completion.FileRefused(conf, dest, mustExist, w) || Completion.DocumentRefused(conf, w) then Failed else Ok
      ensures Now() == if Completion.FileRefused(conf, dest, mustExist, w) then old(Now())
                       else Completion.WithDocuments(old(Now()), conf, dest, conf.hosts, w.accepted)
    {
      Completion.ApplyEnds(Now(), conf, dest, mustExist, w);
      if !AnyPublished(conf) {
        return if dest == Contour && mustExist then Failed else Ok;
      }
      if dest == Gateway && !w.gatewayApplied { return Failed; }
      s := ApplyRouteFile(conf, dest, w.accepted);
      assert [] + PublishRun(conf, dest, w.accepted).log == PublishRun(conf, dest, w.accepted).log;
    }

    /** `switchTraffic`: refuses an unready target, converges the routing on the current colour, then
        moves the selector. */
    method SwitchTraffic(sw: SwitchIn, w: SwitchWorld) returns (s: Status)
      requires ValidConf(sw.conf)
      modifies this
      ensures Followed(old(Now()), old(log), SwitchRun(sw, w), s)
      ensures Completion.Left(Now(), s) == Completion.SwitchLeaves(old(Now()), sw, w)
      ensures GatewayRefused(sw.conf, sw.gatewayApi, w.promote) ==>
        !s.Ok? && routes == old(routes) && proxies == old(proxies) && edge == old(edge)
      ensures |old(log)| <= |log| && services == old(services) && deployments == old(deployments)
      ensures s.Ok? ==> selector == Some(sw.target) && recorded == selector && (sw.grpcManifest ==> grpc == selector)
      ensures !s.Ok? ==> recorded == old(recorded)
      ensures forall current :: ServedBy(old(Now()), sw.conf, current) ==>
        (Along(old(Now()), Since(old(log)), OneColour(sw.conf, current)) <==> SwitchCarries(old(Now()), sw, w, current))
    {
      hide SwitchCarries, Completion.SwitchLeaves, GatewayRefused, PromoteRun, Completion.PromotionLeaves, KeepsRouted, Reaches;
      SwitchFacts(Now(), sw, w);
      ghost var v0, l0 := Now(), log;
      if !w.ready || !w.serving { return Refused; }
      var bootstrap := sw.target;
      if w.seen.Some? && w.seenServing { bootstrap := w.seen.value; }
      if !w.built { return Failed; }
      ghost var p := PromoteRun(sw.conf, DestStack(sw.gatewayApi), false, bootstrap, sw.target, true, w.promote);
      ghost var g := if sw.grpcManifest then Call(Grpc(sw.target), w.grpcApplied) else Skip();
      ghost var r := Call(Record(sw.target), w.stored);
      SwitchLeft(sw, w);
      s := Promote(sw.conf, DestStack(sw.gatewayApi), false, bootstrap, sw.target, true, w.promote);
      if !s.Ok? { return; }
      ghost var v1, l1 := Now(), log;
      if sw.grpcManifest {
        s := ApplyGrpcService(sw.target, w.grpcApplied);
      }
      Chain(v0, l0, p, g, l1, v1, log, Now());
      if !s.Ok? { return; }
      v1, l1 := Now(), log;
      s := StoreTraffic(sw.target, w.stored);
      Chain(v0, l0, Then(p, g), r, l1, v1, log, Now());
    }

    method ApplyGrpcService(c: Colour, ok: bool) returns (s: Status)
      modifies this
      ensures Followed(old(Now()), old(log), Call(Grpc(c), ok), s)
    {
      ExecOne(Now(), Grpc(c));
      if !ok { return Failed; }
      grpc := Some(c);
      log := log + [Grpc(c)];
      s := Ok;
    }

    method StoreTraffic(c: Colour, ok: bool) returns (s: Status)
      modifies this
      ensures Followed(old(Now()), old(log), Call(Record(c), ok), s)
    {
      ExecOne(Now(), Record(c));
      if !ok { return Failed; }
      recorded := Some(c);
      log := log + [Record(c)];
      s := Ok;
    }

    method DeleteService(c: Colour)
      modifies this
      ensures Followed(old(Now()), old(log), Run([DropService(c)], Ok), Ok)
    {
      ExecOne(Now(), DropService(c));
      services := services - {c};
      log := log + [DropService(c)];
    }

    method DeleteDeployment(c: Colour)
      modifies this
      ensures Followed(old(Now()), old(log), Run([DropDeployment(c)], Ok), Ok)
    {
      ExecOne(Now(), DropDeployment(c));
      deployments := deployments - {c};
      log := log + [DropDeployment(c)];
    }

    /** Deletes the Service and the Deployment of every requested version; the call after the
        `done`th throws. */
    method DropVersions(versions: seq<Colour>, done: nat) returns (s: Status)
      modifies this
      ensures Followed(old(Now()), old(log), DropRun(versions, done), s)
      ensures s == if done < 2 * |versions| then Failed else Ok
      ensures Now() == Completion.WithDropped(old(Now()), versions, done)
    {
      Completion.DropStepsEnd(Now(), versions, done);
      ghost var v0, l0 := Now(), log;
      ghost var run := Run([], Ok);
      DropLength(versions);
      var i := 0;
      while i < |versions|
        invariant 0 <= i <= |versions| && 2 * i <= done
        invariant run == Run(DropSteps(versions[..i]), Ok)
        invariant Followed(v0, l0, run, Ok)
      {
        DropAt(versions, i);
        DropSnoc(versions[..i], versions[i]);
        assert versions[..i + 1] == versions[..i] + [versions[i]];
        if done == 2 * i { return Failed; }
        ghost var v1, l1 := Now(), log;
        DeleteService(versions[i]);
        Chain(v0, l0, run, Run([DropService(versions[i])], Ok), l1, v1, log, Now());
        run := Then(run, Run([DropService(versions[i])], Ok));
        if done == 2 * i + 1 { return Failed; }
        v1, l1 := Now(), log;
        DeleteDeployment(versions[i]);
        Chain(v0, l0, run, Run([DropDeployment(versions[i])], Ok), l1, v1, log, Now());
        run := Then(run, Run([DropDeployment(versions[i])], Ok));
        i := i + 1;
      }
      assert versions[..i] == versions;
      s := Ok;
    }

    /** The apply half of the deploy callback for one deploy. */
    method DeployWorkload(d: DeployIn, w: DeployWorld) returns (s: Status)
      requires ValidConf(d.conf)
      modifies this
      ensures Followed(old(Now()), old(log), DeployRun(d, w), s)
      ensures Completion.Left(Now(), s) == Completion.DeployLeaves(old(Now()), d, w)
      ensures s.Ok? && d.traffic.Some? && d.updateProxy && !d.remove ==> selector == d.traffic
      ensures DefaultDeploy.IsDefault(d) ==>
        selector == if DefaultDeploy.DeployWrites(d, w) then Some(DesiredTraffic(d, w)) else old(selector)
      ensures |old(log)| <= |log|
      ensures DefaultDeploy.IsDefault(d) && DefaultDeploy.LiveStands()(old(Now())) ==>
        (Along(old(Now()), Since(old(log)), DefaultDeploy.LiveStands())
         <==> DefaultDeploy.SparesLive(old(Now()), DefaultDeploy.Deploy(d, w)))
    {
      hide Completion.DeployLeaves, Completion.RoutingLeaves, RouteCarries, RoutedColour, DefaultDeploy.SparesLive;
      hide DefaultDeploy.DeployWrites, RouteRun, CreateRun, DropRun, Completion.WithDropped;
      DeployFacts(Now(), d, w);
      ghost var v0, l0 := Now(), log;
      ghost var drop, create, route := DropPart(d, w), CreatePart(d, w), RoutePart(d, w);
      DeployLeft(d, w);
      var versions := DeployVersions(d, w.live);
      s := Ok;
      if d.updateDeployment {
        s := DropVersions(versions, w.dropped);
      }
      assert Followed(v0, l0, drop, s);
      if !s.Ok? { return; }
      if !w.swept { return Failed; }
      if d.remove { return; }
      ghost var v1, l1 := Now(), log;
      if d.updateDeployment {
        s := CreateWorkload(d, w);
      }
      Chain(v0, l0, drop, create, l1, v1, log, Now());
      if !s.Ok? { return; }
      v1, l1 := Now(), log;
      if d.updateProxy {
        s := RouteWorkload(d, w);
      }
      Chain(v0, l0, Then(drop, create), route, l1, v1, log, Now());
      if !s.Ok? { return; }
      s := if w.certificates then Ok else Failed;
    }

    method CreateWorkload(d: DeployIn, w: DeployWorld) returns (s: Status)
      modifies this
      ensures Followed(old(Now()), old(log), CreateRun(d, w), s)
    {
      ghost var v0, l0 := Now(), log;
      ghost var step := Create(d.manifest * w.created);
      ExecOne(v0, step);
      services := services + d.manifest * w.created;
      deployments := deployments + d.manifest * w.created;
      log := log + [step];
      ghost var made := Run([step], if d.manifest <= w.created then Ok else Failed);
      if !(d.manifest <= w.created) { return Failed; }
      ghost var v1, l1 := Now(), log;
      s := Ok;
      if d.grpcManifest.Some? {
        s := ApplyGrpcService(d.grpcManifest.value, w.grpcApplied);
      }
      Chain(v0, l0, made, if d.grpcManifest.Some? then Call(Grpc(d.grpcManifest.value), w.grpcApplied) else Skip(),
            l1, v1, log, Now());
    }

    method RouteWorkload(d: DeployIn, w: DeployWorld) returns (s: Status)
      requires ValidConf(d.conf)
      modifies this
      ensures Followed(old(Now()), old(log), RouteRun(d, w), s)
      ensures Completion.Left(Now(), s) == Completion.RoutingLeaves(old(Now()), d, w)
      ensures |old(log)| <= |log| && (s.Ok? ==> RoutedColour(d, w, selector))
      ensures forall current :: ServedBy(old(Now()), d.conf, current) ==>
        (Along(old(Now()), Since(old(log)), OneColour(d.conf, current)) <==> RouteCarries(old(Now()), d, w, current))
    {
      RouteFacts(Now(), d, w);
      var ready := w.seen.Some? && w.seenServing;
      var desired := if d.traffic.Some? then d.traffic.value
                     else if ready then w.seen.value else DeployVersions(d, w.live)[0];
      if d.updateDeployment && !(w.desiredReady && w.desiredServing) { return Refused; }
      var bootstrap := if ready then w.seen.value else desired;
      s := Promote(d.conf, DestStack(d.gatewayApi), true, bootstrap, desired, d.updateDeployment, w.promote);
      ghost var p := PromoteRun(d.conf, DestStack(d.gatewayApi), true, bootstrap, desired, d.updateDeployment, w.promote);
      assert [] + p.log == p.log;
    }
  }

  lemma {:induction false} SwitchLeft(sw: SwitchIn, w: SwitchWorld)
    requires ValidConf(sw.conf) && w.ready && w.serving && w.built
    ensures SwitchRun(sw, w) ==
      Then(Then(PromoteRun(sw.conf, DestStack(sw.gatewayApi), false, SwitchBootstrap(sw, w), sw.target, true, w.promote),
                if sw.grpcManifest then Call(Grpc(sw.target), w.grpcApplied) else Skip()),
           Call(Record(sw.target), w.stored))
  {
    var p := PromoteRun(sw.conf, DestStack(sw.gatewayApi), false, SwitchBootstrap(sw, w), sw.target, true, w.promote);
    var g := if sw.grpcManifest then Call(Grpc(sw.target), w.grpcApplied) else Skip();
    var r := Call(Record(sw.target), w.stored);
    ThenAssoc(p, g, r);
    OkFirst(Then(p, Then(g, r)));
  }

  lemma {:induction false} OkFirst(a: Run)
    ensures Then(Run([], Ok), a) == a
  {
    assert [] + a.log == a.log;
  }

  lemma {:induction false} OkLast(a: Run, ok: bool)
    ensures Then(a, Pass(ok)) == Run(a.log, if a.status.Ok? then (if ok then Ok else Failed) else a.status)
  {
    assert a.log + [] == a.log;
  }

  function DropPart(d: DeployIn, w: DeployWorld): Run {
    if d.updateDeployment then DropRun(DeployVersions(d, w.live), w.dropped) else Skip()
  }

  function CreatePart(d: DeployIn, w: DeployWorld): Run {
    if d.updateDeployment then CreateRun(d, w) else Skip()
  }

  function RoutePart(d: DeployIn, w: DeployWorld): Run
    requires ValidConf(d.conf)
  {
    if d.updateProxy then RouteRun(d, w) else Skip()
  }

  lemma {:induction false} DeployLeft(d: DeployIn, w: DeployWorld)
    requires ValidConf(d.conf)
    ensures var drop := DropPart(d, w);
            var routed := Then(Then(drop, CreatePart(d, w)), RoutePart(d, w));
      DeployRun(d, w) ==
        if drop.status.Ok? && !w.swept then Run(drop.log, Failed)
        else if drop.status.Ok? && d.remove then drop
        else Run(routed.log, if routed.status.Ok? then (if w.certificates then Ok else Failed) else routed.status)
  {
    var drop, create, route := DropPart(d, w), CreatePart(d, w), RoutePart(d, w);
    var tail := Then(create, Then(route, Pass(w.certificates)));
    if w.swept {
      OkFirst(if d.remove then Skip() else tail);
    }
    if drop.status.Ok? && !w.swept {
      assert drop.log + [] == drop.log;
    } else if drop.status.Ok? && d.remove {
      assert drop.log + [] == drop.log;
    } else {
      ThenAssoc(create, route, Pass(w.certificates));
      ThenAssoc(drop, Then(create, route), Pass(w.certificates));
      ThenAssoc(drop, create, route);
      OkLast(Then(Then(drop, create), route), w.certificates);
    }
  }
}
