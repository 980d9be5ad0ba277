/** What a deploy without explicit versions or traffic may touch, and what any sequence of deploys
    and switches leaves standing. */
module DefaultDeploy {
  import opened Base
  import opened Routing
  import opened Promotion
  import opened SingleFlip
  import opened ColourSafety

  predicate IsDefault(d: DeployIn) {
    d.versions == [] && d.traffic == None
  }

  /** The part of a deploy before routing: deletes, sweeps, and the new workload objects. */
  function PrepareRun(d: DeployIn, w: DeployWorld): Run {
    Then(if d.updateDeployment then DropRun(DeployVersions(d, w.live), w.dropped) else Skip(),
    Then(Pass(w.swept), if d.remove || !d.updateDeployment then Skip() else CreateRun(d, w)))
  }

  lemma {:induction false} DeployShape(d: DeployIn, w: DeployWorld)
    requires ValidConf(d.conf)
    ensures DeployRun(d, w) == Then(PrepareRun(d, w),
              if d.remove then Skip() else Then(if d.updateProxy then RouteRun(d, w) else Skip(), Pass(w.certificates)))
  {
    var drop := if d.updateDeployment then DropRun(DeployVersions(d, w.live), w.dropped) else Skip();
    var create := if d.remove || !d.updateDeployment then Skip() else CreateRun(d, w);
    var rest := if d.remove then Skip() else Then(if d.updateProxy then RouteRun(d, w) else Skip(), Pass(w.certificates));
    assert Then(Skip(), rest) == rest by { assert [] + rest.log == rest.log; }
    ThenAssoc(Pass(w.swept), create, rest);
    ThenAssoc(drop, Then(Pass(w.swept), create), rest);
  }

  lemma {:induction false} RouteSteps(d: DeployIn, w: DeployWorld)
    requires ValidConf(d.conf)
    ensures forall s :: s in RouteRun(d, w).log ==> PromoteStep(s, {DeployBootstrap(d, w), DesiredTraffic(d, w)})
    ensures RouteRun(d, w).log != [] ==> (d.updateDeployment ==> w.desiredReady && w.desiredServing)
  {
    PromoteSteps(d.conf, DestStack(d.gatewayApi), true, DeployBootstrap(d, w), DesiredTraffic(d, w),
                 d.updateDeployment, w.promote);
  }

  lemma {:induction false} DropTwo(c: Colour)
    ensures DropSteps([c]) == [DropService(c), DropDeployment(c)]
  {
    assert DropSteps([c][1..]) == [];
  }

  // ----- a default deploy only prepares

  /** A step that leaves colour `c` serving: selector writes name `c`, workload objects are those of
      the other colour. */
  predicate Prepares(s: Step, c: Colour) {
    match s
    case Select(x) => x == c
    case DropService(x) => x != c
    case DropDeployment(x) => x != c
    case Create(cs) => c !in cs
    case Record(_) => false
    case _ => true
  }

  lemma {:induction false} PreparePrepares(d: DeployIn, w: DeployWorld, c: Colour)
    requires IsDefault(d) && d.manifest == {Opposite(c)} && w.live == Some(c)
    ensures forall s :: s in PrepareRun(d, w).log ==> Prepares(s, c)
  {
    DropTwo(Opposite(c));
    var P := (s: Step) => Prepares(s, c);
    var drop := if d.updateDeployment then DropRun(DeployVersions(d, w.live), w.dropped) else Skip();
    var create := if d.remove || !d.updateDeployment then Skip() else CreateRun(d, w);
    assert forall s :: s in drop.log ==> s in [DropService(Opposite(c)), DropDeployment(Opposite(c))];
    assert Every(drop.log, P);
    assert Every(create.log, P);
    ThenEvery(Pass(w.swept), create, P);
    ThenEvery(drop, Then(Pass(w.swept), create), P);
  }

  /** With a live ready colour and a manifest built for the other one, a default deploy deletes and
      recreates only that other colour and never points the selector elsewhere, wherever it fails.
      When it completes, the other colour stands. */
  lemma {:induction false} DefaultDeployOnlyPrepares(v: View, d: DeployIn, w: DeployWorld, c: Colour)
    requires ValidConf(d.conf) && IsDefault(d) && d.manifest == {Opposite(c)}
    requires w.live == Some(c) && w.seen == Some(c) && w.seenServing
    ensures forall s :: s in DeployRun(d, w).log ==> Prepares(s, c)
    ensures DeployRun(d, w).status.Ok? && d.updateDeployment && !d.remove ==>
              Exec(v, DeployRun(d, w).log).deployments == v.deployments + {Opposite(c)}
  {
    hide PrepareRun, PromoteRun, DeployRun;
    var P := (s: Step) => Prepares(s, c);
    DeployShape(d, w);
    PreparePrepares(d, w, c);
    RouteSteps(d, w);
    var route := if d.updateProxy then RouteRun(d, w) else Skip();
    assert Every(route.log, P);
    ThenEvery(route, Pass(w.certificates), P);
    ThenEvery(PrepareRun(d, w), if d.remove then Skip() else Then(route, Pass(w.certificates)), P);
    if DeployRun(d, w).status.Ok? && d.updateDeployment && !d.remove {
      CompletedDeploy(v, d, w);
    }
  }

  /** A completed default deploy leaves exactly the manifest's colours in place of the one it
      deleted: a manifest built for another colour does not bring that one back. */
  lemma {:induction false} CompletedDeploy(v: View, d: DeployIn, w: DeployWorld)
    requires ValidConf(d.conf) && IsDefault(d) && d.updateDeployment && !d.remove
    requires DeployRun(d, w).status.Ok?
    ensures Exec(v, DeployRun(d, w).log).deployments == v.deployments - {NextTraffic(w.live)} + d.manifest
  {
    DeployShape(d, w);
    CompletedPrepare(v, d, w);
    var route := if d.updateProxy then RouteRun(d, w) else Skip();
    assert DeployRun(d, w).log == PrepareRun(d, w).log + route.log;
    ExecConcat(v, PrepareRun(d, w).log, route.log);
    RouteSteps(d, w);
    FrameKeeps(Exec(v, PrepareRun(d, w).log), route.log);
  }

  lemma {:induction false} CompletedPrepare(v: View, d: DeployIn, w: DeployWorld)
    requires IsDefault(d) && d.updateDeployment && !d.remove && PrepareRun(d, w).status.Ok?
    ensures Exec(v, PrepareRun(d, w).log).deployments == v.deployments - {NextTraffic(w.live)} + d.manifest
  {
    var n := NextTraffic(w.live);
    var drop, create := DropRun([n], w.dropped), CreateRun(d, w);
    assert PrepareRun(d, w).log == drop.log + create.log;
    ExecConcat(v, drop.log, create.log);
    DropOutcome(v, n);
    DropTwo(n);
    CreateOutcome(Exec(v, drop.log), d, w);
  }

  lemma {:induction false} DropOutcome(v: View, c: Colour)
    ensures Exec(v, DropSteps([c])).deployments == v.deployments - {c}
  {
    DropTwo(c);
    assert DropSteps([c])[1..] == [DropDeployment(c)];
    AlongOne(Apply(v, DropService(c)), DropDeployment(c), (x: View) => true);
  }

  lemma {:induction false} CreateOutcome(v: View, d: DeployIn, w: DeployWorld)
    requires CreateRun(d, w).status.Ok?
    ensures Exec(v, CreateRun(d, w).log).deployments == v.deployments + d.manifest
  {
    var c := Create(d.manifest * w.created);
    assert d.manifest * w.created == d.manifest;
    AlongOne(v, c, (x: View) => true);
    if d.grpcManifest.Some? {
      var g := Grpc(d.grpcManifest.value);
      ExecConcat(v, [c], [g]);
      AlongOne(Apply(v, c), g, (x: View) => true);
      assert CreateRun(d, w).log == [c] + [g];
    } else {
      assert CreateRun(d, w).log == [c] + [];
      assert [c] + [] == [c];
    }
  }

  // ----- when a deploy is gated

  /** The colours a deploy saw ready before it wrote a selector. */
  function DeployObserved(d: DeployIn, w: DeployWorld): set<Colour> {
    (if d.updateDeployment && w.desiredReady && w.desiredServing then {DesiredTraffic(d, w)} else {})
    + (if SeenReady(w) then {w.seen.value} else {})
  }

  ghost predicate DeployGated(d: DeployIn, w: DeployWorld)
    requires ValidConf(d.conf)
  {
    forall s :: s in DeployRun(d, w).log && s.Select? ==> s.colour in DeployObserved(d, w)
  }

  /** A deploy writes only colours it observed ready, whatever the cluster answers, if and only if
      workload updates are enabled or it does not route at all: with them disabled the readiness
      check is skipped and the selector write is not. */
  lemma {:induction false} DeployGatedExactly(d: DeployIn)
    requires ValidConf(d.conf)
    ensures (forall w :: DeployGated(d, w)) <==> (d.updateDeployment || !d.updateProxy || d.remove)
  {
    if d.updateDeployment || !d.updateProxy || d.remove {
      forall w ensures DeployGated(d, w) { GatedWhenUpdating(d, w); }
    } else {
      var none := RefreshAnswers(false, Reads(true, true, true, true, true), true, Settled);
      var p := PromoteWorld(true, true, true, {}, none, 0, none, true, true, true);
      var w := DeployWorld(None, 0, true, {}, true, None, false, false, false, p, true);
      DeployShape(d, w);
      var b := DeployBootstrap(d, w);
      PromoteShape(d.conf, DestStack(d.gatewayApi), true, b, DesiredTraffic(d, w), false, p);
      var promote := PromoteRun(d.conf, DestStack(d.gatewayApi), true, b, DesiredTraffic(d, w), false, p);
      assert promote.log[0] == Select(b);
      assert RouteRun(d, w).log == promote.log;
      var rest := Then(RouteRun(d, w), Pass(true));
      assert rest.log == promote.log;
      assert PrepareRun(d, w) == Run([], Ok);
      assert DeployRun(d, w).log == rest.log;
      assert Select(b) in DeployRun(d, w).log;
      assert !DeployGated(d, w);
    }
  }

  lemma {:induction false} PrepareSelectsNothing(d: DeployIn, w: DeployWorld)
    ensures forall s :: s in PrepareRun(d, w).log ==> !s.Select?
  {
    var P := (s: Step) => !s.Select?;
    var drop := if d.updateDeployment then DropRun(DeployVersions(d, w.live), w.dropped) else Skip();
    var create := if d.remove || !d.updateDeployment then Skip() else CreateRun(d, w);
    DropEvery(DeployVersions(d, w.live));
    assert forall s :: s in drop.log ==> s in DropSteps(DeployVersions(d, w.live));
    assert Every(drop.log, P);
    assert Every(create.log, P);
    ThenEvery(Pass(w.swept), create, P);
    ThenEvery(drop, Then(Pass(w.swept), create), P);
  }

  lemma {:induction false} RouteIsGated(d: DeployIn, w: DeployWorld)
    requires ValidConf(d.conf) && d.updateDeployment
    ensures forall s :: s in RouteRun(d, w).log && s.Select? ==> s.colour in DeployObserved(d, w)
  {
    hide PromoteRun;
    RouteSteps(d, w);
    forall s | s in RouteRun(d, w).log && s.Select? ensures s.colour in DeployObserved(d, w) {
      assert PromoteStep(s, {DeployBootstrap(d, w), DesiredTraffic(d, w)});
    }
  }

  lemma {:induction false} GatedWhenUpdating(d: DeployIn, w: DeployWorld)
    requires ValidConf(d.conf) && (d.updateDeployment || !d.updateProxy || d.remove)
    ensures DeployGated(d, w)
  {
    DeployShape(d, w);
    PrepareSelectsNothing(d, w);
    if d.updateProxy && !d.remove {
      RouteIsGated(d, w);
      assert forall s :: s in DeployRun(d, w).log ==> s in PrepareRun(d, w).log || s in RouteRun(d, w).log;
    } else {
      assert forall s :: s in DeployRun(d, w).log ==> s in PrepareRun(d, w).log;
    }
  }

  lemma {:induction false} DropEvery(versions: seq<Colour>)
    ensures forall s :: s in DropSteps(versions) ==> s.DropService? || s.DropDeployment?
  {
    if versions != [] { DropEvery(versions[1..]); }
  }

  // ----- the serving colour stands over whole histories

  /** The colour the selector names has its Deployment and its Service. */
  ghost function LiveStands(): View -> bool {
    (v: View) => v.selector.Some? ==> v.selector.value in v.deployments && v.selector.value in v.services
  }

  predicate Stands(v: View, c: Colour) {
    c in v.deployments && c in v.services
  }

  /** The deletes of a default deploy spare the serving colour if and only if the colour it read at
      the start does not lead it to that one: a failed read (taken for "none live") condemns blue,
      a stale read condemns whatever a switch promoted since. */
  lemma {:induction false} LiveDroppedExactly(v: View, d: DeployIn, w: DeployWorld, c: Colour)
    requires IsDefault(d) && w.dropped >= 1
    requires v.selector == Some(c) && Stands(v, c)
    ensures Along(v, DropRun(DeployVersions(d, w.live), w.dropped).log, LiveStands()) <==> NextTraffic(w.live) != c
  {
    var n := NextTraffic(w.live);
    DropTwo(n);
    var log := DropRun([n], w.dropped).log;
    assert log[..1] == [DropService(n)];
    AlongOne(v, DropService(n), (x: View) => true);
    if n != c {
      AlongOne(v, DropService(n), LiveStands());
      var u := Apply(v, DropService(n));
      if w.dropped >= 2 {
        AlongOne(u, DropDeployment(n), LiveStands());
        AlongConcat(v, [DropService(n)], [DropDeployment(n)], LiveStands());
        assert log == [DropService(n)] + [DropDeployment(n)];
      } else {
        assert log == [DropService(n)];
      }
    } else {
      assert !LiveStands()(Exec(v, log[..1]));
    }
  }

  /** The read of the selector fails silently while blue serves: the deploy deletes blue. */
  lemma {:induction false} FailedReadDeletesBlue(v: View, d: DeployIn, w: DeployWorld)
    requires IsDefault(d) && w.dropped >= 1 && w.live == None
    requires v.selector == Some(Blue) && Stands(v, Blue)
    ensures !Along(v, DropRun(DeployVersions(d, w.live), w.dropped).log, LiveStands())
  {
    LiveDroppedExactly(v, d, w, Blue);
  }

  /** A deploy read blue, a switch to green completed, and only then the deploy deletes: it deletes
      the colour now serving. */
  lemma {:induction false} StaleReadDeletesPromoted(v: View, sw: SwitchIn, sww: SwitchWorld, d: DeployIn, w: DeployWorld)
    requires ValidConf(sw.conf) && sw.target == Green && SwitchRun(sw, sww).status.Ok?
    requires IsDefault(d) && w.live == Some(Blue) && w.dropped >= 1
    requires Stands(v, Green)
    ensures !Along(Exec(v, SwitchRun(sw, sww).log), DropRun(DeployVersions(d, w.live), w.dropped).log, LiveStands())
  {
    SwitchOutcome(v, sw, sww);
    SwitchIsGated(sw, sww);
    WorkloadsKept(v, SwitchRun(sw, sww).log);
    LiveDroppedExactly(Exec(v, SwitchRun(sw, sww).log), d, w, Green);
  }

  lemma {:induction false} WorkloadsKept(v: View, log: seq<Step>)
    requires forall s :: s in log ==> !s.DropService? && !s.DropDeployment? && !s.Create?
    ensures Exec(v, log).deployments == v.deployments && Exec(v, log).services == v.services
    decreases |log|
  {
    if log != [] { WorkloadsKept(Apply(v, log[0]), log[1..]); }
  }

  // ----- exactly when one command keeps it standing

  lemma {:induction false} SelectingStep(v: View, s: Step)
    requires LiveStands()(v) && !s.DropService? && !s.DropDeployment? && !s.Create?
    ensures LiveStands()(Apply(v, s)) <==> (s.Select? ==> Stands(v, s.colour))
    ensures forall c :: Stands(Apply(v, s), c) == Stands(v, c)
  {
  }

  /** Selector writes, with no workload touched. */
  lemma {:induction false} SelectingKeepsLive(v: View, log: seq<Step>)
    requires LiveStands()(v) && forall s :: s in log ==> !s.DropService? && !s.DropDeployment? && !s.Create?
    ensures Along(v, log, LiveStands()) <==> forall s :: s in log && s.Select? ==> Stands(v, s.colour)
    decreases |log|
  {
    hide Apply, Stands;
    var P := LiveStands();
    AlongEmptyExactly(v, P);
    if log != [] {
      var u := Apply(v, log[0]);
      assert log[0] in log && log == [log[0]] + log[1..];
      AlongOneExactly(v, log[0], P);
      AlongConcatExactly(v, [log[0]], log[1..], P);
      SelectingStep(v, log[0]);
      if P(u) { SelectingKeepsLive(u, log[1..]); }
    }
  }

  predicate SwitchStarts(w: SwitchWorld) {
    w.ready && w.serving && w.built && w.promote.bootstrapped
  }

  /** The second selector write of the switch happens. */
  predicate SwitchFlips(sw: SwitchIn, w: SwitchWorld)
    requires ValidConf(sw.conf)
  {
    && SwitchStarts(w) && ConvergeRun(sw.conf, DestStack(sw.gatewayApi), false, w.promote).status.Ok?
    && sw.target != SwitchBootstrap(sw, w) && w.promote.flipped
  }

  /** The colours a promotion writes. */
  lemma {:induction false} PromoteWrites(conf: Conf, dest: Stack, mustExist: bool, bootstrap: Colour, desired: Colour,
                                         awaits: bool, w: PromoteWorld, c: Colour)
    requires ValidConf(conf)
    ensures Select(c) in PromoteRun(conf, dest, mustExist, bootstrap, desired, awaits, w).log <==>
      w.bootstrapped && (c == bootstrap || (c == desired && ConvergeRun(conf, dest, mustExist, w).status.Ok? && w.flipped))
  {
    hide ConvergeRun, PromoteRun;
    PromoteShape(conf, dest, mustExist, bootstrap, desired, awaits, w);
    ConvergeRouting(conf, dest, mustExist, w);
    assert !RoutingStep(Select(c));
  }

  lemma {:induction false} SwitchWrites(sw: SwitchIn, w: SwitchWorld, c: Colour)
    requires ValidConf(sw.conf)
    ensures Select(c) in SwitchRun(sw, w).log <==>
            SwitchStarts(w) && (c == SwitchBootstrap(sw, w) || (c == sw.target && SwitchFlips(sw, w)))
  {
    hide ConvergeRun, PromoteRun;
    PromoteWrites(sw.conf, DestStack(sw.gatewayApi), false, SwitchBootstrap(sw, w), sw.target, true, w.promote, c);
    var promote := PromoteRun(sw.conf, DestStack(sw.gatewayApi), false, SwitchBootstrap(sw, w), sw.target, true, w.promote);
    var tail := Then(if sw.grpcManifest then Call(Grpc(sw.target), w.grpcApplied) else Skip(), Call(Record(sw.target), w.stored));
    assert Select(c) !in tail.log;
    if w.ready && w.serving && w.built { assert SwitchRun(sw, w).log == Then(promote, tail).log; }
  }

  /** The run gets as far as its first selector write, and that happens. */
  predicate DeployWrites(d: DeployIn, w: DeployWorld) {
    && PrepareRun(d, w).status.Ok? && !d.remove && d.updateProxy
    && (!d.updateDeployment || (w.desiredReady && w.desiredServing)) && w.promote.bootstrapped
  }

  /** A default deploy bootstraps from the colour it desires, so it writes no other. */
  lemma {:induction false} RouteWrites(d: DeployIn, w: DeployWorld, c: Colour)
    requires ValidConf(d.conf) && IsDefault(d)
    ensures Select(c) in RouteRun(d, w).log <==>
            (!d.updateDeployment || (w.desiredReady && w.desiredServing)) && w.promote.bootstrapped && c == DesiredTraffic(d, w)
  {
    hide ConvergeRun, PromoteRun;
    PromoteWrites(d.conf, DestStack(d.gatewayApi), true, DeployBootstrap(d, w), DesiredTraffic(d, w), d.updateDeployment, w.promote, c);
  }

  datatype Command =
    | SwitchTo(sw: SwitchIn, sww: SwitchWorld)
    | Deploy(d: DeployIn, dw: DeployWorld)

  predicate ValidCommand(c: Command) {
    match c
    case SwitchTo(sw, _) => ValidConf(sw.conf)
    case Deploy(d, _) => ValidConf(d.conf) && IsDefault(d)
  }

  function CommandRun(c: Command): Run
    requires ValidCommand(c)
  {
    match c
    case SwitchTo(sw, w) => SwitchRun(sw, w)
    case Deploy(d, w) => DeployRun(d, w)
  }

  /** Every colour the command writes stands when it writes it, and a deploy does not delete the colour
      that serves. */
  predicate SparesLive(v: View, c: Command)
    requires ValidCommand(c)
  {
    match c
    case SwitchTo(sw, w) =>
      && (SwitchStarts(w) ==> Stands(v, SwitchBootstrap(sw, w)))
      && (SwitchFlips(sw, w) ==> Stands(v, sw.target))
    case Deploy(d, w) =>
      && (v.selector.Some? && d.updateDeployment && w.dropped >= 1 ==> NextTraffic(w.live) != v.selector.value)
      && (DeployWrites(d, w) ==> Stands(Exec(v, PrepareRun(d, w).log), DesiredTraffic(d, w)))
  }

  lemma {:induction false} SwitchKeepsLive(v: View, sw: SwitchIn, w: SwitchWorld)
    requires ValidConf(sw.conf) && LiveStands()(v)
    ensures Along(v, SwitchRun(sw, w).log, LiveStands()) <==> SparesLive(v, SwitchTo(sw, w))
  {
    hide SwitchRun, SwitchFlips, Stands;
    SwitchIsGated(sw, w);
    SelectingKeepsLive(v, SwitchRun(sw, w).log);
    SwitchWrites(sw, w, SwitchBootstrap(sw, w));
    SwitchWrites(sw, w, sw.target);
    assert SwitchFlips(sw, w) ==> SwitchStarts(w) by { FlipsOnlyStarted(sw, w); }
    forall s | s in SwitchRun(sw, w).log && s.Select? && SparesLive(v, SwitchTo(sw, w)) ensures Stands(v, s.colour) {
      assert s == Select(s.colour);
      SwitchWrites(sw, w, s.colour);
    }
    if Along(v, SwitchRun(sw, w).log, LiveStands()) {
      assert SwitchStarts(w) ==> Select(SwitchBootstrap(sw, w)) in SwitchRun(sw, w).log;
      assert SwitchFlips(sw, w) ==> Select(sw.target) in SwitchRun(sw, w).log;
    }
  }

  lemma {:induction false} FlipsOnlyStarted(sw: SwitchIn, w: SwitchWorld)
    requires ValidConf(sw.conf)
    ensures SwitchFlips(sw, w) ==> SwitchStarts(w)
  {
  }

  lemma {:induction false} PrepareKeepsLive(v: View, d: DeployIn, w: DeployWorld)
    requires IsDefault(d) && LiveStands()(v)
    ensures Along(v, PrepareRun(d, w).log, LiveStands()) <==>
            (v.selector.Some? && d.updateDeployment && w.dropped >= 1 ==> NextTraffic(w.live) != v.selector.value)
  {
    hide CreateRun;
    var P := LiveStands();
    var drop := if d.updateDeployment then DropRun(DeployVersions(d, w.live), w.dropped) else Skip();
    var create := if d.remove || !d.updateDeployment then Skip() else CreateRun(d, w);
    AlongEmptyExactly(v, P);
    if d.updateDeployment { DropKeepsLive(v, d, w); }
    AlongThenExactly(v, drop, Then(Pass(w.swept), create), P);
    var u := Exec(v, drop.log);
    if Along(v, drop.log, P) {
      AlongEnds(v, drop.log, P);
      AlongEmptyExactly(u, P);
      CreateKeepsLive(u, d, w);
      AlongThenExactly(u, Pass(w.swept), create, P);
    }
  }

  lemma {:induction false} DropKeepsLive(v: View, d: DeployIn, w: DeployWorld)
    requires IsDefault(d) && LiveStands()(v)
    ensures Along(v, DropRun(DeployVersions(d, w.live), w.dropped).log, LiveStands()) <==>
            (v.selector.Some? && w.dropped >= 1 ==> NextTraffic(w.live) != v.selector.value)
  {
    DropTwo(NextTraffic(w.live));
    AlongEmptyExactly(v, LiveStands());
    var drop := DropRun(DeployVersions(d, w.live), w.dropped);
    if w.dropped == 0 {
      assert drop.log == [];
    } else if v.selector.Some? {
      LiveDroppedExactly(v, d, w, v.selector.value);
    } else {
      DropWithoutSelector(v, drop.log);
    }
  }

  lemma {:induction false} DropWithoutSelector(v: View, log: seq<Step>)
    requires v.selector == None && forall s :: s in log ==> s.DropService? || s.DropDeployment?
    ensures Along(v, log, LiveStands())
    decreases |log|
  {
    if log == [] {
      AlongEmpty(v, LiveStands());
    } else {
      assert log[0] in log;
      AlongOne(v, log[0], LiveStands());
      DropWithoutSelector(Apply(v, log[0]), log[1..]);
      assert log == [log[0]] + log[1..];
      AlongConcat(v, [log[0]], log[1..], LiveStands());
    }
  }

  lemma {:induction false} CreateKeepsLive(v: View, d: DeployIn, w: DeployWorld)
    requires LiveStands()(v)
    ensures Along(v, CreateRun(d, w).log, LiveStands())
  {
    var P := LiveStands();
    var c := Create(d.manifest * w.created);
    AlongOne(v, c, P);
    var u := Apply(v, c);
    AlongEmpty(u, P);
    var grpc := if d.grpcManifest.Some? then Call(Grpc(d.grpcManifest.value), w.grpcApplied) else Skip();
    if d.grpcManifest.Some? { AlongOne(u, Grpc(d.grpcManifest.value), P); }
    ThenAlong(v, Run([c], if d.manifest <= w.created then Ok else Failed), grpc, P);
  }

  lemma {:induction false} DeployKeepsLive(v: View, d: DeployIn, w: DeployWorld)
    requires ValidConf(d.conf) && IsDefault(d) && LiveStands()(v)
    ensures Along(v, DeployRun(d, w).log, LiveStands()) <==> SparesLive(v, Deploy(d, w))
  {
    hide RouteRun, PrepareRun, Stands, DeployRun;
    var P := LiveStands();
    DeployShape(d, w);
    PrepareKeepsLive(v, d, w);
    var route := if d.updateProxy then RouteRun(d, w) else Skip();
    var rest := if d.remove then Skip() else Then(route, Pass(w.certificates));
    AlongThenExactly(v, PrepareRun(d, w), rest, P);
    var u := Exec(v, PrepareRun(d, w).log);
    if Along(v, PrepareRun(d, w).log, P) {
      AlongEnds(v, PrepareRun(d, w).log, P);
      AlongEmptyExactly(u, P);
      AlongThenExactly(u, route, Pass(w.certificates), P);
      RouteKeepsLive(u, d, w);
      if Along(u, route.log, P) {
        AlongEnds(u, route.log, P);
        AlongEmptyExactly(Exec(u, route.log), P);
      }
    }
  }

  lemma {:induction false} RouteKeepsLive(u: View, d: DeployIn, w: DeployWorld)
    requires ValidConf(d.conf) && IsDefault(d) && LiveStands()(u)
    ensures Along(u, RouteRun(d, w).log, LiveStands()) <==>
      ((!d.updateDeployment || (w.desiredReady && w.desiredServing)) && w.promote.bootstrapped ==> Stands(u, DesiredTraffic(d, w)))
  {
    hide RouteRun, Stands;
    RouteSteps(d, w);
    forall s | s in RouteRun(d, w).log ensures !s.DropService? && !s.DropDeployment? && !s.Create? {
      assert PromoteStep(s, {DeployBootstrap(d, w), DesiredTraffic(d, w)});
    }
    SelectingKeepsLive(u, RouteRun(d, w).log);
    RouteWrites(d, w, DesiredTraffic(d, w));
    forall s | s in RouteRun(d, w).log && s.Select? ensures s.colour == DesiredTraffic(d, w) {
      assert s == Select(s.colour);
      RouteWrites(d, w, s.colour);
    }
    if Along(u, RouteRun(d, w).log, LiveStands()) && Select(DesiredTraffic(d, w)) in RouteRun(d, w).log {
      assert Stands(u, Select(DesiredTraffic(d, w)).colour);
    }
  }

  // ----- histories of commands

  /** All calls of a history of commands, in order. */
  function History(cs: seq<Command>): seq<Step>
    requires forall c :: c in cs ==> ValidCommand(c)
  {
    if cs == [] then [] else CommandRun(cs[0]).log + History(cs[1..])
  }

  /** Each command spares the serving colour in the state it starts from. */
  predicate HistorySparesLive(v: View, cs: seq<Command>)
    requires forall c :: c in cs ==> ValidCommand(c)
    decreases |cs|
  {
    cs == [] || (SparesLive(v, cs[0]) && HistorySparesLive(Exec(v, CommandRun(cs[0]).log), cs[1..]))
  }

  /** Over every sequence of default deploys and switches, each failing wherever it fails, no state
      between any two calls has the selector on a colour whose workload is not there, if and only if each
      command writes only colours that stand and no deploy deletes the one that serves. */
  lemma {:induction false} ServingColourStandsExactly(v: View, cs: seq<Command>)
    requires (forall c :: c in cs ==> ValidCommand(c)) && LiveStands()(v)
    ensures Along(v, History(cs), LiveStands()) <==> HistorySparesLive(v, cs)
    decreases |cs|
  {
    hide SwitchRun, DeployRun, SparesLive;
    AlongEmptyExactly(v, LiveStands());
    if cs != [] {
      var log := CommandRun(cs[0]).log;
      match cs[0] {
        case SwitchTo(sw, w) => SwitchKeepsLive(v, sw, w);
        case Deploy(d, w) => DeployKeepsLive(v, d, w);
      }
      AlongConcatExactly(v, log, History(cs[1..]), LiveStands());
      if Along(v, log, LiveStands()) {
        AlongEnds(v, log, LiveStands());
        ServingColourStandsExactly(Exec(v, log), cs[1..]);
      }
    }
  }

  /** A positive readiness answer means the colour exists, a deploy reads the selector that is there, and
      one that skips the readiness check routes to a colour that exists. Everything else about the answers
      is free. */
  predicate Honest(v: View, c: Command)
    requires ValidCommand(c)
  {
    match c
    case SwitchTo(sw, w) =>
      && (w.ready && w.serving ==> Stands(v, sw.target))
      && (w.seen.Some? && w.seenServing ==> Stands(v, w.seen.value))
    case Deploy(d, w) =>
      var u := Exec(v, PrepareRun(d, w).log);
      && (v.selector.Some? ==> w.live == v.selector)
      && (SeenReady(w) ==> Stands(u, w.seen.value))
      && (w.desiredReady && w.desiredServing ==> Stands(u, DesiredTraffic(d, w)))
      && (!d.updateDeployment && d.updateProxy ==> Stands(u, DesiredTraffic(d, w)))
  }

  /** Honest answers spare the serving colour. */
  lemma {:induction false} HonestSparesLive(v: View, c: Command)
    requires ValidCommand(c) && Honest(v, c)
    ensures SparesLive(v, c)
  {
  }

  predicate HonestHistory(v: View, cs: seq<Command>)
    requires forall c :: c in cs ==> ValidCommand(c)
    decreases |cs|
  {
    cs == [] || (Honest(v, cs[0]) && HonestHistory(Exec(v, CommandRun(cs[0]).log), cs[1..]))
  }

  /** With honest answers the serving colour stands in every state of every history. */
  lemma {:induction false} ServingColourStands(v: View, cs: seq<Command>)
    requires (forall c :: c in cs ==> ValidCommand(c)) && LiveStands()(v) && HonestHistory(v, cs)
    ensures Along(v, History(cs), LiveStands())
  {
    HonestHistorySpares(v, cs);
    ServingColourStandsExactly(v, cs);
  }

  lemma {:induction false} HonestHistorySpares(v: View, cs: seq<Command>)
    requires (forall c :: c in cs ==> ValidCommand(c)) && HonestHistory(v, cs)
    ensures HistorySparesLive(v, cs)
    decreases |cs|
  {
    hide CommandRun, SparesLive, Honest;
    if cs != [] {
      HonestSparesLive(v, cs[0]);
      HonestHistorySpares(Exec(v, CommandRun(cs[0]).log), cs[1..]);
    }
  }
}
