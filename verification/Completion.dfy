/** When each command completes and what it leaves wherever it stops, told call by call on the state alone:
    no logs and no runs, and the answers one by one. */
module Completion {
  import opened Base
  import opened Routing
  import opened Promotion
  import opened SingleFlip
  import opened Migration

  // ----- what the answers say

  /** Some rule was rendered for the hostname, or one that the shared gateway proxies. */
  predicate HasRule(conf: Conf, h: Host) {
    h in conf.rules && exists p :: p in conf.rules[h]
  }

  predicate HasBlock(conf: Conf, h: Host) {
    h in conf.rules && exists p :: p in conf.rules[h] && conf.rules[h][p]
  }

  predicate Rebuilds(a: RefreshAnswers) {
    a.installed && (a.answers.contour || (a.answers.gateway && a.answers.service))
  }

  predicate BlocksRefused(conf: Conf, dest: Stack, w: PromoteWorld) {
    dest == Gateway && (exists h :: h in conf.hosts && HasBlock(conf, h)) && !w.installed
  }

  /** `gateway.yaml` was refused, or a deploy handed over a `proxy.yaml` without objects. */
  predicate FileRefused(conf: Conf, dest: Stack, mustExist: bool, w: PromoteWorld) {
    if exists h :: h in conf.hosts && HasRule(conf, h) then dest == Gateway && !w.gatewayApplied
    else dest == Contour && mustExist
  }

  predicate DocumentRefused(conf: Conf, w: PromoteWorld) {
    exists h :: h in conf.hosts && HasRule(conf, h) && h !in w.accepted
  }

  // ----- what a promotion leaves

  function WithBlocks(v: View, conf: Conf, dest: Stack): View {
    if dest == Contour then v
    else v.(blocks := v.blocks + map h | h in conf.rules && HasBlock(conf, h)
              :: map p | p in conf.rules[h] && conf.rules[h][p] :: Stable)
  }

  function Proxies(conf: Conf): map<Host, map<Path, Upstream>> {
    map h | h in conf.rules && HasRule(conf, h) :: map p | p in conf.rules[h] :: Stable
  }

  function Routes(conf: Conf): map<Host, map<Path, Backend>> {
    map h | h in conf.rules && HasRule(conf, h)
      :: map p | p in conf.rules[h] :: if conf.rules[h][p] then Shared else Direct(Stable)
  }

  /** The documents of these hosts that were accepted. */
  function Accepted<V>(documents: map<Host, V>, hosts: seq<Host>, accepted: set<Host>): map<Host, V> {
    map h | h in documents && h in hosts && h in accepted :: documents[h]
  }

  function WithDocuments(v: View, conf: Conf, dest: Stack, hosts: seq<Host>, accepted: set<Host>): View {
    if dest == Contour then v.(proxies := v.proxies + Accepted(Proxies(conf), hosts, accepted))
    else v.(routes := v.routes + Accepted(Routes(conf), hosts, accepted))
  }

  function WithTable(v: View, dest: Stack, a: RefreshAnswers): View {
    if a.loaded then v.(edge := Some(HostTable(v, a.answers, dest))) else v
  }

  function Without(v: View, dest: Stack, hosts: seq<Host>): View {
    var gone := set h | h in hosts && h != "";
    if dest == Gateway then v.(proxies := v.proxies - gone) else v.(routes := v.routes - gone)
  }

  /** A state, and how the command ended there or `Ok` when it goes on. */
  datatype Left = Left(state: View, status: Status)

  function RefreshLeaves(v: View, dest: Stack, a: RefreshAnswers): Left {
    if !Rebuilds(a) then Left(v, Ok)
    else match a.ending
      case Settled => Left(WithTable(v, dest, a), Ok)
      case Stuck => Left(WithTable(v, dest, a), Failed)
      case RolledBack(e) => Left(v.(edge := Some(e)), Failed)
  }

  function MigrationLeaves(v: View, conf: Conf, dest: Stack, w: PromoteWorld): Left {
    var first := RefreshLeaves(v, dest, w.first);
    if first.status != Ok || !Rebuilds(w.first) then first
    else if w.removed < |conf.hosts| then Left(Without(first.state, dest, conf.hosts[..w.removed]), Failed)
    else RefreshLeaves(Without(first.state, dest, conf.hosts), dest, w.second)
  }

  function FlipLeaves(v: View, bootstrap: Colour, desired: Colour, awaits: bool, w: PromoteWorld): Left {
    if desired != bootstrap && !w.flipped then Left(v, Failed)
    else if awaits && !w.stableServing then
      Left(v.(selector := Some(if w.rolledBack then bootstrap else desired)), Failed)
    else Left(v.(selector := Some(desired)), Ok)
  }

  function PromotionLeaves(v: View, conf: Conf, dest: Stack, mustExist: bool, bootstrap: Colour, desired: Colour,
                           awaits: bool, w: PromoteWorld): Left {
    if !w.bootstrapped then Left(v, Failed)
    else
      var v1 := v.(selector := Some(bootstrap));
      if BlocksRefused(conf, dest, w) then Left(v1, Failed)
      else
        var v2 := WithBlocks(v1, conf, dest);
        if FileRefused(conf, dest, mustExist, w) then Left(v2, Failed)
        else if DocumentRefused(conf, w) then Left(WithDocuments(v2, conf, dest, conf.hosts, w.accepted), Failed)
        else
          var moved := MigrationLeaves(WithDocuments(v2, conf, dest, conf.hosts, w.accepted), conf, dest, w);
          if moved.status != Ok then moved else FlipLeaves(moved.state, bootstrap, desired, awaits, w)
  }

  // ----- the parts of a run

  lemma {:induction false} EndsThen(v: View, a: Run, b: Run)
    ensures Exec(v, Then(a, b).log) == if a.status.Ok? then Exec(Exec(v, a.log), b.log) else Exec(v, a.log)
  {
    AlongThenExactly(v, a, b, (x: View) => true);
  }

  lemma {:induction false} EndsCall(v: View, s: Step, ok: bool)
    ensures Exec(v, Call(s, ok).log) == if ok then Apply(v, s) else v
  {
    AlongCallExactly(v, s, ok, (x: View) => true);
  }

  lemma {:induction false} SameRules(conf: Conf)
    requires ValidConf(conf)
    ensures forall h :: Published(conf, h) <==> HasRule(conf, h)
    ensures AnyPublished(conf) <==> exists h :: h in conf.hosts && HasRule(conf, h)
    ensures AnyBlock(conf) <==> exists h :: h in conf.hosts && HasBlock(conf, h)
  {
    forall h ensures Published(conf, h) <==> HasRule(conf, h) {
      if Published(conf, h) { var p :| p in conf.rules[h]; }
    }
    assert forall h :: h in conf.hosts ==> (HasBlock(conf, h) <==> h in conf.rules && Intercepted(conf.rules[h]));
  }

  lemma {:induction false} InstallEnds(v: View, conf: Conf, dest: Stack, w: PromoteWorld)
    requires ValidConf(conf)
    ensures var run := InstallRun(conf, dest, w);
      && run.status == (if BlocksRefused(conf, dest, w) then Failed else Ok)
      && Exec(v, run.log) == if BlocksRefused(conf, dest, w) then v else WithBlocks(v, conf, dest)
  {
    SameRules(conf);
    EndsCall(v, Install(conf), w.installed);
    if dest == Gateway { InstalledIs(v, conf); }
  }

  lemma {:induction false} InstalledIs(v: View, conf: Conf)
    requires ValidConf(conf)
    ensures Apply(v, Install(conf)) == WithBlocks(v, conf, Gateway)
    ensures (forall h :: h in conf.hosts ==> !HasBlock(conf, h)) ==> WithBlocks(v, conf, Gateway) == v
  {
    var made := map h | h in conf.rules && HasBlock(conf, h) :: map p | p in conf.rules[h] && conf.rules[h][p] :: Stable;
    var built := map h | h in conf.rules && Intercepted(conf.rules[h]) :: BlockOf(conf.rules[h]);
    assert forall h :: h in conf.rules ==> (HasBlock(conf, h) <==> Intercepted(conf.rules[h]));
    assert made.Keys == built.Keys;
    assert made == built;
    if forall h :: h in conf.hosts ==> !HasBlock(conf, h) {
      assert made == map[];
      assert v.blocks + made == v.blocks;
    }
  }

  lemma {:induction false} AcceptedStep<V>(m: map<Host, V>, documents: map<Host, V>, hosts: seq<Host>, accepted: set<Host>)
    ensures hosts == [] ==> m + Accepted(documents, hosts, accepted) == m
    ensures hosts != [] && hosts[0] in documents && hosts[0] in accepted ==>
      m + Accepted(documents, hosts, accepted)
        == m[hosts[0] := documents[hosts[0]]] + Accepted(documents, hosts[1..], accepted)
    ensures hosts != [] && !(hosts[0] in documents && hosts[0] in accepted) ==>
      m + Accepted(documents, hosts, accepted) == m + Accepted(documents, hosts[1..], accepted)
  {
    if hosts == [] {
      assert Accepted(documents, hosts, accepted) == map[];
    } else {
      assert forall h :: h in hosts <==> h == hosts[0] || h in hosts[1..];
    }
  }

  lemma {:induction false} DocumentIs(conf: Conf, h: Host)
    requires h in conf.rules && HasRule(conf, h)
    ensures h in Proxies(conf) && Proxies(conf)[h] == ProxyOf(conf.rules[h])
    ensures h in Routes(conf) && Routes(conf)[h] == RouteOf(conf.rules[h])
  {
  }

  lemma {:induction false} PublishStepsEnd(v: View, conf: Conf, dest: Stack, hosts: seq<Host>, accepted: set<Host>)
    requires ValidConf(conf) && forall h :: h in hosts ==> h in conf.rules
    ensures Exec(v, PublishSteps(dest, hosts, conf, accepted)) == WithDocuments(v, conf, dest, hosts, accepted)
    decreases |hosts|
  {
    hide HasRule, Accepted, ProxyOf, RouteOf, Published, HostTable, InstalledBlocks;
    AcceptedStep(v.proxies, Proxies(conf), hosts, accepted);
    AcceptedStep(v.routes, Routes(conf), hosts, accepted);
    if hosts != [] {
      SameRules(conf);
      var rest := PublishSteps(dest, hosts[1..], conf, accepted);
      if HasRule(conf, hosts[0]) && hosts[0] in accepted {
        DocumentIs(conf, hosts[0]);
        var s := Publish(dest, hosts[0], conf.rules[hosts[0]]);
        assert ([s] + rest)[0] == s && ([s] + rest)[1..] == rest;
        PublishStepsEnd(Apply(v, s), conf, dest, hosts[1..], accepted);
      } else {
        PublishStepsEnd(v, conf, dest, hosts[1..], accepted);
        assert [] + rest == rest;
      }
    }
  }

  lemma {:induction false} ApplyEnds(v: View, conf: Conf, dest: Stack, mustExist: bool, w: PromoteWorld)
    requires ValidConf(conf)
    ensures var run := ApplyRun(conf, dest, mustExist, w);
      && run.status == (if FileRefused(conf, dest, mustExist, w) || DocumentRefused(conf, w) then Failed else Ok)
      && Exec(v, run.log) == if FileRefused(conf, dest, mustExist, w) then v else WithDocuments(v, conf, dest, conf.hosts, w.accepted)
  {
    SameRules(conf);
    PublishStepsEnd(v, conf, dest, conf.hosts, w.accepted);
    EndsThen(v, Pass(dest == Contour || w.gatewayApplied), PublishRun(conf, dest, w.accepted));
    if !AnyPublished(conf) { NoDocuments(v, conf, dest, w.accepted); }
  }

  lemma {:induction false} NoDocuments(v: View, conf: Conf, dest: Stack, accepted: set<Host>)
    requires !exists h :: h in conf.hosts && HasRule(conf, h)
    ensures WithDocuments(v, conf, dest, conf.hosts, accepted) == v
  {
    assert Accepted(Proxies(conf), conf.hosts, accepted) == map[] && Accepted(Routes(conf), conf.hosts, accepted) == map[];
    assert v.proxies + map[] == v.proxies && v.routes + map[] == v.routes;
  }

  lemma {:induction false} RefreshEnds(v: View, dest: Stack, a: RefreshAnswers)
    ensures Left(Exec(v, RefreshRun(dest, a).log), RefreshRun(dest, a).status) == RefreshLeaves(v, dest, a)
    ensures Updates(a) <==> Rebuilds(a)
  {
    RefreshedIs(v, dest, a, (x: View) => true);
  }

  lemma {:induction false} RemoveEnds(v: View, hosts: seq<Host>, dest: Stack, done: nat)
    ensures var run := RemoveRun(Other(dest), hosts, done);
      && run.status == (if done < |hosts| then Failed else Ok)
      && Exec(v, run.log) == Without(v, dest, if done < |hosts| then hosts[..done] else hosts)
  {
    RemoveClears(v, dest, if done < |hosts| then hosts[..done] else hosts);
  }

  lemma {:induction false} MigrateEnds(v: View, conf: Conf, dest: Stack, w: PromoteWorld)
    ensures Left(Exec(v, MigrateRun(conf, dest, w).log), MigrateRun(conf, dest, w).status) == MigrationLeaves(v, conf, dest, w)
  {
    hide RefreshLeaves, RefreshRun, RemoveRun, Without, Updates, Rebuilds;
    var first, removal, second := RefreshRun(dest, w.first), RemoveRun(Other(dest), conf.hosts, w.removed), RefreshRun(dest, w.second);
    RefreshEnds(v, dest, w.first);
    var t := Exec(v, first.log);
    RemoveEnds(t, conf.hosts, dest, w.removed);
    RefreshEnds(Exec(t, removal.log), dest, w.second);
    EndsThen(t, removal, second);
    EndsThen(v, first, if !Updates(w.first) then Skip() else Then(removal, second));
  }

  lemma {:induction false} FlipEnds(v: View, bootstrap: Colour, desired: Colour, awaits: bool, w: PromoteWorld)
    requires v.selector == Some(bootstrap)
    ensures var run := FlipRun(bootstrap, desired, awaits, w);
      Left(Exec(v, run.log), run.status) == FlipLeaves(v, bootstrap, desired, awaits, w)
  {
    var flip := if desired != bootstrap then Call(Select(desired), w.flipped) else Skip();
    var tail := if !awaits || w.stableServing then Skip()
                else Run(if desired != bootstrap && w.rolledBack then [Select(bootstrap)] else [], Failed);
    EndsCall(v, Select(desired), w.flipped);
    var u := Exec(v, flip.log);
    AlongOneExactly(u, Select(bootstrap), (x: View) => true);
    EndsThen(v, flip, tail);
  }

  // ----- a whole promotion

  lemma {:induction false} MigrationSelector(v: View, conf: Conf, dest: Stack, w: PromoteWorld)
    ensures MigrationLeaves(v, conf, dest, w).state.selector == v.selector
  {
    hide RefreshLeaves, Without, Rebuilds;
    EdgeAlone(v, dest, w.first);
    var t := RefreshLeaves(v, dest, w.first).state;
    RoutesAlone(t, dest, conf.hosts);
    if w.removed < |conf.hosts| { RoutesAlone(t, dest, conf.hosts[..w.removed]); }
    EdgeAlone(Without(t, dest, conf.hosts), dest, w.second);
  }

  /** How every promotion ends, for every answer, and the state it leaves: call by call, the first one that
      is refused decides. */
  lemma {:induction false} PromotionEndsExactly(v: View, conf: Conf, dest: Stack, mustExist: bool, bootstrap: Colour,
                                                desired: Colour, awaits: bool, w: PromoteWorld)
    requires ValidConf(conf)
    ensures var run := PromoteRun(conf, dest, mustExist, bootstrap, desired, awaits, w);
      Left(Exec(v, run.log), run.status) == PromotionLeaves(v, conf, dest, mustExist, bootstrap, desired, awaits, w)
  {
    hide InstallRun, ApplyRun, MigrateRun, FlipRun, FlipLeaves, MigrationLeaves, WithBlocks, WithDocuments;
    hide BlocksRefused, FileRefused, DocumentRefused;
    var install, apply := InstallRun(conf, dest, w), ApplyRun(conf, dest, mustExist, w);
    var migrate, flip := MigrateRun(conf, dest, w), FlipRun(bootstrap, desired, awaits, w);
    var v1 := v.(selector := Some(bootstrap));
    EndsCall(v, Select(bootstrap), w.bootstrapped);
    EndsThen(v, Call(Select(bootstrap), w.bootstrapped), Then(install, Then(apply, Then(migrate, flip))));
    InstallEnds(v1, conf, dest, w);
    EndsThen(v1, install, Then(apply, Then(migrate, flip)));
    var v2 := Exec(v1, install.log);
    ApplyEnds(v2, conf, dest, mustExist, w);
    EndsThen(v2, apply, Then(migrate, flip));
    var v3 := Exec(v2, apply.log);
    MigrateEnds(v3, conf, dest, w);
    EndsThen(v3, migrate, flip);
    SelectorKept(v1, conf, dest, w);
    MigrationSelector(v3, conf, dest, w);
    if migrate.status.Ok? && install.status.Ok? && apply.status.Ok? {
      FlipEnds(Exec(v3, migrate.log), bootstrap, desired, awaits, w);
    }
  }

  lemma {:induction false} SelectorKept(v: View, conf: Conf, dest: Stack, w: PromoteWorld)
    ensures WithBlocks(v, conf, dest).selector == v.selector
    ensures WithDocuments(WithBlocks(v, conf, dest), conf, dest, conf.hosts, w.accepted).selector == v.selector
  {
  }

  // ----- a whole switch

  function StackOf(gatewayApi: bool): Stack {
    if gatewayApi then Gateway else Contour
  }

  function SwitchLeaves(v: View, sw: SwitchIn, w: SwitchWorld): Left {
    if !w.ready || !w.serving then Left(v, Refused)
    else if !w.built then Left(v, Failed)
    else
      var start := if w.seen.Some? && w.seenServing then w.seen.value else sw.target;
      var moved := PromotionLeaves(v, sw.conf, StackOf(sw.gatewayApi), false, start, sw.target, true, w.promote);
      if moved.status != Ok then moved
      else if sw.grpcManifest && !w.grpcApplied then Left(moved.state, Failed)
      else
        var u := if sw.grpcManifest then moved.state.(grpc := Some(sw.target)) else moved.state;
        if w.stored then Left(u.(recorded := Some(sw.target)), Ok) else Left(u, Failed)
  }

  /** How every `switchTraffic` ends and the state it leaves, for every answer. */
  lemma {:induction false} SwitchEndsExactly(v: View, sw: SwitchIn, w: SwitchWorld)
    requires ValidConf(sw.conf)
    ensures Left(Exec(v, SwitchRun(sw, w).log), SwitchRun(sw, w).status) == SwitchLeaves(v, sw, w)
  {
    hide PromoteRun, PromotionLeaves;
    var promote := PromoteRun(sw.conf, DestStack(sw.gatewayApi), false, SwitchBootstrap(sw, w), sw.target, true, w.promote);
    var grpc, record := if sw.grpcManifest then Call(Grpc(sw.target), w.grpcApplied) else Skip(), Call(Record(sw.target), w.stored);
    PromotionEndsExactly(v, sw.conf, DestStack(sw.gatewayApi), false, SwitchBootstrap(sw, w), sw.target, true, w.promote);
    var x := Exec(v, promote.log);
    EndsThen(v, Check(w.ready && w.serving), Then(Pass(w.built), Then(promote, Then(grpc, record))));
    EndsThen(v, Pass(w.built), Then(promote, Then(grpc, record)));
    EndsThen(v, promote, Then(grpc, record));
    EndsThen(x, grpc, record);
    EndsCall(x, Grpc(sw.target), w.grpcApplied);
    EndsCall(Exec(x, grpc.log), Record(sw.target), w.stored);
  }

  /** A refused file of the Gateway stack stops a promotion before any route object is written: routes of
      both stacks and the edge are as they were, and so is the selector but for the first write. */
  lemma {:induction false} RefusedGatewayStops(v: View, conf: Conf, mustExist: bool, bootstrap: Colour, desired: Colour,
                                               awaits: bool, w: PromoteWorld)
    requires ValidConf(conf) && !w.gatewayApplied && exists h :: h in conf.hosts && HasRule(conf, h)
    ensures var run := PromoteRun(conf, Gateway, mustExist, bootstrap, desired, awaits, w); var u := Exec(v, run.log);
      && run.status == Failed && u == v.(selector := u.selector, blocks := u.blocks)
      && (u.selector == v.selector || u.selector == Some(bootstrap))
  {
    hide WithDocuments, DocumentRefused, MigrationLeaves, FlipLeaves, BlocksRefused;
    PromotionEndsExactly(v, conf, Gateway, mustExist, bootstrap, desired, awaits, w);
  }

  // ----- a whole deploy

  /** The versions a deploy asks for: those named, else the traffic named, else the colour that is not live. */
  function Requested(d: DeployIn, live: Option<Colour>): seq<Colour> {
    if d.versions != [] then d.versions
    else
      match d.traffic
      case Some(c) => [c]
      case None => [if live == Some(Blue) then Green else Blue]
  }

  /** The versions whose delete, the first of a pair, is among so many calls. */
  function Covered(versions: seq<Colour>, calls: int): set<Colour> {
    set i | 0 <= i < |versions| && 2 * i < calls :: versions[i]
  }

  function WithDropped(v: View, versions: seq<Colour>, calls: int): View {
    v.(services := v.services - Covered(versions, calls), deployments := v.deployments - Covered(versions, calls - 1))
  }

  function WorkloadLeaves(v: View, d: DeployIn, w: DeployWorld): Left {
    var made := v.(services := v.services + d.manifest * w.created, deployments := v.deployments + d.manifest * w.created);
    if !d.updateDeployment then Left(v, Ok)
    else if exists c :: c in d.manifest && c !in w.created then Left(made, Failed)
    else match d.grpcManifest
      case None => Left(made, Ok)
      case Some(c) => if w.grpcApplied then Left(made.(grpc := Some(c)), Ok) else Left(made, Failed)
  }

  function RoutingLeaves(v: View, d: DeployIn, w: DeployWorld): Left {
    var live := if w.seen.Some? && w.seenServing then w.seen else None;
    var desired := if d.traffic.Some? then d.traffic.value else if live.Some? then live.value else Requested(d, w.live)[0];
    if d.updateDeployment && (!w.desiredReady || !w.desiredServing) then Left(v, Refused)
    else PromotionLeaves(v, d.conf, StackOf(d.gatewayApi), true, if live.Some? then live.value else desired, desired,
                         d.updateDeployment, w.promote)
  }

  function DeployLeaves(v: View, d: DeployIn, w: DeployWorld): Left {
    var versions := Requested(d, w.live);
    var dropped := if d.updateDeployment then WithDropped(v, versions, w.dropped) else v;
    if d.updateDeployment && w.dropped < 2 * |versions| then Left(dropped, Failed)
    else if !w.swept then Left(dropped, Failed)
    else if d.remove then Left(dropped, Ok)
    else
      var made := WorkloadLeaves(dropped, d, w);
      if made.status != Ok then made
      else
        var routed := if d.updateProxy then RoutingLeaves(made.state, d, w) else made;
        if routed.status != Ok then routed
        else Left(routed.state, if w.certificates then Ok else Failed)
  }

  /** The first so many calls of a drop. */
  function FirstDrops(versions: seq<Colour>, calls: nat): seq<Step> {
    if calls < |DropSteps(versions)| then DropSteps(versions)[..calls] else DropSteps(versions)
  }

  lemma {:induction false} FirstDropsAre(versions: seq<Colour>, calls: nat)
    ensures |DropSteps(versions)| == 2 * |versions|
    ensures versions == [] || calls == 0 ==> FirstDrops(versions, calls) == []
    ensures versions != [] && calls == 1 ==> FirstDrops(versions, calls) == [DropService(versions[0])]
    ensures versions != [] && calls >= 2 ==>
      FirstDrops(versions, calls) == [DropService(versions[0]), DropDeployment(versions[0])] + FirstDrops(versions[1..], calls - 2)
    decreases |versions|
  {
    if versions != [] { FirstDropsAre(versions[1..], 0); }
  }

  lemma {:induction false} ExecPair(v: View, a: Step, b: Step, rest: seq<Step>)
    ensures Exec(v, [a, b] + rest) == Exec(Apply(Apply(v, a), b), rest)
  {
    hide Apply;
    assert ([a, b] + rest)[1..] == [b] + rest && ([b] + rest)[1..] == rest;
  }

  lemma {:induction false} DropStepsEnd(v: View, versions: seq<Colour>, calls: nat)
    ensures |DropSteps(versions)| == 2 * |versions|
    ensures Exec(v, FirstDrops(versions, calls)) == WithDropped(v, versions, calls)
    decreases |versions|
  {
    hide WithDropped, FirstDrops, DropSteps, Apply;
    FirstDropsAre(versions, calls);
    if versions == [] {
      NoneDropped(v, calls);
    } else {
      DroppedStep(v, versions, calls);
      if calls == 1 {
        EndsCall(v, DropService(versions[0]), true);
      } else if calls >= 2 {
        ExecPair(v, DropService(versions[0]), DropDeployment(versions[0]), FirstDrops(versions[1..], calls - 2));
        DropStepsEnd(Apply(Apply(v, DropService(versions[0])), DropDeployment(versions[0])), versions[1..], calls - 2);
      }
    }
  }

  lemma {:induction false} NoneDropped(v: View, calls: int)
    ensures WithDropped(v, [], calls) == v
  {
    var none: seq<Colour> := [];
    assert Covered(none, calls) == {} && Covered(none, calls - 1) == {};
  }

  lemma {:induction false} DroppedStep(v: View, versions: seq<Colour>, calls: nat)
    requires versions != []
    ensures WithDropped(v, versions, calls) ==
      if calls == 0 then v
      else if calls == 1 then Apply(v, DropService(versions[0]))
      else WithDropped(Apply(Apply(v, DropService(versions[0])), DropDeployment(versions[0])), versions[1..], calls - 2)
  {
    hide Covered;
    CoveredStep(versions, calls);
    CoveredStep(versions, calls - 1);
    CoveredStep(versions[1..], -1);
  }

  lemma {:induction false} CoveredStep(versions: seq<Colour>, calls: int)
    ensures Covered(versions, calls) ==
      if versions == [] || calls <= 0 then {} else {versions[0]} + Covered(versions[1..], calls - 2)
    ensures calls <= 2 && versions != [] ==> Covered(versions[1..], calls - 2) == {}
  {
  }

  lemma {:induction false} DropEnds(v: View, d: DeployIn, w: DeployWorld)
    ensures var run := DropRun(DeployVersions(d, w.live), w.dropped); var versions := Requested(d, w.live);
      Left(Exec(v, run.log), run.status)
        == Left(WithDropped(v, versions, w.dropped), if w.dropped < 2 * |versions| then Failed else Ok)
  {
    assert DeployVersions(d, w.live) == Requested(d, w.live);
    DropStepsEnd(v, Requested(d, w.live), w.dropped);
  }

  lemma {:induction false} CreateEnds(v: View, d: DeployIn, w: DeployWorld)
    requires d.updateDeployment
    ensures Left(Exec(v, CreateRun(d, w).log), CreateRun(d, w).status) == WorkloadLeaves(v, d, w)
  {
    var made := Run([Create(d.manifest * w.created)], if d.manifest <= w.created then Ok else Failed);
    var grpc := if d.grpcManifest.Some? then Call(Grpc(d.grpcManifest.value), w.grpcApplied) else Skip();
    AlongOneExactly(v, Create(d.manifest * w.created), (x: View) => true);
    EndsThen(v, made, grpc);
    if d.grpcManifest.Some? { EndsCall(Exec(v, made.log), Grpc(d.grpcManifest.value), w.grpcApplied); }
  }

  lemma {:induction false} RouteEnds(v: View, d: DeployIn, w: DeployWorld)
    requires ValidConf(d.conf)
    ensures Left(Exec(v, RouteRun(d, w).log), RouteRun(d, w).status) == RoutingLeaves(v, d, w)
  {
    hide PromoteRun, PromotionLeaves;
    var b, c := DeployBootstrap(d, w), DesiredTraffic(d, w);
    var promote := PromoteRun(d.conf, DestStack(d.gatewayApi), true, b, c, d.updateDeployment, w.promote);
    PromotionEndsExactly(v, d.conf, DestStack(d.gatewayApi), true, b, c, d.updateDeployment, w.promote);
    EndsThen(v, Check(!d.updateDeployment || (w.desiredReady && w.desiredServing)), promote);
  }

  /** How every apply of a deploy ends and the state it leaves, for every answer and whatever versions and
      traffic were asked for. */
  lemma {:induction false} DeployEndsExactly(v: View, d: DeployIn, w: DeployWorld)
    requires ValidConf(d.conf)
    ensures Left(Exec(v, DeployRun(d, w).log), DeployRun(d, w).status) == DeployLeaves(v, d, w)
  {
    hide RouteRun, RoutingLeaves, CreateRun, WorkloadLeaves, DropRun, WithDropped, Requested, DeployVersions;
    var drop := if d.updateDeployment then DropRun(DeployVersions(d, w.live), w.dropped) else Skip();
    var create := if d.updateDeployment then CreateRun(d, w) else Skip();
    var route := if d.updateProxy then RouteRun(d, w) else Skip();
    var rest := if d.remove then Skip() else Then(create, Then(route, Pass(w.certificates)));
    DropEnds(v, d, w);
    EndsThen(v, drop, Then(Pass(w.swept), rest));
    var x := Exec(v, drop.log);
    EndsThen(x, Pass(w.swept), rest);
    NoWorkload(x, d, w);
    if d.updateDeployment { CreateEnds(x, d, w); }
    EndsThen(x, create, Then(route, Pass(w.certificates)));
    var y := Exec(x, create.log);
    RouteEnds(y, d, w);
    EndsThen(y, route, Pass(w.certificates));
  }

  lemma {:induction false} NoWorkload(v: View, d: DeployIn, w: DeployWorld)
    ensures !d.updateDeployment ==> WorkloadLeaves(v, d, w) == Left(v, Ok)
  {
  }

  // ----- what the requested colour decides

  /** A routing that ends normally leaves the selector on the traffic asked for; without one, on the colour
      it saw live and ready, and failing that on the first version. */
  lemma {:induction false} RoutedColourExactly(v: View, d: DeployIn, w: DeployWorld)
    requires ValidConf(d.conf) && RouteRun(d, w).status.Ok?
    ensures var after := Exec(v, RouteRun(d, w).log).selector;
      && (d.traffic.Some? ==> after == d.traffic)
      && (d.traffic.None? && w.seen.Some? && w.seenServing ==> after == w.seen)
      && (d.traffic.None? && !(w.seen.Some? && w.seenServing) ==> after == Some(Requested(d, w.live)[0]))
  {
    hide BlocksRefused, FileRefused, DocumentRefused, MigrationLeaves, WithDocuments, WithBlocks, RouteRun;
    RouteEnds(v, d, w);
  }

  /** A deploy that completes without `--remove`: the requested versions are gone and the manifest's colours
      are there, and the gRPC Service names the manifest's colour. */
  lemma {:induction false} CompletedDeployLeaves(v: View, d: DeployIn, w: DeployWorld)
    requires ValidConf(d.conf) && DeployRun(d, w).status.Ok? && d.updateDeployment && !d.remove
    ensures var u := Exec(v, DeployRun(d, w).log); var gone := set c | c in Requested(d, w.live);
      && u.deployments == v.deployments - gone + d.manifest && u.services == v.services - gone + d.manifest
      && u.grpc == (if d.grpcManifest.Some? then d.grpcManifest else v.grpc)
      && (d.updateProxy && d.traffic.Some? ==> u.selector == d.traffic)
      && (!d.updateProxy ==> u.selector == v.selector)
  {
    hide DeployRun, RoutingLeaves, Requested, Covered;
    DeployEndsExactly(v, d, w);
    AllCovered(Requested(d, w.live), w.dropped);
    var x := WithDropped(v, Requested(d, w.live), w.dropped);
    assert d.manifest * w.created == d.manifest;
    if d.updateProxy { RoutingKeepsWorkloads(WorkloadLeaves(x, d, w).state, d, w); }
  }

  /** Whatever else it does, a routing deploy with explicit traffic that completes has moved to it. */
  lemma {:induction false} DeployMoves(v: View, d: DeployIn, w: DeployWorld)
    requires ValidConf(d.conf) && DeployRun(d, w).status.Ok? && d.traffic.Some? && d.updateProxy && !d.remove
    ensures Exec(v, DeployRun(d, w).log).selector == d.traffic
  {
    hide DeployRun, RoutingLeaves, Requested, Covered;
    DeployEndsExactly(v, d, w);
    var dropped := if d.updateDeployment then WithDropped(v, Requested(d, w.live), w.dropped) else v;
    RoutingKeepsWorkloads(WorkloadLeaves(dropped, d, w).state, d, w);
  }

  lemma {:induction false} AllCovered(versions: seq<Colour>, calls: nat)
    requires calls >= 2 * |versions|
    ensures Covered(versions, calls) == set c | c in versions
    ensures Covered(versions, calls - 1) == set c | c in versions
  {
    forall c | c in versions ensures c in Covered(versions, calls) && c in Covered(versions, calls - 1) {
      var i :| 0 <= i < |versions| && versions[i] == c;
    }
  }

  predicate SameWorkloads(v: View, u: View) {
    u.deployments == v.deployments && u.services == v.services && u.grpc == v.grpc
  }

  lemma {:induction false} MigrationKeepsWorkloads(v: View, conf: Conf, dest: Stack, w: PromoteWorld)
    ensures SameWorkloads(v, MigrationLeaves(v, conf, dest, w).state)
  {
    hide RefreshLeaves, Without, Rebuilds;
    EdgeAlone(v, dest, w.first);
    var t := RefreshLeaves(v, dest, w.first).state;
    RoutesAlone(t, dest, conf.hosts);
    if w.removed < |conf.hosts| { RoutesAlone(t, dest, conf.hosts[..w.removed]); }
    EdgeAlone(Without(t, dest, conf.hosts), dest, w.second);
  }

  lemma {:induction false} EdgeAlone(v: View, dest: Stack, a: RefreshAnswers)
    ensures var u := RefreshLeaves(v, dest, a).state; u == v.(edge := u.edge)
  {
    hide HostTable;
  }

  lemma {:induction false} RoutesAlone(v: View, dest: Stack, hosts: seq<Host>)
    ensures var u := Without(v, dest, hosts); u == v.(proxies := u.proxies, routes := u.routes)
  {
  }

  lemma {:induction false} PublishingKeepsWorkloads(v: View, conf: Conf, dest: Stack, hosts: seq<Host>, accepted: set<Host>)
    ensures SameWorkloads(v, WithBlocks(v, conf, dest)) && SameWorkloads(v, WithDocuments(v, conf, dest, hosts, accepted))
  {
  }

  lemma {:induction false} RoutingKeepsWorkloads(v: View, d: DeployIn, w: DeployWorld)
    ensures var u := RoutingLeaves(v, d, w);
      && SameWorkloads(v, u.state)
      && (u.status.Ok? && d.traffic.Some? ==> u.state.selector == d.traffic)
  {
    hide BlocksRefused, FileRefused, DocumentRefused, WithBlocks, WithDocuments, MigrationLeaves;
    var live := if w.seen.Some? && w.seenServing then w.seen else None;
    var desired := if d.traffic.Some? then d.traffic.value else if live.Some? then live.value else Requested(d, w.live)[0];
    var dest, v1 := StackOf(d.gatewayApi), v.(selector := Some(if live.Some? then live.value else desired));
    var v2 := WithBlocks(v1, d.conf, dest);
    PublishingKeepsWorkloads(v1, d.conf, dest, [], {});
    PublishingKeepsWorkloads(v2, d.conf, dest, d.conf.hosts, w.promote.accepted);
    MigrationKeepsWorkloads(WithDocuments(v2, d.conf, dest, d.conf.hosts, w.promote.accepted), d.conf, dest, w.promote);
  }
}
