/** Where a completed promotion leaves each path: on the target, on the old colour, or nowhere. The two
    bad ends come from reads that fail silently, or from a stack that requests do not reach. */
module UnservedStack {
  import opened Base
  import opened Routing
  import opened Promotion
  import opened SingleFlip
  import opened ColourSafety
  import opened Migration

  /** The stack in front and what picks it are as they were. */
  predicate SameFront(v: View, u: View, dest: Stack) {
    && u.edge == v.edge && u.front == v.front
    && (if dest == Gateway then u.proxies == v.proxies else u.routes == v.routes && u.blocks == v.blocks)
  }

  /** Calls on one stack leave the other stack, the edge and the selector as they were. */
  lemma {:induction false} OnlyDestKeepsFront(v: View, conf: Conf, dest: Stack, mustExist: bool, w: PromoteWorld)
    requires ValidConf(conf)
    ensures var u := Exec(Exec(v, InstallRun(conf, dest, w).log), ApplyRun(conf, dest, mustExist, w).log);
      && SameFront(v, u, dest) && u.selector == v.selector
      && (InstallRun(conf, dest, w).status.Ok? && ApplyRun(conf, dest, mustExist, w).status.Ok? ==>
            BlocksReady(u, conf, dest) && AllRendered(u, conf, dest))
  {
    hide BlocksReady, AllRendered;
    InstallEnds(v, conf, dest, w);
    ApplyEnds(Exec(v, InstallRun(conf, dest, w).log), conf, dest, mustExist, w);
  }

  lemma {:induction false} InstallEnds(v: View, conf: Conf, dest: Stack, w: PromoteWorld)
    requires ValidConf(conf)
    ensures var run := InstallRun(conf, dest, w); var u := Exec(v, run.log);
      && u == v.(blocks := u.blocks) && (dest == Contour ==> u == v)
      && (run.status.Ok? ==> BlocksReady(u, conf, dest))
  {
    hide BlocksReady;
    AlongCallExactly(v, Install(conf), w.installed, (x: View) => true);
    NoBlocksReady(v, conf, dest);
    InstalledReady(v, conf);
  }

  lemma {:induction false} ApplyEnds(v: View, conf: Conf, dest: Stack, mustExist: bool, w: PromoteWorld)
    requires ValidConf(conf)
    ensures var run := ApplyRun(conf, dest, mustExist, w); var u := Exec(v, run.log);
      && u == v.(proxies := u.proxies, routes := u.routes) && SameFront(v, u, dest)
      && (BlocksReady(u, conf, dest) <==> BlocksReady(v, conf, dest))
      && (run.status.Ok? ==> AllRendered(u, conf, dest))
  {
    hide BlocksReady;
    PublishRenders(v, conf, dest, conf.hosts, w.accepted);
    if AnyPublished(conf) && (dest == Contour || w.gatewayApplied) {
      assert ApplyRun(conf, dest, mustExist, w).log == PublishSteps(dest, conf.hosts, conf, w.accepted);
      SameBlocksReady(v, Exec(v, PublishSteps(dest, conf.hosts, conf, w.accepted)), conf, dest);
    }
  }

  lemma {:induction false} SameBlocksReady(v: View, u: View, conf: Conf, dest: Stack)
    requires u.blocks == v.blocks
    ensures BlocksReady(u, conf, dest) <==> BlocksReady(v, conf, dest)
  {
  }

  /** A completed migration: nothing at all when the edge was not rebuilt, and otherwise the old objects
      of every host are gone, whatever the edge loaded. */
  lemma {:induction false} MigrationEnds(v: View, conf: Conf, dest: Stack, w: PromoteWorld)
    requires MigrateRun(conf, dest, w).status.Ok?
    ensures var u := Exec(v, MigrateRun(conf, dest, w).log);
      && (!Updates(w.first) ==> u == v)
      && (Updates(w.first) ==>
            && u == v.(proxies := u.proxies, routes := u.routes, edge := u.edge)
            && (if dest == Contour then u.proxies == v.proxies else u.routes == v.routes)
            && forall h :: h in conf.hosts && h != "" ==> !Holds(u, Other(dest), h))
  {
    hide RemoveSteps, Exec, HostTable;
    RefreshedIs(v, dest, w.first, (x: View) => true);
    if Updates(w.first) {
      MigrateIs(v, conf, dest, w);
      RemoveClears(Refreshed(v, dest, w.first), dest, conf.hosts);
    } else {
      AlongThenExactly(v, RefreshRun(dest, w.first), Skip(), (x: View) => true);
    }
  }

  /** Everything between the two selector writes. */
  lemma {:induction false} ConvergeEnds(v: View, conf: Conf, dest: Stack, mustExist: bool, w: PromoteWorld)
    requires ValidConf(conf) && ConvergeRun(conf, dest, mustExist, w).status.Ok?
    ensures var u := Exec(v, ConvergeRun(conf, dest, mustExist, w).log);
      && u.selector == v.selector && BlocksReady(u, conf, dest) && AllRendered(u, conf, dest)
      && (!Updates(w.first) ==> SameFront(v, u, dest))
      && (Updates(w.first) ==> forall h :: h in conf.hosts && h != "" ==> !Holds(u, Other(dest), h))
  {
    hide InstallRun, ApplyRun, MigrateRun, BlocksReady, Rendered;
    var P := (x: View) => true;
    var install, apply, migrate := InstallRun(conf, dest, w), ApplyRun(conf, dest, mustExist, w), MigrateRun(conf, dest, w);
    AlongThenExactly(v, install, Then(apply, migrate), P);
    var t := Exec(v, install.log);
    AlongThenExactly(t, apply, migrate, P);
    var x := Exec(t, apply.log);
    OnlyDestKeepsFront(v, conf, dest, mustExist, w);
    MigrationEnds(x, conf, dest, w);
    var u := Exec(x, migrate.log);
    SameBlocksReady(x, u, conf, dest);
    SameRendered(x, u, conf, dest);
  }

  lemma {:induction false} SameRendered(v: View, u: View, conf: Conf, dest: Stack)
    requires if dest == Contour then u.proxies == v.proxies else u.routes == v.routes
    ensures AllRendered(u, conf, dest) <==> AllRendered(v, conf, dest)
  {
    assert forall h :: h in conf.rules ==> Rendered(u, conf, dest, h) == Rendered(v, conf, dest, h);
  }

  /** The colour a path has once the run is over, from what it had before. */
  function EndColour(v: View, dest: Stack, current: Colour, target: Colour, h: Host, p: Path): Colour {
    if Pick(v, h) == dest || ViaStable(v, h, p) then target else current
  }

  /** A promotion that completes, with any shared edge or none and whatever was read. When the edge was
      not rebuilt, because its deployment was not seen or no data plane was, a path moves exactly if its
      host is on the destination stack already or the old one sends it through the stable Service; every
      other one stays on the old colour. When it was, a path is on the target if its host is picked for
      the destination stack, and answers nothing otherwise. */
  lemma {:induction false} CompletedPromotionExactly(v: View, conf: Conf, dest: Stack, mustExist: bool, bootstrap: Colour,
                                                     current: Colour, target: Colour, awaits: bool, w: PromoteWorld,
                                                     h: Host, p: Path)
    requires ValidConf(conf) && Uniform(v, conf, current) && h in conf.rules && p in conf.rules[h]
    requires PromoteRun(conf, dest, mustExist, bootstrap, target, awaits, w).status.Ok?
    ensures var u := Exec(v, PromoteRun(conf, dest, mustExist, bootstrap, target, awaits, w).log);
      && (!Updates(w.first) ==> Resolve(u, h, p) == Some(EndColour(v, dest, current, target, h, p)))
      && (Updates(w.first) && h != "" ==> Resolve(u, h, p) == if Pick(u, h) == dest then Some(target) else None)
  {
    hide ConvergeRun, BlocksReady, Rendered, Resolve, ViaStable;
    var x, u := PromotionEnds(v, conf, dest, mustExist, bootstrap, target, awaits, w);
    assert Resolve(v, h, p) == Some(current);
    assert Published(conf, h);
    EndsOnDest(x, u, conf, dest, target, h, p);
    if !Updates(w.first) { EndsBesideDest(v, u, conf, dest, current, target, h, p); }
    if Updates(w.first) && h != "" && Pick(u, h) != dest { EndsNowhere(u, dest, h, p); }
  }

  /** `x` is the state before the flip, `u` the last one: they differ in the selector alone. */
  lemma {:induction false} PromotionEnds(v: View, conf: Conf, dest: Stack, mustExist: bool, bootstrap: Colour, target: Colour,
                                         awaits: bool, w: PromoteWorld) returns (x: View, u: View)
    requires ValidConf(conf) && PromoteRun(conf, dest, mustExist, bootstrap, target, awaits, w).status.Ok?
    ensures u == Exec(v, PromoteRun(conf, dest, mustExist, bootstrap, target, awaits, w).log)
    ensures u == x.(selector := Some(target)) && BlocksReady(x, conf, dest) && AllRendered(x, conf, dest)
    ensures !Updates(w.first) ==> SameFront(v, x, dest)
    ensures Updates(w.first) ==> forall h :: h in conf.hosts && h != "" ==> !Holds(x, Other(dest), h)
  {
    hide ConvergeRun, BlocksReady, Rendered;
    var P := (y: View) => true;
    var converge, flip := ConvergeRun(conf, dest, mustExist, w), FlipRun(bootstrap, target, awaits, w);
    PromoteShape(conf, dest, mustExist, bootstrap, target, awaits, w);
    PromoteSelector(v, conf, dest, mustExist, bootstrap, target, awaits, w);
    AlongThenExactly(v, Call(Select(bootstrap), true), Then(converge, flip), P);
    AlongCallExactly(v, Select(bootstrap), true, P);
    var v1 := Apply(v, Select(bootstrap));
    AlongThenExactly(v1, converge, flip, P);
    ConvergeEnds(v1, conf, dest, mustExist, w);
    x := Exec(v1, converge.log);
    u := Exec(x, flip.log);
    AlongCallExactly(x, Select(target), w.flipped, P);
    AlongEmptyExactly(x, P);
    assert flip.log == if target != bootstrap then [Select(target)] else [];
  }

  lemma {:induction false} EndsOnDest(x: View, u: View, conf: Conf, dest: Stack, target: Colour, h: Host, p: Path)
    requires u == x.(selector := Some(target)) && BlocksReady(x, conf, dest) && AllRendered(x, conf, dest)
    requires h in conf.rules && p in conf.rules[h] && Published(conf, h)
    ensures Pick(u, h) == dest ==> Resolve(u, h, p) == Some(target)
  {
    SameBlocksReady(x, u, conf, dest);
    SameRendered(x, u, conf, dest);
    RenderedColour(u, conf, dest, h, p);
  }

  lemma {:induction false} EndsBesideDest(v: View, u: View, conf: Conf, dest: Stack, current: Colour, target: Colour, h: Host, p: Path)
    requires SameFront(v, u, dest) && u.selector == Some(target) && Resolve(v, h, p) == Some(current)
    ensures Pick(u, h) == Pick(v, h)
    ensures Pick(v, h) != dest ==> Resolve(u, h, p) == Some(if ViaStable(v, h, p) then target else current)
  {
  }

  lemma {:induction false} EndsNowhere(u: View, dest: Stack, h: Host, p: Path)
    requires Pick(u, h) != dest && !Holds(u, Other(dest), h)
    ensures Resolve(u, h, p) == None
  {
  }

  /** A promotion that completes over an edge nobody rebuilt leaves the deploy on one colour if and only
      if every path was on the destination stack or behind the stable Service to begin with. */
  lemma {:induction false} PromotionBesideTheFront(v: View, conf: Conf, dest: Stack, mustExist: bool, bootstrap: Colour,
                                                   current: Colour, target: Colour, awaits: bool, w: PromoteWorld)
    requires ValidConf(conf) && Uniform(v, conf, current) && current != target && !Updates(w.first)
    requires PromoteRun(conf, dest, mustExist, bootstrap, target, awaits, w).status.Ok?
    ensures Uniform(Exec(v, PromoteRun(conf, dest, mustExist, bootstrap, target, awaits, w).log), conf, target) <==>
            forall h, p :: h in conf.rules && p in conf.rules[h] ==> Pick(v, h) == dest || ViaStable(v, h, p)
  {
    hide PromoteRun, Resolve, ViaStable;
    var u := Exec(v, PromoteRun(conf, dest, mustExist, bootstrap, target, awaits, w).log);
    forall h, p | h in conf.rules && p in conf.rules[h]
      ensures Resolve(u, h, p) == Some(EndColour(v, dest, current, target, h, p))
    {
      CompletedPromotionExactly(v, conf, dest, mustExist, bootstrap, current, target, awaits, w, h, p);
    }
  }

  // ----- inputs

  /** Every call of a promotion to the Gateway stack works but for one read: the deployment of the shared
      edge is not seen, so the edge is not rebuilt. */
  function UnseenEdge(): PromoteWorld {
    var none := RefreshAnswers(false, Reads(false, false, false, false, false), false, Stuck);
    PromoteWorld(true, true, true, {}, none, 0, none, true, true, true)
  }

  lemma {:induction false} UnseenEdgeCompletes(conf: Conf, accepted: set<Host>, target: Colour)
    requires ValidConf(conf) && AllAccepted(conf, accepted)
    ensures PromoteRun(conf, Gateway, false, Blue, target, true, UnseenEdge().(accepted := accepted)).status.Ok?
  {
  }

  /** Behind a shared edge that hands the host to Contour, a host's root is on the stable Service and its
      API still on the blue one. A switch to green that does not see the edge reports success and splits
      the two. */
  lemma {:induction false} UnseenEdgeSplitsRootFromApi(host: Host, root: Path, api: Path)
    requires root != api
    ensures var v := View(map[host := map[root := Stable, api := Legacy(Blue)]], map[], map[], Some(Blue), None, None,
                          Some(Edge(map[host := Contour], Gateway)), Gateway, {Blue, Green}, {Blue, Green});
      var conf := Conf([host], map[host := map[root := false, api := false]]);
      var run := PromoteRun(conf, Gateway, false, Blue, Green, true, UnseenEdge().(accepted := {host}));
      && ValidConf(conf) && Uniform(v, conf, Blue) && run.status.Ok?
      && Resolve(Exec(v, run.log), host, root) == Some(Green) && Resolve(Exec(v, run.log), host, api) == Some(Blue)
  {
    hide PromoteRun, Exec;
    var v := View(map[host := map[root := Stable, api := Legacy(Blue)]], map[], map[], Some(Blue), None, None,
                  Some(Edge(map[host := Contour], Gateway)), Gateway, {Blue, Green}, {Blue, Green});
    var conf := Conf([host], map[host := map[root := false, api := false]]);
    var w := UnseenEdge().(accepted := {host});
    assert ValidConf(conf) && Uniform(v, conf, Blue);
    UnseenEdgeCompletes(conf, {host}, Green);
    CompletedPromotionExactly(v, conf, Gateway, false, Blue, Blue, Green, true, w, host, root);
    CompletedPromotionExactly(v, conf, Gateway, false, Blue, Blue, Green, true, w, host, api);
  }
}
