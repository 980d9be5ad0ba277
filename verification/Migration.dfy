/** Moving hostnames between the two routing stacks behind the shared edge: exactly when no host is
    unrouted on the way, and no route reaches the shared gateway before its server block. */
module Migration {
  import opened Base
  import opened Routing
  import opened Promotion
  import opened SingleFlip

  // ----- the host table

  /** A routed host keeps an answer over a rebuild if its HTTPProxy was seen, or if the fallback has a
      route for it. A list that failed reads as empty, so its hosts are left to the fallback. */
  predicate RebuildReaches(v: View, r: Reads, h: Host) {
    h in SeenProxies(v, r) || Holds(v, if Available(r, Gateway) then Gateway else Contour, h)
  }

  /** For every answer the reads may give, failed ones included. */
  lemma {:induction false} RebuildReachesExactly(v: View, r: Reads, preferred: Stack, h: Host)
    requires AnyBackend(r) && Routed(v, h)
    ensures Reaches(Apply(v, Refresh(preferred, r)), h) <==> RebuildReaches(v, r, h)
  {
  }

  /** The rebuild sends a host the destination stack describes there exactly for the answers of
      `PicksDest`; when both lists came back and the stack has a backend it always does. */
  lemma {:induction false} RebuildPrefersDestination(v: View, r: Reads, dest: Stack, h: Host)
    requires AnyBackend(r) && Holds(v, dest, h)
    ensures Pick(Apply(v, Refresh(dest, r)), h) == dest <==> PicksDest(v, r, dest, h)
    ensures Available(r, dest) && r.proxiesListed && r.routesListed ==> PicksDest(v, r, dest, h)
  {
    PicksDestExactly(v, r, dest, h);
  }

  /** The core of a migration, host by host: publish, rebuild, remove the old kind. The host is
      reachable afterwards if and only if the rebuild sent it to the destination. */
  lemma {:induction false} MigrationExact(v: View, h: Host, dest: Stack, r: Reads)
    requires Holds(v, dest, h) && AnyBackend(r)
    ensures var u := Apply(Apply(v, Refresh(dest, r)), Remove(Other(dest), h));
      Reaches(u, h) <==> PicksDest(v, r, dest, h)
  {
    PicksDestExactly(v, r, dest, h);
    RemovedReaches(Apply(v, Refresh(dest, r)), dest, h);
  }

  lemma {:induction false} RemovedReaches(v: View, dest: Stack, h: Host)
    requires Holds(v, dest, h)
    ensures Reaches(Apply(v, Remove(Other(dest), h)), h) <==> Pick(v, h) == dest
  {
    assert Pick(Apply(v, Remove(Other(dest), h)), h) == Pick(v, h);
  }

  // ----- whole migrations

  /** Where the edge sends a migrated host in the end, from the answers of the two refreshes: the last one
      that loaded decides. */
  predicate EndsOnDest(v: View, dest: Stack, w: PromoteWorld, h: Host) {
    if Updates(w.second) && w.second.loaded then
      var r := w.second.answers;
      if dest == Gateway then Available(r, Gateway) else (r.contour && r.proxiesListed) || !Available(r, Gateway)
    else if w.first.loaded then PicksDest(v, w.first.answers, dest, h)
    else Pick(v, h) == dest
  }

  lemma {:induction false} MigrateIs(v: View, conf: Conf, dest: Stack, w: PromoteWorld)
    requires Updates(w.first) && MigrateRun(conf, dest, w).status.Ok?
    ensures Exec(v, MigrateRun(conf, dest, w).log)
         == Refreshed(Exec(Refreshed(v, dest, w.first), RemoveSteps(Other(dest), conf.hosts)), dest, w.second)
  {
    var P := (x: View) => true;
    var first, removal, second := RefreshRun(dest, w.first), RemoveRun(Other(dest), conf.hosts, w.removed), RefreshRun(dest, w.second);
    RefreshedIs(v, dest, w.first, P);
    AlongThenExactly(v, first, Then(removal, second), P);
    var t := Refreshed(v, dest, w.first);
    AlongThenExactly(t, removal, second, P);
    RefreshedIs(Exec(t, removal.log), dest, w.second, P);
  }

  /** A migration that completes leaves a host it published reachable if and only if the edge ends up
      sending it to the destination stack: its old route is gone whatever the edge loaded. */
  lemma {:induction false} MigratedHostReachesExactly(v: View, conf: Conf, dest: Stack, w: PromoteWorld, h: Host)
    requires h in conf.hosts && h != "" && Holds(v, dest, h)
    requires Updates(w.first) && MigrateRun(conf, dest, w).status.Ok?
    ensures Reaches(Exec(v, MigrateRun(conf, dest, w).log), h) <==> EndsOnDest(v, dest, w, h)
  {
    hide Exec, RemoveSteps, HostTable, MigrateRun;
    MigrateIs(v, conf, dest, w);
    var t := Refreshed(v, dest, w.first);
    RemoveClears(t, dest, conf.hosts);
    var x := Exec(t, RemoveSteps(Other(dest), conf.hosts));
    assert Pick(x, h) == Pick(t, h) && Holds(x, dest, h) && !Holds(x, Other(dest), h);
    if w.first.loaded { PicksDestExactly(v, w.first.answers, dest, h); }
    if Updates(w.second) { PicksDestExactly(x, w.second.answers, dest, h); }
  }

  // ----- inputs: a host of an edge that sends it to Contour, migrated to the Gateway stack

  function Migrating(host: Host, p: Path): View {
    View(map[host := map[p := Stable]], map[host := map[p := Direct(Stable)]], map[],
         Some(Blue), None, None, Some(Edge(map[host := Contour], Contour)), Gateway, {Blue}, {Blue})
  }

  function OneHost(host: Host, p: Path): Conf {
    Conf([host], map[host := map[p := false]])
  }

  function Refreshes(first: RefreshAnswers, second: RefreshAnswers): PromoteWorld {
    PromoteWorld(true, true, true, {}, first, 1, second, true, true, true)
  }

  /** With these answers the migration reports success and the host, reachable before, answers nothing. */
  ghost predicate GoesDark(host: Host, p: Path, w: PromoteWorld) {
    var v, conf := Migrating(host, p), OneHost(host, p);
    && ValidConf(conf) && Reaches(v, host) && Published(conf, host)
    && MigrateRun(conf, Gateway, w).status.Ok? && !Reaches(Exec(v, MigrateRun(conf, Gateway, w).log), host)
  }

  lemma {:induction false} GoesDarkExactly(host: Host, p: Path, first: RefreshAnswers, second: RefreshAnswers)
    requires host != "" && Updates(first) && first.ending.Settled? && (Updates(second) ==> second.ending.Settled?)
    ensures GoesDark(host, p, Refreshes(first, second)) <==>
            !EndsOnDest(Migrating(host, p), Gateway, Refreshes(first, second), host)
  {
    var v, conf, w := Migrating(host, p), OneHost(host, p), Refreshes(first, second);
    assert p in conf.rules[host];
    MigratedHostReachesExactly(v, conf, Gateway, w, host);
  }

  /** A cluster whose Envoy Gateway has provisioned no data plane Service yet. */
  lemma {:induction false} UnprovisionedGatewayUnroutesHost(host: Host, p: Path)
    requires host != ""
    ensures var a := RefreshAnswers(true, Reads(true, true, false, true, true), true, Settled);
      GoesDark(host, p, Refreshes(a, a))
  {
    var a := RefreshAnswers(true, Reads(true, true, false, true, true), true, Settled);
    GoesDarkExactly(host, p, a, a);
  }

  /** Everything is read and every wait passes, but the readiness read of the edge came back empty both
      times, so it was never reloaded. */
  lemma {:induction false} UnloadedRefreshUnroutesHost(host: Host, p: Path)
    requires host != ""
    ensures var a := RefreshAnswers(true, Reads(true, true, true, true, true), false, Settled);
      GoesDark(host, p, Refreshes(a, a))
  {
    var a := RefreshAnswers(true, Reads(true, true, true, true, true), false, Settled);
    GoesDarkExactly(host, p, a, a);
  }

  /** The list of HTTPRoutes failed at the first rebuild and the second did not reach the edge. */
  lemma {:induction false} FailedListUnroutesHost(host: Host, p: Path)
    requires host != ""
    ensures var a := RefreshAnswers(true, Reads(true, true, true, true, false), true, Settled);
      GoesDark(host, p, Refreshes(a, a.(loaded := false)))
  {
    var a := RefreshAnswers(true, Reads(true, true, true, true, false), true, Settled);
    GoesDarkExactly(host, p, a, a.(loaded := false));
  }

  // ----- every state of a run

  /** Every host of the set is handed to a stack that has a route for it. */
  ghost function AllReach(hosts: set<Host>): View -> bool {
    (v: View) => forall h :: h in hosts ==> Reaches(v, h)
  }

  ghost predicate RebuildKeeps(v: View, a: RefreshAnswers, all: set<Host>) {
    (Updates(a) && a.loaded) ==> forall h :: h in all ==> RebuildReaches(v, a.answers, h)
  }

  ghost predicate RestoreKeeps(v: View, a: RefreshAnswers, all: set<Host>) {
    PutsBack(a) ==> forall h :: h in all ==> Holds(v, PickedBy(a.ending.edge, h), h)
  }

  ghost predicate RefreshKeeps(v: View, a: RefreshAnswers, all: set<Host>) {
    RebuildKeeps(v, a, all) && RestoreKeeps(v, a, all)
  }

  /** The hosts whose old route goes are handed to the new one already. */
  ghost predicate RemovalKeeps(v: View, dest: Stack, hosts: seq<Host>, all: set<Host>) {
    forall h :: h in hosts && h != "" && h in all ==> Pick(v, h) == dest
  }

  ghost predicate MigrationKeeps(v: View, conf: Conf, dest: Stack, w: PromoteWorld, all: set<Host>) {
    && RefreshKeeps(v, w.first, all)
    && (Updates(w.first) && w.first.ending.Settled? ==>
          var u := Refreshed(v, dest, w.first);
          && RemovalKeeps(u, dest, Removed(conf, w), all)
          && (w.removed >= |conf.hosts| ==> RefreshKeeps(Exec(u, RemoveSteps(Other(dest), conf.hosts)), w.second, all)))
  }

  lemma {:induction false} PublishReaches(v: View, conf: Conf, dest: Stack, hosts: seq<Host>, accepted: set<Host>, all: set<Host>)
    requires forall h :: h in hosts ==> h in conf.rules
    requires AllReach(all)(v)
    ensures Along(v, PublishSteps(dest, hosts, conf, accepted), AllReach(all))
    decreases |hosts|
  {
    if hosts == [] {
      AlongEmpty(v, AllReach(all));
    } else {
      var rest := PublishSteps(dest, hosts[1..], conf, accepted);
      if Published(conf, hosts[0]) && hosts[0] in accepted {
        var s := Publish(dest, hosts[0], conf.rules[hosts[0]]);
        var u := Apply(v, s);
        forall h | h in all ensures Reaches(u, h) {
          assert Reaches(v, h) && Pick(u, h) == Pick(v, h);
        }
        AlongOne(v, s, AllReach(all));
        PublishReaches(u, conf, dest, hosts[1..], accepted, all);
        AlongConcat(v, [s], rest, AllReach(all));
      } else {
        PublishReaches(v, conf, dest, hosts[1..], accepted, all);
        assert [] + rest == rest;
      }
    }
  }

  lemma {:induction false} RefreshReaches(v: View, dest: Stack, a: RefreshAnswers, all: set<Host>)
    requires AllReach(all)(v)
    ensures Along(v, RefreshRun(dest, a).log, AllReach(all)) <==> RefreshKeeps(v, a, all)
    ensures !PutsBack(a) ==> Exec(v, RefreshRun(dest, a).log) == Refreshed(v, dest, a)
    ensures RebuildKeeps(v, a, all) ==> AllReach(all)(Refreshed(v, dest, a))
  {
    RefreshedIs(v, dest, a, AllReach(all));
    if PutsBack(a) {
      var u := Apply(v, Restore(a.ending.edge));
      assert forall h :: Reaches(u, h) == Holds(v, PickedBy(a.ending.edge, h), h);
    }
    if Updates(a) && a.loaded {
      forall h | h in all ensures Reaches(Apply(v, Refresh(dest, a.answers)), h) <==> RebuildReaches(v, a.answers, h) {
        assert Reaches(v, h);
        RebuildReachesExactly(v, a.answers, dest, h);
      }
    }
  }

  /** Taking one old route away. */
  lemma {:induction false} RemoveOneReaches(v: View, dest: Stack, host: Host, all: set<Host>)
    requires AllReach(all)(v)
    ensures var u := Apply(v, Remove(Other(dest), host));
      && (forall h :: Pick(u, h) == Pick(v, h))
      && (AllReach(all)(u) <==> (host in all ==> Pick(v, host) == dest))
  {
    var u := Apply(v, Remove(Other(dest), host));
    forall h | h in all ensures Reaches(u, h) <==> (h == host ==> Pick(v, h) == dest) {
      assert Reaches(v, h) && Pick(u, h) == Pick(v, h);
    }
  }

  lemma {:induction false} RemoveReaches(v: View, dest: Stack, hosts: seq<Host>, all: set<Host>)
    requires AllReach(all)(v)
    ensures Along(v, RemoveSteps(Other(dest), hosts), AllReach(all)) <==> RemovalKeeps(v, dest, hosts, all)
    decreases |hosts|
  {
    hide Reaches;
    var P := AllReach(all);
    AlongEmptyExactly(v, P);
    if hosts != [] {
      var rest := RemoveSteps(Other(dest), hosts[1..]);
      if hosts[0] == "" {
        RemoveReaches(v, dest, hosts[1..], all);
        assert RemoveSteps(Other(dest), hosts) == rest;
      } else {
        var s := Remove(Other(dest), hosts[0]);
        RemoveOneReaches(v, dest, hosts[0], all);
        AlongOneExactly(v, s, P);
        AlongConcatExactly(v, [s], rest, P);
        assert RemovalKeeps(v, dest, hosts, all) <==>
          (hosts[0] in all ==> Pick(v, hosts[0]) == dest) && RemovalKeeps(v, dest, hosts[1..], all);
        if P(Apply(v, s)) {
          RemoveReaches(Apply(v, s), dest, hosts[1..], all);
          assert RemovalKeeps(Apply(v, s), dest, hosts[1..], all) <==> RemovalKeeps(v, dest, hosts[1..], all);
        }
      }
    }
  }

  lemma {:induction false} MigrateReaches(v: View, conf: Conf, dest: Stack, w: PromoteWorld, all: set<Host>)
    requires AllReach(all)(v)
    ensures Along(v, MigrateRun(conf, dest, w).log, AllReach(all)) <==> MigrationKeeps(v, conf, dest, w, all)
  {
    hide Reaches, RebuildReaches;
    var P := AllReach(all);
    var first, removal, second := RefreshRun(dest, w.first), RemoveRun(Other(dest), conf.hosts, w.removed), RefreshRun(dest, w.second);
    RefreshReaches(v, dest, w.first, all);
    var u := Refreshed(v, dest, w.first);
    AlongThenExactly(v, first, if !Updates(w.first) then Skip() else Then(removal, second), P);
    AlongEmptyExactly(u, P);
    if Updates(w.first) && w.first.ending.Settled? && RefreshKeeps(v, w.first, all) {
      RemoveReaches(u, dest, Removed(conf, w), all);
      AlongThenExactly(u, removal, second, P);
      if RemovalKeeps(u, dest, Removed(conf, w), all) {
        AlongEnds(u, removal.log, P);
        RefreshReaches(Exec(u, removal.log), dest, w.second, all);
      }
    }
  }

  lemma {:induction false} SelectReaches(v: View, c: Colour, all: set<Host>)
    ensures AllReach(all)(Apply(v, Select(c))) <==> AllReach(all)(v)
  {
    var u := Apply(v, Select(c));
    assert forall h :: Reaches(u, h) == Reaches(v, h);
  }

  lemma {:induction false} FlipReaches(v: View, bootstrap: Colour, desired: Colour, awaits: bool, w: PromoteWorld, all: set<Host>)
    requires AllReach(all)(v)
    ensures Along(v, FlipRun(bootstrap, desired, awaits, w).log, AllReach(all))
  {
    hide Reaches;
    var P := AllReach(all);
    var flip := if desired != bootstrap then Call(Select(desired), w.flipped) else Skip();
    var tail := if !awaits || w.stableServing then Skip()
                else Run(if desired != bootstrap && w.rolledBack then [Select(bootstrap)] else [], Failed);
    AlongEmptyExactly(v, P);
    AlongCallExactly(v, Select(desired), w.flipped, P);
    SelectReaches(v, desired, all);
    var u := Exec(v, flip.log);
    AlongEmptyExactly(u, P);
    AlongOneExactly(u, Select(bootstrap), P);
    SelectReaches(u, bootstrap, all);
    AlongThenExactly(v, flip, tail, P);
  }

  lemma {:induction false} InstallReaches(v: View, conf: Conf, dest: Stack, w: PromoteWorld, all: set<Host>)
    requires AllReach(all)(v)
    ensures Along(v, InstallRun(conf, dest, w).log, AllReach(all))
  {
    AlongEmpty(v, AllReach(all));
    AlongCallExactly(v, Install(conf), w.installed, AllReach(all));
    assert forall h :: Reaches(Apply(v, Install(conf)), h) == Reaches(v, h);
  }

  lemma {:induction false} ApplyReaches(v: View, conf: Conf, dest: Stack, mustExist: bool, w: PromoteWorld, all: set<Host>)
    requires ValidConf(conf) && AllReach(all)(v)
    ensures Along(v, ApplyRun(conf, dest, mustExist, w).log, AllReach(all))
  {
    AlongEmpty(v, AllReach(all));
    if AnyPublished(conf) && (dest == Contour || w.gatewayApplied) {
      PublishReaches(v, conf, dest, conf.hosts, w.accepted, all);
      assert ApplyRun(conf, dest, mustExist, w).log == PublishSteps(dest, conf.hosts, conf, w.accepted);
    }
  }

  /** Across a whole promotion, phase by phase. */
  lemma {:induction false} PhasesKeepRouted(v: View, conf: Conf, dest: Stack, mustExist: bool, bootstrap: Colour,
                                            desired: Colour, awaits: bool, w: PromoteWorld, all: set<Host>)
    requires ValidConf(conf) && AllReach(all)(v)
    ensures Along(v, PromoteRun(conf, dest, mustExist, bootstrap, desired, awaits, w).log, AllReach(all)) <==>
      (w.bootstrapped && InstallRun(conf, dest, w).status.Ok? && ApplyRun(conf, dest, mustExist, w).status.Ok? ==>
         MigrationKeeps(Converging(v, conf, dest, mustExist, bootstrap, w), conf, dest, w, all))
  {
    hide Reaches, InstallRun, ApplyRun, MigrateRun, FlipRun, MigrationKeeps;
    var P := AllReach(all);
    var install, apply := InstallRun(conf, dest, w), ApplyRun(conf, dest, mustExist, w);
    var migrate, flip := MigrateRun(conf, dest, w), FlipRun(bootstrap, desired, awaits, w);
    var v1 := Apply(v, Select(bootstrap));
    AlongThenExactly(v, Call(Select(bootstrap), w.bootstrapped), Then(install, Then(apply, Then(migrate, flip))), P);
    AlongCallExactly(v, Select(bootstrap), w.bootstrapped, P);
    SelectReaches(v, bootstrap, all);
    InstallReaches(v1, conf, dest, w, all);
    AlongEnds(v1, install.log, P);
    AlongThenExactly(v1, install, Then(apply, Then(migrate, flip)), P);
    var v2 := Exec(v1, install.log);
    ApplyReaches(v2, conf, dest, mustExist, w, all);
    AlongEnds(v2, apply.log, P);
    AlongThenExactly(v2, apply, Then(migrate, flip), P);
    var v3 := Exec(v2, apply.log);
    MigrateReaches(v3, conf, dest, w, all);
    AlongThenExactly(v3, migrate, flip, P);
    if Along(v3, migrate.log, P) {
      AlongEnds(v3, migrate.log, P);
      FlipReaches(Exec(v3, migrate.log), bootstrap, desired, awaits, w, all);
    }
  }

  // ----- the ordinary case

  /** The rebuild saw every route object, and each stack that has one has a backend. */
  predicate SeesAll(v: View, r: Reads) {
    && SeenProxies(v, r) == v.proxies.Keys && SeenRoutes(v, r) == v.routes.Keys
    && (v.routes != map[] ==> Available(r, Gateway))
  }

  /** When the rebuilds see everything and the first one is loaded, a migration keeps every host, provided
      each one that loses its old route has a new one. */
  lemma {:induction false} SeeingRebuildsKeep(v: View, conf: Conf, dest: Stack, w: PromoteWorld, all: set<Host>)
    requires AllReach(all)(v) && (Updates(w.first) ==> w.first.loaded && SeesAll(v, w.first.answers))
    requires RestoreKeeps(v, w.first, all)
    requires Updates(w.second) && w.second.loaded ==>
      SeesAll(Exec(Refreshed(v, dest, w.first), RemoveSteps(Other(dest), conf.hosts)), w.second.answers)
    requires RestoreKeeps(Exec(Refreshed(v, dest, w.first), RemoveSteps(Other(dest), conf.hosts)), w.second, all)
    requires forall h :: h in conf.hosts && h in all && h != "" ==> Holds(v, dest, h)
    ensures MigrationKeeps(v, conf, dest, w, all)
  {
    RefreshReaches(v, dest, w.first, all);
    if Updates(w.first) {
      forall h | h in all ensures RebuildReaches(v, w.first.answers, h) {
        assert Reaches(v, h);
      }
      var u := Refreshed(v, dest, w.first);
      forall h | h in Removed(conf, w) && h != "" && h in all ensures Pick(u, h) == dest {
        assert h in conf.hosts;
        PicksDestExactly(v, w.first.answers, dest, h);
      }
      if w.removed >= |conf.hosts| {
        RemoveReaches(u, dest, conf.hosts, all);
        var x := Exec(u, RemoveSteps(Other(dest), conf.hosts));
        AlongEnds(u, RemoveSteps(Other(dest), conf.hosts), AllReach(all));
        forall h | h in all && Updates(w.second) && w.second.loaded ensures RebuildReaches(x, w.second.answers, h) {
          assert Reaches(x, h);
        }
      }
    }
  }

  // ----- what the deletes leave

  function Named(hosts: seq<Host>): set<Host> {
    set h | h in hosts && h != ""
  }

  lemma {:induction false} RemoveClears(v: View, dest: Stack, hosts: seq<Host>)
    ensures Exec(v, RemoveSteps(Other(dest), hosts)) ==
      if dest == Contour then v.(routes := v.routes - Named(hosts)) else v.(proxies := v.proxies - Named(hosts))
    decreases |hosts|
  {
    hide Named, ProxyOf, RouteOf, HostTable, InstalledBlocks;
    NamedOnce(hosts);
    WithoutMore(v.routes, hosts);
    WithoutMore(v.proxies, hosts);
    if hosts != [] {
      var rest := RemoveSteps(Other(dest), hosts[1..]);
      if hosts[0] == "" {
        RemoveClears(v, dest, hosts[1..]);
        assert [] + rest == rest;
      } else {
        var s := Remove(Other(dest), hosts[0]);
        assert ([s] + rest)[0] == s && ([s] + rest)[1..] == rest;
        RemoveClears(Apply(v, s), dest, hosts[1..]);
      }
    }
  }

  lemma {:induction false} NamedOnce(hosts: seq<Host>)
    ensures Named(hosts) == if hosts == [] then {} else Named(hosts[1..]) + if hosts[0] == "" then {} else {hosts[0]}
  {
  }

  lemma {:induction false} WithoutMore<V>(m: map<Host, V>, hosts: seq<Host>)
    ensures hosts == [] ==> m - Named(hosts) == m
    ensures hosts != [] && hosts[0] == "" ==> m - Named(hosts) == m - Named(hosts[1..])
    ensures hosts != [] && hosts[0] != "" ==> m - Named(hosts) == (m - {hosts[0]}) - Named(hosts[1..])
  {
    NamedOnce(hosts);
  }

  /** A completed migration leaves a host of the deploy routed if and only if the run published it
      or the destination stack already had it: the deletes cover every host of the file, also the
      ones no rule was rendered for. */
  lemma {:induction false} RoutedAfterMigrationExactly(v: View, conf: Conf, dest: Stack, mustExist: bool, w: PromoteWorld, h: Host)
    requires ValidConf(conf) && h in conf.hosts && h != ""
    requires ApplyRun(conf, dest, mustExist, w).status.Ok? && MigrateRun(conf, dest, w).status.Ok? && Updates(w.first)
    ensures Routed(Exec(Exec(v, ApplyRun(conf, dest, mustExist, w).log), MigrateRun(conf, dest, w).log), h) <==>
            (Published(conf, h) || Holds(v, dest, h))
  {
    hide ApplyRun, MigrateRun, RemoveSteps;
    var x := Exec(v, ApplyRun(conf, dest, mustExist, w).log);
    PublishHoldsExactly(v, conf, dest, mustExist, w, h);
    MigrateIs(x, conf, dest, w);
    RemoveClears(Refreshed(x, dest, w.first), dest, conf.hosts);
  }

  lemma {:induction false} PublishHoldsExactly(v: View, conf: Conf, dest: Stack, mustExist: bool, w: PromoteWorld, h: Host)
    requires ValidConf(conf) && ApplyRun(conf, dest, mustExist, w).status.Ok?
    ensures Holds(Exec(v, ApplyRun(conf, dest, mustExist, w).log), dest, h) <==> (Published(conf, h) || Holds(v, dest, h))
  {
    if AnyPublished(conf) {
      var steps := PublishSteps(dest, conf.hosts, conf, w.accepted);
      assert ApplyRun(conf, dest, mustExist, w).log == steps;
      PublishRenders(v, conf, dest, conf.hosts, w.accepted);
      if Published(conf, h) { assert Rendered(Exec(v, steps), conf, dest, h); }
      else { UnpublishedUntouched(v, conf, dest, conf.hosts, w.accepted, h); }
    }
  }

  lemma {:induction false} UnpublishedUntouched(v: View, conf: Conf, dest: Stack, hosts: seq<Host>, accepted: set<Host>, h: Host)
    requires (forall x :: x in hosts ==> x in conf.rules) && !Published(conf, h)
    ensures Holds(Exec(v, PublishSteps(dest, hosts, conf, accepted)), dest, h) <==> Holds(v, dest, h)
    decreases |hosts|
  {
    if hosts != [] {
      var rest := PublishSteps(dest, hosts[1..], conf, accepted);
      if Published(conf, hosts[0]) && hosts[0] in accepted {
        var s := Publish(dest, hosts[0], conf.rules[hosts[0]]);
        assert ([s] + rest)[0] == s && ([s] + rest)[1..] == rest;
        UnpublishedUntouched(Apply(v, s), conf, dest, hosts[1..], accepted, h);
      } else {
        UnpublishedUntouched(v, conf, dest, hosts[1..], accepted, h);
        assert [] + rest == rest;
      }
    }
  }

  // ----- a server block before every route to the shared gateway

  ghost function BackedBy(conf: Conf): View -> bool {
    (v: View) => Backed(v, conf)
  }

  /** What a promotion does once the server blocks are in place. */
  predicate Routine(s: Step, conf: Conf, dest: Stack) {
    s.Select? || s.Refresh? || s.Restore? || s.Remove? ||
    (s.Publish? && s.stack == dest && s.host in conf.rules && s.rules == conf.rules[s.host])
  }

  predicate AllRoutine(log: seq<Step>, conf: Conf, dest: Stack) {
    forall s :: s in log ==> Routine(s, conf, dest)
  }

  lemma {:induction false} RoutineBacked(v: View, log: seq<Step>, conf: Conf, dest: Stack)
    requires AllRoutine(log, conf, dest)
    requires Backed(v, conf) && BlocksReady(v, conf, dest)
    ensures Along(v, log, BackedBy(conf))
    decreases |log|
  {
    if log == [] {
      AlongEmpty(v, BackedBy(conf));
    } else {
      var s := log[0];
      var u := Apply(v, s);
      assert Routine(s, conf, dest);
      assert Backed(u, conf) by {
        forall h, p | h in conf.rules && h in u.routes && p in u.routes[h] && u.routes[h][p] == Shared
          ensures h in u.blocks && p in u.blocks[h]
        {
          if s.Publish? && s.host == h && dest == Gateway {
            assert conf.rules[h][p];
            assert Intercepted(conf.rules[h]);
          }
        }
      }
      AlongOne(v, s, BackedBy(conf));
      RoutineBacked(u, log[1..], conf, dest);
      assert log == [s] + log[1..];
      AlongConcat(v, [s], log[1..], BackedBy(conf));
    }
  }

  lemma {:induction false} PublishRoutine(conf: Conf, dest: Stack, hosts: seq<Host>, accepted: set<Host>)
    requires forall h :: h in hosts ==> h in conf.rules
    ensures AllRoutine(PublishSteps(dest, hosts, conf, accepted), conf, dest)
  {
    if hosts != [] { PublishRoutine(conf, dest, hosts[1..], accepted); }
  }

  lemma {:induction false} RemoveRoutine(stack: Stack, hosts: seq<Host>, conf: Conf, dest: Stack)
    ensures AllRoutine(RemoveSteps(stack, hosts), conf, dest)
  {
    if hosts != [] { RemoveRoutine(stack, hosts[1..], conf, dest); }
  }

  lemma {:induction false} ThenRoutine(a: Run, b: Run, conf: Conf, dest: Stack)
    requires AllRoutine(a.log, conf, dest) && AllRoutine(b.log, conf, dest)
    ensures AllRoutine(Then(a, b).log, conf, dest)
  {
  }

  lemma {:induction false} MigrateRoutine(conf: Conf, dest: Stack, w: PromoteWorld)
    ensures AllRoutine(MigrateRun(conf, dest, w).log, conf, dest)
  {
    var removal := RemoveRun(Other(dest), conf.hosts, w.removed);
    RemoveRoutine(Other(dest), if w.removed < |conf.hosts| then conf.hosts[..w.removed] else conf.hosts, conf, dest);
    ThenRoutine(removal, RefreshRun(dest, w.second), conf, dest);
    ThenRoutine(RefreshRun(dest, w.first),
                if !Updates(w.first) then Skip() else Then(removal, RefreshRun(dest, w.second)), conf, dest);
  }

  lemma {:induction false} ApplyRoutine(conf: Conf, dest: Stack, mustExist: bool, w: PromoteWorld)
    requires ValidConf(conf)
    ensures AllRoutine(ApplyRun(conf, dest, mustExist, w).log, conf, dest)
  {
    PublishRoutine(conf, dest, conf.hosts, w.accepted);
    ThenRoutine(Pass(dest == Contour || w.gatewayApplied), PublishRun(conf, dest, w.accepted), conf, dest);
  }

  lemma {:induction false} FlipRoutine(conf: Conf, dest: Stack, bootstrap: Colour, desired: Colour, awaits: bool, w: PromoteWorld)
    ensures AllRoutine(FlipRun(bootstrap, desired, awaits, w).log, conf, dest)
  {
  }

  lemma {:induction false} RestRoutine(conf: Conf, dest: Stack, mustExist: bool, bootstrap: Colour, desired: Colour, awaits: bool, w: PromoteWorld)
    requires ValidConf(conf)
    ensures AllRoutine(Then(ApplyRun(conf, dest, mustExist, w),
                       Then(MigrateRun(conf, dest, w), FlipRun(bootstrap, desired, awaits, w))).log, conf, dest)
  {
    ApplyRoutine(conf, dest, mustExist, w);
    MigrateRoutine(conf, dest, w);
    FlipRoutine(conf, dest, bootstrap, desired, awaits, w);
    ThenRoutine(MigrateRun(conf, dest, w), FlipRun(bootstrap, desired, awaits, w), conf, dest);
    ThenRoutine(ApplyRun(conf, dest, mustExist, w),
                Then(MigrateRun(conf, dest, w), FlipRun(bootstrap, desired, awaits, w)), conf, dest);
  }

  /** The shared gateway after the server blocks: every route of the deploy that pointed at it still finds
      a block for its path if and only if no such path stopped being intercepted. */
  lemma {:induction false} InstallBacked(v: View, conf: Conf, dest: Stack, w: PromoteWorld)
    requires ValidConf(conf) && Backed(v, conf)
    ensures var run := InstallRun(conf, dest, w); var u := Exec(v, run.log);
      && (Along(v, run.log, BackedBy(conf)) <==> (dest == Gateway && AnyBlock(conf) && w.installed ==> StillIntercepted(v, conf)))
      && (!run.status.Ok? ==> u == v)
      && (run.status.Ok? ==> BlocksReady(u, conf, dest))
      && u == v.(blocks := if run.log == [] then v.blocks else InstalledBlocks(v, conf))
  {
    hide Backed, BlocksReady, InstalledBlocks, StillIntercepted;
    AlongEmptyExactly(v, BackedBy(conf));
    NoBlocksReady(v, conf, dest);
    if dest == Gateway && AnyBlock(conf) {
      AlongCallExactly(v, Install(conf), w.installed, BackedBy(conf));
      InstalledBackedExactly(v, conf);
      InstalledReady(v, conf);
    }
  }

  lemma {:induction false} InstalledBackedExactly(v: View, conf: Conf)
    requires Backed(v, conf)
    ensures Backed(Apply(v, Install(conf)), conf) <==> StillIntercepted(v, conf)
  {
    var u := Apply(v, Install(conf));
    forall h, p | h in conf.rules && h in v.routes && p in v.routes[h] && v.routes[h][p] == Shared
      ensures (h in u.blocks && p in u.blocks[h]) <==>
              (Intercepted(conf.rules[h]) ==> p in conf.rules[h] && conf.rules[h][p])
    {
      assert h in v.blocks && p in v.blocks[h];
      if Intercepted(conf.rules[h]) { assert u.blocks[h] == BlockOf(conf.rules[h]); }
    }
  }

  /** In every state of a promotion, wherever it fails, each route of the deploy that points at the shared
      gateway finds a server block for its path there, if and only if no path that the old route sends to
      the gateway is missing from the block that replaces its host's, a path the deploy no longer has
      included. */
  lemma {:induction false} PromoteBacked(v: View, conf: Conf, dest: Stack, mustExist: bool, bootstrap: Colour, desired: Colour,
                      awaits: bool, w: PromoteWorld)
    requires ValidConf(conf) && Backed(v, conf)
    ensures Along(v, PromoteRun(conf, dest, mustExist, bootstrap, desired, awaits, w).log, BackedBy(conf)) <==>
      (w.bootstrapped && dest == Gateway && AnyBlock(conf) && w.installed ==> StillIntercepted(v, conf))
  {
    hide Backed, BlocksReady, InstallRun, ApplyRun, MigrateRun, FlipRun, AnyBlock, StillIntercepted;
    var P := BackedBy(conf);
    var first, install := Call(Select(bootstrap), w.bootstrapped), InstallRun(conf, dest, w);
    var rest := Then(ApplyRun(conf, dest, mustExist, w),
                Then(MigrateRun(conf, dest, w), FlipRun(bootstrap, desired, awaits, w)));
    var v1 := Apply(v, Select(bootstrap));
    SelectBacked(v, conf, bootstrap);
    AlongThenExactly(v, first, Then(install, rest), P);
    AlongCallExactly(v, Select(bootstrap), w.bootstrapped, P);
    InstallBacked(v1, conf, dest, w);
    AlongThenExactly(v1, install, rest, P);
    if install.status.Ok? && Along(v1, install.log, P) {
      AlongEnds(v1, install.log, P);
      RestRoutine(conf, dest, mustExist, bootstrap, desired, awaits, w);
      RoutineBacked(Exec(v1, install.log), rest.log, conf, dest);
    }
  }

  lemma {:induction false} SelectBacked(v: View, conf: Conf, c: Colour)
    ensures Backed(Apply(v, Select(c)), conf) <==> Backed(v, conf)
    ensures StillIntercepted(Apply(v, Select(c)), conf) <==> StillIntercepted(v, conf)
  {
  }
}
