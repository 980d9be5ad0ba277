/** A promotion moves every path of a deploy at once: in every state between two calls all paths
    answer from one colour, and only the selector write changes which. The theorems say for every
    answer of the cluster exactly when. */
module SingleFlip {
  import opened Base
  import opened Routing
  import opened Promotion

  /** Every rule of the deploy answers from colour `c`. */
  ghost predicate Uniform(v: View, conf: Conf, c: Colour) {
    forall h, p :: h in conf.rules && p in conf.rules[h] ==> Resolve(v, h, p) == Some(c)
  }

  /** All paths on one colour: the one the selector names, and `current` while it names none. */
  ghost function OneColour(conf: Conf, current: Colour): View -> bool {
    (v: View) => Uniform(v, conf, if v.selector.Some? then v.selector.value else current)
  }

  /** Each path an existing HTTPRoute sends to the shared gateway is still in the block about to
      replace that host's block. */
  ghost predicate StillIntercepted(v: View, conf: Conf) {
    forall h, p ::
      (h in conf.rules && Intercepted(conf.rules[h]) && h in v.routes && p in v.routes[h] && v.routes[h][p] == Shared)
      ==> (p in conf.rules[h] && conf.rules[h][p])
  }

  /** No HTTPRoute of the deploy reaches the shared gateway without a server block for its path. */
  ghost predicate Backed(v: View, conf: Conf) {
    forall h, p ::
      (h in conf.rules && h in v.routes && p in v.routes[h] && v.routes[h][p] == Shared)
      ==> (h in v.blocks && p in v.blocks[h])
  }

  ghost predicate BlocksReady(v: View, conf: Conf, dest: Stack) {
    dest == Gateway ==>
      forall h :: h in conf.rules && Intercepted(conf.rules[h]) ==>
        h in v.blocks && v.blocks[h] == BlockOf(conf.rules[h])
  }

  /** The destination stack holds the freshly rendered object of `h`. */
  predicate Rendered(v: View, conf: Conf, dest: Stack, h: Host)
    requires h in conf.rules
  {
    if dest == Contour then h in v.proxies && v.proxies[h] == ProxyOf(conf.rules[h])
    else h in v.routes && v.routes[h] == RouteOf(conf.rules[h])
  }

  ghost predicate AllRendered(v: View, conf: Conf, dest: Stack) {
    forall h :: h in conf.rules && Published(conf, h) ==> Rendered(v, conf, dest, h)
  }

  /** What holds from the server blocks on: `current` serves everything and the blocks wait for their
      routes. */
  ghost predicate Publishing(v: View, conf: Conf, dest: Stack, current: Colour) {
    v.selector == Some(current) && Uniform(v, conf, current) && BlocksReady(v, conf, dest)
  }

  /** And once the routes are published. */
  ghost predicate Converged(v: View, conf: Conf, dest: Stack, current: Colour) {
    Publishing(v, conf, dest, current) && AllRendered(v, conf, dest)
  }

  // ----- what each phase needs of the answers

  /** Each path served through the shared gateway stays intercepted. */
  ghost predicate InstallCarries(v: View, conf: Conf, dest: Stack, w: PromoteWorld) {
    (dest == Gateway && AnyBlock(conf) && w.installed) ==>
      forall h, p :: (h in conf.rules && p in conf.rules[h] && Intercepted(conf.rules[h])
                      && Pick(v, h) == Gateway && h in v.routes && p in v.routes[h] && v.routes[h][p] == Shared)
                     ==> conf.rules[h][p]
  }

  /** A rebuild that reaches the edge sends each host to the new stack, or to an old route that still
      leads to the same colour. */
  ghost predicate RebuildCarries(v: View, conf: Conf, dest: Stack, current: Colour, a: RefreshAnswers) {
    (Updates(a) && a.loaded) ==>
      forall h, p :: h in conf.rules && p in conf.rules[h] ==>
        PicksDest(v, a.answers, dest, h) || ColourThrough(v, Other(dest), h, p) == Some(current)
  }

  /** A table that is put back does the same. */
  ghost predicate RestoreCarries(v: View, conf: Conf, dest: Stack, current: Colour, a: RefreshAnswers) {
    PutsBack(a) ==>
      forall h, p :: h in conf.rules && p in conf.rules[h] ==>
        PickedBy(a.ending.edge, h) == dest || ColourThrough(v, Other(dest), h, p) == Some(current)
  }

  ghost predicate RefreshCarries(v: View, conf: Conf, dest: Stack, current: Colour, a: RefreshAnswers) {
    RebuildCarries(v, conf, dest, current, a) && RestoreCarries(v, conf, dest, current, a)
  }

  /** Only hosts that are handed to the new stack lose their old route. */
  ghost predicate RemovalCarries(v: View, conf: Conf, dest: Stack, hosts: seq<Host>) {
    forall h :: h in hosts && h != "" && Published(conf, h) ==> Pick(v, h) == dest
  }

  ghost predicate MigrationCarries(v: View, conf: Conf, dest: Stack, current: Colour, w: PromoteWorld) {
    && RefreshCarries(v, conf, dest, current, w.first)
    && (Updates(w.first) && w.first.ending.Settled? ==>
          var u := Refreshed(v, dest, w.first);
          && RemovalCarries(u, conf, dest, Removed(conf, w))
          && (w.removed >= |conf.hosts| ==>
                RefreshCarries(Exec(u, RemoveSteps(Other(dest), conf.hosts)), conf, dest, current, w.second)))
  }

  /** Stack `s` sends the path through the stable Service. */
  predicate ThroughStable(v: View, s: Stack, h: Host, p: Path) {
    if s == Contour then h in v.proxies && p in v.proxies[h] && v.proxies[h][p] == Stable
    else
      h in v.routes && p in v.routes[h] &&
      (v.routes[h][p] == Direct(Stable)
       || (v.routes[h][p] == Shared && h in v.blocks && p in v.blocks[h] && v.blocks[h][p] == Stable))
  }

  predicate ViaStable(v: View, h: Host, p: Path) {
    ThroughStable(v, Pick(v, h), h, p)
  }

  ghost predicate AllViaStable(v: View, conf: Conf) {
    forall h, p :: h in conf.rules && p in conf.rules[h] ==> ViaStable(v, h, p)
  }

  /** What the run leaves once its routes are published. */
  function Converging(v: View, conf: Conf, dest: Stack, mustExist: bool, bootstrap: Colour, w: PromoteWorld): View
    requires ValidConf(conf)
  {
    Exec(Exec(Apply(v, Select(bootstrap)), InstallRun(conf, dest, w).log), ApplyRun(conf, dest, mustExist, w).log)
  }

  /** Phase by phase, each clause on the state the phase before it left. */
  ghost predicate PhasesCarry(v: View, conf: Conf, dest: Stack, mustExist: bool, current: Colour, target: Colour,
                                   w: PromoteWorld)
    requires ValidConf(conf)
  {
    w.bootstrapped ==>
      && InstallCarries(v, conf, dest, w)
      && (InstallRun(conf, dest, w).status.Ok? && ApplyRun(conf, dest, mustExist, w).status.Ok? ==>
            var x := Converging(v, conf, dest, mustExist, current, w);
            && MigrationCarries(x, conf, dest, current, w)
            && (MigrateRun(conf, dest, w).status.Ok? && target != current && w.flipped ==>
                  AllViaStable(Exec(x, MigrateRun(conf, dest, w).log), conf)))
  }

  // ----- one step at a time

  lemma {:induction false} RenderedColour(v: View, conf: Conf, dest: Stack, h: Host, p: Path)
    requires BlocksReady(v, conf, dest)
    requires h in conf.rules && p in conf.rules[h] && Rendered(v, conf, dest, h)
    ensures ColourThrough(v, dest, h, p) == v.selector
  {
    if dest == Gateway && conf.rules[h][p] {
      assert Intercepted(conf.rules[h]);
    }
  }

  /** Replacing the server blocks keeps every path answering if and only if each served path that
      goes through the shared gateway is still intercepted. */
  lemma {:induction false} InstallKeepsPathsExactly(v: View, conf: Conf, c: Colour)
    requires ValidConf(conf) && v.selector == Some(c) && Uniform(v, conf, c)
    ensures Uniform(Apply(v, Install(conf)), conf, c) <==>
            forall h, p :: (h in conf.rules && p in conf.rules[h] && Intercepted(conf.rules[h])
                            && Pick(v, h) == Gateway && v.routes[h][p] == Shared) ==> conf.rules[h][p]
  {
    var u := Apply(v, Install(conf));
    forall h, p | h in conf.rules && p in conf.rules[h]
      ensures Resolve(u, h, p) == Some(c) <==>
              ((Intercepted(conf.rules[h]) && Pick(v, h) == Gateway && v.routes[h][p] == Shared) ==> conf.rules[h][p])
    {
      assert Resolve(v, h, p) == Some(c);
      InstallPathExactly(v, conf, c, h, p);
    }
  }

  lemma {:induction false} InstallPathExactly(v: View, conf: Conf, c: Colour, h: Host, p: Path)
    requires v.selector == Some(c) && h in conf.rules && p in conf.rules[h] && Resolve(v, h, p) == Some(c)
    ensures Resolve(Apply(v, Install(conf)), h, p) == Some(c) <==>
            ((Intercepted(conf.rules[h]) && Pick(v, h) == Gateway && v.routes[h][p] == Shared) ==> conf.rules[h][p])
  {
    var u := Apply(v, Install(conf));
    assert Pick(u, h) == Pick(v, h);
    if Intercepted(conf.rules[h]) {
      assert u.blocks[h] == BlockOf(conf.rules[h]);
    } else {
      assert h in u.blocks <==> h in v.blocks;
    }
  }

  lemma {:induction false} PublishSteady(v: View, conf: Conf, dest: Stack, current: Colour, host: Host)
    requires ValidConf(conf) && host in conf.rules
    requires v.selector == Some(current) && Uniform(v, conf, current) && BlocksReady(v, conf, dest)
    ensures var u := Apply(v, Publish(dest, host, conf.rules[host]));
      u.selector == Some(current) && Uniform(u, conf, current) && BlocksReady(u, conf, dest)
  {
    var u := Apply(v, Publish(dest, host, conf.rules[host]));
    forall h, p | h in conf.rules && p in conf.rules[h] ensures Resolve(u, h, p) == Some(current) {
      assert Resolve(v, h, p) == Some(current);
      assert Pick(u, h) == Pick(v, h);
      if h == host && Pick(v, h) == dest {
        RenderedColour(u, conf, dest, h, p);
      }
    }
  }

  lemma {:induction false} PicksDestExactly(v: View, r: Reads, dest: Stack, h: Host)
    requires Holds(v, dest, h) && AnyBackend(r)
    ensures Pick(Apply(v, Refresh(dest, r)), h) == dest <==> PicksDest(v, r, dest, h)
  {
  }

  /** A rendered path keeps answering over a rebuild exactly under its clause. */
  lemma {:induction false} RebuildPathExactly(v: View, conf: Conf, dest: Stack, current: Colour, r: Reads, h: Host, p: Path)
    requires Converged(v, conf, dest, current) && AnyBackend(r) && h in conf.rules && p in conf.rules[h]
    ensures Resolve(Apply(v, Refresh(dest, r)), h, p) == Some(current) <==>
            (PicksDest(v, r, dest, h) || ColourThrough(v, Other(dest), h, p) == Some(current))
  {
    assert Published(conf, h);
    PicksDestExactly(v, r, dest, h);
    RenderedColour(v, conf, dest, h, p);
    var u := Apply(v, Refresh(dest, r));
    assert forall s :: ColourThrough(u, s, h, p) == ColourThrough(v, s, h, p);
  }

  /** A removed route leaves its host's paths answering exactly when the host is picked elsewhere. */
  lemma {:induction false} RemovePathExactly(v: View, conf: Conf, dest: Stack, current: Colour, host: Host, h: Host, p: Path)
    requires Converged(v, conf, dest, current) && h in conf.rules && p in conf.rules[h]
    ensures Resolve(Apply(v, Remove(Other(dest), host)), h, p) == Some(current) <==> (h != host || Pick(v, h) == dest)
  {
    var u := Apply(v, Remove(Other(dest), host));
    assert Resolve(v, h, p) == Some(current);
    assert Pick(u, h) == Pick(v, h);
    if h != host {
      assert forall s :: ColourThrough(u, s, h, p) == ColourThrough(v, s, h, p);
    }
  }

  /** One selector write moves every path if and only if every path is carried by the stable
      Service; a path that is not stays where it was. */
  lemma {:induction false} SelectMovesExactly(v: View, conf: Conf, c: Colour, d: Colour)
    requires (v.selector == None || v.selector == Some(c)) && Uniform(v, conf, c) && c != d
    ensures Uniform(Apply(v, Select(d)), conf, d) <==> AllViaStable(v, conf)
    ensures forall h, p :: h in conf.rules && p in conf.rules[h] ==>
              Resolve(Apply(v, Select(d)), h, p) == Some(if ViaStable(v, h, p) then d else c)
  {
    var u := Apply(v, Select(d));
    forall h, p | h in conf.rules && p in conf.rules[h]
      ensures Resolve(u, h, p) == Some(if ViaStable(v, h, p) then d else c)
    {
      assert Resolve(v, h, p) == Some(c);
      assert Pick(u, h) == Pick(v, h);
    }
  }

  // ----- phase by phase

  lemma {:induction false} PublishAlong(v: View, conf: Conf, dest: Stack, current: Colour, hosts: seq<Host>, accepted: set<Host>)
    requires ValidConf(conf) && forall h :: h in hosts ==> h in conf.rules
    requires Publishing(v, conf, dest, current)
    ensures Along(v, PublishSteps(dest, hosts, conf, accepted), OneColour(conf, current))
    ensures Publishing(Exec(v, PublishSteps(dest, hosts, conf, accepted)), conf, dest, current)
    decreases |hosts|
  {
    if hosts == [] {
      AlongEmpty(v, OneColour(conf, current));
    } else {
      var rest := PublishSteps(dest, hosts[1..], conf, accepted);
      if Published(conf, hosts[0]) && hosts[0] in accepted {
        var s := Publish(dest, hosts[0], conf.rules[hosts[0]]);
        PublishSteady(v, conf, dest, current, hosts[0]);
        AlongOne(v, s, OneColour(conf, current));
        PublishAlong(Apply(v, s), conf, dest, current, hosts[1..], accepted);
        AlongConcat(v, [s], rest, OneColour(conf, current));
      } else {
        PublishAlong(v, conf, dest, current, hosts[1..], accepted);
        assert [] + rest == rest;
      }
    }
  }

  /** Afterwards every accepted document is the live object, and nothing else moved. */
  lemma {:induction false} PublishRenders(v: View, conf: Conf, dest: Stack, hosts: seq<Host>, accepted: set<Host>)
    requires forall h :: h in hosts ==> h in conf.rules
    ensures var u := Exec(v, PublishSteps(dest, hosts, conf, accepted));
      && u == v.(proxies := u.proxies, routes := u.routes)
      && (if dest == Contour then u.routes == v.routes else u.proxies == v.proxies)
      && (forall h :: h in conf.rules && Rendered(v, conf, dest, h) ==> Rendered(u, conf, dest, h))
      && (forall h :: h in hosts && Published(conf, h) && h in accepted ==> Rendered(u, conf, dest, h))
      && (forall s, h :: Holds(v, s, h) ==> Holds(u, s, h))
    decreases |hosts|
  {
    if hosts != [] {
      var rest := PublishSteps(dest, hosts[1..], conf, accepted);
      if Published(conf, hosts[0]) && hosts[0] in accepted {
        var s := Publish(dest, hosts[0], conf.rules[hosts[0]]);
        assert ([s] + rest)[0] == s && ([s] + rest)[1..] == rest;
        assert Rendered(Apply(v, s), conf, dest, hosts[0]);
        PublishRenders(Apply(v, s), conf, dest, hosts[1..], accepted);
      } else {
        PublishRenders(v, conf, dest, hosts[1..], accepted);
        assert [] + rest == rest;
      }
    }
  }

  lemma {:induction false} InstallPhase(v: View, conf: Conf, dest: Stack, current: Colour, w: PromoteWorld)
    requires ValidConf(conf) && v.selector == Some(current) && Uniform(v, conf, current)
    ensures var run := InstallRun(conf, dest, w);
      && (Along(v, run.log, OneColour(conf, current)) <==> InstallCarries(v, conf, dest, w))
      && (run.status.Ok? && InstallCarries(v, conf, dest, w) ==> Publishing(Exec(v, run.log), conf, dest, current))
  {
    var P := OneColour(conf, current);
    hide BlockOf, InstalledBlocks, BlocksReady, Intercepted;
    AlongEmptyExactly(v, P);
    NoBlocksReady(v, conf, dest);
    if dest == Gateway && AnyBlock(conf) {
      AlongCallExactly(v, Install(conf), w.installed, P);
      InstallKeepsPathsExactly(v, conf, current);
      InstalledReady(v, conf);
    }
  }

  lemma {:induction false} NoBlocksReady(v: View, conf: Conf, dest: Stack)
    requires ValidConf(conf)
    ensures dest == Contour || !AnyBlock(conf) ==> BlocksReady(v, conf, dest)
  {
  }

  lemma {:induction false} InstalledReady(v: View, conf: Conf)
    ensures BlocksReady(Apply(v, Install(conf)), conf, Gateway)
  {
  }

  lemma {:induction false} ApplyPhase(v: View, conf: Conf, dest: Stack, mustExist: bool, current: Colour, w: PromoteWorld)
    requires ValidConf(conf) && Publishing(v, conf, dest, current)
    ensures var run := ApplyRun(conf, dest, mustExist, w);
      && Along(v, run.log, OneColour(conf, current))
      && (run.status.Ok? ==> Converged(Exec(v, run.log), conf, dest, current))
  {
    AlongEmpty(v, OneColour(conf, current));
    if AnyPublished(conf) && (dest == Contour || w.gatewayApplied) {
      PublishAlong(v, conf, dest, current, conf.hosts, w.accepted);
      PublishRenders(v, conf, dest, conf.hosts, w.accepted);
      assert ApplyRun(conf, dest, mustExist, w).log == PublishSteps(dest, conf.hosts, conf, w.accepted);
    }
  }

  lemma {:induction false} RefreshPhase(v: View, conf: Conf, dest: Stack, current: Colour, a: RefreshAnswers)
    requires Converged(v, conf, dest, current)
    ensures Along(v, RefreshRun(dest, a).log, OneColour(conf, current)) <==> RefreshCarries(v, conf, dest, current, a)
    ensures RebuildCarries(v, conf, dest, current, a) ==> Converged(Refreshed(v, dest, a), conf, dest, current)
    ensures !PutsBack(a) ==> Exec(v, RefreshRun(dest, a).log) == Refreshed(v, dest, a)
  {
    hide RestoreCarries, Resolve, PickedBy;
    RefreshedIs(v, dest, a, OneColour(conf, current));
    if Updates(a) && a.loaded { RebuildUniformExactly(v, conf, dest, current, a); }
    if PutsBack(a) { RestoreUniformExactly(v, conf, dest, current, a); }
    RestoreTrivially(v, conf, dest, current, a);
  }

  lemma {:induction false} RestoreTrivially(v: View, conf: Conf, dest: Stack, current: Colour, a: RefreshAnswers)
    ensures !PutsBack(a) ==> RestoreCarries(v, conf, dest, current, a)
  {
  }

  lemma {:induction false} RestoreUniformExactly(v: View, conf: Conf, dest: Stack, current: Colour, a: RefreshAnswers)
    requires Converged(v, conf, dest, current) && PutsBack(a)
    ensures var u := Apply(v, Restore(a.ending.edge));
      u.selector == Some(current) && (Uniform(u, conf, current) <==> RestoreCarries(v, conf, dest, current, a))
  {
    var u := Apply(v, Restore(a.ending.edge));
    forall h, p | h in conf.rules && p in conf.rules[h]
      ensures Resolve(u, h, p) == Some(current) <==>
              (PickedBy(a.ending.edge, h) == dest || ColourThrough(v, Other(dest), h, p) == Some(current))
    {
      assert Published(conf, h);
      RenderedColour(v, conf, dest, h, p);
      assert forall s :: ColourThrough(u, s, h, p) == ColourThrough(v, s, h, p);
    }
  }

  lemma {:induction false} RebuildUniformExactly(v: View, conf: Conf, dest: Stack, current: Colour, a: RefreshAnswers)
    requires Converged(v, conf, dest, current) && Updates(a) && a.loaded
    ensures var u := Apply(v, Refresh(dest, a.answers));
      && u.selector == Some(current) && BlocksReady(u, conf, dest) && AllRendered(u, conf, dest)
      && (Uniform(u, conf, current) <==> RebuildCarries(v, conf, dest, current, a))
  {
    var u := Apply(v, Refresh(dest, a.answers));
    forall h, p | h in conf.rules && p in conf.rules[h]
      ensures Resolve(u, h, p) == Some(current) <==>
              (PicksDest(v, a.answers, dest, h) || ColourThrough(v, Other(dest), h, p) == Some(current))
    {
      RebuildPathExactly(v, conf, dest, current, a.answers, h, p);
    }
    forall h | h in conf.rules && Published(conf, h) ensures Rendered(u, conf, dest, h) {
      assert Rendered(v, conf, dest, h);
    }
  }

  lemma {:induction false} RemoveOneExactly(v: View, conf: Conf, dest: Stack, current: Colour, host: Host)
    requires Converged(v, conf, dest, current)
    ensures var u := Apply(v, Remove(Other(dest), host));
      && u.selector == Some(current) && BlocksReady(u, conf, dest) && AllRendered(u, conf, dest)
      && (forall h :: Pick(u, h) == Pick(v, h))
      && (Uniform(u, conf, current) <==> (Published(conf, host) ==> Pick(v, host) == dest))
  {
    var u := Apply(v, Remove(Other(dest), host));
    forall h, p | h in conf.rules && p in conf.rules[h]
      ensures Resolve(u, h, p) == Some(current) <==> (h != host || Pick(v, h) == dest)
    {
      RemovePathExactly(v, conf, dest, current, host, h, p);
    }
    forall h | h in conf.rules && Published(conf, h) ensures Rendered(u, conf, dest, h) {
      assert Rendered(v, conf, dest, h);
    }
    if Published(conf, host) {
      var p :| p in conf.rules[host];
    }
  }

  /** While the old stack's objects go away. */
  lemma {:induction false} RemovalPhase(v: View, conf: Conf, dest: Stack, current: Colour, hosts: seq<Host>)
    requires Converged(v, conf, dest, current)
    ensures var log := RemoveSteps(Other(dest), hosts);
      && (Along(v, log, OneColour(conf, current)) <==> RemovalCarries(v, conf, dest, hosts))
      && (RemovalCarries(v, conf, dest, hosts) ==> Converged(Exec(v, log), conf, dest, current))
    decreases |hosts|
  {
    var P := OneColour(conf, current);
    AlongEmptyExactly(v, P);
    if hosts != [] {
      var rest := RemoveSteps(Other(dest), hosts[1..]);
      if hosts[0] == "" {
        RemovalPhase(v, conf, dest, current, hosts[1..]);
        assert RemoveSteps(Other(dest), hosts) == rest;
      } else {
        var s := Remove(Other(dest), hosts[0]);
        var u := Apply(v, s);
        RemoveOneExactly(v, conf, dest, current, hosts[0]);
        AlongOneExactly(v, s, P);
        AlongConcatExactly(v, [s], rest, P);
        assert RemovalCarries(v, conf, dest, hosts) <==>
          (Published(conf, hosts[0]) ==> Pick(v, hosts[0]) == dest) && RemovalCarries(v, conf, dest, hosts[1..]);
        if Uniform(u, conf, current) {
          RemovalPhase(u, conf, dest, current, hosts[1..]);
          assert RemovalCarries(u, conf, dest, hosts[1..]) <==> RemovalCarries(v, conf, dest, hosts[1..]);
        }
      }
    }
  }

  /** The first refresh, the removal and the second refresh. */
  lemma {:induction false} MigratePhase(v: View, conf: Conf, dest: Stack, current: Colour, w: PromoteWorld)
    requires Converged(v, conf, dest, current)
    ensures var run := MigrateRun(conf, dest, w);
      && (Along(v, run.log, OneColour(conf, current)) <==> MigrationCarries(v, conf, dest, current, w))
      && (run.status.Ok? && MigrationCarries(v, conf, dest, current, w) ==> Converged(Exec(v, run.log), conf, dest, current))
  {
    var P := OneColour(conf, current);
    var first, removal, second := RefreshRun(dest, w.first), RemoveRun(Other(dest), conf.hosts, w.removed), RefreshRun(dest, w.second);
    RefreshPhase(v, conf, dest, current, w.first);
    var u := Refreshed(v, dest, w.first);
    AlongThenExactly(v, first, if !Updates(w.first) then Skip() else Then(removal, second), P);
    AlongEmptyExactly(u, P);
    if Updates(w.first) && w.first.ending.Settled? && RefreshCarries(v, conf, dest, current, w.first) {
      RemovalPhase(u, conf, dest, current, Removed(conf, w));
      AlongThenExactly(u, removal, second, P);
      if RemovalCarries(u, conf, dest, Removed(conf, w)) {
        RefreshPhase(Exec(u, removal.log), conf, dest, current, w.second);
      }
    }
  }

  lemma {:induction false} FlipPhase(v: View, conf: Conf, dest: Stack, current: Colour, target: Colour, awaits: bool, w: PromoteWorld)
    requires Converged(v, conf, dest, current)
    ensures Along(v, FlipRun(current, target, awaits, w).log, OneColour(conf, current))
      <==> (target != current && w.flipped ==> AllViaStable(v, conf))
  {
    var P := OneColour(conf, current);
    var flip := if target != current then Call(Select(target), w.flipped) else Skip();
    var tail := if !awaits || w.stableServing then Skip()
                else Run(if target != current && w.rolledBack then [Select(current)] else [], Failed);
    AlongEmptyExactly(v, P);
    AlongThenExactly(v, flip, tail, P);
    if target != current {
      AlongCallExactly(v, Select(target), w.flipped, P);
      SelectMovesExactly(v, conf, current, target);
      var u := Apply(v, Select(target));
      AlongEmptyExactly(u, P);
      AlongOneExactly(u, Select(current), P);
      assert Apply(u, Select(current)) == v;
    }
  }

  /** Naming the serving colour, or the first one, changes no answer. */
  lemma {:induction false} BootstrapUniform(v: View, conf: Conf, current: Colour)
    requires Uniform(v, conf, current) && (v.selector == None || v.selector == Some(current))
    ensures Uniform(Apply(v, Select(current)), conf, current)
  {
    var u := Apply(v, Select(current));
    forall h, p | h in conf.rules && p in conf.rules[h] ensures Resolve(u, h, p) == Some(current) {
      assert Resolve(v, h, p) == Some(current);
    }
  }

  /** The shared middle of both commands, phase by phase. */
  lemma {:induction false} PhasesAlong(v: View, conf: Conf, dest: Stack, mustExist: bool, current: Colour, target: Colour,
                                        awaits: bool, w: PromoteWorld)
    requires ValidConf(conf) && Uniform(v, conf, current) && (v.selector == None || v.selector == Some(current))
    ensures Along(v, PromoteRun(conf, dest, mustExist, current, target, awaits, w).log, OneColour(conf, current))
      <==> PhasesCarry(v, conf, dest, mustExist, current, target, w)
  {
    hide Resolve, InstallRun, ApplyRun, MigrateRun, FlipRun, MigrationCarries, AllViaStable, InstallCarries, BlocksReady;
    var P := OneColour(conf, current);
    var v1 := Apply(v, Select(current));
    BootstrapUniform(v, conf, current);
    SameInstall(v, v1, conf, dest, w);
    AlongThenExactly(v, Call(Select(current), w.bootstrapped), AfterBootstrap(conf, dest, mustExist, current, target, awaits, w), P);
    AlongCallExactly(v, Select(current), w.bootstrapped, P);
    BootstrappedPhase(v1, conf, dest, mustExist, current, target, awaits, w);
  }

  /** Everything after the bootstrap write. */
  function AfterBootstrap(conf: Conf, dest: Stack, mustExist: bool, bootstrap: Colour, desired: Colour, awaits: bool,
                          w: PromoteWorld): Run
    requires ValidConf(conf)
  {
    Then(InstallRun(conf, dest, w),
    Then(ApplyRun(conf, dest, mustExist, w),
    Then(MigrateRun(conf, dest, w), FlipRun(bootstrap, desired, awaits, w))))
  }

  lemma {:induction false} BootstrappedPhase(v: View, conf: Conf, dest: Stack, mustExist: bool, current: Colour,
                                             target: Colour, awaits: bool, w: PromoteWorld)
    requires ValidConf(conf) && v.selector == Some(current) && Uniform(v, conf, current)
    ensures var install, apply, migrate := InstallRun(conf, dest, w), ApplyRun(conf, dest, mustExist, w), MigrateRun(conf, dest, w);
      var x := Exec(Exec(v, install.log), apply.log);
      Along(v, AfterBootstrap(conf, dest, mustExist, current, target, awaits, w).log, OneColour(conf, current)) <==>
        && InstallCarries(v, conf, dest, w)
        && (install.status.Ok? && apply.status.Ok? ==>
              && MigrationCarries(x, conf, dest, current, w)
              && (migrate.status.Ok? && target != current && w.flipped ==> AllViaStable(Exec(x, migrate.log), conf)))
  {
    hide Resolve, InstallRun, ApplyRun, MigrateRun, FlipRun, MigrationCarries, AllViaStable, InstallCarries, BlocksReady;
    var install := InstallRun(conf, dest, w);
    var rest := Then(ApplyRun(conf, dest, mustExist, w), Then(MigrateRun(conf, dest, w), FlipRun(current, target, awaits, w)));
    InstallPhase(v, conf, dest, current, w);
    AlongThenExactly(v, install, rest, OneColour(conf, current));
    if install.status.Ok? && InstallCarries(v, conf, dest, w) {
      RestPhase(Exec(v, install.log), conf, dest, mustExist, current, target, awaits, w);
    }
  }

  lemma {:induction false} SameInstall(v: View, u: View, conf: Conf, dest: Stack, w: PromoteWorld)
    requires u == v.(selector := u.selector)
    ensures InstallCarries(u, conf, dest, w) <==> InstallCarries(v, conf, dest, w)
  {
    assert forall h :: Pick(u, h) == Pick(v, h);
  }

  lemma {:induction false} RestPhase(v: View, conf: Conf, dest: Stack, mustExist: bool, current: Colour, target: Colour,
                                     awaits: bool, w: PromoteWorld)
    requires ValidConf(conf) && Publishing(v, conf, dest, current)
    ensures var apply, migrate := ApplyRun(conf, dest, mustExist, w), MigrateRun(conf, dest, w);
      var x := Exec(v, apply.log);
      Along(v, Then(apply, Then(migrate, FlipRun(current, target, awaits, w))).log, OneColour(conf, current)) <==>
        (apply.status.Ok? ==>
          && MigrationCarries(x, conf, dest, current, w)
          && (migrate.status.Ok? && target != current && w.flipped ==> AllViaStable(Exec(x, migrate.log), conf)))
  {
    var P := OneColour(conf, current);
    var apply, migrate, flip := ApplyRun(conf, dest, mustExist, w), MigrateRun(conf, dest, w), FlipRun(current, target, awaits, w);
    ApplyPhase(v, conf, dest, mustExist, current, w);
    AlongThenExactly(v, apply, Then(migrate, flip), P);
    if apply.status.Ok? {
      var x := Exec(v, apply.log);
      MigratePhase(x, conf, dest, current, w);
      AlongThenExactly(x, migrate, flip, P);
      if migrate.status.Ok? && MigrationCarries(x, conf, dest, current, w) {
        FlipPhase(Exec(x, migrate.log), conf, dest, current, target, awaits, w);
      }
    }
  }

  // ----- a lost server block

  /** A path that stops being intercepted answers nothing between the two calls. */
  lemma {:induction false} DroppedInterceptionGoesDark(host: Host, p: Path, q: Path)
    requires p != q
    ensures var v := View(map[], map[host := map[p := Shared, q := Shared]], map[host := map[p := Stable, q := Stable]],
                          Some(Blue), None, None, None, Gateway, {Blue}, {Blue});
      var conf := Conf([host], map[host := map[p := false, q := true]]);
      ValidConf(conf) && Uniform(v, conf, Blue) && Resolve(Apply(v, Install(conf)), host, p) == None
  {
    var routes, blocks := map[host := map[p := Shared, q := Shared]], map[host := map[p := Stable, q := Stable]];
    var v := View(map[], routes, blocks, Some(Blue), None, None, None, Gateway, {Blue}, {Blue});
    var conf := Conf([host], map[host := map[p := false, q := true]]);
    assert conf.rules[host][q] && Intercepted(conf.rules[host]);
    assert Apply(v, Install(conf)).blocks[host] == BlockOf(conf.rules[host]);
  }
}
