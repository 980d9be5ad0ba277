/** The single-flip theorem for the two commands as they are called: for every answer the cluster may
    give, reads of the live colour that fail or that name a colour which does not serve included. */
module WholeSwitch {
  import opened Base
  import opened Routing
  import opened Promotion
  import opened SingleFlip
  import opened ColourSafety
  import opened Migration
  import opened UnservedStack
  import opened FirstState

  // ----- a promotion that starts from another colour than the serving one

  /** Once the selector names a colour it always does, and what it named before no longer matters. */
  lemma {:induction false} SameColour(v: View, log: seq<Step>, conf: Conf, b: Colour, c: Colour)
    requires v.selector.Some?
    ensures Along(v, log, OneColour(conf, b)) <==> Along(v, log, OneColour(conf, c))
  {
    hide Uniform, Exec;
    forall k | 0 <= k <= |log| ensures OneColour(conf, b)(Exec(v, log[..k])) == OneColour(conf, c)(Exec(v, log[..k])) {
      SelectorIsLastSelect(v, log[..k]);
      SelectorStays(v.selector, log[..k]);
    }
  }

  lemma {:induction false} SelectorStays(before: Option<Colour>, log: seq<Step>)
    requires before.Some?
    ensures LastSelect(before, log).Some?
    decreases |log|
  {
    if log != [] { SelectorStays(before, log[..|log| - 1]); }
  }

  /** When the live colour could not be read, or its endpoints could not, or a left-over route names another
      one, the first write of the run is already a flip, before any route is published: it splits the
      deploy unless every path is behind the stable Service, and the rest has to carry as for a deploy that
      is on the colour the run starts from. */
  lemma {:induction false} MisreadPromoteAlong(v: View, conf: Conf, dest: Stack, mustExist: bool, current: Colour,
                                               bootstrap: Colour, target: Colour, awaits: bool, w: PromoteWorld)
    requires ValidConf(conf) && Uniform(v, conf, current) && current != bootstrap
    requires v.selector == None || v.selector == Some(current)
    ensures Along(v, PromoteRun(conf, dest, mustExist, bootstrap, target, awaits, w).log, OneColour(conf, current)) <==>
      (w.bootstrapped ==>
         AllViaStable(v, conf) && PromotionCarries(Apply(v, Select(bootstrap)), conf, dest, mustExist, bootstrap, target, w))
  {
    hide Resolve, PromoteRun, PromotionCarries, AllViaStable, AfterBootstrap;
    var first, rest := Call(Select(bootstrap), w.bootstrapped), AfterBootstrap(conf, dest, mustExist, bootstrap, target, awaits, w);
    var u := Apply(v, Select(bootstrap));
    PromoteIs(conf, dest, mustExist, bootstrap, target, awaits, w);
    AlongThenExactly(v, first, rest, OneColour(conf, current));
    AlongCallExactly(v, Select(bootstrap), w.bootstrapped, OneColour(conf, current));
    SelectMovesExactly(v, conf, current, bootstrap);
    if w.bootstrapped && AllViaStable(v, conf) {
      assert Apply(u, Select(bootstrap)) == u;
      PromoteAlong(u, conf, dest, mustExist, bootstrap, target, awaits, w);
      AlongThenExactly(u, first, rest, OneColour(conf, bootstrap));
      AlongCallExactly(u, Select(bootstrap), true, OneColour(conf, bootstrap));
      SameColour(u, rest.log, conf, current, bootstrap);
    }
  }

  lemma {:induction false} PromoteIs(conf: Conf, dest: Stack, mustExist: bool, bootstrap: Colour, desired: Colour,
                                     awaits: bool, w: PromoteWorld)
    requires ValidConf(conf)
    ensures PromoteRun(conf, dest, mustExist, bootstrap, desired, awaits, w)
         == Then(Call(Select(bootstrap), w.bootstrapped), AfterBootstrap(conf, dest, mustExist, bootstrap, desired, awaits, w))
  {
  }

  /** Whichever colour the run starts from. */
  ghost predicate Carries(v: View, conf: Conf, dest: Stack, mustExist: bool, current: Colour, bootstrap: Colour,
                          target: Colour, w: PromoteWorld)
    requires ValidConf(conf)
  {
    if bootstrap == current then PromotionCarries(v, conf, dest, mustExist, current, target, w)
    else w.bootstrapped ==>
      AllViaStable(v, conf) && PromotionCarries(Apply(v, Select(bootstrap)), conf, dest, mustExist, bootstrap, target, w)
  }

  lemma {:induction false} AnyPromoteAlong(v: View, conf: Conf, dest: Stack, mustExist: bool, current: Colour,
                                           bootstrap: Colour, target: Colour, awaits: bool, w: PromoteWorld)
    requires ValidConf(conf) && Uniform(v, conf, current) && (v.selector == None || v.selector == Some(current))
    ensures var log := PromoteRun(conf, dest, mustExist, bootstrap, target, awaits, w).log;
      Along(v, log, OneColour(conf, current)) <==> Carries(v, conf, dest, mustExist, current, bootstrap, target, w)
  {
    hide Resolve, PromoteRun, PromotionCarries, AllViaStable, Uniform;
    if bootstrap == current {
      PromoteAlong(v, conf, dest, mustExist, current, target, awaits, w);
    } else {
      MisreadPromoteAlong(v, conf, dest, mustExist, current, bootstrap, target, awaits, w);
    }
  }

  // ----- the two commands

  ghost predicate SwitchCarries(v: View, sw: SwitchIn, w: SwitchWorld, current: Colour)
    requires ValidConf(sw.conf)
  {
    w.ready && w.serving && w.built ==>
      Carries(v, sw.conf, DestStack(sw.gatewayApi), false, current, SwitchBootstrap(sw, w), sw.target, w.promote)
  }

  /** In every state of `switchTraffic`, wherever it fails, all paths answer from one colour, the one the
      selector names, if and only if the answers carry it, whatever the read of the live colour said. */
  lemma {:induction false} SwitchNeverSplits(v: View, sw: SwitchIn, w: SwitchWorld, current: Colour)
    requires ValidConf(sw.conf) && Uniform(v, sw.conf, current) && (v.selector == None || v.selector == Some(current))
    ensures Along(v, SwitchRun(sw, w).log, OneColour(sw.conf, current)) <==> SwitchCarries(v, sw, w, current)
  {
    hide Resolve, PromoteRun, Carries, Uniform;
    var P := OneColour(sw.conf, current);
    AlongEmptyExactly(v, P);
    if w.ready && w.serving && w.built {
      var dest, b := DestStack(sw.gatewayApi), SwitchBootstrap(sw, w);
      var promote := PromoteRun(sw.conf, dest, false, b, sw.target, true, w.promote);
      var tail := Then(if sw.grpcManifest then Call(Grpc(sw.target), w.grpcApplied) else Skip(), Call(Record(sw.target), w.stored));
      AnyPromoteAlong(v, sw.conf, dest, false, current, b, sw.target, true, w.promote);
      AlongThenExactly(v, promote, tail, P);
      assert SwitchRun(sw, w).log == Then(promote, tail).log;
      if Along(v, promote.log, P) {
        AlongEnds(v, promote.log, P);
        TailAlong(Exec(v, promote.log), sw, w, current);
      }
    }
  }

  /** Neither the gRPC Service nor the recorded colour carries a request. */
  lemma {:induction false} NeutralAlong(v: View, conf: Conf, current: Colour, s: Step)
    requires s.Grpc? || s.Record?
    requires OneColour(conf, current)(v)
    ensures OneColour(conf, current)(Apply(v, s))
  {
    var c := if v.selector.Some? then v.selector.value else current;
    var u := Apply(v, s);
    forall h, p | h in conf.rules && p in conf.rules[h] ensures Resolve(u, h, p) == Some(c) {
      assert Resolve(v, h, p) == Some(c);
    }
  }

  lemma {:induction false} TailAlong(v: View, sw: SwitchIn, w: SwitchWorld, current: Colour)
    requires OneColour(sw.conf, current)(v)
    ensures Along(v, Then(if sw.grpcManifest then Call(Grpc(sw.target), w.grpcApplied) else Skip(),
                          Call(Record(sw.target), w.stored)).log, OneColour(sw.conf, current))
  {
    hide Uniform;
    var P := OneColour(sw.conf, current);
    var grpc := if sw.grpcManifest then Call(Grpc(sw.target), w.grpcApplied) else Skip();
    AlongEmptyExactly(v, P);
    NeutralAlong(v, sw.conf, current, Grpc(sw.target));
    AlongCallExactly(v, Grpc(sw.target), w.grpcApplied, P);
    var x := Exec(v, grpc.log);
    NeutralAlong(x, sw.conf, current, Record(sw.target));
    AlongCallExactly(x, Record(sw.target), w.stored, P);
    AlongThenExactly(v, grpc, Call(Record(sw.target), w.stored), P);
  }

  ghost predicate RouteCarries(v: View, d: DeployIn, w: DeployWorld, current: Colour)
    requires ValidConf(d.conf)
  {
    (!d.updateDeployment || (w.desiredReady && w.desiredServing)) ==>
      Carries(v, d.conf, DestStack(d.gatewayApi), true, current, DeployBootstrap(d, w), DesiredTraffic(d, w), w.promote)
  }

  /** The same for the routing half of a deploy. */
  lemma {:induction false} DeployRouteNeverSplits(v: View, d: DeployIn, w: DeployWorld, current: Colour)
    requires ValidConf(d.conf) && Uniform(v, d.conf, current) && (v.selector == None || v.selector == Some(current))
    ensures Along(v, RouteRun(d, w).log, OneColour(d.conf, current)) <==> RouteCarries(v, d, w, current)
  {
    hide Resolve, PromoteRun, Carries, Uniform;
    AlongEmptyExactly(v, OneColour(d.conf, current));
    var b, c := DeployBootstrap(d, w), DesiredTraffic(d, w);
    var promote := PromoteRun(d.conf, DestStack(d.gatewayApi), true, b, c, d.updateDeployment, w.promote);
    AnyPromoteAlong(v, d.conf, DestStack(d.gatewayApi), true, current, b, c, d.updateDeployment, w.promote);
    assert [] + promote.log == promote.log;
  }

  /** A switch to the colour that already serves, while the read names the other one and finds it ready: the
      first write takes every path behind the stable Service over to that other colour, and the last one
      takes the selector back. */
  lemma {:induction false} MisreadSwitchDetours(v: View, sw: SwitchIn, w: SwitchWorld, current: Colour)
    requires ValidConf(sw.conf) && Uniform(v, sw.conf, current) && (v.selector == None || v.selector == Some(current))
    requires sw.target == current && w.seen == Some(Opposite(current)) && w.seenServing
    requires w.ready && w.serving && w.built && w.promote.bootstrapped
    ensures var log := SwitchRun(sw, w).log;
      && |log| >= 1 && log[0] == Select(Opposite(current))
      && (forall h, p :: h in sw.conf.rules && p in sw.conf.rules[h] ==>
            Resolve(Apply(v, log[0]), h, p) == Some(if ViaStable(v, h, p) then Opposite(current) else current))
      && (SwitchRun(sw, w).status.Ok? ==> Exec(v, log).selector == Some(current))
  {
    hide Resolve, ViaStable, Uniform, ConvergeRun;
    var b := Opposite(current);
    var promote := PromoteRun(sw.conf, DestStack(sw.gatewayApi), false, b, current, true, w.promote);
    PromoteShape(sw.conf, DestStack(sw.gatewayApi), false, b, current, true, w.promote);
    assert promote.log[0] == Select(b);
    SelectMovesExactly(v, sw.conf, current, b);
    SwitchOutcome(v, sw, w);
  }

  // ----- the ordinary case

  /** The rebuild saw the destination stack's routes and has a backend for it. */
  predicate DestServed(a: RefreshAnswers, dest: Stack) {
    && Available(a.answers, dest)
    && (if dest == Contour then a.answers.proxiesListed else a.answers.routesListed)
  }

  /** The edge is rebuilt with the destination stack in it and loads that, or it is not rebuilt and no path
      needs it; a table that is put back is the one that ran. */
  ghost predicate EdgeServes(v: View, conf: Conf, dest: Stack, w: PromoteWorld) {
    && (Updates(w.first) ==> w.first.loaded && DestServed(w.first, dest))
    && (Updates(w.second) && w.second.loaded ==> DestServed(w.second, dest))
    && (PutsBack(w.first) ==> v.edge == Some(w.first.ending.edge))
    && (PutsBack(w.second) ==> forall h :: h in conf.rules ==> PickedBy(w.second.ending.edge, h) == dest)
    && (!Updates(w.first) ==>
          forall h, p :: h in conf.rules && p in conf.rules[h] ==> Pick(v, h) == dest || ViaStable(v, h, p))
  }

  lemma {:induction false} ServedIsSent(r: Reads, dest: Stack, proxied: bool, routed: bool)
    requires Available(r, dest) && (if dest == Contour then r.proxiesListed && proxied else r.routesListed && routed)
    ensures Sends(r, dest, proxied, routed) == dest
  {
  }

  /** An edge that serves the destination carries every promotion whose paths stay intercepted. */
  lemma {:induction false} EdgeServesCarries(v: View, conf: Conf, dest: Stack, mustExist: bool, current: Colour, target: Colour,
                                             w: PromoteWorld)
    requires ValidConf(conf) && Uniform(v, conf, current) && (v.selector == None || v.selector == Some(current))
    requires InstallCarries(v, conf, dest, w) && EdgeServes(v, conf, dest, w)
    ensures PromotionCarries(v, conf, dest, mustExist, current, target, w)
  {
    hide InstallRun, ApplyRun, MigrateRun, Sends, ColourThrough, InstallCarries, ThroughStable, OldServes;
    forall h, p | h in conf.rules && p in conf.rules[h]
      ensures Pick(v, h) != dest ==> OldServes(v, dest, current, h, p)
      ensures Has(v, conf, dest, dest, h) && StillHas(v, conf, dest, dest, h)
    {
      assert Published(conf, h) && Resolve(v, h, p) == Some(current);
      BesideServes(v, dest, current, h, p);
    }
    forall h | h in conf.rules && Published(conf, h)
      ensures Updates(w.first) ==> FirstSent(v, conf, dest, w, h) == dest
      ensures Updates(w.second) && w.second.loaded ==> SecondSent(v, conf, dest, w, h) == dest
    {
      var proxied, routed := Has(v, conf, dest, Contour, h), Has(v, conf, dest, Gateway, h);
      if Updates(w.first) { ServedIsSent(w.first.answers, dest, proxied, routed); }
      proxied, routed := StillHas(v, conf, dest, Contour, h), StillHas(v, conf, dest, Gateway, h);
      if Updates(w.second) && w.second.loaded { ServedIsSent(w.second.answers, dest, proxied, routed); }
    }
    forall h, p | h in conf.rules && p in conf.rules[h]
      ensures OnceMigrated(v, conf, dest, w, h) == dest || ThroughStable(v, Other(dest), h, p)
    {
      assert Published(conf, h);
    }
  }

  lemma {:induction false} BesideServes(v: View, dest: Stack, current: Colour, h: Host, p: Path)
    requires Resolve(v, h, p) == Some(current) && (v.selector == None || v.selector == Some(current))
    ensures Pick(v, h) != dest ==> OldServes(v, dest, current, h, p)
  {
  }

  // ----- how a switch ends

  /** Where a switch leaves the requests. Completed, every path is on the target, on the old colour or
      unanswered exactly as `CompletedPromotionExactly` says; stopped in a promotion that carried, all
      paths are on the colour it started from, the serving one if that was what it read, unless a roll-back
      it needed was refused. */
  lemma {:induction false} SwitchEndsWhole(v: View, sw: SwitchIn, w: SwitchWorld, current: Colour)
    requires ValidConf(sw.conf) && Uniform(v, sw.conf, current) && (v.selector == None || v.selector == Some(current))
    ensures var run, dest := SwitchRun(sw, w), DestStack(sw.gatewayApi); var u := Exec(v, run.log);
      var promote := PromoteRun(sw.conf, dest, false, SwitchBootstrap(sw, w), sw.target, true, w.promote);
      var started := w.ready && w.serving && w.built && w.promote.bootstrapped;
      && (!started ==> u == v)
      && (run.status.Ok? ==> forall h, p :: h in sw.conf.rules && p in sw.conf.rules[h] && h != "" ==>
            Resolve(u, h, p) ==
              if !Updates(w.promote.first) then Some(EndColour(v, dest, current, sw.target, h, p))
              else if Pick(u, h) == dest then Some(sw.target) else None)
      && (started && !promote.status.Ok? && w.promote.rolledBack && SwitchCarries(v, sw, w, current) ==>
            Uniform(u, sw.conf, SwitchBootstrap(sw, w)))
  {
    hide Resolve, PromoteRun, Uniform, ConvergeRun, Carries, ViaStable;
    SwitchOutcome(v, sw, w);
    if SwitchRun(sw, w).status.Ok? {
      forall h, p | h in sw.conf.rules && p in sw.conf.rules[h] && h != ""
        ensures Resolve(Exec(v, SwitchRun(sw, w).log), h, p) ==
          if !Updates(w.promote.first) then Some(EndColour(v, DestStack(sw.gatewayApi), current, sw.target, h, p))
          else if Pick(Exec(v, SwitchRun(sw, w).log), h) == DestStack(sw.gatewayApi) then Some(sw.target) else None
      {
        CompletedSwitchExactly(v, sw, w, current, h, p);
      }
    }
    SwitchNeverSplits(v, sw, w, current);
    if SwitchCarries(v, sw, w, current) {
      AlongEnds(v, SwitchRun(sw, w).log, OneColour(sw.conf, current));
    }
  }

  lemma {:induction false} CompletedSwitchExactly(v: View, sw: SwitchIn, w: SwitchWorld, current: Colour, h: Host, p: Path)
    requires ValidConf(sw.conf) && Uniform(v, sw.conf, current) && SwitchRun(sw, w).status.Ok?
    requires h in sw.conf.rules && p in sw.conf.rules[h] && h != ""
    ensures var dest, u := DestStack(sw.gatewayApi), Exec(v, SwitchRun(sw, w).log);
      Resolve(u, h, p) ==
        if !Updates(w.promote.first) then Some(EndColour(v, dest, current, sw.target, h, p))
        else if Pick(u, h) == dest then Some(sw.target) else None
  {
    hide PromoteRun, Uniform, ViaStable, Resolve;
    var P := (x: View) => true;
    var dest := DestStack(sw.gatewayApi);
    var promote := PromoteRun(sw.conf, dest, false, SwitchBootstrap(sw, w), sw.target, true, w.promote);
    var grpc, record := if sw.grpcManifest then Call(Grpc(sw.target), w.grpcApplied) else Skip(), Call(Record(sw.target), w.stored);
    CompletedPromotionExactly(v, sw.conf, dest, false, SwitchBootstrap(sw, w), current, sw.target, true, w.promote, h, p);
    assert SwitchRun(sw, w).log == Then(promote, Then(grpc, record)).log;
    AlongThenExactly(v, promote, Then(grpc, record), P);
    var x := Exec(v, promote.log);
    AlongThenExactly(x, grpc, record, P);
    AlongCallExactly(x, Grpc(sw.target), w.grpcApplied, P);
    AlongEmptyExactly(x, P);
    var y := Exec(x, grpc.log);
    AlongCallExactly(y, Record(sw.target), w.stored, P);
    var u := Exec(v, SwitchRun(sw, w).log);
    NeutralResolve(x, u, h, p);
  }

  lemma {:induction false} NeutralResolve(v: View, u: View, h: Host, p: Path)
    requires u == v.(grpc := u.grpc, recorded := u.recorded)
    ensures Resolve(u, h, p) == Resolve(v, h, p) && Pick(u, h) == Pick(v, h)
  {
  }
}
