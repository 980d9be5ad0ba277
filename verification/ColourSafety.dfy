/** Which colour the selector may name: promotion is gated on readiness and reversible, a default
    deploy only prepares, and no run of either command takes the serving colour down. */
module ColourSafety {
  import opened Base
  import opened Routing
  import opened Promotion
  import opened SingleFlip

  // ----- what a log does to the selector

  /** The last selector write of the log, or the selector the log started from. */
  function LastSelect(before: Option<Colour>, log: seq<Step>): Option<Colour>
    decreases |log|
  {
    if log == [] then before
    else if log[|log| - 1].Select? then Some(log[|log| - 1].colour)
    else LastSelect(before, log[..|log| - 1])
  }

  lemma {:induction false} SelectorIsLastSelect(v: View, log: seq<Step>)
    ensures Exec(v, log).selector == LastSelect(v.selector, log)
    decreases |log|
  {
    if log != [] {
      var front, last := log[..|log| - 1], log[|log| - 1];
      assert log == front + [last];
      ExecConcat(v, front, [last]);
      AlongOne(Exec(v, front), last, (x: View) => true);
      SelectorIsLastSelect(v, front);
    }
  }

  lemma {:induction false} LastSelectConcat(before: Option<Colour>, a: seq<Step>, b: seq<Step>)
    ensures LastSelect(before, a + b) == LastSelect(LastSelect(before, a), b)
    decreases |b|
  {
    if b == [] {
      assert a + b == a;
    } else {
      assert (a + b)[..|a + b| - 1] == a + b[..|b| - 1];
      LastSelectConcat(before, a, b[..|b| - 1]);
    }
  }

  lemma {:induction false} NoSelectKeeps(before: Option<Colour>, log: seq<Step>)
    requires forall s :: s in log ==> !s.Select?
    ensures LastSelect(before, log) == before
    decreases |log|
  {
    if log != [] { NoSelectKeeps(before, log[..|log| - 1]); }
  }

  lemma {:induction false} PublishNoSelect(dest: Stack, hosts: seq<Host>, conf: Conf, accepted: set<Host>)
    requires forall h :: h in hosts ==> h in conf.rules
    ensures forall s :: s in PublishSteps(dest, hosts, conf, accepted) ==> s.Publish?
  {
    if hosts != [] { PublishNoSelect(dest, hosts[1..], conf, accepted); }
  }

  lemma {:induction false} RemoveNoSelect(stack: Stack, hosts: seq<Host>)
    ensures forall s :: s in RemoveSteps(stack, hosts) ==> s.Remove?
  {
    if hosts != [] { RemoveNoSelect(stack, hosts[1..]); }
  }

  /** Route objects, server blocks and the edge: nothing that holds a colour or a workload. */
  predicate RoutingStep(s: Step) {
    s.Install? || s.Publish? || s.Refresh? || s.Restore? || s.Remove?
  }

  ghost predicate Every(log: seq<Step>, P: Step -> bool) {
    forall s :: s in log ==> P(s)
  }

  lemma {:induction false} ThenEvery(a: Run, b: Run, P: Step -> bool)
    requires Every(a.log, P) && Every(b.log, P)
    ensures Every(Then(a, b).log, P)
  {
  }

  lemma {:induction false} MigrateRouting(conf: Conf, dest: Stack, w: PromoteWorld)
    ensures Every(MigrateRun(conf, dest, w).log, RoutingStep)
  {
    var removal := RemoveRun(Other(dest), conf.hosts, w.removed);
    RemoveNoSelect(Other(dest), if w.removed < |conf.hosts| then conf.hosts[..w.removed] else conf.hosts);
    ThenEvery(removal, RefreshRun(dest, w.second), RoutingStep);
    ThenEvery(RefreshRun(dest, w.first),
              if !Updates(w.first) then Skip() else Then(removal, RefreshRun(dest, w.second)), RoutingStep);
  }

  lemma {:induction false} ApplyRouting(conf: Conf, dest: Stack, mustExist: bool, w: PromoteWorld)
    requires ValidConf(conf)
    ensures Every(ApplyRun(conf, dest, mustExist, w).log, RoutingStep)
  {
    PublishNoSelect(dest, conf.hosts, conf, w.accepted);
    ThenEvery(Pass(dest == Contour || w.gatewayApplied), PublishRun(conf, dest, w.accepted), RoutingStep);
  }

  lemma {:induction false} ConvergeRouting(conf: Conf, dest: Stack, mustExist: bool, w: PromoteWorld)
    requires ValidConf(conf)
    ensures Every(ConvergeRun(conf, dest, mustExist, w).log, RoutingStep)
  {
    ApplyRouting(conf, dest, mustExist, w);
    MigrateRouting(conf, dest, w);
    ThenEvery(ApplyRun(conf, dest, mustExist, w), MigrateRun(conf, dest, w), RoutingStep);
    ThenEvery(InstallRun(conf, dest, w), Then(ApplyRun(conf, dest, mustExist, w), MigrateRun(conf, dest, w)), RoutingStep);
  }

  predicate PromoteStep(s: Step, colours: set<Colour>) {
    RoutingStep(s) || (s.Select? && s.colour in colours)
  }

  /** Every selector write of a promotion names the bootstrap or the desired colour, and no step
      touches a workload, the gRPC Service or the record. */
  lemma {:induction false} PromoteSteps(conf: Conf, dest: Stack, mustExist: bool, bootstrap: Colour, desired: Colour,
                     awaits: bool, w: PromoteWorld)
    requires ValidConf(conf)
    ensures forall s :: s in PromoteRun(conf, dest, mustExist, bootstrap, desired, awaits, w).log
              ==> PromoteStep(s, {bootstrap, desired})
  {
    var P := (s: Step) => PromoteStep(s, {bootstrap, desired});
    PromoteShape(conf, dest, mustExist, bootstrap, desired, awaits, w);
    ConvergeRouting(conf, dest, mustExist, w);
    var c, f := ConvergeRun(conf, dest, mustExist, w), FlipRun(bootstrap, desired, awaits, w);
    assert Every(c.log, P);
    assert Every(f.log, P);
    ThenEvery(c, f, P);
    ThenEvery(Call(Select(bootstrap), w.bootstrapped), Then(c, f), P);
  }

  /** Where a promotion leaves the selector. Before the bootstrap write nothing moved; after it a
      failed promotion is back on the bootstrap colour unless the write that rolls back failed too;
      a completed one is on the desired colour. */
  lemma {:induction false} PromoteSelector(v: View, conf: Conf, dest: Stack, mustExist: bool, bootstrap: Colour, desired: Colour,
                        awaits: bool, w: PromoteWorld)
    requires ValidConf(conf)
    ensures var run := PromoteRun(conf, dest, mustExist, bootstrap, desired, awaits, w);
            var after := Exec(v, run.log).selector;
      && (!w.bootstrapped ==> run == Run([], Failed))
      && (run.status.Ok? ==> after == Some(desired))
      && (!run.status.Ok? && w.bootstrapped ==>
            (after == Some(bootstrap) <==>
             !(desired != bootstrap && ConvergeRun(conf, dest, mustExist, w).status.Ok? && w.flipped && !w.rolledBack)))
      && (run.status.Ok? <==> w.bootstrapped && ConvergeRun(conf, dest, mustExist, w).status.Ok?
                              && (desired == bootstrap || w.flipped) && (!awaits || w.stableServing))
  {
    var run := PromoteRun(conf, dest, mustExist, bootstrap, desired, awaits, w);
    SelectorIsLastSelect(v, run.log);
    PromoteShape(conf, dest, mustExist, bootstrap, desired, awaits, w);
    var c, f := ConvergeRun(conf, dest, mustExist, w), FlipRun(bootstrap, desired, awaits, w);
    ConvergeRouting(conf, dest, mustExist, w);
    FlipSelector(bootstrap, desired, awaits, w);
    if w.bootstrapped { BootstrappedSelector(v.selector, bootstrap, c, f); }
  }

  /** After the bootstrap write only the flip can move the selector. */
  lemma {:induction false} BootstrappedSelector(before: Option<Colour>, bootstrap: Colour, converge: Run, flip: Run)
    requires Every(converge.log, RoutingStep)
    ensures LastSelect(before, [Select(bootstrap)] + Then(converge, flip).log)
         == if converge.status.Ok? then LastSelect(Some(bootstrap), flip.log) else Some(bootstrap)
  {
    NoSelectKeeps(Some(bootstrap), converge.log);
    LastSelectConcat(before, [Select(bootstrap)], Then(converge, flip).log);
    assert LastSelect(before, [Select(bootstrap)]) == Some(bootstrap);
    if converge.status.Ok? { LastSelectConcat(Some(bootstrap), converge.log, flip.log); }
  }

  lemma {:induction false} FlipSelector(bootstrap: Colour, desired: Colour, awaits: bool, w: PromoteWorld)
    ensures var f := FlipRun(bootstrap, desired, awaits, w); var after := LastSelect(Some(bootstrap), f.log);
      && (f.status.Ok? <==> (desired == bootstrap || w.flipped) && (!awaits || w.stableServing))
      && (f.status.Ok? ==> after == Some(desired))
      && (!f.status.Ok? ==> (after == Some(bootstrap) <==> !(desired != bootstrap && w.flipped && !w.rolledBack)))
  {
    var f := FlipRun(bootstrap, desired, awaits, w);
    if desired != bootstrap && w.flipped && !(!awaits || w.stableServing) && w.rolledBack {
      assert f.log == [Select(desired)] + [Select(bootstrap)];
    } else if desired != bootstrap && w.flipped {
      assert f.log == [Select(desired)];
    } else {
      assert f.log == [];
    }
  }

  // ----- switchTraffic

  /** The colours this run saw ready before it wrote anything. */
  function SwitchObserved(sw: SwitchIn, w: SwitchWorld): set<Colour> {
    (if w.ready && w.serving then {sw.target} else {})
    + (if w.seen.Some? && w.seenServing then {w.seen.value} else {})
  }

  /** A step of a switch: a selector write within the given colours, or no workload object at all. */
  predicate SwitchStep(s: Step, colours: set<Colour>) {
    (s.Select? ==> s.colour in colours) && !s.DropService? && !s.DropDeployment? && !s.Create?
  }

  lemma {:induction false} TailEvery(sw: SwitchIn, w: SwitchWorld, P: Step -> bool)
    requires P(Grpc(sw.target)) && P(Record(sw.target))
    ensures Every(Then(if sw.grpcManifest then Call(Grpc(sw.target), w.grpcApplied) else Skip(), Call(Record(sw.target), w.stored)).log, P)
  {
  }

  /** A switch writes only colours it observed ready, and nothing at all to an unready target. */
  lemma {:induction false} SwitchIsGated(sw: SwitchIn, w: SwitchWorld)
    requires ValidConf(sw.conf)
    ensures forall s :: s in SwitchRun(sw, w).log ==> SwitchStep(s, SwitchObserved(sw, w))
    ensures !(w.ready && w.serving) ==> SwitchRun(sw, w) == Run([], Refused)
  {
    if w.ready && w.serving {
      var P := (s: Step) => SwitchStep(s, SwitchObserved(sw, w));
      var dest, b := DestStack(sw.gatewayApi), SwitchBootstrap(sw, w);
      var promote := PromoteRun(sw.conf, dest, false, b, sw.target, true, w.promote);
      var tail := Then(if sw.grpcManifest then Call(Grpc(sw.target), w.grpcApplied) else Skip(), Call(Record(sw.target), w.stored));
      PromoteSteps(sw.conf, dest, false, b, sw.target, true, w.promote);
      assert Every(promote.log, P) by {
        forall s | s in promote.log ensures P(s) { assert PromoteStep(s, {b, sw.target}); }
      }
      TailEvery(sw, w, P);
      ThenEvery(promote, tail, P);
      ThenEvery(Pass(w.built), Then(promote, tail), P);
      assert SwitchRun(sw, w).log == Then(Pass(w.built), Then(promote, tail)).log;
    }
  }

  lemma {:induction false} FrameKeeps(v: View, log: seq<Step>)
    requires forall s :: s in log ==> RoutingStep(s) || s.Select?
    ensures var u := Exec(v, log);
      && u.recorded == v.recorded && u.grpc == v.grpc
      && u.deployments == v.deployments && u.services == v.services
    decreases |log|
  {
    if log != [] { FrameKeeps(Apply(v, log[0]), log[1..]); }
  }

  /** How a switch ends. On normal return the selector, the gRPC Service and the recorded colour all
      name the target. A failure up to and including the final endpoint wait leaves the selector on
      the bootstrap colour, or as it was when the bootstrap write itself did not happen; the one
      exception is a roll-back write that fails as well. */
  lemma {:induction false} SwitchOutcome(v: View, sw: SwitchIn, w: SwitchWorld)
    requires ValidConf(sw.conf)
    ensures var run := SwitchRun(sw, w); var u := Exec(v, run.log);
            var promote := PromoteRun(sw.conf, DestStack(sw.gatewayApi), false, SwitchBootstrap(sw, w), sw.target, true, w.promote);
            var started := w.ready && w.serving && w.built && w.promote.bootstrapped;
      && (run.status.Ok? ==> u.selector == Some(sw.target) && u.recorded == u.selector
                             && u.grpc == (if sw.grpcManifest then Some(sw.target) else v.grpc))
      && (!run.status.Ok? ==> u.recorded == v.recorded)
      && (!started ==> u == v && !run.status.Ok?)
      && (started && !promote.status.Ok? ==>
            (u.selector == Some(SwitchBootstrap(sw, w)) <==>
             !(sw.target != SwitchBootstrap(sw, w) && w.promote.flipped && !w.promote.rolledBack
               && ConvergeRun(sw.conf, DestStack(sw.gatewayApi), false, w.promote).status.Ok?)))
      && (started && promote.status.Ok? ==> u.selector == Some(sw.target))
  {
    var dest, b := DestStack(sw.gatewayApi), SwitchBootstrap(sw, w);
    var promote := PromoteRun(sw.conf, dest, false, b, sw.target, true, w.promote);
    var grpc := if sw.grpcManifest then Call(Grpc(sw.target), w.grpcApplied) else Skip();
    var record := Call(Record(sw.target), w.stored);
    PromoteSteps(sw.conf, dest, false, b, sw.target, true, w.promote);
    PromoteSelector(v, sw.conf, dest, false, b, sw.target, true, w.promote);
    FrameKeeps(v, promote.log);
    if w.ready && w.serving && w.built {
      var v1 := Exec(v, promote.log);
      if promote.status.Ok? {
        assert SwitchRun(sw, w).log == promote.log + Then(grpc, record).log;
        ExecConcat(v, promote.log, Then(grpc, record).log);
        TailOutcome(v1, sw, w);
      } else {
        assert SwitchRun(sw, w).log == promote.log;
      }
    }
  }

  lemma {:induction false} TailOutcome(v: View, sw: SwitchIn, w: SwitchWorld)
    ensures var grpc := if sw.grpcManifest then Call(Grpc(sw.target), w.grpcApplied) else Skip();
            var tail := Then(grpc, Call(Record(sw.target), w.stored)); var u := Exec(v, tail.log);
      && u.selector == v.selector
      && (tail.status.Ok? ==> u.recorded == Some(sw.target) && u.grpc == if sw.grpcManifest then Some(sw.target) else v.grpc)
      && (!tail.status.Ok? ==> u.recorded == v.recorded)
  {
    var grpc := if sw.grpcManifest then Call(Grpc(sw.target), w.grpcApplied) else Skip();
    var record := Call(Record(sw.target), w.stored);
    ExecConcat(v, grpc.log, record.log);
    AlongOne(v, Grpc(sw.target), (x: View) => true);
    AlongOne(Exec(v, grpc.log), Record(sw.target), (x: View) => true);
  }
}
