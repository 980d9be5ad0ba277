/** Which colour the selector names after any history of default deploys and switches, one after the other
    or interleaved call by call. */
module SelectorHistory {
  import opened Base
  import opened Routing
  import opened Promotion
  import opened SingleFlip
  import opened ColourSafety
  import opened DefaultDeploy

  // ----- one default deploy

  /** A default deploy leaves the selector on the colour it desired if it wrote one, wherever it failed
      afterwards, and untouched otherwise. */
  lemma {:induction false} DefaultDeploySelector(v: View, d: DeployIn, w: DeployWorld)
    requires ValidConf(d.conf) && IsDefault(d)
    ensures Exec(v, DeployRun(d, w).log).selector == if DeployWrites(d, w) then Some(DesiredTraffic(d, w)) else v.selector
  {
    hide PrepareRun, PromoteRun, ConvergeRun;
    var P := (x: View) => true;
    DeployShape(d, w);
    var prepare, route := PrepareRun(d, w), if d.updateProxy then RouteRun(d, w) else Skip();
    var rest := if d.remove then Skip() else Then(route, Pass(w.certificates));
    AlongThenExactly(v, prepare, rest, P);
    SelectorIsLastSelect(v, prepare.log);
    PrepareSelectsNothing(d, w);
    NoSelectKeeps(v.selector, prepare.log);
    var x := Exec(v, prepare.log);
    AlongEmptyExactly(x, P);
    AlongThenExactly(x, route, Pass(w.certificates), P);
    AlongEmptyExactly(Exec(x, route.log), P);
    RouteSelector(x, d, w);
  }

  lemma {:induction false} RouteSelector(v: View, d: DeployIn, w: DeployWorld)
    requires ValidConf(d.conf) && IsDefault(d)
    ensures Exec(v, RouteRun(d, w).log).selector ==
      if (!d.updateDeployment || (w.desiredReady && w.desiredServing)) && w.promote.bootstrapped then Some(DesiredTraffic(d, w))
      else v.selector
  {
    hide PromoteRun, ConvergeRun;
    var b := DeployBootstrap(d, w);
    assert b == DesiredTraffic(d, w);
    var promote := PromoteRun(d.conf, DestStack(d.gatewayApi), true, b, b, d.updateDeployment, w.promote);
    PromoteSelector(v, d.conf, DestStack(d.gatewayApi), true, b, b, d.updateDeployment, w.promote);
    AlongThenExactly(v, Check(!d.updateDeployment || (w.desiredReady && w.desiredServing)), promote, (x: View) => true);
  }

  /** When the read of the live colour fails or answers right, a default deploy moves the selector away
      from it exactly when it writes, did not see that colour ready, and prepared the other one. */
  lemma {:induction false} DefaultDeployMovesExactly(v: View, d: DeployIn, w: DeployWorld, c: Colour)
    requires ValidConf(d.conf) && IsDefault(d) && v.selector == Some(c) && (w.seen.Some? ==> w.seen.value == c)
    ensures Exec(v, DeployRun(d, w).log).selector != Some(c) <==>
            DeployWrites(d, w) && !SeenReady(w) && DeployVersions(d, w.live)[0] != c
  {
    hide PrepareRun, DeployRun;
    DefaultDeploySelector(v, d, w);
  }

  // ----- one switch

  /** The promotion of a switch came to its normal end. */
  predicate Promoted(sw: SwitchIn, w: SwitchWorld)
    requires ValidConf(sw.conf)
  {
    w.ready && w.serving && w.built
    && PromoteRun(sw.conf, DestStack(sw.gatewayApi), false, SwitchBootstrap(sw, w), sw.target, true, w.promote).status.Ok?
  }

  lemma {:induction false} SwitchSelector(v: View, sw: SwitchIn, w: SwitchWorld, c: Colour)
    requires ValidConf(sw.conf) && v.selector == Some(c) && w.seen == Some(c) && w.seenServing && w.promote.rolledBack
    ensures Exec(v, SwitchRun(sw, w).log).selector == Some(if Promoted(sw, w) then sw.target else c)
  {
    hide PromoteRun, SwitchRun, ConvergeRun;
    SwitchOutcome(v, sw, w);
    if !w.promote.bootstrapped { Unbootstrapped(sw, w); }
  }

  lemma {:induction false} Unbootstrapped(sw: SwitchIn, w: SwitchWorld)
    requires ValidConf(sw.conf) && !w.promote.bootstrapped
    ensures !Promoted(sw, w)
  {
  }

  // ----- histories of commands

  /** The command reads the live colour as ready, and a roll-back it tries is not refused. */
  predicate ReadsLive(v: View, c: Command)
    requires ValidCommand(c)
  {
    match c
    case SwitchTo(sw, w) => w.seen == v.selector && w.seenServing && w.promote.rolledBack
    case Deploy(d, w) => w.seen == v.selector && SeenReady(w)
  }

  predicate ReadsLiveAlways(v: View, cs: seq<Command>)
    requires forall c :: c in cs ==> ValidCommand(c)
    decreases |cs|
  {
    cs == [] || (ReadsLive(v, cs[0]) && ReadsLiveAlways(Exec(v, CommandRun(cs[0]).log), cs[1..]))
  }

  function AfterCommand(c: Colour, x: Command): Colour
    requires ValidCommand(x)
  {
    match x
    case SwitchTo(sw, w) => if Promoted(sw, w) then sw.target else c
    case Deploy(_, _) => c
  }

  /** The target of the last completed promotion. */
  function LastPromoted(c: Colour, cs: seq<Command>): Colour
    requires forall x :: x in cs ==> ValidCommand(x)
    decreases |cs|
  {
    if cs == [] then c else LastPromoted(AfterCommand(c, cs[0]), cs[1..])
  }

  /** Over every history of default deploys and switches, each failing wherever it fails, the selector
      names the target of the last completed promotion: no default deploy ever moves it. */
  lemma {:induction false} SelectorIsLastPromoted(v: View, cs: seq<Command>, c: Colour)
    requires forall x :: x in cs ==> ValidCommand(x)
    requires v.selector == Some(c) && ReadsLiveAlways(v, cs)
    ensures Exec(v, History(cs)).selector == Some(LastPromoted(c, cs))
    decreases |cs|
  {
    hide CommandRun, Promoted, DeployRun, SwitchRun;
    if cs != [] {
      CommandSelector(v, cs[0], c);
      var log := CommandRun(cs[0]).log;
      ExecConcat(v, log, History(cs[1..]));
      SelectorIsLastPromoted(Exec(v, log), cs[1..], Exec(v, log).selector.value);
    }
  }

  lemma {:induction false} CommandSelector(v: View, x: Command, c: Colour)
    requires ValidCommand(x) && v.selector == Some(c) && ReadsLive(v, x)
    ensures Exec(v, CommandRun(x).log).selector == Some(AfterCommand(c, x))
  {
    hide Promoted, DeployRun, SwitchRun, DeployWrites;
    match x
    case SwitchTo(sw, w) => SwitchSelector(v, sw, w, c);
    case Deploy(d, w) => DefaultDeploySelector(v, d, w);
  }

  // ----- any number of commands, interleaved call by call

  /** A call, and which of the commands made it. */
  datatype Tagged = Tagged(step: Step, command: nat)

  function Steps(m: seq<Tagged>): seq<Step> {
    if m == [] then [] else Steps(m[..|m| - 1]) + [m[|m| - 1].step]
  }

  /** The calls of one command, in their order. */
  function Of(m: seq<Tagged>, i: nat): seq<Step> {
    if m == [] then []
    else Of(m[..|m| - 1], i) + if m[|m| - 1].command == i then [m[|m| - 1].step] else []
  }

  /** Who wrote the selector last. */
  function LastWriter(m: seq<Tagged>): Option<nat> {
    if m == [] then None
    else if m[|m| - 1].step.Select? then Some(m[|m| - 1].command)
    else LastWriter(m[..|m| - 1])
  }

  /** The runs of the commands, with their calls in any order that keeps each run's own. */
  ghost predicate Interleaves(cs: seq<Command>, m: seq<Tagged>)
    requires forall x :: x in cs ==> ValidCommand(x)
  {
    && (forall t :: t in m ==> t.command < |cs|)
    && (forall i :: 0 <= i < |cs| ==> Of(m, i) == CommandRun(cs[i]).log)
  }

  lemma {:induction false} SnocSelect(before: Option<Colour>, log: seq<Step>, s: Step)
    ensures LastSelect(before, log + [s]) == if s.Select? then Some(s.colour) else LastSelect(before, log)
  {
    assert (log + [s])[..|log|] == log;
  }

  /** The selector after an interleaving is what the last writer's own calls leave it at. */
  lemma {:induction false} LastWriterDecides(before: Option<Colour>, m: seq<Tagged>)
    ensures LastSelect(before, Steps(m)) ==
      if LastWriter(m).None? then before else LastSelect(before, Of(m, LastWriter(m).value))
    ensures LastWriter(m).Some? ==> LastSelect(None, Of(m, LastWriter(m).value)).Some?
    ensures LastWriter(m).Some? ==> exists t :: t in m && t.command == LastWriter(m).value
    decreases |m|
  {
    if m != [] {
      var front, last := m[..|m| - 1], m[|m| - 1];
      LastWriterDecides(before, front);
      SnocSelect(before, Steps(front), last.step);
      SnocSelect(before, Of(front, last.command), last.step);
      SnocSelect(None, Of(front, last.command), last.step);
      assert last in m;
      if LastWriter(front).Some? {
        var i := LastWriter(front).value;
        var t :| t in front && t.command == i;
        assert t in m;
        if i != last.command { assert Of(m, i) == Of(front, i) + [] == Of(front, i); }
      }
    }
  }

  /** The colour a command leaves the selector on when it writes it: a switch its target, if the flip
      happened and was not taken back, and what it started from otherwise; a default deploy what it
      desired. */
  function Leaves(x: Command): Colour
    requires ValidCommand(x)
  {
    match x
    case SwitchTo(sw, w) =>
      if ConvergeRun(sw.conf, DestStack(sw.gatewayApi), false, w.promote).status.Ok? && w.promote.flipped
         && (w.promote.stableServing || !w.promote.rolledBack)
      then sw.target else SwitchBootstrap(sw, w)
    case Deploy(d, w) => DesiredTraffic(d, w)
  }

  lemma {:induction false} WrittenOverAny(before: Option<Colour>, log: seq<Step>)
    requires LastSelect(None, log).Some?
    ensures LastSelect(before, log) == LastSelect(None, log)
    decreases |log|
  {
    if log != [] && !log[|log| - 1].Select? { WrittenOverAny(before, log[..|log| - 1]); }
  }

  lemma {:induction false} SwitchLeaves(v: View, sw: SwitchIn, w: SwitchWorld)
    requires ValidConf(sw.conf) && v.selector == None && Exec(v, SwitchRun(sw, w).log).selector.Some?
    ensures Exec(v, SwitchRun(sw, w).log).selector == Some(Leaves(SwitchTo(sw, w)))
  {
    hide SwitchRun, ConvergeRun, PromoteRun;
    var b := SwitchBootstrap(sw, w);
    SwitchOutcome(v, sw, w);
    PromoteSelector(v, sw.conf, DestStack(sw.gatewayApi), false, b, sw.target, true, w.promote);
    var after := Exec(v, SwitchRun(sw, w).log).selector.value;
    assert after == b || after == Opposite(b);
    assert sw.target == b || sw.target == Opposite(b);
  }

  /** A command that writes the selector leaves it on its colour, wherever it fails afterwards. */
  lemma {:induction false} CommandLeaves(v: View, x: Command)
    requires ValidCommand(x) && LastSelect(None, CommandRun(x).log).Some?
    ensures LastSelect(v.selector, CommandRun(x).log) == Some(Leaves(x))
  {
    hide DeployRun, SwitchRun, DeployWrites, Leaves;
    WrittenOverAny(v.selector, CommandRun(x).log);
    var blank := v.(selector := None);
    SelectorIsLastSelect(blank, CommandRun(x).log);
    match x
    case SwitchTo(sw, w) => SwitchLeaves(blank, sw, w);
    case Deploy(d, w) =>
      DefaultDeploySelector(blank, d, w);
      DeployLeaves(d, w);
  }

  lemma {:induction false} DeployLeaves(d: DeployIn, w: DeployWorld)
    requires ValidConf(d.conf) && IsDefault(d)
    ensures Leaves(Deploy(d, w)) == DesiredTraffic(d, w)
  {
  }

  /** Any number of switches and default deploys, each failing wherever it fails, however their calls
      interleave and whatever each one read: the selector ends on the colour the last one to write it
      leaves, and untouched if none did. */
  lemma {:induction false} InterleavedSelector(v: View, cs: seq<Command>, m: seq<Tagged>)
    requires (forall x :: x in cs ==> ValidCommand(x)) && Interleaves(cs, m)
    ensures LastWriter(m).Some? ==> LastWriter(m).value < |cs|
    ensures Exec(v, Steps(m)).selector ==
      if LastWriter(m).None? then v.selector else Some(Leaves(cs[LastWriter(m).value]))
  {
    hide CommandRun, Leaves;
    SelectorIsLastSelect(v, Steps(m));
    LastWriterDecides(v.selector, m);
    if LastWriter(m).Some? { CommandLeaves(v, cs[LastWriter(m).value]); }
  }

  lemma {:induction false} PromotedLeaves(sw: SwitchIn, w: SwitchWorld)
    requires ValidConf(sw.conf) && Promoted(sw, w)
    ensures Leaves(SwitchTo(sw, w)) == sw.target
  {
    hide PromoteRun, ConvergeRun;
    var v := View(map[], map[], map[], None, None, None, None, Gateway, {}, {});
    PromoteSelector(v, sw.conf, DestStack(sw.gatewayApi), false, SwitchBootstrap(sw, w), sw.target, true, w.promote);
    if !w.promote.bootstrapped { Unbootstrapped(sw, w); }
  }

  /** A default deploy that read the live colour as ready before or while a switch promotes the other one:
      the switch prevails if and only if it wrote the selector last. */
  lemma {:induction false} InterleavedExactly(v: View, sw: SwitchIn, sww: SwitchWorld, d: DeployIn, w: DeployWorld,
                                              m: seq<Tagged>, c: Colour)
    requires ValidConf(sw.conf) && ValidConf(d.conf) && IsDefault(d) && v.selector == Some(c) && sw.target != c
    requires Interleaves([SwitchTo(sw, sww), Deploy(d, w)], m) && Promoted(sw, sww) && SeenReady(w) && w.seen == Some(c)
    ensures Exec(v, Steps(m)).selector == Some(if LastWriter(m) == Some(0) then sw.target else c)
  {
    hide PromoteRun, CommandRun, ConvergeRun, Promoted;
    InterleavedSelector(v, [SwitchTo(sw, sww), Deploy(d, w)], m);
    PromotedLeaves(sw, sww);
  }

  /** Such a deploy writing after a completed switch: the selector is back on the old colour. */
  lemma {:induction false} StaleDeployTakesBack(v: View, sw: SwitchIn, sww: SwitchWorld, d: DeployIn, w: DeployWorld, c: Colour)
    requires ValidConf(sw.conf) && ValidConf(d.conf) && IsDefault(d) && sw.target != c
    requires SwitchRun(sw, sww).status.Ok? && DeployWrites(d, w) && SeenReady(w) && w.seen == Some(c)
    ensures Exec(v, SwitchRun(sw, sww).log).selector == Some(sw.target)
    ensures Exec(v, SwitchRun(sw, sww).log + DeployRun(d, w).log).selector == Some(c)
  {
    hide SwitchRun, DeployRun, PromoteRun, ConvergeRun, DeployWrites;
    SwitchOutcome(v, sw, sww);
    ExecConcat(v, SwitchRun(sw, sww).log, DeployRun(d, w).log);
    DefaultDeploySelector(Exec(v, SwitchRun(sw, sww).log), d, w);
  }

  // ----- what an interleaving leaves standing

  predicate Drops(s: Step, c: Colour) {
    s == DropService(c) || s == DropDeployment(c)
  }

  ghost function Standing(c: Colour): View -> bool {
    (v: View) => Stands(v, c)
  }

  lemma {:induction false} StandsExactly(v: View, log: seq<Step>, c: Colour)
    requires Stands(v, c)
    ensures Along(v, log, Standing(c)) <==> forall s :: s in log ==> !Drops(s, c)
    decreases |log|
  {
    var P := Standing(c);
    AlongEmptyExactly(v, P);
    if log != [] {
      assert log == [log[0]] + log[1..];
      AlongOneExactly(v, log[0], P);
      AlongConcatExactly(v, [log[0]], log[1..], P);
      DropTakesDown(v, log[0], c);
      if !Drops(log[0], c) { StandsExactly(Apply(v, log[0]), log[1..], c); }
    }
  }

  lemma {:induction false} DropTakesDown(v: View, s: Step, c: Colour)
    requires Stands(v, c)
    ensures Stands(Apply(v, s), c) <==> !Drops(s, c)
  {
  }

  /** The colour the deploy read first leads it to delete `c`, and it gets as far as the first delete. */
  predicate Condemns(x: Command, c: Colour) {
    x.Deploy? && x.d.updateDeployment && x.dw.dropped >= 1 && NextTraffic(x.dw.live) == c
  }

  lemma {:induction false} CommandDrops(x: Command, c: Colour)
    requires ValidCommand(x)
    ensures (exists s :: s in CommandRun(x).log && Drops(s, c)) <==> Condemns(x, c)
  {
    hide SwitchRun, DeployRun, PrepareRun, RouteRun;
    match x
    case SwitchTo(sw, w) => SwitchIsGated(sw, w);
    case Deploy(d, w) =>
      DeployShape(d, w);
      PrepareDrops(d, w, c);
      RouteSteps(d, w);
      var rest := if d.remove then Skip() else Then(if d.updateProxy then RouteRun(d, w) else Skip(), Pass(w.certificates));
      forall s | s in rest.log ensures !Drops(s, c) {
        assert s in RouteRun(d, w).log;
        assert PromoteStep(s, {DeployBootstrap(d, w), DesiredTraffic(d, w)});
      }
      ThenHas(PrepareRun(d, w), rest, c);
  }

  lemma {:induction false} ThenHas(a: Run, b: Run, c: Colour)
    requires forall s :: s in b.log ==> !Drops(s, c)
    ensures (exists s :: s in Then(a, b).log && Drops(s, c)) <==> (exists s :: s in a.log && Drops(s, c))
  {
  }

  lemma {:induction false} PrepareDrops(d: DeployIn, w: DeployWorld, c: Colour)
    requires IsDefault(d)
    ensures (exists s :: s in PrepareRun(d, w).log && Drops(s, c)) <==> Condemns(Deploy(d, w), c)
  {
    var n := NextTraffic(w.live);
    DropTwo(n);
    var drop := if d.updateDeployment then DropRun(DeployVersions(d, w.live), w.dropped) else Skip();
    var create := if d.remove || !d.updateDeployment then Skip() else CreateRun(d, w);
    var rest := Then(Pass(w.swept), create);
    assert forall s :: s in rest.log ==> !Drops(s, c);
    ThenHas(drop, rest, c);
    assert forall s :: s in drop.log ==> s in DropSteps([n]);
    if Condemns(Deploy(d, w), c) { assert drop.log[0] == DropService(n) && drop.log[0] in drop.log; }
  }

  lemma {:induction false} StepsAreTagged(m: seq<Tagged>, s: Step)
    ensures s in Steps(m) <==> exists i: nat :: s in Of(m, i)
    ensures forall i: nat :: s in Of(m, i) ==> exists t :: t in m && t.command == i
    decreases |m|
  {
    if m != [] {
      var front, last := m[..|m| - 1], m[|m| - 1];
      StepsAreTagged(front, s);
      forall i: nat ensures s in Of(m, i) <==> s in Of(front, i) || (last.command == i && s == last.step) {
      }
      assert last in m && forall t :: t in front ==> t in m;
      if s in Steps(front) {
        var i: nat :| s in Of(front, i);
        assert s in Of(m, i);
      } else if s == last.step {
        assert s in Of(m, last.command);
      } else {
        assert forall i: nat :: s !in Of(front, i);
      }
    }
  }

  /** A colour that stands does so in every state of the interleaving, between any two calls, if and only if
      no deploy among the commands is led by what it read first to delete it. */
  lemma {:induction false} InterleavedStands(v: View, cs: seq<Command>, m: seq<Tagged>, c: Colour)
    requires (forall x :: x in cs ==> ValidCommand(x)) && Interleaves(cs, m) && Stands(v, c)
    ensures Along(v, Steps(m), Standing(c)) <==> forall x :: x in cs ==> !Condemns(x, c)
  {
    hide CommandRun, Condemns, Stands, Drops, Of, Steps;
    StandsExactly(v, Steps(m), c);
    if s :| s in Steps(m) && Drops(s, c) {
      StepsAreTagged(m, s);
      var i: nat :| s in Of(m, i);
      var t :| t in m && t.command == i;
      CommandDrops(cs[i], c);
    }
    if x :| x in cs && Condemns(x, c) {
      var i :| 0 <= i < |cs| && cs[i] == x;
      CommandDrops(x, c);
      var s :| s in CommandRun(x).log && Drops(s, c);
      StepsAreTagged(m, s);
      assert s in Of(m, i);
      assert s in Steps(m);
    }
  }
}
