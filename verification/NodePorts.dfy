/** Who holds the node's ports 80 and 443 across runs of `cluster --contour` and
    `cluster --gateway-api`: Contour's hostPort, the Gateway data plane on the host network, or the
    underpost ingress in front of both. */
module NodePorts {
  import opened Base

  datatype State = State(contour: bool, hostPort: bool, gateway: bool, hostNetwork: bool, ingress: bool)

  datatype Step =
    | ApplyContour
    | Release
    | Prune
    | InstallGateway
    | ApplyClass(hostNetwork: bool)
    | InstallIngress

  function Apply(s: State, step: Step): State {
    match step
    case ApplyContour => s.(contour := true, hostPort := true)
    case Release => s.(hostPort := false)
    case Prune => if s.hostPort then s.(contour := false, hostPort := false) else s
    case InstallGateway => s.(gateway := true)
    case ApplyClass(h) => s.(hostNetwork := h)
    case InstallIngress => s.(ingress := true)
  }

  datatype Flags = Flags(contour: bool, gatewayApi: bool, dev: bool)

  /** The answers of one run. A release or prune may silently not take hold. `stops` is the place at
      which a call throws; from `SLOTS` on none does. */
  datatype World = World(
    sawContour: bool,
    sawGateway: bool,
    contourReleased: bool,
    gatewayReleased: bool,
    pruned: bool,
    free: bool,
    stops: nat)

  const SLOTS: nat := 7

  predicate Shared(f: Flags, w: World) {
    (f.contour && w.sawGateway) || (f.gatewayApi && w.sawContour)
  }

  // The places of a run, in order. A run that makes no call at a place leaves the state as it is.

  function Render(s: State, f: Flags): State {
    if f.contour then Apply(s, ApplyContour) else s
  }

  function Unclaim(s: State, f: Flags, w: World): State {
    if f.contour && Shared(f, w) && w.contourReleased then Apply(s, Release) else s
  }

  function Clear(s: State, f: Flags, w: World): State {
    if !f.gatewayApi then s
    else if Shared(f, w) then (if w.gatewayReleased then Apply(s, Release) else s)
    else (if w.pruned then Apply(s, Prune) else s)
  }

  function Install(s: State, f: Flags): State {
    if f.gatewayApi then Apply(s, InstallGateway) else s
  }

  function Class(s: State, f: Flags, w: World): State {
    if f.gatewayApi then Apply(s, ApplyClass(f.dev && !Shared(f, w))) else s
  }

  /** A `--contour` run that found the Gateway stack moves its data plane off the host network. */
  function Reclass(s: State, f: Flags, w: World): State {
    if Shared(f, w) && f.contour && w.sawGateway then Apply(s, ApplyClass(false)) else s
  }

  function Front(s: State, f: Flags, w: World): State {
    if Shared(f, w) && w.free then Apply(s, InstallIngress) else s
  }

  function Released(s: State, f: Flags, w: World): State { Unclaim(Render(s, f), f, w) }
  function Cleared(s: State, f: Flags, w: World): State { Clear(Released(s, f, w), f, w) }
  function Installed(s: State, f: Flags, w: World): State { Install(Cleared(s, f, w), f) }
  function Classed(s: State, f: Flags, w: World): State { Class(Installed(s, f, w), f, w) }
  function Reclassed(s: State, f: Flags, w: World): State { Reclass(Classed(s, f, w), f, w) }
  function Fronted(s: State, f: Flags, w: World): State { Front(Reclassed(s, f, w), f, w) }

  /** The state once the first `i` places of the run are behind it. */
  function Stage(s: State, f: Flags, w: World, i: nat): State {
    if i == 0 then s
    else if i == 1 then Render(s, f)
    else if i == 2 then Released(s, f, w)
    else if i == 3 then Cleared(s, f, w)
    else if i == 4 then Installed(s, f, w)
    else if i == 5 then Classed(s, f, w)
    else if i == 6 then Reclassed(s, f, w)
    else Fronted(s, f, w)
  }

  function Reached(w: World): nat {
    if w.stops < SLOTS then w.stops else SLOTS
  }

  predicate Completed(w: World) {
    w.stops >= SLOTS
  }

  /** Where a run leaves the node. */
  function After(s: State, f: Flags, w: World): State {
    Stage(s, f, w, Reached(w))
  }

  /** Each stack is told about the other: the run found the one it does not install. */
  predicate FoundNeighbour(f: Flags, w: World) {
    (f.contour && w.sawGateway) || (f.gatewayApi && w.sawContour)
  }

  // What stands on the node once `i` places are behind the run, one thing at a time.

  predicate HostPortAt(s: State, f: Flags, w: World, i: nat) {
    (s.hostPort || (i >= 1 && f.contour))
    && !(i >= 2 && f.contour && FoundNeighbour(f, w) && w.contourReleased)
    && !(i >= 3 && f.gatewayApi && (if FoundNeighbour(f, w) then w.gatewayReleased else w.pruned))
  }

  predicate ContourAt(s: State, f: Flags, w: World, i: nat) {
    (s.contour || (i >= 1 && f.contour))
    && !(i >= 3 && f.gatewayApi && !FoundNeighbour(f, w) && w.pruned && (s.hostPort || f.contour))
  }

  predicate GatewayAt(s: State, f: Flags, i: nat) {
    s.gateway || (i >= 4 && f.gatewayApi)
  }

  predicate HostNetworkAt(s: State, f: Flags, w: World, i: nat) {
    if i >= 6 && f.contour && w.sawGateway then false
    else if i >= 5 && f.gatewayApi then f.dev && !FoundNeighbour(f, w) else s.hostNetwork
  }

  predicate IngressAt(s: State, f: Flags, w: World, i: nat) {
    s.ingress || (i >= 7 && FoundNeighbour(f, w) && w.free)
  }

  function StateAt(s: State, f: Flags, w: World, i: nat): State {
    State(ContourAt(s, f, w, i), HostPortAt(s, f, w, i), GatewayAt(s, f, i), HostNetworkAt(s, f, w, i), IngressAt(s, f, w, i))
  }

  lemma {:induction false} FirstPlaces(s: State, f: Flags, w: World)
    ensures StateAt(s, f, w, 0) == s
    ensures Render(s, f) == StateAt(s, f, w, 1)
    ensures Unclaim(StateAt(s, f, w, 1), f, w) == StateAt(s, f, w, 2)
  {
  }

  lemma {:induction false} ClearPlace(s: State, f: Flags, w: World)
    ensures Clear(StateAt(s, f, w, 2), f, w) == StateAt(s, f, w, 3)
  {
  }

  lemma {:induction false} GatewayPlaces(s: State, f: Flags, w: World)
    ensures Install(StateAt(s, f, w, 3), f) == StateAt(s, f, w, 4)
    ensures Class(StateAt(s, f, w, 4), f, w) == StateAt(s, f, w, 5)
  {
  }

  lemma {:induction false} LastPlaces(s: State, f: Flags, w: World)
    ensures Reclass(StateAt(s, f, w, 5), f, w) == StateAt(s, f, w, 6)
    ensures Front(StateAt(s, f, w, 6), f, w) == StateAt(s, f, w, 7)
  {
  }

  /** A run at every place it may stop at. In particular a completed one puts the edge up exactly when it
      found the other stack and the ports were free. */
  lemma {:induction false} StageExactly(s: State, f: Flags, w: World, i: nat)
    requires i <= 7
    ensures Stage(s, f, w, i) == StateAt(s, f, w, i)
  {
    hide StateAt, Render, Unclaim, Clear, Install, Class, Reclass, Front;
    FirstPlaces(s, f, w);
    ClearPlace(s, f, w);
    GatewayPlaces(s, f, w);
    LastPlaces(s, f, w);
  }

  // ----- waiting for the ports

  /** One look at the cluster: whether Contour's DaemonSet claims a port, and whether the Gateway data
      plane is on the host network. */
  datatype Look = Look(hostPort: bool, hostNetwork: bool)

  predicate Held(l: Look) { l.hostPort || l.hostNetwork }

  /** Polls until nothing holds the ports or the deadline has passed; the first look is taken before
      the clock is consulted, and one more after the last wait. */
  method AwaitHostPortsFree(looks: seq<Look>, beforeDeadline: nat) returns (free: bool)
    requires |looks| == beforeDeadline + 1
    ensures free <==> exists k :: 0 <= k <= beforeDeadline && !looks[k].hostPort && !looks[k].hostNetwork
  {
    var k := 0;
    var current := looks[0];
    while Held(current) && k < beforeDeadline
      invariant 0 <= k <= beforeDeadline && current == looks[k]
      invariant forall i :: 0 <= i < k ==> Held(looks[i])
    {
      k := k + 1;
      current := looks[k];
    }
    free := !Held(current);
  }

  // ----- the init command

  class Node {
    var contour: bool
    var hostPort: bool
    var gateway: bool
    var hostNetwork: bool
    var ingress: bool

    function Now(): State
      reads this
    {
      State(contour, hostPort, gateway, hostNetwork, ingress)
    }

    /** Contour's published manifest, which always claims hostPort 80 and 443. */
    method ApplyContourRender(f: Flags)
      modifies this
      ensures Now() == Render(old(Now()), f)
    {
      if f.contour { contour, hostPort := true, true; }
    }

    method ReleaseBesideGateway(f: Flags, w: World)
      modifies this
      ensures Now() == Unclaim(old(Now()), f, w)
    {
      if f.contour && Shared(f, w) && w.contourReleased { hostPort := false; }
    }

    /** What stands in the way of the Gateway stack: released when Contour stays, pruned otherwise. */
    method ClearHostPort(f: Flags, w: World)
      modifies this
      ensures Now() == Clear(old(Now()), f, w)
    {
      if !f.gatewayApi { return; }
      if Shared(f, w) {
        if w.gatewayReleased { hostPort := false; }
      } else if w.pruned && hostPort {
        contour, hostPort := false, false;
      }
    }

    method InstallControlPlane(f: Flags)
      modifies this
      ensures Now() == Install(old(Now()), f)
    {
      if f.gatewayApi { gateway := true; }
    }

    method ApplyGatewayClass(f: Flags, w: World)
      modifies this
      ensures Now() == Class(old(Now()), f, w)
    {
      if f.gatewayApi { hostNetwork := f.dev && !Shared(f, w); }
    }

    method LeaveHostNetwork(f: Flags, w: World)
      modifies this
      ensures Now() == Reclass(old(Now()), f, w)
    {
      if Shared(f, w) && f.contour && w.sawGateway { hostNetwork := false; }
    }

    method InstallEdge(f: Flags, w: World)
      modifies this
      ensures Now() == Front(old(Now()), f, w)
    {
      if Shared(f, w) && w.free { ingress := true; }
    }

    /** The ingress part of `cluster` init. */
    method Init(f: Flags, w: World) returns (s: Status)
      modifies this
      ensures Now() == After(old(Now()), f, w)
      ensures s == if Completed(w) then Ok else Failed
      ensures Now() == StateAt(old(Now()), f, w, if w.stops < 7 then w.stops else 7)
      ensures s.Ok? ==> (ingress <==> old(ingress) || (w.free && FoundNeighbour(f, w)))
      ensures (f.contour || f.gatewayApi) && s.Ok? ==> (OneOwner(Now()) <==> Settles(old(Now()), f, w))
      ensures Verified(w) && (f.contour || f.gatewayApi) && s.Ok? && SawRight(old(Now()), w) && Wellformed(old(Now()))
              ==> OneOwner(Now())
    {
      hide StateAt, FoundNeighbour, Settles, Render, Unclaim, Clear, Install, Class, Reclass, Front, OneOwner;
      hide Wellformed, SawRight, Verified;
      InitFacts(Now(), f, w);
      if w.stops == 0 { return Failed; }
      ApplyContourRender(f);
      if w.stops == 1 { return Failed; }
      ReleaseBesideGateway(f, w);
      if w.stops == 2 { return Failed; }
      ClearHostPort(f, w);
      if w.stops == 3 { return Failed; }
      InstallControlPlane(f);
      if w.stops == 4 { return Failed; }
      ApplyGatewayClass(f, w);
      if w.stops == 5 { return Failed; }
      LeaveHostNetwork(f, w);
      if w.stops == 6 { return Failed; }
      InstallEdge(f, w);
      s := Ok;
    }
  }

  lemma {:induction false} InitFacts(s: State, f: Flags, w: World)
    ensures var t := After(s, f, w);
      && t == StateAt(s, f, w, if w.stops < 7 then w.stops else 7)
      && (Completed(w) ==> (t.ingress <==> s.ingress || (w.free && FoundNeighbour(f, w))))
      && ((f.contour || f.gatewayApi) && Completed(w) ==> (OneOwner(t) <==> Settles(s, f, w)))
      && ((f.contour || f.gatewayApi) && Completed(w) && Verified(w) && SawRight(s, w) && Wellformed(s) ==> OneOwner(t))
  {
    var i := if w.stops < 7 then w.stops else 7;
    StageExactly(s, f, w, i);
    EdgeAtTheEnd(s, f, w);
    hide StateAt, FoundNeighbour, Settles, Stage, OneOwner, Wellformed, SawRight, Verified;
    if (f.contour || f.gatewayApi) && Completed(w) {
      CompletedRunHasOneOwner(s, f, w);
      if Verified(w) && SawRight(s, w) && Wellformed(s) { RightReadsSettle(s, f, w); }
    }
  }

  lemma {:induction false} EdgeAtTheEnd(s: State, f: Flags, w: World)
    ensures StateAt(s, f, w, 7).ingress <==> s.ingress || (w.free && FoundNeighbour(f, w))
  {
  }

  // ----- what a run may assume of its answers

  /** Both presence reads answered. */
  predicate SawRight(s: State, w: World) {
    w.sawContour == s.contour && w.sawGateway == s.gateway
  }

  /** Presence is read off the cluster, and the wait before the edge ends positively only over free
      ports. */
  predicate Honest(s: State, f: Flags, w: World) {
    && SawRight(s, w)
    && (w.free ==> !Reclassed(s, f, w).hostPort && !Reclassed(s, f, w).hostNetwork)
  }

  /** Every release and prune of the run does its work. */
  predicate Verified(w: World) {
    w.contourReleased && w.gatewayReleased && w.pruned
  }

  predicate OneOwner(s: State) {
    !(s.hostPort && s.hostNetwork) && !(s.hostPort && s.ingress) && !(s.hostNetwork && s.ingress)
  }

  /** A claim needs its holder, and the edge is there only when both stacks are. */
  predicate Wellformed(s: State) {
    (s.hostPort ==> s.contour) && (s.hostNetwork ==> s.gateway) && (s.ingress ==> s.contour && s.gateway)
  }

  lemma {:induction false} ClearedWellformed(s: State, f: Flags, w: World)
    requires Wellformed(s) && w.sawContour == s.contour && w.sawGateway == s.gateway
    ensures Wellformed(Render(s, f)) && Wellformed(Released(s, f, w)) && Wellformed(Cleared(s, f, w))
    ensures Shared(f, w) ==> Cleared(s, f, w).contour
    ensures Cleared(s, f, w).gateway == s.gateway
  {
  }

  lemma {:induction false} ReclassedWellformed(s: State, f: Flags, w: World)
    requires Wellformed(s) && w.sawContour == s.contour && w.sawGateway == s.gateway
    ensures Wellformed(Installed(s, f, w)) && Wellformed(Classed(s, f, w)) && Wellformed(Reclassed(s, f, w))
    ensures Shared(f, w) ==> Reclassed(s, f, w).contour && Reclassed(s, f, w).gateway
  {
    ClearedWellformed(s, f, w);
  }

  /** Any part of a run keeps the state well formed. */
  lemma {:induction false} StageWellformed(s: State, f: Flags, w: World, i: nat)
    requires Wellformed(s) && Honest(s, f, w) && i <= SLOTS
    ensures Wellformed(Stage(s, f, w, i))
  {
    ClearedWellformed(s, f, w);
    ReclassedWellformed(s, f, w);
  }

  /** A release the run makes of Contour's claim takes hold. */
  predicate Unclaims(f: Flags, w: World) {
    (f.contour && w.contourReleased) || (f.gatewayApi && w.gatewayReleased)
  }

  /** What decides whether a run leaves one owner on the state it found. Beside the other stack: Contour's
      claim goes, or there is none, or nothing comes in front of it. Alone: no two of Contour's claim, the
      host network and a left-over edge. */
  predicate Settles(s: State, f: Flags, w: World) {
    if Shared(f, w) then
      Unclaims(f, w) || !(s.hostPort || f.contour) || !(s.ingress || w.free)
    else
      var claim := (s.hostPort || f.contour) && !(f.gatewayApi && w.pruned);
      var network := if f.gatewayApi then f.dev else s.hostNetwork;
      !(claim && network) && !(claim && s.ingress) && !(network && s.ingress)
  }

  /** A completed run, from any state and whatever its reads, releases and wait answered: it ends with at
      most one owner if and only if it settles. */
  lemma {:induction false} CompletedRunHasOneOwner(s: State, f: Flags, w: World)
    requires (f.contour || f.gatewayApi) && Completed(w)
    ensures OneOwner(After(s, f, w)) <==> Settles(s, f, w)
  {
  }

  /** When every release takes hold that means: the run saw the other stack, or there was no one to
      collide with. */
  lemma {:induction false} VerifiedSettlesExactly(s: State, f: Flags, w: World)
    requires Verified(w) && (f.contour || f.gatewayApi)
    ensures Settles(s, f, w) <==>
      (Shared(f, w) || (if f.gatewayApi then !(f.dev && s.ingress) else !s.hostNetwork && !s.ingress))
  {
  }

  /** Right presence reads then settle, also on a node where an aborted run left two owners. */
  lemma {:induction false} RightReadsSettle(s: State, f: Flags, w: World)
    requires Verified(w) && Wellformed(s) && (f.contour || f.gatewayApi) && SawRight(s, w)
    ensures Settles(s, f, w)
  {
  }

  /** Beside the other stack, with a wait that answers right, a release that did not take hold is harmless
      exactly when no edge is there yet: the run then puts none over the claim. */
  lemma {:induction false} FailedReleaseExactly(s: State, f: Flags, w: World)
    requires Shared(f, w) && Completed(w) && !Unclaims(f, w) && Honest(s, f, w)
    ensures OneOwner(After(s, f, w)) <==> !((s.hostPort || f.contour) && s.ingress)
  {
  }

  /** The edge is applied only where neither data plane holds the ports, and only by a run that found
      the other stack installed. */
  lemma {:induction false} IngressOnlyOverFreePorts(s: State, f: Flags, w: World)
    requires Wellformed(s) && Honest(s, f, w) && Fronted(s, f, w) != Reclassed(s, f, w)
    ensures var t := Reclassed(s, f, w);
      !t.hostPort && !t.hostNetwork && t.contour && t.gateway && (s.contour || s.gateway)
  {
  }

  datatype Invocation = Invocation(flags: Flags, world: World)

  function AfterAll(s: State, runs: seq<Invocation>): State
    decreases |runs|
  {
    if runs == [] then s else AfterAll(After(s, runs[0].flags, runs[0].world), runs[1..])
  }

  predicate HonestHistory(s: State, runs: seq<Invocation>)
    decreases |runs|
  {
    runs == [] || (Honest(s, runs[0].flags, runs[0].world)
                   && HonestHistory(After(s, runs[0].flags, runs[0].world), runs[1..]))
  }

  lemma {:induction false} HistoryWellformed(s: State, runs: seq<Invocation>)
    requires Wellformed(s) && HonestHistory(s, runs)
    ensures Wellformed(AfterAll(s, runs))
    decreases |runs|
  {
    if runs != [] {
      StageWellformed(s, runs[0].flags, runs[0].world, Reached(runs[0].world));
      HistoryWellformed(After(s, runs[0].flags, runs[0].world), runs[1..]);
    }
  }

  /** For every sequence of runs in either order, aborted, unverified and misread ones among them: after
      each completed run the ports have at most one owner if and only if that run settles on what the
      others left; and when all of them read the presence right and its releases take hold, it does. */
  lemma {:induction false} PortsHaveOneOwner(s: State, runs: seq<Invocation>, last: Invocation)
    requires (last.flags.contour || last.flags.gatewayApi) && Completed(last.world)
    ensures var t := AfterAll(s, runs);
      && (OneOwner(After(t, last.flags, last.world)) <==> Settles(t, last.flags, last.world))
      && (Wellformed(s) && HonestHistory(s, runs) && Honest(t, last.flags, last.world) && Verified(last.world) ==>
            OneOwner(After(t, last.flags, last.world)))
  {
    var t := AfterAll(s, runs);
    CompletedRunHasOneOwner(t, last.flags, last.world);
    if Wellformed(s) && HonestHistory(s, runs) && Honest(t, last.flags, last.world) && Verified(last.world) {
      HistoryWellformed(s, runs);
      RightReadsSettle(t, last.flags, last.world);
    }
  }

  // ----- what the assumptions are needed for

  /** Beside a live edge, place by place. */
  lemma {:induction false} ContourStage(s: State, dev: bool, w: World, i: nat)
    requires s.ingress && OneOwner(s) && i <= SLOTS
    ensures var t := Stage(s, Flags(true, false, dev), w, i);
      t.ingress && !t.hostNetwork && (t.hostPort <==> i >= 1 && !(i >= 2 && w.sawGateway && w.contourReleased))
  {
    var f := Flags(true, false, dev);
    assert Cleared(s, f, w) == Released(s, f, w) && Classed(s, f, w) == Released(s, f, w);
    if i == 6 || i == 7 { assert Reclassed(s, f, w).hostPort == Released(s, f, w).hostPort; }
  }

  /** `--contour` beside a live edge, whatever happens to it: the node has one owner afterwards if and
      only if the run did not get to Contour's manifest, or saw the Gateway stack and got past a release
      that took hold. An exception between the two, or a release reported as failed and then ignored,
      leaves two. */
  lemma {:induction false} ContourBesideEdgeExactly(s: State, dev: bool, w: World)
    requires s.ingress && OneOwner(s)
    ensures OneOwner(After(s, Flags(true, false, dev), w)) <==>
            (w.stops == 0 || (w.stops >= 2 && w.sawGateway && w.contourReleased))
  {
    hide Stage;
    ContourStage(s, dev, w, Reached(w));
  }

  /** A presence read that fails while Contour runs behind the edge: the Gateway install keeps its
      development host network and the node has two owners. */
  lemma {:induction false} MisreadPresenceSplitsPorts()
    ensures exists w: World ::
      var s := State(true, false, true, false, true); var f := Flags(false, true, true);
      && Wellformed(s) && OneOwner(s) && Verified(w) && Completed(w) && !w.sawContour
      && !OneOwner(After(s, f, w))
  {
    var w := World(false, true, true, true, true, false, SLOTS);
    var s := State(true, false, true, false, true);
    assert Wellformed(s) && OneOwner(s) && Verified(w) && Completed(w) && !w.sawContour
      && !OneOwner(After(s, Flags(false, true, true), w));
  }
}
