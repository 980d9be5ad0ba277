/** What a promotion keeps, judged before it starts: conditions over the state it finds and the answers it
    will get, with nothing of the run in them. */
module FirstState {
  import opened Base
  import opened Routing
  import opened Promotion
  import opened SingleFlip
  import opened Migration
  import opened UnservedStack

  // ----- where the edge sends a host

  /** The stack has a route for the host once the run has published its own. */
  predicate Has(v: View, conf: Conf, dest: Stack, s: Stack, h: Host) {
    Holds(v, s, h) || (s == dest && Published(conf, h))
  }

  /** And once the old routes are deleted. */
  predicate StillHas(v: View, conf: Conf, dest: Stack, s: Stack, h: Host) {
    Has(v, conf, dest, s, h) && (s == dest || h == "" || h !in conf.hosts)
  }

  /** Where the first rebuild sends the host, and where the second one does. */
  function FirstSent(v: View, conf: Conf, dest: Stack, w: PromoteWorld, h: Host): Stack {
    Sends(w.first.answers, dest, Has(v, conf, dest, Contour, h), Has(v, conf, dest, Gateway, h))
  }

  function SecondSent(v: View, conf: Conf, dest: Stack, w: PromoteWorld, h: Host): Stack {
    Sends(w.second.answers, dest, StillHas(v, conf, dest, Contour, h), StillHas(v, conf, dest, Gateway, h))
  }

  /** The stack the host is handed to while the old routes go, and after a completed migration. */
  function OnceRefreshed(v: View, conf: Conf, dest: Stack, w: PromoteWorld, h: Host): Stack {
    if Updates(w.first) && w.first.loaded then FirstSent(v, conf, dest, w, h) else Pick(v, h)
  }

  function OnceMigrated(v: View, conf: Conf, dest: Stack, w: PromoteWorld, h: Host): Stack {
    if Updates(w.first) && Updates(w.second) && w.second.loaded then SecondSent(v, conf, dest, w, h)
    else OnceRefreshed(v, conf, dest, w, h)
  }

  // ----- the answers that keep one colour

  /** The old stack sends the path to `current`. */
  predicate OldServes(v: View, dest: Stack, current: Colour, h: Host, p: Path) {
    ColourThrough(v.(selector := Some(current)), Other(dest), h, p) == Some(current)
  }

  ghost predicate FirstLoadServes(v: View, conf: Conf, dest: Stack, current: Colour, w: PromoteWorld) {
    w.first.loaded ==>
      forall h, p :: h in conf.rules && p in conf.rules[h] ==>
        FirstSent(v, conf, dest, w, h) == dest || OldServes(v, dest, current, h, p)
  }

  ghost predicate FirstRestoreServes(v: View, conf: Conf, dest: Stack, current: Colour, w: PromoteWorld) {
    w.first.ending.RolledBack? ==>
      forall h, p :: h in conf.rules && p in conf.rules[h] ==>
        PickedBy(w.first.ending.edge, h) == dest || OldServes(v, dest, current, h, p)
  }

  ghost predicate RemovalServes(v: View, conf: Conf, dest: Stack, w: PromoteWorld) {
    forall h :: h in Removed(conf, w) && h != "" && Published(conf, h) ==> OnceRefreshed(v, conf, dest, w, h) == dest
  }

  ghost predicate SecondLoadServes(v: View, conf: Conf, dest: Stack, current: Colour, w: PromoteWorld) {
    w.second.loaded ==>
      forall h, p :: h in conf.rules && p in conf.rules[h] ==>
        SecondSent(v, conf, dest, w, h) == dest || (h == "" && OldServes(v, dest, current, h, p))
  }

  ghost predicate SecondRestoreServes(v: View, conf: Conf, dest: Stack, current: Colour, w: PromoteWorld) {
    w.second.ending.RolledBack? ==>
      forall h, p :: h in conf.rules && p in conf.rules[h] ==>
        PickedBy(w.second.ending.edge, h) == dest || (h == "" && OldServes(v, dest, current, h, p))
  }

  /** Each table the edge comes to run sends every path to the new route, or to an old one that is still
      there and leads to the same colour; only hosts sent to the new route lose the old one. */
  ghost predicate EdgeCarries(v: View, conf: Conf, dest: Stack, current: Colour, w: PromoteWorld) {
    Updates(w.first) ==>
      && FirstLoadServes(v, conf, dest, current, w)
      && FirstRestoreServes(v, conf, dest, current, w)
      && (w.first.ending.Settled? ==>
            && RemovalServes(v, conf, dest, w)
            && (w.removed >= |conf.hosts| && Updates(w.second) ==>
                  SecondLoadServes(v, conf, dest, current, w) && SecondRestoreServes(v, conf, dest, current, w)))
  }

  /** When the selector moves, every path is on the new route or on an old one through the stable Service. */
  ghost predicate FlipCarries(v: View, conf: Conf, dest: Stack, w: PromoteWorld) {
    forall h, p :: h in conf.rules && p in conf.rules[h] ==>
      OnceMigrated(v, conf, dest, w, h) == dest || ThroughStable(v, Other(dest), h, p)
  }

  /** The answers for which a promotion never splits the deploy it finds on `current`. */
  ghost predicate PromotionCarries(v: View, conf: Conf, dest: Stack, mustExist: bool, current: Colour, target: Colour,
                                   w: PromoteWorld)
    requires ValidConf(conf)
  {
    w.bootstrapped ==>
      && InstallCarries(v, conf, dest, w)
      && (InstallRun(conf, dest, w).status.Ok? && ApplyRun(conf, dest, mustExist, w).status.Ok? ==>
            && EdgeCarries(v, conf, dest, current, w)
            && (MigrateRun(conf, dest, w).status.Ok? && target != current && w.flipped ==> FlipCarries(v, conf, dest, w)))
  }

  // ----- the states of the run in terms of the first one

  /** Everything of a state that later conditions read: the edge, who holds which host, the old routes. */
  ghost predicate Mirrors(v: View, x: View, conf: Conf, dest: Stack, current: Colour) {
    && x.edge == v.edge && x.front == v.front && x.selector == Some(current)
    && (forall s, h :: Holds(x, s, h) <==> Has(v, conf, dest, s, h))
    && (forall h, p :: (ColourThrough(x, Other(dest), h, p) == Some(current)) <==> OldServes(v, dest, current, h, p))
    && (forall h, p :: ThroughStable(x, Other(dest), h, p) <==> ThroughStable(v, Other(dest), h, p))
  }

  lemma {:induction false} ConvergingIs(v: View, conf: Conf, dest: Stack, mustExist: bool, current: Colour, w: PromoteWorld)
    requires ValidConf(conf) && InstallRun(conf, dest, w).status.Ok? && ApplyRun(conf, dest, mustExist, w).status.Ok?
    ensures Mirrors(v, Converging(v, conf, dest, mustExist, current, w), conf, dest, current)
  {
    hide InstallRun, ApplyRun, Published, BlocksReady, AllRendered, ColourThrough, ThroughStable, OldServes;
    var v1 := Apply(v, Select(current));
    var v2 := Exec(v1, InstallRun(conf, dest, w).log);
    var x := Exec(v2, ApplyRun(conf, dest, mustExist, w).log);
    OnlyDestKeepsFront(v1, conf, dest, mustExist, w);
    InstallEnds(v1, conf, dest, w);
    forall h ensures Holds(x, dest, h) <==> Has(v, conf, dest, dest, h) {
      PublishHoldsExactly(v2, conf, dest, mustExist, w, h);
    }
    forall h ensures Holds(x, Other(dest), h) <==> Has(v, conf, dest, Other(dest), h) {
      SameOld(v, x, dest, current, h, "");
    }
    forall s, h ensures Holds(x, s, h) <==> Has(v, conf, dest, s, h) {
      assert s == dest || s == Other(dest);
    }
    forall h, p
      ensures (ColourThrough(x, Other(dest), h, p) == Some(current)) <==> OldServes(v, dest, current, h, p)
      ensures ThroughStable(x, Other(dest), h, p) <==> ThroughStable(v, Other(dest), h, p)
    {
      SameOld(v, x, dest, current, h, p);
    }
  }

  lemma {:induction false} SameOld(v: View, x: View, dest: Stack, current: Colour, h: Host, p: Path)
    requires SameFront(v.(selector := Some(current)), x, dest) && x.selector == Some(current)
    ensures Holds(x, Other(dest), h) <==> Holds(v, Other(dest), h)
    ensures (ColourThrough(x, Other(dest), h, p) == Some(current)) <==> OldServes(v, dest, current, h, p)
    ensures ThroughStable(x, Other(dest), h, p) <==> ThroughStable(v, Other(dest), h, p)
  {
  }

  lemma {:induction false} FirstRebuild(v: View, x: View, conf: Conf, dest: Stack, current: Colour, w: PromoteWorld)
    requires Mirrors(v, x, conf, dest, current) && Updates(w.first)
    ensures RebuildCarries(x, conf, dest, current, w.first) <==> FirstLoadServes(v, conf, dest, current, w)
    ensures RestoreCarries(x, conf, dest, current, w.first) <==> FirstRestoreServes(v, conf, dest, current, w)
    ensures forall h :: Pick(Refreshed(x, dest, w.first), h) == OnceRefreshed(v, conf, dest, w, h)
  {
    hide PicksDest, ColourThrough, OldServes, Sends, HostTable, Pick, PickedBy;
    var r := w.first.answers;
    forall h ensures Pick(Apply(x, Refresh(dest, r)), h) == FirstSent(v, conf, dest, w, h) {
      RebuildSends(x, r, dest, h);
      assert Holds(x, Contour, h) == Has(v, conf, dest, Contour, h) && Holds(x, Gateway, h) == Has(v, conf, dest, Gateway, h);
    }
    forall h, p | h in conf.rules && p in conf.rules[h] ensures PicksDest(x, r, dest, h) <==> FirstSent(v, conf, dest, w, h) == dest {
      assert Published(conf, h) && Holds(x, dest, h);
      PicksDestExactly(x, r, dest, h);
    }
    forall h ensures Pick(x, h) == Pick(v, h) { SamePick(v, x, h); }
  }

  lemma {:induction false} SamePick(v: View, x: View, h: Host)
    requires x.edge == v.edge && x.front == v.front
    ensures Pick(x, h) == Pick(v, h)
  {
  }

  /** The state after the old routes went: who still holds what. */
  ghost predicate MirrorsCleared(v: View, y: View, conf: Conf, dest: Stack, current: Colour) {
    && (forall s, h :: Holds(y, s, h) <==> StillHas(v, conf, dest, s, h))
    && (forall h, p :: h in conf.hosts ==>
          ((ColourThrough(y, Other(dest), h, p) == Some(current)) <==> h == "" && OldServes(v, dest, current, h, p)))
    && (forall h, p :: h in conf.hosts ==> (ThroughStable(y, Other(dest), h, p) <==> h == "" && ThroughStable(v, Other(dest), h, p)))
  }

  lemma {:induction false} ClearedIs(v: View, x: View, conf: Conf, dest: Stack, current: Colour, w: PromoteWorld)
    requires Mirrors(v, x, conf, dest, current)
    ensures var y := Exec(Refreshed(x, dest, w.first), RemoveSteps(Other(dest), conf.hosts));
      MirrorsCleared(v, y, conf, dest, current) && forall h :: Pick(y, h) == Pick(Refreshed(x, dest, w.first), h)
  {
    hide OldServes, Has, HostTable, Exec, RemoveSteps, Holds, ColourThrough, ThroughStable, Named, PickedBy;
    var u := Refreshed(x, dest, w.first);
    RemoveClears(u, dest, conf.hosts);
    var y := Exec(u, RemoveSteps(Other(dest), conf.hosts));
    forall s, h ensures Holds(y, s, h) <==> StillHas(v, conf, dest, s, h) {
      assert Holds(x, s, h) <==> Has(v, conf, dest, s, h);
      OldGone(x, y, conf.hosts, dest, current, h, "");
      assert s == dest || s == Other(dest);
    }
    forall h, p | h in conf.hosts
      ensures (ColourThrough(y, Other(dest), h, p) == Some(current)) <==> h == "" && OldServes(v, dest, current, h, p)
      ensures ThroughStable(y, Other(dest), h, p) <==> h == "" && ThroughStable(v, Other(dest), h, p)
    {
      OldGone(x, y, conf.hosts, dest, current, h, p);
    }
  }

  lemma {:induction false} OldGone(x: View, y: View, hosts: seq<Host>, dest: Stack, current: Colour, h: Host, p: Path)
    requires y == if dest == Contour then x.(edge := y.edge, routes := x.routes - Named(hosts))
                  else x.(edge := y.edge, proxies := x.proxies - Named(hosts))
    ensures Holds(y, dest, h) <==> Holds(x, dest, h)
    ensures Holds(y, Other(dest), h) <==> Holds(x, Other(dest), h) && (h == "" || h !in hosts)
    ensures h in hosts ==>
      ((ColourThrough(y, Other(dest), h, p) == Some(current)) <==> h == "" && ColourThrough(x, Other(dest), h, p) == Some(current))
    ensures h in hosts ==> (ThroughStable(y, Other(dest), h, p) <==> h == "" && ThroughStable(x, Other(dest), h, p))
  {
  }

  lemma {:induction false} SecondRebuild(v: View, y: View, conf: Conf, dest: Stack, current: Colour, w: PromoteWorld)
    requires ValidConf(conf) && MirrorsCleared(v, y, conf, dest, current) && Updates(w.second)
    ensures RebuildCarries(y, conf, dest, current, w.second) <==> SecondLoadServes(v, conf, dest, current, w)
    ensures RestoreCarries(y, conf, dest, current, w.second) <==> SecondRestoreServes(v, conf, dest, current, w)
    ensures forall h :: Pick(Apply(y, Refresh(dest, w.second.answers)), h) == SecondSent(v, conf, dest, w, h)
  {
    hide PicksDest, ColourThrough, OldServes, Sends, HostTable, Pick, PickedBy;
    var r := w.second.answers;
    forall h ensures Pick(Apply(y, Refresh(dest, r)), h) == SecondSent(v, conf, dest, w, h) {
      RebuildSends(y, r, dest, h);
      assert Holds(y, Contour, h) == StillHas(v, conf, dest, Contour, h) && Holds(y, Gateway, h) == StillHas(v, conf, dest, Gateway, h);
    }
    forall h, p | h in conf.rules && p in conf.rules[h] ensures PicksDest(y, r, dest, h) <==> SecondSent(v, conf, dest, w, h) == dest {
      assert Published(conf, h) && Holds(y, dest, h);
      PicksDestExactly(y, r, dest, h);
    }
  }

  // ----- one colour, clause by clause

  /** The phases carry exactly when the answers do, judged from the first state. */
  lemma {:induction false} MigrationForeseen(v: View, x: View, conf: Conf, dest: Stack, current: Colour, w: PromoteWorld)
    requires ValidConf(conf) && Mirrors(v, x, conf, dest, current)
    ensures MigrationCarries(x, conf, dest, current, w) <==> EdgeCarries(v, conf, dest, current, w)
  {
    hide RebuildCarries, RestoreCarries, FirstLoadServes, FirstRestoreServes, SecondLoadServes, SecondRestoreServes;
    hide Mirrors, MirrorsCleared, OnceRefreshed, Refreshed, Pick, Published, AnyBackend, Exec, RemoveSteps;
    if Updates(w.first) {
      FirstRebuild(v, x, conf, dest, current, w);
      ClearedIs(v, x, conf, dest, current, w);
      if Updates(w.second) {
        SecondRebuild(v, Exec(Refreshed(x, dest, w.first), RemoveSteps(Other(dest), conf.hosts)), conf, dest, current, w);
      } else {
        NoRefreshCarries(Exec(Refreshed(x, dest, w.first), RemoveSteps(Other(dest), conf.hosts)), conf, dest, current, w.second);
      }
    } else {
      NoRefreshCarries(x, conf, dest, current, w.first);
    }
  }

  lemma {:induction false} NoRefreshCarries(v: View, conf: Conf, dest: Stack, current: Colour, a: RefreshAnswers)
    requires !Updates(a)
    ensures RefreshCarries(v, conf, dest, current, a)
  {
  }

  /** Where a completed migration leaves a path whose answer it kept. */
  lemma {:induction false} EndsViaStable(v: View, x: View, conf: Conf, dest: Stack, current: Colour, w: PromoteWorld, h: Host, p: Path)
    requires ValidConf(conf) && Mirrors(v, x, conf, dest, current) && MigrateRun(conf, dest, w).status.Ok?
    requires Converged(Exec(x, MigrateRun(conf, dest, w).log), conf, dest, current)
    requires h in conf.rules && p in conf.rules[h]
    ensures ViaStable(Exec(x, MigrateRun(conf, dest, w).log), h, p) <==>
            (OnceMigrated(v, conf, dest, w, h) == dest || ThroughStable(v, Other(dest), h, p))
  {
    hide Mirrors, MirrorsCleared, OnceRefreshed, Refreshed, PickedBy, Exec, MigrateRun;
    var z := Exec(x, MigrateRun(conf, dest, w).log);
    assert Published(conf, h) && Resolve(z, h, p) == Some(current);
    MigratedPath(v, x, conf, dest, current, w, h, p);
    if Pick(z, h) == dest { RenderedViaStable(z, conf, dest, h, p); }
    else { AnsweredIsHeld(z, current, h, p); }
  }

  lemma {:induction false} AnsweredIsHeld(z: View, current: Colour, h: Host, p: Path)
    requires Resolve(z, h, p) == Some(current)
    ensures Holds(z, Pick(z, h), h)
  {
  }

  lemma {:induction false} RenderedViaStable(v: View, conf: Conf, dest: Stack, h: Host, p: Path)
    requires h in conf.rules && p in conf.rules[h] && Rendered(v, conf, dest, h) && BlocksReady(v, conf, dest)
    ensures ThroughStable(v, dest, h, p)
  {
    if dest == Gateway && conf.rules[h][p] { assert Intercepted(conf.rules[h]); }
  }

  lemma {:induction false} MigratedPath(v: View, x: View, conf: Conf, dest: Stack, current: Colour, w: PromoteWorld, h: Host, p: Path)
    requires ValidConf(conf) && Mirrors(v, x, conf, dest, current) && MigrateRun(conf, dest, w).status.Ok? && h in conf.rules
    ensures var z := Exec(x, MigrateRun(conf, dest, w).log);
      && Pick(z, h) == OnceMigrated(v, conf, dest, w, h)
      && (Updates(w.first) && h != "" ==> !Holds(z, Other(dest), h))
      && (!Updates(w.first) || h == "" ==> (ThroughStable(z, Other(dest), h, p) <==> ThroughStable(v, Other(dest), h, p)))
  {
    hide ColourThrough, OldServes, Sends, HostTable, PickedBy, RemoveSteps, Exec, Has, Holds, ThroughStable;
    hide RebuildCarries, RestoreCarries, FirstLoadServes, FirstRestoreServes, SecondLoadServes, SecondRestoreServes, MigrateRun;
    MigrationEnds(x, conf, dest, w);
    SamePick(v, x, h);
    if Updates(w.first) {
      MigrateIs(x, conf, dest, w);
      FirstRebuild(v, x, conf, dest, current, w);
      ClearedIs(v, x, conf, dest, current, w);
      var y := Exec(Refreshed(x, dest, w.first), RemoveSteps(Other(dest), conf.hosts));
      if Updates(w.second) { SecondRebuild(v, y, conf, dest, current, w); }
      OnlyEdge(y, Refreshed(y, dest, w.second), Other(dest), h, p);
    }
  }

  lemma {:induction false} OnlyEdge(y: View, z: View, s: Stack, h: Host, p: Path)
    requires z == y.(edge := z.edge)
    ensures Holds(z, s, h) == Holds(y, s, h) && ThroughStable(z, s, h, p) == ThroughStable(y, s, h, p)
  {
  }

  /** The shared middle of both commands. From a state whose paths all answer from `current` the paths
      never split, in any state between two calls and wherever the run fails, if and only if the
      answers carry it. */
  lemma {:induction false} PromoteAlong(v: View, conf: Conf, dest: Stack, mustExist: bool, current: Colour, target: Colour,
                                        awaits: bool, w: PromoteWorld)
    requires ValidConf(conf) && Uniform(v, conf, current) && (v.selector == None || v.selector == Some(current))
    ensures Along(v, PromoteRun(conf, dest, mustExist, current, target, awaits, w).log, OneColour(conf, current))
      <==> PromotionCarries(v, conf, dest, mustExist, current, target, w)
  {
    hide Resolve, InstallRun, ApplyRun, MigrateRun, PromoteRun, MigrationCarries, EdgeCarries, FlipCarries;
    hide AllViaStable, InstallCarries, BlocksReady, Mirrors, Converged, Publishing, Uniform;
    PhasesAlong(v, conf, dest, mustExist, current, target, awaits, w);
    if w.bootstrapped && InstallCarries(v, conf, dest, w)
       && InstallRun(conf, dest, w).status.Ok? && ApplyRun(conf, dest, mustExist, w).status.Ok? {
      var x := Converging(v, conf, dest, mustExist, current, w);
      ConvergingIs(v, conf, dest, mustExist, current, w);
      MigrationForeseen(v, x, conf, dest, current, w);
      if MigrateRun(conf, dest, w).status.Ok? && MigrationCarries(x, conf, dest, current, w) {
        ConvergingConverged(v, conf, dest, mustExist, current, w);
        MigratePhase(x, conf, dest, current, w);
        FlipForeseen(v, x, conf, dest, current, w);
      }
    }
  }

  lemma {:induction false} ConvergingConverged(v: View, conf: Conf, dest: Stack, mustExist: bool, current: Colour, w: PromoteWorld)
    requires ValidConf(conf) && Uniform(v, conf, current) && (v.selector == None || v.selector == Some(current))
    requires InstallCarries(v, conf, dest, w)
    requires InstallRun(conf, dest, w).status.Ok? && ApplyRun(conf, dest, mustExist, w).status.Ok?
    ensures Converged(Converging(v, conf, dest, mustExist, current, w), conf, dest, current)
  {
    hide Resolve, InstallRun, ApplyRun, InstallCarries, BlocksReady, Converged;
    var v1 := Apply(v, Select(current));
    BootstrapUniform(v, conf, current);
    SameInstall(v, v1, conf, dest, w);
    InstallPhase(v1, conf, dest, current, w);
    ApplyPhase(Exec(v1, InstallRun(conf, dest, w).log), conf, dest, mustExist, current, w);
  }

  lemma {:induction false} FlipForeseen(v: View, x: View, conf: Conf, dest: Stack, current: Colour, w: PromoteWorld)
    requires ValidConf(conf) && Mirrors(v, x, conf, dest, current) && MigrateRun(conf, dest, w).status.Ok?
    requires Converged(Exec(x, MigrateRun(conf, dest, w).log), conf, dest, current)
    ensures AllViaStable(Exec(x, MigrateRun(conf, dest, w).log), conf) <==> FlipCarries(v, conf, dest, w)
  {
    hide Mirrors, MigrateRun, Converged, ViaStable, OnceMigrated, ThroughStable, Exec;
    forall h, p | h in conf.rules && p in conf.rules[h]
      ensures ViaStable(Exec(x, MigrateRun(conf, dest, w).log), h, p) <==>
              (OnceMigrated(v, conf, dest, w, h) == dest || ThroughStable(v, Other(dest), h, p))
    {
      EndsViaStable(v, x, conf, dest, current, w, h, p);
    }
  }

  // ----- no host unrouted

  /** Each table the edge comes to run hands every host of the set to a stack that has a route for it at
      that moment, and a host loses its old route only when it is handed to the new one. */
  ghost predicate EdgeKeeps(v: View, conf: Conf, dest: Stack, w: PromoteWorld, all: set<Host>) {
    Updates(w.first) ==>
      && (w.first.loaded ==> forall h :: h in all ==> Has(v, conf, dest, FirstSent(v, conf, dest, w, h), h))
      && (w.first.ending.RolledBack? ==> forall h :: h in all ==> Has(v, conf, dest, PickedBy(w.first.ending.edge, h), h))
      && (w.first.ending.Settled? ==>
            && (forall h :: h in Removed(conf, w) && h != "" && h in all ==> OnceRefreshed(v, conf, dest, w, h) == dest)
            && (w.removed >= |conf.hosts| && Updates(w.second) ==>
                  && (w.second.loaded ==> forall h :: h in all ==> StillHas(v, conf, dest, SecondSent(v, conf, dest, w, h), h))
                  && (w.second.ending.RolledBack? ==>
                        forall h :: h in all ==> StillHas(v, conf, dest, PickedBy(w.second.ending.edge, h), h))))
  }

  /** Across a promotion, wherever it fails, every host of the set that had an answer keeps one in every
      state between two calls, if and only if the answers keep them. Hosts of other deploys may be in the
      set. */
  lemma {:induction false} PromoteNeverUnroutes(v: View, conf: Conf, dest: Stack, mustExist: bool, bootstrap: Colour,
                                                desired: Colour, awaits: bool, w: PromoteWorld, all: set<Host>)
    requires ValidConf(conf) && AllReach(all)(v)
    ensures Along(v, PromoteRun(conf, dest, mustExist, bootstrap, desired, awaits, w).log, AllReach(all)) <==>
      (w.bootstrapped && InstallRun(conf, dest, w).status.Ok? && ApplyRun(conf, dest, mustExist, w).status.Ok? ==>
         EdgeKeeps(v, conf, dest, w, all))
  {
    hide InstallRun, ApplyRun, MigrateRun, PromoteRun, MigrationKeeps, EdgeKeeps, Mirrors, Reaches;
    PhasesKeepRouted(v, conf, dest, mustExist, bootstrap, desired, awaits, w, all);
    if w.bootstrapped && InstallRun(conf, dest, w).status.Ok? && ApplyRun(conf, dest, mustExist, w).status.Ok? {
      ConvergingIs(v, conf, dest, mustExist, bootstrap, w);
      ConvergingReaches(v, conf, dest, mustExist, bootstrap, w, all);
      KeepsForeseen(v, Converging(v, conf, dest, mustExist, bootstrap, w), conf, dest, bootstrap, w, all);
    }
  }

  lemma {:induction false} ConvergingReaches(v: View, conf: Conf, dest: Stack, mustExist: bool, bootstrap: Colour,
                                             w: PromoteWorld, all: set<Host>)
    requires ValidConf(conf) && AllReach(all)(v)
    ensures AllReach(all)(Converging(v, conf, dest, mustExist, bootstrap, w))
  {
    hide InstallRun, ApplyRun, Reaches;
    var v1 := Apply(v, Select(bootstrap));
    SelectReaches(v, bootstrap, all);
    InstallReaches(v1, conf, dest, w, all);
    AlongEnds(v1, InstallRun(conf, dest, w).log, AllReach(all));
    var v2 := Exec(v1, InstallRun(conf, dest, w).log);
    ApplyReaches(v2, conf, dest, mustExist, w, all);
    AlongEnds(v2, ApplyRun(conf, dest, mustExist, w).log, AllReach(all));
  }

  /** A rebuild keeps a routed host exactly when the stack it sends it to has a route for it. */
  lemma {:induction false} KeptBySending(x: View, r: Reads, dest: Stack, h: Host)
    requires AnyBackend(r) && Routed(x, h)
    ensures RebuildReaches(x, r, h) <==> Holds(x, Sends(r, dest, h in x.proxies, h in x.routes), h)
  {
    hide RebuildReaches, Sends, HostTable, PickedBy;
    RebuildReachesExactly(x, r, dest, h);
    RebuildSends(x, r, dest, h);
  }

  lemma {:induction false} FirstRebuildKeeps(v: View, x: View, conf: Conf, dest: Stack, c: Colour, w: PromoteWorld, all: set<Host>)
    requires Mirrors(v, x, conf, dest, c) && Updates(w.first) && AllReach(all)(x)
    ensures RebuildKeeps(x, w.first, all) <==>
      (w.first.loaded ==> forall h :: h in all ==> Has(v, conf, dest, FirstSent(v, conf, dest, w, h), h))
    ensures RestoreKeeps(x, w.first, all) <==>
      (w.first.ending.RolledBack? ==> forall h :: h in all ==> Has(v, conf, dest, PickedBy(w.first.ending.edge, h), h))
  {
    hide Has, Sends, PickedBy, RebuildReaches, ColourThrough, ThroughStable, OldServes;
    forall h | h in all ensures RebuildReaches(x, w.first.answers, h) <==> Has(v, conf, dest, FirstSent(v, conf, dest, w, h), h) {
      assert Reaches(x, h);
      KeptBySending(x, w.first.answers, dest, h);
      assert Holds(x, Contour, h) == Has(v, conf, dest, Contour, h) && Holds(x, Gateway, h) == Has(v, conf, dest, Gateway, h);
    }
  }

  lemma {:induction false} SecondRebuildKeeps(v: View, y: View, conf: Conf, dest: Stack, c: Colour, w: PromoteWorld, all: set<Host>)
    requires MirrorsCleared(v, y, conf, dest, c) && Updates(w.second) && AllReach(all)(y)
    ensures RebuildKeeps(y, w.second, all) <==>
      (w.second.loaded ==> forall h :: h in all ==> StillHas(v, conf, dest, SecondSent(v, conf, dest, w, h), h))
    ensures RestoreKeeps(y, w.second, all) <==>
      (w.second.ending.RolledBack? ==> forall h :: h in all ==> StillHas(v, conf, dest, PickedBy(w.second.ending.edge, h), h))
  {
    hide StillHas, Sends, PickedBy, RebuildReaches, ColourThrough, ThroughStable, OldServes;
    forall h | h in all ensures RebuildReaches(y, w.second.answers, h) <==> StillHas(v, conf, dest, SecondSent(v, conf, dest, w, h), h) {
      assert Reaches(y, h);
      KeptBySending(y, w.second.answers, dest, h);
      assert Holds(y, Contour, h) == StillHas(v, conf, dest, Contour, h) && Holds(y, Gateway, h) == StillHas(v, conf, dest, Gateway, h);
    }
  }

  lemma {:induction false} KeepsForeseen(v: View, x: View, conf: Conf, dest: Stack, c: Colour, w: PromoteWorld, all: set<Host>)
    requires Mirrors(v, x, conf, dest, c) && AllReach(all)(x)
    ensures MigrationKeeps(x, conf, dest, w, all) <==> EdgeKeeps(v, conf, dest, w, all)
  {
    hide Mirrors, MirrorsCleared, RebuildKeeps, RestoreKeeps, Has, StillHas, OnceRefreshed, Pick, Reaches, Exec, RemoveSteps, Refreshed;
    if Updates(w.first) {
      var u := Refreshed(x, dest, w.first);
      FirstRebuild(v, x, conf, dest, c, w);
      FirstRebuildKeeps(v, x, conf, dest, c, w, all);
      ClearedIs(v, x, conf, dest, c, w);
      var y := Exec(u, RemoveSteps(Other(dest), conf.hosts));
      if !Updates(w.second) {
        NoRefreshKeeps(y, w.second, all);
      } else if w.removed >= |conf.hosts| && RebuildKeeps(x, w.first, all) && RemovalKeeps(u, dest, conf.hosts, all) {
        RefreshReaches(x, dest, w.first, all);
        RemoveReaches(u, dest, conf.hosts, all);
        AlongEnds(u, RemoveSteps(Other(dest), conf.hosts), AllReach(all));
        SecondRebuildKeeps(v, y, conf, dest, c, w, all);
      }
    } else {
      NoRefreshKeeps(x, w.first, all);
    }
  }

  lemma {:induction false} NoRefreshKeeps(v: View, a: RefreshAnswers, all: set<Host>)
    requires !Updates(a)
    ensures RefreshKeeps(v, a, all)
  {
  }
}
