/** The shared edge's configuration reload: a candidate is validated, swapped in, published in the
    manifest, and taken back when publishing throws. The state kept between runs is the running
    configuration, the files beside it and the ConfigMap. */
module EdgeReload {
  import opened Base

  /** An nginx configuration, up to trailing white space. */
  type Text = string

  /** The nginx container: what the master loaded, and the files under /tmp. */
  datatype Pod = Pod(running: Text, file: Text, previous: Option<Text>, candidate: Option<Text>)

  datatype State = State(pod: Option<Pod>, configMap: Option<Text>)

  /** How far the swap command got: each stage includes the ones before. `Lost` means the reload took
      effect and the command was reported as failed all the same. */
  datatype Swap = NotRun | SavedPrevious | CopiedCandidate | Lost | Reloaded

  /** How far a roll-back got; its failure is not reported. */
  datatype Rollback = RollbackLost | RollbackCopied | RollbackReloaded

  /** `kubectl apply` sends two documents, the ConfigMap first. */
  datatype Manifest = NothingApplied | ConfigMapApplied | BothApplied

  /** The answers of one run. `ready`: the live deployment answered with the expected mount and a
      ready replica. `templateChanged`: applying the Deployment replaces the pod. */
  datatype World = World(
    ready: bool,
    changesNode: bool,
    preflight: bool,
    liveRead: bool,
    candidateWritten: bool,
    testRan: bool,
    swap: Swap,
    firstRollback: Rollback,
    manifest: Manifest,
    secondRollback: Rollback,
    templateChanged: bool,
    cleaned: bool,
    waits: bool)

  datatype Outcome = Outcome(state: State, status: Status)

  // ----- the steps on the container

  function Swapped(p: Pod, s: Swap): Pod
    requires p.candidate.Some?
  {
    match s
    case NotRun => p
    case SavedPrevious => p.(previous := Some(p.file))
    case CopiedCandidate => p.(previous := Some(p.file), file := p.candidate.value)
    case Lost => p.(previous := Some(p.file), file := p.candidate.value, running := p.candidate.value)
    case Reloaded => p.(previous := Some(p.file), file := p.candidate.value, running := p.candidate.value)
  }

  /** Copies whatever previous file there is, from this run or an earlier one. */
  function RolledBack(p: Pod, r: Rollback): Pod {
    if p.previous.None? then p
    else match r
      case RollbackLost => p
      case RollbackCopied => p.(file := p.previous.value)
      case RollbackReloaded => p.(file := p.previous.value, running := p.previous.value)
  }

  /** A container that starts copies the ConfigMap; nginx does not start on a rejected one. */
  function Started(conf: Text, valid: Text -> bool): Option<Pod> {
    if valid(conf) then Some(Pod(conf, conf, None, None)) else None
  }

  predicate Hot(s: State, w: World) {
    w.ready && s.pod.Some?
  }

  /** The live configuration is re-read; when that read fails the reload goes ahead. */
  predicate ShouldReload(s: State, conf: Text, w: World) {
    Hot(s, w) && (if w.liveRead then s.pod.value.file else "") != conf
  }

  // ----- one run

  /** From the candidate to the swap. `Ok` means the new configuration is loaded. */
  function HotReload(p: Pod, conf: Text, valid: Text -> bool, w: World): (Pod, Status) {
    if !w.candidateWritten then (p.(candidate := None), Failed)
    else
      var q := p.(candidate := Some(conf));
      if !w.testRan || !valid(conf) then (q, Failed)
      else if w.swap.Reloaded? then (Swapped(q, w.swap), Ok)
      else (RolledBack(Swapped(q, w.swap), w.firstRollback), Failed)
  }

  predicate Restarts(s: State, w: World) {
    w.changesNode || w.templateChanged || s.pod.None?
  }

  /** The manifest apply and everything after it; `reloaded` says whether a swap has to be undone. */
  function Publish(s: State, conf: Text, valid: Text -> bool, reloaded: bool, w: World): Outcome {
    var undone := if reloaded && s.pod.Some? then s.(pod := Some(RolledBack(s.pod.value, w.secondRollback))) else s;
    match w.manifest
    case NothingApplied => Outcome(undone, Failed)
    case ConfigMapApplied => Outcome(undone.(configMap := Some(conf)), Failed)
    case BothApplied =>
      var pod := if Restarts(s, w) then Started(conf, valid)
                 else if reloaded && w.cleaned then Some(s.pod.value.(previous := None, candidate := None))
                 else s.pod;
      Outcome(State(pod, Some(conf)), if w.waits then Ok else Failed)
  }

  function InstallRun(s: State, conf: Text, valid: Text -> bool, w: World): Outcome {
    if w.changesNode && !w.preflight then Outcome(s, Failed)
    else if ShouldReload(s, conf, w) then
      var (p, status) := HotReload(s.pod.value, conf, valid, w);
      if status != Ok then Outcome(s.(pod := Some(p)), Failed)
      else Publish(s.(pod := Some(p)), conf, valid, true, w)
    else Publish(s, conf, valid, false, w)
  }

  // ----- what a run has to keep

  /** What nginx runs, and every file it may be made to run, passed validation. */
  predicate Validated(s: State, valid: Text -> bool) {
    s.pod.Some? ==>
      valid(s.pod.value.running) && valid(s.pod.value.file)
      && (s.pod.value.previous.Some? ==> valid(s.pod.value.previous.value))
  }

  lemma {:induction false} InstallValidated(s: State, conf: Text, valid: Text -> bool, w: World)
    requires Validated(s, valid)
    ensures Validated(InstallRun(s, conf, valid, w).state, valid)
  {
  }

  /** What a run needs to find: the loaded configuration is the file, and a left-over previous file
      is that same file. */
  predicate Settled(s: State) {
    s.pod.Some? && s.pod.value.file == s.pod.value.running
    && (s.pod.value.previous.Some? ==> s.pod.value.previous.value == s.pod.value.file)
  }

  /** Roll-backs and the final clean-up reach the container. */
  predicate Reliable(w: World) {
    w.firstRollback.RollbackReloaded? && w.secondRollback.RollbackReloaded? && w.cleaned
  }

  /** An ordinary refresh of the host table: the edge is ready and keeps its pod. */
  predicate Ordinary(w: World) {
    w.ready && !w.changesNode && !w.templateChanged
  }

  /** The point of no return: both documents are applied. */
  predicate Commits(s: State, conf: Text, valid: Text -> bool, w: World) {
    w.manifest.BothApplied? &&
    (ShouldReload(s, conf, w) ==> w.candidateWritten && w.testRan && valid(conf) && w.swap.Reloaded?)
  }

  /** An ordinary run either commits, and the edge runs and the ConfigMap holds the new text, or
      leaves the edge exactly on what it was running. The state it leaves is one the next run can
      rely on. The ConfigMap follows only when its document was applied. */
  lemma {:induction false} ReloadIsATransaction(s: State, conf: Text, valid: Text -> bool, w: World)
    requires Settled(s) && Reliable(w) && Ordinary(w) && conf != ""
    ensures var o := InstallRun(s, conf, valid, w);
      && Settled(o.state)
      && (Commits(s, conf, valid, w) ==>
            o.state.pod.value.running == conf && o.state.configMap == Some(conf) && o.status == if w.waits then Ok else Failed)
      && (!Commits(s, conf, valid, w) ==>
            o.state.pod.value.running == s.pod.value.running && o.status == Failed
            && (o.state.configMap == s.configMap || (w.manifest.ConfigMapApplied? && o.state.configMap == Some(conf))))
      && (!w.swap.Reloaded? && ShouldReload(s, conf, w) ==> o.state.configMap == s.configMap)
  {
  }

  lemma {:induction false} InstallFacts(s: State, conf: Text, valid: Text -> bool, w: World)
    ensures var o := InstallRun(s, conf, valid, w);
      && (Validated(s, valid) ==> Validated(o.state, valid))
      && (Settled(s) && Reliable(w) && Ordinary(w) && conf != "" ==>
            && Settled(o.state)
            && (if Commits(s, conf, valid, w) then o.state.pod.value.running == conf && o.state.configMap == Some(conf)
                else o.state.pod.value.running == s.pod.value.running && o.status == Failed))
  {
    if Validated(s, valid) { InstallValidated(s, conf, valid, w); }
    if Settled(s) && Reliable(w) && Ordinary(w) && conf != "" { ReloadIsATransaction(s, conf, valid, w); }
  }

  // ----- every ending, field by field

  /** A live edge whose file is not the new text: the run loads it hot. */
  predicate LoadsHot(s: State, conf: Text, w: World) {
    w.ready && s.pod.Some? && (!w.liveRead || s.pod.value.file != conf) && (!w.liveRead ==> conf != "")
  }

  /** The run does not stop at the image check of a new node. */
  predicate Starts(w: World) {
    w.changesNode ==> w.preflight
  }

  /** It gets as far as the manifest. */
  predicate Arrives(s: State, conf: Text, valid: Text -> bool, w: World) {
    Starts(w) && (LoadsHot(s, conf, w) ==> w.candidateWritten && w.testRan && valid(conf) && w.swap == Reloaded)
  }

  /** It stops in a swap that was reported as failed. */
  predicate SwapFails(s: State, conf: Text, valid: Text -> bool, w: World) {
    Starts(w) && LoadsHot(s, conf, w) && w.candidateWritten && w.testRan && valid(conf) && w.swap != Reloaded
  }

  /** The pod is started anew over the applied manifest. */
  predicate Anew(s: State, conf: Text, valid: Text -> bool, w: World) {
    Arrives(s, conf, valid, w) && w.manifest == BothApplied && (w.changesNode || w.templateChanged || s.pod.None?)
  }

  /** For any state and any answers: when a run ends normally and what it leaves in the ConfigMap. A node
      that cannot start the image stops the run before anything is touched. */
  lemma {:induction false} InstallEndsExactly(s: State, conf: Text, valid: Text -> bool, w: World)
    ensures var o := InstallRun(s, conf, valid, w);
      && o.status == (if Arrives(s, conf, valid, w) && w.manifest == BothApplied && w.waits then Ok else Failed)
      && o.state.configMap == (if Arrives(s, conf, valid, w) && w.manifest != NothingApplied then Some(conf) else s.configMap)
      && (o.state.pod.Some? <==> if Anew(s, conf, valid, w) then valid(conf) else s.pod.Some?)
      && (!Starts(w) ==> o.state == s)
  {
  }

  /** The configuration nginx runs afterwards. */
  lemma {:induction false} RunningExactly(s: State, conf: Text, valid: Text -> bool, w: World)
    requires InstallRun(s, conf, valid, w).state.pod.Some?
    ensures InstallRun(s, conf, valid, w).state.pod.value.running ==
      if Anew(s, conf, valid, w) then conf
      else
        var p := s.pod.value;
        if SwapFails(s, conf, valid, w) then
          if w.firstRollback != RollbackReloaded then (if w.swap == Lost then conf else p.running)
          else if w.swap != NotRun then p.file
          else if p.previous.Some? then p.previous.value else p.running
        else if Arrives(s, conf, valid, w) && LoadsHot(s, conf, w) then
          if w.manifest != BothApplied && w.secondRollback == RollbackReloaded then p.file else conf
        else p.running
  {
  }

  /** The file it would load again. */
  lemma {:induction false} FileExactly(s: State, conf: Text, valid: Text -> bool, w: World)
    requires InstallRun(s, conf, valid, w).state.pod.Some?
    ensures InstallRun(s, conf, valid, w).state.pod.value.file ==
      if Anew(s, conf, valid, w) then conf
      else
        var p := s.pod.value;
        if SwapFails(s, conf, valid, w) then
          match w.swap
          case NotRun => if p.previous.Some? && w.firstRollback != RollbackLost then p.previous.value else p.file
          case SavedPrevious => p.file
          case _ => if w.firstRollback == RollbackLost then conf else p.file
        else if Arrives(s, conf, valid, w) && LoadsHot(s, conf, w) then
          if w.manifest != BothApplied && w.secondRollback != RollbackLost then p.file else conf
        else p.file
  {
  }

  /** The previous file and the candidate it leaves beside that. */
  lemma {:induction false} LeftoversExactly(s: State, conf: Text, valid: Text -> bool, w: World)
    requires InstallRun(s, conf, valid, w).state.pod.Some?
    ensures var u := InstallRun(s, conf, valid, w).state.pod.value;
      var swept := Anew(s, conf, valid, w)
        || (Arrives(s, conf, valid, w) && LoadsHot(s, conf, w) && w.manifest == BothApplied && w.cleaned);
      && u.previous == (if swept then None
                        else if (SwapFails(s, conf, valid, w) && w.swap != NotRun) || (Arrives(s, conf, valid, w) && LoadsHot(s, conf, w))
                          then Some(s.pod.value.file)
                        else s.pod.value.previous)
      && u.candidate == if swept then None
                        else if Starts(w) && LoadsHot(s, conf, w) then (if w.candidateWritten then Some(conf) else None)
                        else s.pod.value.candidate
  {
  }

  // ----- the edge object

  class Ingress {
    var pod: Option<Pod>
    var configMap: Option<Text>

    function Now(): State
      reads this
    {
      State(pod, configMap)
    }

    /** Saves the running file, copies the candidate over it and signals the master. */
    method SwapCandidate(how: Swap) returns (s: Status)
      requires pod.Some? && pod.value.candidate.Some?
      modifies this
      ensures pod == Some(Swapped(old(pod).value, how)) && configMap == old(configMap)
      ensures s == if how.Reloaded? then Ok else Failed
    {
      var p := pod.value;
      if how.NotRun? { return Failed; }
      p := p.(previous := Some(p.file));
      pod := Some(p);
      if how.SavedPrevious? { return Failed; }
      p := p.(file := p.candidate.value);
      pod := Some(p);
      if how.CopiedCandidate? { return Failed; }
      pod := Some(p.(running := p.file));
      s := if how.Lost? then Failed else Ok;
    }

    method RestorePrevious(how: Rollback)
      requires pod.Some?
      modifies this
      ensures pod == Some(RolledBack(old(pod).value, how)) && configMap == old(configMap)
    {
      var p := pod.value;
      if p.previous.None? || how.RollbackLost? { return; }
      p := p.(file := p.previous.value);
      if how.RollbackReloaded? { p := p.(running := p.file); }
      pod := Some(p);
    }

    method InstallUnderpostIngress(conf: Text, valid: Text -> bool, w: World) returns (s: Status)
      modifies this
      ensures Outcome(Now(), s) == InstallRun(old(Now()), conf, valid, w)
      ensures w.changesNode && !w.preflight ==> Now() == old(Now()) && s == Failed
      ensures s == if Arrives(old(Now()), conf, valid, w) && w.manifest == BothApplied && w.waits then Ok else Failed
      ensures configMap == if Arrives(old(Now()), conf, valid, w) && w.manifest != NothingApplied then Some(conf) else old(configMap)
      ensures Validated(old(Now()), valid) ==> Validated(Now(), valid)
      ensures Settled(old(Now())) && Reliable(w) && Ordinary(w) && conf != "" ==>
        && Settled(Now())
        && (if Commits(old(Now()), conf, valid, w) then pod.value.running == conf && configMap == Some(conf)
            else pod.value.running == old(pod).value.running && s == Failed)
    {
      InstallFacts(Now(), conf, valid, w);
      InstallEndsExactly(Now(), conf, valid, w);
      var canHotReload := w.ready && pod.Some?;
      if w.changesNode && !w.preflight { return Failed; }
      var live := "";
      if canHotReload && w.liveRead { live := pod.value.file; }
      var shouldHotReload := canHotReload && live != conf;
      if shouldHotReload {
        if !w.candidateWritten {
          pod := Some(pod.value.(candidate := None));
          return Failed;
        }
        pod := Some(pod.value.(candidate := Some(conf)));
        if !w.testRan || !valid(conf) { return Failed; }
        var swapped := SwapCandidate(w.swap);
        if swapped.Failed? {
          RestorePrevious(w.firstRollback);
          return Failed;
        }
      }
      ghost var before := Now();
      if !w.manifest.NothingApplied? { configMap := Some(conf); }
      if !w.manifest.BothApplied? {
        if shouldHotReload { RestorePrevious(w.secondRollback); }
        return Failed;
      }
      if w.changesNode || w.templateChanged || pod.None? {
        pod := Started(conf, valid);
      } else if shouldHotReload && w.cleaned {
        pod := Some(pod.value.(previous := None, candidate := None));
      }
      s := if w.waits then Ok else Failed;
    }
  }

  // ----- the running configuration is a validated one

  datatype Request = Request(conf: Text, world: World)

  function History(s: State, rs: seq<Request>, valid: Text -> bool): State
    decreases |rs|
  {
    if rs == [] then s else History(InstallRun(s, rs[0].conf, valid, rs[0].world).state, rs[1..], valid)
  }

  /** Over every sequence of runs, failing anywhere, whatever nginx is running has been validated. */
  lemma {:induction false} RunningIsAlwaysValidated(s: State, rs: seq<Request>, valid: Text -> bool)
    requires Validated(s, valid)
    ensures Validated(History(s, rs, valid), valid)
    decreases |rs|
  {
    if rs != [] {
      InstallValidated(s, rs[0].conf, valid, rs[0].world);
      RunningIsAlwaysValidated(InstallRun(s, rs[0].conf, valid, rs[0].world).state, rs[1..], valid);
    }
  }

  // ----- one run is a transaction

  /** A failed run leaves running configuration and ConfigMap both as before if and only if it did
      not get as far as the ConfigMap document (or that document changed nothing). */
  lemma {:induction false} FailureRestoresBothExactly(s: State, conf: Text, valid: Text -> bool, w: World)
    requires Settled(s) && Reliable(w) && Ordinary(w) && conf != "" && !Commits(s, conf, valid, w)
    ensures var o := InstallRun(s, conf, valid, w);
      (o.state.pod.value.running == s.pod.value.running && o.state.configMap == s.configMap) <==>
      (s.configMap == Some(conf) || w.manifest.NothingApplied?
       || (ShouldReload(s, conf, w) && !(w.candidateWritten && w.testRan && valid(conf) && w.swap.Reloaded?)))
  {
  }

  /** The text the last committing run published. */
  function Register(current: Text, s: State, rs: seq<Request>, valid: Text -> bool): Text
    decreases |rs|
  {
    if rs == [] then current
    else Register(if Commits(s, rs[0].conf, valid, rs[0].world) then rs[0].conf else current,
                  InstallRun(s, rs[0].conf, valid, rs[0].world).state, rs[1..], valid)
  }

  /** Over every sequence of ordinary runs the edge is a register: it runs the text of the last run
      that committed, and nothing else is ever loaded. */
  lemma {:induction false} EdgeIsARegister(s: State, rs: seq<Request>, valid: Text -> bool)
    requires Settled(s)
    requires forall r :: r in rs ==> Reliable(r.world) && Ordinary(r.world) && r.conf != ""
    ensures Settled(History(s, rs, valid))
    ensures History(s, rs, valid).pod.value.running == Register(s.pod.value.running, s, rs, valid)
    decreases |rs|
  {
    if rs != [] {
      assert rs[0] in rs;
      ReloadIsATransaction(s, rs[0].conf, valid, rs[0].world);
      EdgeIsARegister(InstallRun(s, rs[0].conf, valid, rs[0].world).state, rs[1..], valid);
    }
  }

  // ----- what the assumptions are needed for

  /** When the swap command never ran, the roll-back restores the running configuration if and only
      if no previous file was left behind or the one left behind is that configuration. */
  lemma {:induction false} RollbackRestoresExactly(s: State, conf: Text, valid: Text -> bool, w: World)
    requires s.pod.Some? && ShouldReload(s, conf, w) && (w.changesNode ==> w.preflight)
    requires w.candidateWritten && w.testRan && valid(conf) && w.swap.NotRun? && w.firstRollback.RollbackReloaded?
    ensures InstallRun(s, conf, valid, w).state.pod.value.running == s.pod.value.running <==>
            (s.pod.value.previous.None? || s.pod.value.previous.value == s.pod.value.running)
  {
  }

  /** A lost clean-up followed by a swap that never ran: the second run, which changes nothing by
      itself, puts back the configuration from before the first. */
  lemma {:induction false} LostCleanupResurrectsOldTable(old0: Text, new1: Text, new2: Text, valid: Text -> bool)
    requires valid(new1) && valid(new2) && old0 != new1 && new1 != new2 && new1 != "" && new2 != ""
    ensures exists w1: World, w2: World ::
      var s := State(Some(Pod(old0, old0, None, None)), Some(old0));
      var first := InstallRun(s, new1, valid, w1);
      var second := InstallRun(first.state, new2, valid, w2);
      && first.status == Ok && first.state.pod.value.running == new1
      && second.status == Failed && second.state.pod.value.running == old0
  {
    var w1 := World(true, false, true, true, true, true, Reloaded, RollbackReloaded, BothApplied, RollbackReloaded, false, false, true);
    var w2 := w1.(swap := NotRun);
    var s := State(Some(Pod(old0, old0, None, None)), Some(old0));
    var first := InstallRun(s, new1, valid, w1);
    var second := InstallRun(first.state, new2, valid, w2);
    assert first.status == Ok && first.state.pod.value.running == new1;
    assert second.status == Failed && second.state.pod.value.running == old0;
  }

  /** A completed run leaves the edge on the new configuration if and only if it was loaded hot, the
      pod restarted, or it was loaded already: an unanswered readiness read makes the run report
      success over an edge that still serves the old table. */
  lemma {:induction false} CompletedRunLoadsExactly(s: State, conf: Text, valid: Text -> bool, w: World)
    requires Settled(s) && valid(conf) && conf != "" && InstallRun(s, conf, valid, w).status == Ok
    ensures InstallRun(s, conf, valid, w).state.pod.value.running == conf <==>
            (w.ready || Restarts(s, w) || s.pod.value.running == conf)
  {
  }

  /** So success is reported over the old table: the readiness read came back empty, nothing restarted and
      every wait passed. */
  lemma {:induction false} SuccessOverTheOldTable(old0: Text, new1: Text, valid: Text -> bool)
    requires valid(new1) && old0 != new1 && new1 != ""
    ensures exists w: World ::
      var s := State(Some(Pod(old0, old0, None, None)), Some(old0));
      var o := InstallRun(s, new1, valid, w);
      !w.ready && o.status == Ok && o.state.pod.value.running == old0 && o.state.configMap == Some(new1)
  {
    var w := World(false, false, true, true, true, true, Reloaded, RollbackReloaded, BothApplied, RollbackReloaded, false, true, true);
    var s := State(Some(Pod(old0, old0, None, None)), Some(old0));
    assert InstallRun(s, new1, valid, w).status == Ok && InstallRun(s, new1, valid, w).state.pod.value.running == old0;
  }
}
