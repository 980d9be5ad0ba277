/** Suspending the deployed events for maintenance and resuming them from the recovery file. Every
    command is a log of atomic steps, so a crash between two steps is a prefix of it. */
module EventSuspension {
  import opened Base

  type EventId = string

  /** What the recovery file holds; the list is written deduplicated, so it is a set. */
  datatype Suspension = Suspension(version: nat, namespace: string, events: set<EventId>)

  const SUSPENSION_VERSION: nat := 1

  /** `deployed` is what the cluster runs. `file` is the recovery file: absent, the parsed content, or
      something that is not JSON. */
  datatype File = Absent | Saved(suspension: Suspension) | Garbled

  datatype State = State(deployed: set<EventId>, file: File, temporary: bool)

  datatype Step =
    | WriteTemporary
    | Rename(suspension: Suspension)
    | RemoveTemporary
    | Sync(events: set<EventId>)
    | RemoveFile

  function Apply(s: State, step: Step): State {
    match step
    case WriteTemporary => s.(temporary := true)
    case Rename(suspension) => s.(file := Saved(suspension), temporary := false)
    case RemoveTemporary => s.(temporary := false)
    case Sync(events) => s.(deployed := events)
    case RemoveFile => s.(file := Absent)
  }

  function Exec(s: State, log: seq<Step>): State
    decreases |log|
  {
    if log == [] then s else Exec(Apply(s, log[0]), log[1..])
  }

  datatype Run = Run(log: seq<Step>, status: Status)

  /** What `syncObservability` did: reconciled to the requested set, or threw and left any set. */
  datatype SyncResult = Synced | Threw(left: set<EventId>)

  function SyncSteps(events: set<EventId>, r: SyncResult): seq<Step> {
    if r.Synced? then [Sync(events)] else [Sync(r.left)]
  }

  /** The answers of a suspend. `declared` is the registry of this checkout. */
  datatype SuspendWorld = SuspendWorld(
    readable: bool,
    ids: set<EventId>,
    declared: set<EventId>,
    written: bool,
    renamed: bool,
    restricted: bool,
    sync: SyncResult)

  function SuspendRun(s: State, namespace: string, w: SuspendWorld): Run {
    if s.file != Absent then Run([], Refused)
    else if !w.readable || !(w.ids <= w.declared) then Run([], Refused)
    else if !w.written then Run([RemoveTemporary], Failed)
    else if !w.renamed then Run([WriteTemporary, RemoveTemporary], Failed)
    else
      var saved := [WriteTemporary, Rename(Suspension(SUSPENSION_VERSION, namespace, w.ids)), RemoveTemporary];
      if !w.restricted then Run(saved, Failed)
      else Run(saved + SyncSteps({}, w.sync), if w.sync.Synced? then Ok else Failed)
  }

  datatype ResumeWorld = ResumeWorld(declared: set<EventId>, sync: SyncResult, removed: bool)

  /** The namespace a recovery file may carry: a DNS label. */
  predicate ValidNamespace(n: string) {
    && 1 <= |n| <= 63
    && AlphaNumeric(n[0]) && AlphaNumeric(n[|n| - 1])
    && forall i :: 0 <= i < |n| ==> AlphaNumeric(n[i]) || n[i] == '-'
  }

  predicate AlphaNumeric(c: char) {
    'a' <= c <= 'z' || '0' <= c <= '9'
  }

  predicate Resumable(f: File, declared: set<EventId>) {
    f.Saved? && f.suspension.version == SUSPENSION_VERSION && ValidNamespace(f.suspension.namespace)
    && f.suspension.events <= declared
  }

  function ResumeRun(s: State, w: ResumeWorld): Run {
    if !Resumable(s.file, w.declared) then Run([], Refused)
    else
      var events := s.file.suspension.events;
      if w.sync.Threw? then Run([Sync(w.sync.left)], Failed)
      else if !w.removed then Run([Sync(events)], Failed)
      else Run([Sync(events), RemoveFile], Ok)
  }

  // ----- every ending

  predicate SuspendRefused(s: State, w: SuspendWorld) {
    s.file != Absent || !w.readable || exists id :: id in w.ids && id !in w.declared
  }

  /** How every suspend ends and what it leaves: refused, and nothing done, exactly over a file, an unreadable
      set or an undeclared event; otherwise each failing call leaves what the ones before it did. The set is
      withdrawn only once the file is in place and restricted, and no temporary file stays. */
  lemma {:induction false} SuspendEndsExactly(s: State, namespace: string, w: SuspendWorld)
    ensures var run := SuspendRun(s, namespace, w); var u := Exec(s, run.log);
      && (run.status == Refused <==> SuspendRefused(s, w)) && (SuspendRefused(s, w) ==> run.log == [])
      && (run.status == Ok <==> !SuspendRefused(s, w) && w.written && w.renamed && w.restricted && w.sync == Synced)
      && u.file == (if !SuspendRefused(s, w) && w.written && w.renamed then Saved(Suspension(1, namespace, w.ids)) else s.file)
      && u.deployed == (if !SuspendRefused(s, w) && w.written && w.renamed && w.restricted
                        then (if w.sync == Synced then {} else w.sync.left) else s.deployed)
      && u.temporary == (s.temporary && SuspendRefused(s, w))
  {
    var x := Suspension(SUSPENSION_VERSION, namespace, w.ids);
    var saved := [WriteTemporary, Rename(x), RemoveTemporary];
    SavedOutcome(s, x);
    ExecConcat(s, saved, SyncSteps({}, w.sync));
    ExecTwo(s, WriteTemporary, RemoveTemporary);
    SyncOutcome(Exec(s, saved), {}, w.sync);
    assert Exec(s, [RemoveTemporary]) == Apply(s, RemoveTemporary);
  }

  lemma {:induction false} SyncOutcome(s: State, events: set<EventId>, r: SyncResult)
    ensures Exec(s, SyncSteps(events, r)) == s.(deployed := if r == Synced then events else r.left)
  {
    var log := SyncSteps(events, r);
    assert log[1..] == [] && Exec(s, log) == Apply(s, log[0]);
  }

  /** The same for a resume. */
  lemma {:induction false} ResumeEndsExactly(s: State, w: ResumeWorld)
    ensures var run := ResumeRun(s, w); var u := Exec(s, run.log);
      var accepted := s.file.Saved? && s.file.suspension.version == 1 && NamespaceLabel(s.file.suspension.namespace)
                      && forall id :: id in s.file.suspension.events ==> id in w.declared;
      && (run.status == Refused <==> !accepted) && (!accepted ==> run.log == [])
      && (run.status == Ok <==> accepted && w.sync == Synced && w.removed)
      && u.deployed == (if !accepted then s.deployed else if w.sync == Synced then s.file.suspension.events else w.sync.left)
      && u.file == (if accepted && w.sync == Synced && w.removed then Absent else s.file)
      && u.temporary == s.temporary
  {
    if s.file.Saved? {
      NamespaceLabelExactly(s.file.suspension.namespace);
      var events := s.file.suspension.events;
      ExecTwo(s, Sync(events), RemoveFile);
      SyncOutcome(s, events, w.sync);
    }
  }

  /** The pattern of a DNS label: a letter or digit, or two of them with at most 61 of those and dashes
      between. */
  predicate NamespaceLabel(n: string) {
    if |n| == 1 then EdgeChar(n[0])
    else 2 <= |n| <= 63 && EdgeChar(n[0]) && EdgeChar(n[|n| - 1])
         && forall i :: 0 < i < |n| - 1 ==> n[i] == '-' || EdgeChar(n[i])
  }

  predicate EdgeChar(c: char) {
    !(c < '0' || '9' < c) || !(c < 'a' || 'z' < c)
  }

  lemma {:induction false} NamespaceLabelExactly(n: string)
    ensures ValidNamespace(n) <==> NamespaceLabel(n)
  {
  }

  // ----- the commands

  class Maintenance {
    var deployed: set<EventId>
    var file: File
    var temporary: bool

    function Now(): State
      reads this
    {
      State(deployed, file, temporary)
    }

    method SyncObservability(events: set<EventId>, r: SyncResult) returns (s: Status)
      modifies this`deployed
      ensures Now() == Exec(old(Now()), SyncSteps(events, r)) && s == if r.Synced? then Ok else Failed
    {
      if r.Threw? {
        deployed := r.left;
        return Failed;
      }
      deployed := events;
      s := Ok;
    }

    /** Records the deployed set, then publishes none; the record is kept on every failure. `namespace` is
        the resolved one: an absent or empty option stands for `default`. */
    method SuspendEvents(namespace: string, w: SuspendWorld) returns (s: Status)
      modifies this
      ensures Now() == Exec(old(Now()), SuspendRun(old(Now()), namespace, w).log)
      ensures s == SuspendRun(old(Now()), namespace, w).status
      ensures s == Refused <==> SuspendRefused(old(Now()), w)
      ensures s == Ok <==> !SuspendRefused(old(Now()), w) && w.written && w.renamed && w.restricted && w.sync == Synced
      ensures s == Refused || !w.written || !w.renamed || !w.restricted ==> deployed == old(deployed)
      ensures s != Refused && w.written && w.renamed ==> file == Saved(Suspension(1, namespace, w.ids))
      ensures Honest(old(Now()), Suspend(namespace, w, 4)) && s.Ok? ==>
        deployed == {} && file == Saved(Suspension(SUSPENSION_VERSION, namespace, old(deployed)))
      ensures forall original :: Recoverable(original, old(Now())) && Honest(old(Now()), Suspend(namespace, w, 4)) ==>
        Recoverable(original, Now())
    {
      CommandFacts(Now(), Suspend(namespace, w, 4));
      SuspendFacts(Now(), namespace, w);
      SuspendEndsExactly(Now(), namespace, w);
      ghost var before := Now();
      if file != Absent { return Refused; }
      if !w.readable { return Refused; }
      if !(w.ids <= w.declared) { return Refused; }
      var suspension := Suspension(SUSPENSION_VERSION, namespace, w.ids);
      ghost var saved := [WriteTemporary, Rename(suspension), RemoveTemporary];
      if !w.written {
        temporary := false;
        return Failed;
      }
      temporary := true;
      if !w.renamed {
        temporary := false;
        ExecTwo(before, WriteTemporary, RemoveTemporary);
        return Failed;
      }
      temporary := false;
      file := Saved(suspension);
      SavedOutcome(before, suspension);
      if !w.restricted { return Failed; }
      ExecConcat(before, saved, SyncSteps({}, w.sync));
      s := SyncObservability({}, w.sync);
    }

    /** Restores the recorded set and drops the record only after that succeeded. */
    method ResumeEvents(w: ResumeWorld) returns (s: Status)
      modifies this
      ensures Now() == Exec(old(Now()), ResumeRun(old(Now()), w).log)
      ensures s == ResumeRun(old(Now()), w).status
      ensures s == Refused ==> deployed == old(deployed)
      ensures s != Refused ==> old(file).Saved? && deployed == if w.sync == Synced then old(file).suspension.events else w.sync.left
      ensures s.Ok? ==> file == Absent && old(file).Saved? && deployed == old(file).suspension.events
      ensures !s.Ok? ==> file == old(file)
      ensures forall original :: Recoverable(original, old(Now())) ==> Recoverable(original, Now())
    {
      CommandFacts(Now(), Resume(w, 2));
      ResumeFacts(Now(), w);
      ResumeEndsExactly(Now(), w);
      ghost var before := Now();
      if !file.Saved? { return Refused; }
      if file.suspension.version != SUSPENSION_VERSION { return Refused; }
      if !ValidNamespace(file.suspension.namespace) { return Refused; }
      var events := file.suspension.events;
      if !(events <= w.declared) { return Refused; }
      s := SyncObservability(events, w.sync);
      if !s.Ok? { return; }
      if !w.removed { return Failed; }
      file := Absent;
      ExecTwo(before, Sync(events), RemoveFile);
    }
  }

  /** A command that is not cut short keeps every original set recoverable. */
  lemma {:induction false} CommandFacts(s: State, c: Command)
    requires c.steps >= |CommandRun(s, c).log|
    ensures forall original :: Recoverable(original, s) && Honest(s, c) ==>
      Recoverable(original, Exec(s, CommandRun(s, c).log))
  {
    forall original | Recoverable(original, s) && Honest(s, c) ensures Recoverable(original, Exec(s, CommandRun(s, c).log)) {
      CommandRecoverable(original, s, c);
    }
  }

  lemma {:induction false} SuspendFacts(s: State, namespace: string, w: SuspendWorld)
    ensures Honest(s, Suspend(namespace, w, 4)) && SuspendRun(s, namespace, w).status.Ok? ==>
      var u := Exec(s, SuspendRun(s, namespace, w).log);
      u.deployed == {} && u.file == Saved(Suspension(SUSPENSION_VERSION, namespace, s.deployed))
  {
    var x := Suspension(SUSPENSION_VERSION, namespace, w.ids);
    var saved := [WriteTemporary, Rename(x), RemoveTemporary];
    SavedOutcome(s, x);
    ExecConcat(s, saved, SyncSteps({}, w.sync));
    assert w.sync.Synced? ==> SyncSteps({}, w.sync) == [Sync({})];
    assert Exec(Exec(s, saved), [Sync({})]) == Apply(Exec(s, saved), Sync({}));
  }

  lemma {:induction false} ResumeFacts(s: State, w: ResumeWorld)
    ensures var run := ResumeRun(s, w); var u := Exec(s, run.log);
      && (run.status.Ok? ==> u.file == Absent && s.file.Saved? && u.deployed == s.file.suspension.events)
      && (!run.status.Ok? ==> u.file == s.file)
  {
    if s.file.Saved? {
      var events := s.file.suspension.events;
      ExecTwo(s, Sync(events), RemoveFile);
      assert Exec(s, [Sync(events)]) == Apply(s, Sync(events));
      assert w.sync.Threw? ==> Exec(s, [Sync(w.sync.left)]) == Apply(s, Sync(w.sync.left));
    }
  }

  lemma {:induction false} SavedOutcome(s: State, x: Suspension)
    ensures Exec(s, [WriteTemporary, Rename(x), RemoveTemporary]) == s.(file := Saved(x), temporary := false)
  {
    ExecTwo(Apply(s, WriteTemporary), Rename(x), RemoveTemporary);
    assert [WriteTemporary, Rename(x), RemoveTemporary][1..] == [Rename(x), RemoveTemporary];
  }

  lemma {:induction false} ExecTwo(s: State, a: Step, b: Step)
    ensures Exec(s, [a, b]) == Apply(Apply(s, a), b)
  {
    assert [a, b][1..] == [b] && [b][1..] == [];
    assert Exec(Apply(s, a), [b]) == Exec(Apply(Apply(s, a), b), []);
  }

  lemma {:induction false} ExecConcat(s: State, a: seq<Step>, b: seq<Step>)
    ensures Exec(s, a + b) == Exec(Exec(s, a), b)
    decreases |a|
  {
    if a == [] {
      assert a + b == b;
    } else {
      assert (a + b)[0] == a[0] && (a + b)[1..] == a[1..] + b;
      ExecConcat(Apply(s, a[0]), a[1..], b);
    }
  }

  // ----- histories with crashes

  /** One command, and how many of its steps happened before the process died. */
  datatype Command =
    | Suspend(namespace: string, sw: SuspendWorld, steps: nat)
    | Resume(rw: ResumeWorld, steps: nat)

  function CommandRun(s: State, c: Command): Run {
    match c
    case Suspend(n, w, _) => SuspendRun(s, n, w)
    case Resume(w, _) => ResumeRun(s, w)
  }

  function Performed(s: State, c: Command): seq<Step> {
    var log := CommandRun(s, c).log;
    if c.steps < |log| then log[..c.steps] else log
  }

  function After(s: State, cs: seq<Command>): State
    decreases |cs|
  {
    if cs == [] then s else After(Exec(s, Performed(s, cs[0])), cs[1..])
  }

  /** A readable answer is the deployed set. */
  predicate Honest(s: State, c: Command) {
    c.Suspend? && c.sw.readable ==> c.sw.ids == s.deployed
  }

  predicate HonestHistory(s: State, cs: seq<Command>)
    decreases |cs|
  {
    cs == [] || (Honest(s, cs[0]) && HonestHistory(Exec(s, Performed(s, cs[0])), cs[1..]))
  }

  /** The original set is running, or the recovery file records it. */
  predicate Recoverable(original: set<EventId>, s: State) {
    if s.file == Absent then s.deployed == original
    else s.file.Saved? && s.file.suspension.events == original && s.file.suspension.version == SUSPENSION_VERSION
  }

  /** Each prefix of a command keeps the original set recoverable. */
  lemma {:induction false} CommandRecoverable(original: set<EventId>, s: State, c: Command)
    requires Recoverable(original, s) && Honest(s, c)
    ensures Recoverable(original, Exec(s, Performed(s, c)))
  {
    var log := CommandRun(s, c).log;
    var k := if c.steps < |log| then c.steps else |log|;
    assert Performed(s, c) == log[..k];
    PrefixRecoverable(original, s, c, k);
  }

  /** The temporary file is there only between its write and its rename: a crash leaves one behind nowhere
      else. */
  lemma {:induction false} TemporaryOnlyBetween(s: State, namespace: string, w: SuspendWorld, k: nat)
    requires !s.temporary && !SuspendRefused(s, w) && w.written && k <= |SuspendRun(s, namespace, w).log|
    ensures Exec(s, SuspendRun(s, namespace, w).log[..k]).temporary <==> k == 1
  {
    var log := SuspendRun(s, namespace, w).log;
    if k == 0 {
      assert log[..0] == [];
    } else {
      assert log[..1] == [WriteTemporary];
      assert Exec(s, [WriteTemporary]) == Apply(s, WriteTemporary);
      assert log[..k] == log[..1] + log[1..k];
      ExecConcat(s, log[..1], log[1..k]);
      if k > 1 {
        var t := Apply(s, WriteTemporary);
        assert log[1..k][0] == log[1] && !Apply(t, log[1]).temporary;
        NoneWritten(Apply(t, log[1]), log[1..k][1..]);
      }
    }
  }

  lemma {:induction false} NoneWritten(s: State, log: seq<Step>)
    requires !s.temporary && forall x :: x in log ==> !x.WriteTemporary?
    ensures !Exec(s, log).temporary
    decreases |log|
  {
    if log != [] { NoneWritten(Apply(s, log[0]), log[1..]); }
  }

  /** Step by step: the file appears before the cluster changes and goes only after it is back. */
  lemma {:induction false} PrefixRecoverable(original: set<EventId>, s: State, c: Command, k: nat)
    requires Recoverable(original, s) && Honest(s, c) && k <= |CommandRun(s, c).log|
    ensures Recoverable(original, Exec(s, CommandRun(s, c).log[..k]))
  {
    var log := CommandRun(s, c).log;
    if k == 0 {
      assert log[..0] == [];
    } else {
      PrefixRecoverable(original, s, c, k - 1);
      assert log[..k] == log[..k - 1] + [log[k - 1]];
      ExecConcat(s, log[..k - 1], [log[k - 1]]);
      var t := Exec(s, log[..k - 1]);
      assert Exec(t, [log[k - 1]]) == Apply(t, log[k - 1]);
      if c.Suspend? && k >= 4 {
        var saved := [WriteTemporary, Rename(Suspension(SUSPENSION_VERSION, c.namespace, c.sw.ids)), RemoveTemporary];
        assert log[..3] == saved;
        SavedOutcome(s, Suspension(SUSPENSION_VERSION, c.namespace, c.sw.ids));
      }
      if c.Resume? && k == 2 {
        assert log[..1] == [Sync(s.file.suspension.events)];
      }
    }
  }

  /** Over every sequence of suspends and resumes, with failed reconciliations and a crash between
      any two steps, the original event set is running or recorded. */
  lemma {:induction false} AlwaysRecoverable(original: set<EventId>, s: State, cs: seq<Command>)
    requires Recoverable(original, s) && HonestHistory(s, cs)
    ensures Recoverable(original, After(s, cs))
    decreases |cs|
  {
    if cs != [] {
      CommandRecoverable(original, s, cs[0]);
      AlwaysRecoverable(original, Exec(s, Performed(s, cs[0])), cs[1..]);
    }
  }

  /** From anywhere such a history leads to, a resume that completes runs exactly the original set
      and the record is gone; one that does not leaves it recoverable, so it can be repeated. */
  lemma {:induction false} ResumeRestoresOriginal(original: set<EventId>, s: State, cs: seq<Command>, w: ResumeWorld)
    requires Recoverable(original, s) && HonestHistory(s, cs)
    ensures var t := After(s, cs); var run := ResumeRun(t, w); var u := Exec(t, run.log);
      && (run.status.Ok? ==> u.deployed == original && u.file == Absent)
      && (!run.status.Ok? ==> Recoverable(original, u) && u.file == t.file)
      && (run.status.Ok? <==> Resumable(t.file, w.declared) && w.sync.Synced? && w.removed)
  {
    AlwaysRecoverable(original, s, cs);
    var t := After(s, cs);
    CommandRecoverable(original, t, Resume(w, |ResumeRun(t, w).log|));
    if Resumable(t.file, w.declared) && w.sync.Synced? && w.removed {
      var e := t.file.suspension.events;
      ExecTwo(t, Sync(e), RemoveFile);
    }
  }

  /** A completed suspend withdraws every event and has the whole set on record first: in every state
      from which an event is missing, the file is already there. */
  lemma {:induction false} SuspendRecordsFirst(s: State, namespace: string, w: SuspendWorld, k: nat)
    requires Honest(s, Suspend(namespace, w, k)) && k <= |SuspendRun(s, namespace, w).log|
    ensures var t := Exec(s, SuspendRun(s, namespace, w).log[..k]);
      t.deployed != s.deployed ==> t.file == Saved(Suspension(SUSPENSION_VERSION, namespace, s.deployed))
    ensures SuspendRun(s, namespace, w).status.Ok? ==>
      Exec(s, SuspendRun(s, namespace, w).log).deployed == {}
  {
    var log := SuspendRun(s, namespace, w).log;
    var x := Suspension(SUSPENSION_VERSION, namespace, w.ids);
    var saved := [WriteTemporary, Rename(x), RemoveTemporary];
    SavedOutcome(s, x);
    if |log| == 4 {
      ExecConcat(s, saved, SyncSteps({}, w.sync));
      if k == 4 { assert log[..4] == log; }
    }
    if k <= 3 { UnsyncedKeeps(s, log[..k]); }
  }

  lemma {:induction false} UnsyncedKeeps(s: State, log: seq<Step>)
    requires forall x :: x in log ==> !x.Sync?
    ensures Exec(s, log).deployed == s.deployed
    decreases |log|
  {
    if log != [] { UnsyncedKeeps(Apply(s, log[0]), log[1..]); }
  }

  /** What a completed or interrupted suspend recorded can be resumed by some later checkout and
      cluster if and only if the namespace it resolved (`default` for an absent or empty option) is a
      DNS label: suspend does not look at that, resume insists on it. */
  lemma {:induction false} ResumableExactly(s: State, namespace: string, w: SuspendWorld)
    requires s.file == Absent && w.readable && w.ids <= w.declared && w.written && w.renamed
    ensures var t := Exec(s, SuspendRun(s, namespace, w).log);
      (exists r: ResumeWorld :: ResumeRun(t, r).status.Ok?) <==> ValidNamespace(namespace)
  {
    var x := Suspension(SUSPENSION_VERSION, namespace, w.ids);
    var saved := [WriteTemporary, Rename(x), RemoveTemporary];
    SavedOutcome(s, x);
    ExecConcat(s, saved, SyncSteps({}, w.sync));
    var t := Exec(s, SuspendRun(s, namespace, w).log);
    assert t.file == Saved(x);
    if ValidNamespace(namespace) {
      assert ResumeRun(t, ResumeWorld(w.ids, Synced, true)).status.Ok?;
    }
  }

  // ----- publishing and withdrawing single events

  /** One `--deploy` or `--undeploy`: the set read from the cluster, the event, and what the sync did. */
  datatype Selection = Selection(readable: bool, ids: set<EventId>, event: EventId, remove: bool, declared: set<EventId>, sync: SyncResult)

  /** The set to publish; None when the deployed one is unreadable. Undeclared events are dropped. */
  function DeploySelection(x: Selection): Option<set<EventId>> {
    if !x.readable then None
    else Some(set id | id in (if x.remove then x.ids - {x.event} else x.ids + {x.event}) && id in x.declared)
  }

  function Selected(s: State, x: Selection): State {
    match DeploySelection(x)
    case None => s
    case Some(events) => Exec(s, SyncSteps(events, x.sync))
  }

  function SelectedAll(s: State, xs: seq<Selection>): State
    decreases |xs|
  {
    if xs == [] then s else SelectedAll(Selected(s, xs[0]), xs[1..])
  }

  /** Every other declared event stays as it was; an undeclared one goes with the first selection that
      is published; an unreadable set publishes nothing; a sync that throws leaves what it leaves. */
  lemma {:induction false} SelectionChangesOneEvent(s: State, x: Selection, id: EventId)
    requires x.readable ==> x.ids == s.deployed
    ensures id in Selected(s, x).deployed <==>
      if !x.readable then id in s.deployed
      else match x.sync
        case Threw(left) => id in left
        case Synced => id in x.declared && (if id == x.event then !x.remove else id in s.deployed)
  {
    if x.readable {
      var events := DeploySelection(x).value;
      SyncOutcome(s, events, x.sync);
    }
  }

  lemma {:induction false} SelectedOutcome(s: State, x: Selection)
    ensures Selected(s, x) == s.(deployed := Selected(s, x).deployed)
  {
    if x.readable {
      var steps := SyncSteps(DeploySelection(x).value, x.sync);
      assert steps == [steps[0]] && Exec(s, steps) == Apply(s, steps[0]);
    }
  }

  lemma {:induction false} SelectionsKeepFile(s: State, xs: seq<Selection>)
    ensures SelectedAll(s, xs).file == s.file
    decreases |xs|
  {
    if xs != [] {
      SelectedOutcome(s, xs[0]);
      SelectionsKeepFile(Selected(s, xs[0]), xs[1..]);
    }
  }

  /** While a suspension is recorded, events may be published and withdrawn, but none of it survives:
      a resume that completes runs exactly the original set again. */
  lemma {:induction false} SelectionsWhileSuspendedAreUndone(original: set<EventId>, s: State, xs: seq<Selection>, w: ResumeWorld)
    requires Recoverable(original, s) && s.file != Absent
    ensures var t := SelectedAll(s, xs); var run := ResumeRun(t, w);
      Recoverable(original, t) && (run.status.Ok? ==> Exec(t, run.log).deployed == original)
  {
    SelectionsKeepFile(s, xs);
    var t := SelectedAll(s, xs);
    if ResumeRun(t, w).status.Ok? { ExecTwo(t, Sync(t.file.suspension.events), RemoveFile); }
  }
}
