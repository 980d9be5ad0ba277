/** The webhook's cooldown over an arbitrary trace of deliveries. The clock is an input read once per
    event, so it may stand still or step back. */
module Cooldown {
  import opened Base
  import opened CooldownKey

  /** The status of the group stands in for an alert that has none. */
  datatype Payload = Payload(status: string, alerts: seq<Alert>)

  /** A body that is not JSON, the JSON text `null`, or any other value with what was read off it. */
  datatype Body = NotJson | Null | Parsed(payload: Payload)

  datatype Request = Request(addressed: bool, authorised: bool, body: Body)

  /** One turn of the delivery loop: an event, the alerts of its group, their key, and the clock. */
  datatype Ask = Ask(id: string, group: seq<Alert>, key: string, now: int)

  predicate Firing(p: Payload, a: Alert) {
    (if a.status != "" then a.status else p.status) == "firing"
  }

  predicate Fires(p: Payload, a: Alert, registered: set<string>) {
    Firing(p, a) && a.event != "" && a.event in registered
  }

  /** In the order of their first firing alert. */
  function EventIds(p: Payload, registered: set<string>): seq<string>
    decreases |p.alerts|
  {
    if p.alerts == [] then [] else
    var n := |p.alerts| - 1;
    var before := EventIds(p.(alerts := p.alerts[..n]), registered);
    if Fires(p, p.alerts[n], registered) && p.alerts[n].event !in before then before + [p.alerts[n].event] else before
  }

  function Group(alerts: seq<Alert>, id: string): seq<Alert> {
    if alerts == [] then []
    else (if alerts[0].event == id then [alerts[0]] else []) + Group(alerts[1..], id)
  }

  function AskFor(id: string, alerts: seq<Alert>, now: int): Ask {
    Ask(id, Group(alerts, id), EventCooldownKey(id, Group(alerts, id)), now)
  }

  ghost predicate Keyed(a: Ask) {
    a.key == EventCooldownKey(a.id, a.group)
  }

  /** One turn for each id, the clock read at each. */
  function Asks(p: Payload, ids: seq<string>, clock: int -> int): (r: seq<Ask>)
    ensures |r| == |ids|
  {
    if ids == [] then [] else
    var n := |ids| - 1;
    Asks(p, ids[..n], clock) + [AskFor(ids[n], p.alerts, clock(n))]
  }

  lemma {:induction false} AsksAt(p: Payload, ids: seq<string>, clock: int -> int, i: nat)
    requires i < |ids|
    ensures Asks(p, ids, clock)[i] == AskFor(ids[i], p.alerts, clock(i))
  {
    if i < |ids| - 1 { AsksAt(p, ids[..|ids| - 1], clock, i); }
  }

  /** None when the handler throws before it replies: the default of a missing payload does not stand in
      for a null one, and reading its alerts throws. */
  function ReplyCode(r: Request): Option<int> {
    if !r.addressed then Some(404)
    else if !r.authorised then Some(401)
    else
      match r.body
      case NotJson => Some(400)
      case Null => None
      case Parsed(_) => Some(202)
  }

  function AsksOf(r: Request, registered: set<string>, clock: int -> int): seq<Ask> {
    if ReplyCode(r) == Some(202) then Asks(r.body.payload, EventIds(r.body.payload, registered), clock) else []
  }

  // ----- the memory

  predicate Waits(last: map<string, int>, a: Ask, cooldownMs: int) {
    a.now - (if a.key in last then last[a.key] else 0) < cooldownMs
  }

  /** What the map holds once these turns are taken. */
  function Remembered(asks: seq<Ask>, cooldownMs: int): map<string, int> {
    if asks == [] then map[] else
    var n := |asks| - 1;
    var before := Remembered(asks[..n], cooldownMs);
    if Waits(before, asks[n], cooldownMs) then before else before[asks[n].key := asks[n].now]
  }

  /** Turn by turn, whether it dispatches. */
  function Decisions(asks: seq<Ask>, cooldownMs: int): (r: seq<bool>)
    ensures |r| == |asks|
  {
    if asks == [] then [] else
    var n := |asks| - 1;
    Decisions(asks[..n], cooldownMs) + [!Waits(Remembered(asks[..n], cooldownMs), asks[n], cooldownMs)]
  }

  predicate Sent(asks: seq<Ask>, j: nat, cooldownMs: int)
    requires j < |asks|
  {
    Decisions(asks, cooldownMs)[j]
  }

  /** The dispatched turns from `from` on, in order. */
  function SentFrom(asks: seq<Ask>, from: nat, cooldownMs: int): seq<Ask>
    requires from <= |asks|
  {
    if from == |asks| then [] else
    var n := |asks| - 1;
    SentFrom(asks[..n], from, cooldownMs) + if Sent(asks, n, cooldownMs) then [asks[n]] else []
  }

  class Dispatcher {
    const cooldownMs: int
    const registered: set<string>
    var lastDispatch: map<string, int>
    ghost var history: seq<Ask>

    ghost predicate Valid() reads this {
      lastDispatch == Remembered(history, cooldownMs)
    }

    constructor (cooldownMs: int, registered: set<string>)
      ensures Valid() && history == [] && this.cooldownMs == cooldownMs && this.registered == registered
    {
      this.cooldownMs, this.registered := cooldownMs, registered;
      lastDispatch, history := map[], [];
    }

    /** One turn: the dispatch is recorded before it is made. */
    method Turn(ask: Ask) returns (sent: bool)
      requires Valid()
      modifies this
      ensures Valid() && history == old(history) + [ask]
      ensures sent == Sent(history, |old(history)|, cooldownMs)
    {
      var key := ask.key;
      history := history + [ask];
      assert history[..|history| - 1] == old(history);
      sent := ask.now - (if key in lastDispatch then lastDispatch[key] else 0) >= cooldownMs;
      if sent { lastDispatch := lastDispatch[key := ask.now]; }
    }

    /** Answers, then takes one turn per accepted event. A null body throws: no answer and no turn. */
    method Deliver(r: Request, clock: int -> int) returns (code: Option<int>, dispatched: seq<Ask>)
      requires Valid()
      modifies this
      ensures Valid() && code == ReplyCode(r)
      ensures code == Some(404) <==> !r.addressed
      ensures code == Some(401) <==> r.addressed && !r.authorised
      ensures code == Some(400) <==> r.addressed && r.authorised && r.body == NotJson
      ensures code == None <==> r.addressed && r.authorised && r.body == Null
      ensures code == Some(202) <==> r.addressed && r.authorised && r.body.Parsed?
      ensures code != Some(202) ==> lastDispatch == old(lastDispatch) && dispatched == []
      ensures history == old(history) + AsksOf(r, registered, clock)
      ensures dispatched == SentFrom(history, |old(history)|, cooldownMs)
    {
      hide EventIds, Group, EventCooldownKey, Decisions, Remembered, Waits;
      dispatched := [];
      code := ReplyCode(r);
      if code == Some(202) {
        var ids := EventIds(r.body.payload, registered);
        for i := 0 to |ids|
          invariant Valid() && history == old(history) + Asks(r.body.payload, ids[..i], clock)
          invariant dispatched == SentFrom(history, |old(history)|, cooldownMs)
        {
          var ask := AskFor(ids[i], r.body.payload.alerts, clock(i));
          ghost var before := history;
          var sent := Turn(ask);
          SentFromSnoc(before, |old(history)|, ask, cooldownMs);
          assert ids[..i + 1][..i] == ids[..i];
          if sent { dispatched := dispatched + [ask]; }
        }
        assert ids[..|ids|] == ids;
      }
    }
  }

  lemma {:induction false} SentFromSnoc(asks: seq<Ask>, from: nat, a: Ask, cooldownMs: int)
    requires from <= |asks|
    ensures SentFrom(asks + [a], from, cooldownMs)
      == SentFrom(asks, from, cooldownMs) + if Sent(asks + [a], |asks|, cooldownMs) then [a] else []
  {
    assert (asks + [a])[..|asks|] == asks;
  }

  // ----- what is accepted

  /** Alert `k` is of that event, which is registered, and it fires itself or by the status of its group. */
  predicate FiresAt(p: Payload, registered: set<string>, k: int, id: string) {
    0 <= k < |p.alerts| && p.alerts[k].event == id && id != "" && id in registered
    && (p.alerts[k].status == "firing" || (p.alerts[k].status == "" && p.status == "firing"))
  }

  /** An id is accepted exactly when an alert of it fires and it is registered: an event with resolved
      alerts alone never gets a turn. */
  lemma {:induction false} EventIdsExact(p: Payload, registered: set<string>, id: string)
    ensures id in EventIds(p, registered) <==> exists k :: FiresAt(p, registered, k, id)
    decreases |p.alerts|
  {
    if p.alerts != [] {
      var n := |p.alerts| - 1;
      var q := p.(alerts := p.alerts[..n]);
      EventIdsExact(q, registered, id);
      forall k ensures FiresAt(p, registered, k, id) <==> FiresAt(q, registered, k, id) || (k == n && FiresAt(p, registered, n, id)) {}
      assert id in EventIds(p, registered) <==> id in EventIds(q, registered) || FiresAt(p, registered, n, id);
    }
  }

  /** Where an event fires first. */
  ghost predicate FirstAt(p: Payload, registered: set<string>, k: int, id: string) {
    FiresAt(p, registered, k, id) && forall l :: l < k ==> !FiresAt(p, registered, l, id)
  }

  /** The accepted ids stand in the order in which their events fire first. */
  lemma {:induction false} EventIdsInOrder(p: Payload, registered: set<string>, i: nat, j: nat, k: int, l: int)
    requires i < j < |EventIds(p, registered)|
    requires FirstAt(p, registered, k, EventIds(p, registered)[i]) && FirstAt(p, registered, l, EventIds(p, registered)[j])
    ensures k < l
    decreases |p.alerts|
  {
    var n := |p.alerts| - 1;
    var q := p.(alerts := p.alerts[..n]);
    var ids, before := EventIds(p, registered), EventIds(q, registered);
    forall m, id ensures FiresAt(q, registered, m, id) <==> m < n && FiresAt(p, registered, m, id) {}
    EventIdsExact(q, registered, ids[i]);
    var m :| FiresAt(q, registered, m, ids[i]);
    assert FiresAt(p, registered, m, ids[i]) && k <= m < n;
    if j < |before| {
      EventIdsExact(q, registered, ids[j]);
      var o :| FiresAt(q, registered, o, ids[j]);
      assert FiresAt(p, registered, o, ids[j]) && l <= o < n;
      EventIdsInOrder(q, registered, i, j, k, l);
    } else {
      EventIdsExact(q, registered, ids[j]);
      EventIdsDistinct(p, registered);
      assert ids[j] !in before;
      assert l >= n;
    }
  }

  /** The group of an event is every alert of it, firing or resolved. */
  lemma {:induction false} GroupExactly(alerts: seq<Alert>, id: string, a: Alert)
    ensures a in Group(alerts, id) <==> a in alerts && a.event == id
  {
    if alerts != [] {
      GroupExactly(alerts[1..], id, a);
      assert a in alerts <==> a == alerts[0] || a in alerts[1..];
    }
  }

  ghost predicate Distinct(ids: seq<string>) {
    forall i, j :: 0 <= i < j < |ids| ==> ids[i] != ids[j]
  }

  lemma {:induction false} EventIdsDistinct(p: Payload, registered: set<string>)
    ensures Distinct(EventIds(p, registered))
    decreases |p.alerts|
  {
    if p.alerts != [] { EventIdsDistinct(p.(alerts := p.alerts[..|p.alerts| - 1]), registered); }
  }

  // ----- what the map means

  ghost predicate LastSent(asks: seq<Ask>, key: string, i: int, cooldownMs: int) {
    0 <= i < |asks| && asks[i].key == key && Sent(asks, i, cooldownMs)
    && forall k :: i < k < |asks| && asks[k].key == key ==> !Sent(asks, k, cooldownMs)
  }

  ghost predicate NoneSent(asks: seq<Ask>, key: string, cooldownMs: int) {
    forall k :: 0 <= k < |asks| && asks[k].key == key ==> !Sent(asks, k, cooldownMs)
  }

  lemma {:induction false} SentInPrefix(asks: seq<Ask>, n: nat, j: nat, cooldownMs: int)
    requires j < n <= |asks|
    ensures Sent(asks[..n], j, cooldownMs) == Sent(asks, j, cooldownMs)
  {
    if n == |asks| {
      assert asks[..n] == asks;
    } else {
      var front := asks[..|asks| - 1];
      assert front[..n] == asks[..n];
      SentInPrefix(front, n, j, cooldownMs);
    }
  }

  /** A turn dispatches when what the earlier turns left in the map allows it. */
  lemma {:induction false} SentMeans(asks: seq<Ask>, j: nat, cooldownMs: int)
    requires j < |asks|
    ensures Sent(asks, j, cooldownMs) <==> !Waits(Remembered(asks[..j], cooldownMs), asks[j], cooldownMs)
  {
    SentInPrefix(asks, j + 1, j, cooldownMs);
    assert asks[..j + 1][..j] == asks[..j];
  }

  /** The map holds the time of the latest dispatch of each key, and nothing for the others. */
  lemma {:induction false} RememberedIsLatest(asks: seq<Ask>, key: string, cooldownMs: int)
    ensures key !in Remembered(asks, cooldownMs) ==> NoneSent(asks, key, cooldownMs)
    ensures key in Remembered(asks, cooldownMs) ==>
      exists i :: LastSent(asks, key, i, cooldownMs) && Remembered(asks, cooldownMs)[key] == asks[i].now
  {
    if asks != [] {
      var n := |asks| - 1;
      RememberedIsLatest(asks[..n], key, cooldownMs);
      if asks[n].key == key && Sent(asks, n, cooldownMs) {
        assert LastSent(asks, key, n, cooldownMs);
      } else {
        assert Remembered(asks, cooldownMs).Keys * {key} == Remembered(asks[..n], cooldownMs).Keys * {key};
        UnsentKeeps(asks, key, cooldownMs);
      }
    }
  }

  /** A turn that does not dispatch the key leaves its latest dispatch what it was. */
  lemma {:induction false} UnsentKeeps(asks: seq<Ask>, key: string, cooldownMs: int)
    requires asks != [] && !(asks[|asks| - 1].key == key && Sent(asks, |asks| - 1, cooldownMs))
    ensures NoneSent(asks[..|asks| - 1], key, cooldownMs) ==> NoneSent(asks, key, cooldownMs)
    ensures forall i :: LastSent(asks[..|asks| - 1], key, i, cooldownMs) ==> LastSent(asks, key, i, cooldownMs)
  {
    var n := |asks| - 1;
    assert forall k :: 0 <= k < n ==> Sent(asks, k, cooldownMs) == Sent(asks[..n], k, cooldownMs) && asks[..n][k] == asks[k];
  }

  /** A turn is skipped exactly when the latest dispatch of its key is less than the cooldown ago, or
      when there is none and the clock itself reads less than the cooldown. */
  lemma {:induction false} SkippedExactly(asks: seq<Ask>, j: nat, cooldownMs: int)
    requires j < |asks|
    ensures !Sent(asks, j, cooldownMs) <==>
      ((exists i :: LastSent(asks[..j], asks[j].key, i, cooldownMs) && asks[j].now - asks[i].now < cooldownMs)
       || (NoneSent(asks[..j], asks[j].key, cooldownMs) && asks[j].now < cooldownMs))
  {
    var key := asks[j].key;
    SentMeans(asks, j, cooldownMs);
    RememberedIsLatest(asks[..j], key, cooldownMs);
    if key in Remembered(asks[..j], cooldownMs) {
      var i :| LastSent(asks[..j], key, i, cooldownMs) && Remembered(asks[..j], cooldownMs)[key] == asks[..j][i].now;
      forall k | LastSent(asks[..j], key, k, cooldownMs) ensures k == i {}
    }
  }

  // ----- over a whole trace

  /** Two dispatches of one key are at least the cooldown apart, whatever the clock did between. */
  lemma {:induction false} DispatchesAreSpaced(asks: seq<Ask>, i: nat, j: nat, cooldownMs: int)
    requires i < j < |asks| && asks[i].key == asks[j].key
    requires Sent(asks, i, cooldownMs) && Sent(asks, j, cooldownMs)
    requires cooldownMs >= 0
    ensures asks[j].now - asks[i].now >= cooldownMs
    decreases j
  {
    var key := asks[j].key;
    SentMeans(asks, j, cooldownMs);
    RememberedIsLatest(asks[..j], key, cooldownMs);
    SentInPrefix(asks, j, i, cooldownMs);
    assert asks[..j][i] == asks[i];
    var k :| LastSent(asks[..j], key, k, cooldownMs) && Remembered(asks[..j], cooldownMs)[key] == asks[..j][k].now;
    SentInPrefix(asks, j, k, cooldownMs);
    if i < k { DispatchesAreSpaced(asks, i, k, cooldownMs); }
  }

  /** A delivery and the readings of the clock while it is served. */
  datatype Delivery = Delivery(request: Request, clock: int -> int)

  ghost function TurnsIn(d: Delivery, registered: set<string>): seq<Ask> {
    AsksOf(d.request, registered, d.clock)
  }

  ghost function AllAsks(trace: seq<Delivery>, registered: set<string>): seq<Ask> {
    if trace == [] then [] else TurnsIn(trace[0], registered) + AllAsks(trace[1..], registered)
  }

  ghost predicate TurnOf(trace: seq<Delivery>, registered: set<string>, d: int, a: Ask) {
    0 <= d < |trace| && a in TurnsIn(trace[d], registered)
  }

  lemma {:induction false} AllAsksExact(trace: seq<Delivery>, registered: set<string>, a: Ask)
    ensures a in AllAsks(trace, registered) <==> exists d :: TurnOf(trace, registered, d, a)
  {
    if trace != [] {
      AllAsksExact(trace[1..], registered, a);
      assert TurnOf(trace, registered, 0, a) <==> a in TurnsIn(trace[0], registered);
      forall d ensures TurnOf(trace, registered, d, a) <==>
        (d == 0 && TurnOf(trace, registered, 0, a)) || TurnOf(trace[1..], registered, d - 1, a) {}
      if d :| TurnOf(trace[1..], registered, d, a) { assert TurnOf(trace, registered, d + 1, a); }
    }
  }

  /** The event fires in a delivery that was addressed, authorised and readable. */
  ghost predicate FiresIn(d: Delivery, registered: set<string>, id: string) {
    d.request.addressed && d.request.authorised && d.request.body.Parsed?
    && exists k :: FiresAt(d.request.body.payload, registered, k, id)
  }

  /** The turns of a delivery are its accepted events, each with its group. */
  lemma {:induction false} TurnsExact(d: Delivery, registered: set<string>, id: string)
    ensures (exists a :: a in TurnsIn(d, registered) && a.id == id) <==> FiresIn(d, registered, id)
    ensures forall a :: a in TurnsIn(d, registered) ==> a.group == Group(d.request.body.payload.alerts, a.id) && Keyed(a)
  {
    if ReplyCode(d.request) == Some(202) {
      var p := d.request.body.payload;
      var ids := EventIds(p, registered);
      forall i | 0 <= i < |ids|
        ensures Asks(p, ids, d.clock)[i] == AskFor(ids[i], p.alerts, d.clock(i))
      {
        AsksAt(p, ids, d.clock, i);
      }
      EventIdsExact(p, registered, id);
      if id in ids {
        var i :| 0 <= i < |ids| && ids[i] == id;
        assert Asks(p, ids, d.clock)[i] in TurnsIn(d, registered);
      }
    }
  }

  ghost predicate CoolingDown(asks: seq<Ask>, j: nat, cooldownMs: int)
    requires j < |asks|
  {
    exists i :: 0 <= i < j && asks[i].key == asks[j].key && Sent(asks, i, cooldownMs)
      && asks[j].now - asks[i].now < cooldownMs
  }


  lemma {:induction false} AllAsksConcat(a: seq<Delivery>, b: seq<Delivery>, registered: set<string>)
    ensures AllAsks(a + b, registered) == AllAsks(a, registered) + AllAsks(b, registered)
    decreases |a|
  {
    if a == [] {
      assert a + b == b;
    } else {
      assert (a + b)[0] == a[0] && (a + b)[1..] == a[1..] + b;
      AllAsksConcat(a[1..], b, registered);
    }
  }

  /** The turns of delivery `d` stand together, after those of the deliveries before it. */
  lemma {:induction false} TurnsInPlace(trace: seq<Delivery>, registered: set<string>, d: nat)
    requires d < |trace|
    ensures var from, turns := |AllAsks(trace[..d], registered)|, TurnsIn(trace[d], registered);
      from + |turns| <= |AllAsks(trace, registered)| && AllAsks(trace, registered)[from..from + |turns|] == turns
  {
    hide TurnsIn;
    var before, here, after := trace[..d], [trace[d]], trace[d + 1..];
    assert trace == before + (here + after);
    AllAsksConcat(before, here + after, registered);
    assert (here + after)[0] == trace[d] && (here + after)[1..] == after;
  }

  /** Position `j` of the whole trace is a turn that delivery `d` took for event `id`. */
  ghost predicate TakenBy(trace: seq<Delivery>, registered: set<string>, d: nat, id: string, j: int)
    requires d < |trace|
  {
    var from, turns := |AllAsks(trace[..d], registered)|, TurnsIn(trace[d], registered);
    from <= j < from + |turns| && turns[j - from].id == id && j < |AllAsks(trace, registered)|
    && AllAsks(trace, registered)[j] == turns[j - from]
  }

  /** Turn `j` is the one delivery `d` took for the event, with its group, and it is dispatched, or a
      dispatch of the same key came less than the cooldown before it, or the clock has not yet reached one
      cooldown. */
  ghost predicate Answered(trace: seq<Delivery>, registered: set<string>, d: nat, id: string, j: int, cooldownMs: int)
    requires d < |trace|
  {
    var asks := AllAsks(trace, registered);
    TakenBy(trace, registered, d, id, j) && trace[d].request.body.Parsed?
    && asks[j].group == Group(trace[d].request.body.payload.alerts, id) && Keyed(asks[j])
    && (Sent(asks, j, cooldownMs) || CoolingDown(asks, j, cooldownMs) || asks[j].now < cooldownMs)
  }

  /** Each registered event that fires in an accepted delivery is answered by a turn of that very delivery. */
  lemma {:induction false} FiringIsDispatchedOrCooling(trace: seq<Delivery>, registered: set<string>, d: nat, id: string, cooldownMs: int)
    requires d < |trace| && FiresIn(trace[d], registered, id)
    ensures exists j :: Answered(trace, registered, d, id, j, cooldownMs)
  {
    hide TurnsIn, AllAsks, Sent, CoolingDown, EventCooldownKey, Group, Keyed;
    TurnsExact(trace[d], registered, id);
    var turns, from := TurnsIn(trace[d], registered), |AllAsks(trace[..d], registered)|;
    var a :| a in turns && a.id == id;
    var i :| 0 <= i < |turns| && turns[i] == a;
    assert trace[d].request.body.Parsed? && a.group == Group(trace[d].request.body.payload.alerts, id) && Keyed(a);
    hide FiresIn, FiresAt, ReplyCode;
    TurnAt(trace, registered, d, i);
    NotSentIsCooling(AllAsks(trace, registered), from + i, cooldownMs);
    assert Answered(trace, registered, d, id, from + i, cooldownMs);
  }

  lemma {:induction false} TurnAt(trace: seq<Delivery>, registered: set<string>, d: nat, i: nat)
    requires d < |trace| && i < |TurnsIn(trace[d], registered)|
    ensures var j := |AllAsks(trace[..d], registered)| + i;
      j < |AllAsks(trace, registered)| && AllAsks(trace, registered)[j] == TurnsIn(trace[d], registered)[i]
  {
    hide TurnsIn, AllAsks;
    TurnsInPlace(trace, registered, d);
    var asks, from, turns := AllAsks(trace, registered), |AllAsks(trace[..d], registered)|, TurnsIn(trace[d], registered);
    assert asks[from + i] == asks[from..from + |turns|][i];
  }

  lemma {:induction false} NotSentIsCooling(asks: seq<Ask>, j: nat, cooldownMs: int)
    requires j < |asks|
    ensures Sent(asks, j, cooldownMs) || CoolingDown(asks, j, cooldownMs) || asks[j].now < cooldownMs
  {
    SkippedExactly(asks, j, cooldownMs);
    if l :| LastSent(asks[..j], asks[j].key, l, cooldownMs) && asks[j].now - asks[l].now < cooldownMs {
      SentInPrefix(asks, j, l, cooldownMs);
      assert CoolingDown(asks, j, cooldownMs);
    }
  }

  /** The converse: every turn is that of a registered event which fires in an accepted delivery. */
  lemma {:induction false} TurnsAreAuthorised(trace: seq<Delivery>, registered: set<string>, a: Ask)
    requires a in AllAsks(trace, registered)
    ensures exists d :: 0 <= d < |trace| && FiresIn(trace[d], registered, a.id)
  {
    AllAsksExact(trace, registered, a);
    var d :| TurnOf(trace, registered, d, a);
    TurnsExact(trace[d], registered, a.id);
  }

  // ----- what the key leaves open

  /** The turns are keyed by the source's rule, over ids and subjects that cannot be confused. */
  ghost predicate PlainAsks(asks: seq<Ask>) {
    forall i :: 0 <= i < |asks| ==> PlainAsk(asks[i])
  }

  ghost predicate PlainAsk(a: Ask) {
    Keyed(a) && Free(a.id, ':') && CommaFree(a.group) && SubjectSet(a.group) != {"global"}
  }

  predicate SameSubjects(a: Ask, b: Ask) {
    a.id == b.id && SubjectSet(a.group) == SubjectSet(b.group)
  }

  lemma {:induction false} SameKeyExactly(a: Ask, b: Ask)
    requires PlainAsk(a) && PlainAsk(b)
    ensures a.key == b.key <==> SameSubjects(a, b)
  {
    KeyIsCanonical(a.id, a.group, b.id, b.group);
  }

  /** Turn `i` is the latest dispatch of the event of turn `j` with exactly its subjects. */
  ghost predicate LatestSame(asks: seq<Ask>, j: nat, i: int, cooldownMs: int)
    requires j < |asks|
  {
    0 <= i < j && SameSubjects(asks[i], asks[j]) && Sent(asks, i, cooldownMs)
    && forall k :: i < k < j && SameSubjects(asks[k], asks[j]) ==> !Sent(asks, k, cooldownMs)
  }

  ghost predicate NoneSame(asks: seq<Ask>, j: nat, cooldownMs: int)
    requires j < |asks|
  {
    forall k :: 0 <= k < j && SameSubjects(asks[k], asks[j]) ==> !Sent(asks, k, cooldownMs)
  }

  /** In any trace an event is skipped exactly when its latest dispatch with the very same set of subjects
      is less than the cooldown ago, or there is none and the clock reads less than the cooldown. A
      dispatch that named one subject more or less, however recent, does not count. */
  lemma {:induction false} RepeatedExactly(asks: seq<Ask>, j: nat, cooldownMs: int)
    requires j < |asks| && PlainAsks(asks)
    ensures !Sent(asks, j, cooldownMs) <==>
      ((exists i :: LatestSame(asks, j, i, cooldownMs) && asks[j].now - asks[i].now < cooldownMs)
       || (NoneSame(asks, j, cooldownMs) && asks[j].now < cooldownMs))
  {
    hide Decisions, SubjectSet, Keyed, CommaFree, Sent, SameSubjects;
    SkippedExactly(asks, j, cooldownMs);
    forall k | 0 <= k < j
      ensures Sent(asks[..j], k, cooldownMs) == Sent(asks, k, cooldownMs)
      ensures asks[k].key == asks[j].key <==> SameSubjects(asks[k], asks[j])
    {
      SentInPrefix(asks, j, k, cooldownMs);
      SameKeyExactly(asks[k], asks[j]);
    }
    assert forall i :: LastSent(asks[..j], asks[j].key, i, cooldownMs) <==> LatestSame(asks, j, i, cooldownMs);
    assert NoneSent(asks[..j], asks[j].key, cooldownMs) <==> NoneSame(asks, j, cooldownMs);
  }

  /** Resolved alerts are no reason to dispatch but they are subjects of the key, so a machine that
      fires all along is remediated again as soon as another of its group has resolved. */
  lemma {:induction false} ResolvedSubjectBreaksTheCooldown()
    ensures var x, y := Alert("e", "a", "", "firing"), Alert("e", "b", "", "resolved");
      var p, q := Payload("firing", [x]), Payload("firing", [x, y]);
      EventIds(p, {"e"}) == ["e"] && EventIds(q, {"e"}) == ["e"] && !Firing(q, y)
      && Sent([AskFor("e", p.alerts, 1000), AskFor("e", q.alerts, 1001)], 0, 300)
      && Sent([AskFor("e", p.alerts, 1000), AskFor("e", q.alerts, 1001)], 1, 300)
  {
    var x, y := Alert("e", "a", "", "firing"), Alert("e", "b", "", "resolved");
    Rendered(x, y);
    assert x in [x] && y in [x, y] && "b" in SubjectSet([x, y]) && "b" !in SubjectSet([x]);
    assert "a" in SubjectSet([x, y]) && "a" in SubjectSet([x]);
    assert forall z :: z in [x, y] ==> z == x || z == y;
    OtherSubjectsDoNotCool(AskFor("e", [x], 1000), AskFor("e", [x, y], 1001), 300);
  }

  lemma {:induction false} OtherSubjectsDoNotCool(a: Ask, b: Ask, cooldownMs: int)
    requires PlainAsk(a) && PlainAsk(b) && !SameSubjects(a, b) && cooldownMs <= a.now && cooldownMs <= b.now
    ensures Sent([a, b], 0, cooldownMs) && Sent([a, b], 1, cooldownMs)
  {
    hide SubjectSet, Sent, PlainAsk;
    RepeatedExactly([a, b], 0, cooldownMs);
    RepeatedExactly([a, b], 1, cooldownMs);
  }

  lemma {:induction false} Rendered(x: Alert, y: Alert)
    requires x.event == "e" && x.status == "firing" && y.event == "e" && y.status == "resolved"
    ensures EventIds(Payload("firing", [x]), {"e"}) == ["e"] && EventIds(Payload("firing", [x, y]), {"e"}) == ["e"]
    ensures Group([x], "e") == [x] && Group([x, y], "e") == [x, y]
  {
    var none: seq<Alert> := [];
    assert [x][..0] == none && [x, y][..1] == [x] && [x][1..] == none && [x, y][1..] == [y] && [y][1..] == none;
    assert EventIds(Payload("firing", none), {"e"}) == [];
    assert EventIds(Payload("firing", [x]), {"e"}) == ["e"];
    assert Group(none, "e") == none && Group([y], "e") == [y];
  }
}
