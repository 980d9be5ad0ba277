/** Releasing a DaemonSet's hostPort claims with one JSON Patch: the operations built by walking the
    containers, applied in order as `remove` of RFC 6902 section 4.2. */
module HostPortPatch {
  import opened Base

  // ----- JSON documents and the remove operation

  datatype Json =
    | Obj(fields: map<string, Json>)
    | Arr(items: seq<Json>)
    | Num(n: int)
    | Text(s: string)
    | Bool(b: bool)
    | Null

  datatype Token = Key(name: string) | Index(i: nat)

  type Pointer = seq<Token>

  function Child(d: Json, t: Token): Option<Json> {
    match t
    case Key(k) => if d.Obj? && k in d.fields then Some(d.fields[k]) else None
    case Index(i) => if d.Arr? && i < |d.items| then Some(d.items[i]) else None
  }

  function Replace(d: Json, t: Token, x: Json): Json
    requires Child(d, t).Some?
  {
    match t
    case Key(k) => Obj(d.fields[k := x])
    case Index(i) => Arr(d.items[i := x])
  }

  function Get(d: Json, p: Pointer): Option<Json>
    decreases |p|
  {
    if p == [] then Some(d)
    else if Child(d, p[0]).None? then None
    else Get(Child(d, p[0]).value, p[1..])
  }

  function Put(d: Json, p: Pointer, x: Json): Json
    requires Get(d, p).Some?
    decreases |p|
  {
    if p == [] then x else Replace(d, p[0], Put(Child(d, p[0]).value, p[1..], x))
  }

  /** The target location has to exist; removing an array element moves the later ones down. */
  function Remove(d: Json, p: Pointer): Option<Json>
    decreases |p|
  {
    if p == [] || Child(d, p[0]).None? then None
    else if |p| == 1 then
      match p[0]
      case Key(k) => Some(Obj(d.fields - {k}))
      case Index(i) => Some(Arr(d.items[..i] + d.items[i + 1..]))
    else
      var r := Remove(Child(d, p[0]).value, p[1..]);
      if r.None? then None else Some(Replace(d, p[0], r.value))
  }

  /** The operations in order; one whose target is missing fails the whole patch. */
  function ApplyPatch(d: Json, ops: seq<Pointer>): Option<Json>
    decreases |ops|
  {
    if ops == [] then Some(d)
    else
      var before := ApplyPatch(d, ops[..|ops| - 1]);
      if before.None? then None else Remove(before.value, ops[|ops| - 1])
  }

  lemma {:induction false} PutPut(d: Json, p: Pointer, x: Json, y: Json)
    requires Get(d, p).Some?
    ensures Get(Put(d, p, x), p) == Some(x)
    ensures Put(Put(d, p, x), p, y) == Put(d, p, y)
    decreases |p|
  {
    if p != [] {
      var c := Child(d, p[0]).value;
      PutPut(c, p[1..], x, y);
      assert Child(Put(d, p, x), p[0]) == Some(Put(c, p[1..], x));
    }
  }

  /** Removing below a location is removing inside what is there. */
  lemma {:induction false} RemoveBelow(d: Json, p: Pointer, q: Pointer)
    requires Get(d, p).Some? && q != [] && Remove(Get(d, p).value, q).Some?
    ensures Remove(d, p + q) == Some(Put(d, p, Remove(Get(d, p).value, q).value))
    decreases |p|
  {
    if p == [] {
      assert p + q == q;
    } else {
      assert (p + q)[0] == p[0] && (p + q)[1..] == p[1..] + q;
      RemoveBelow(Child(d, p[0]).value, p[1..], q);
    }
  }

  // ----- the operations

  const CONTAINERS: Pointer := [Key("spec"), Key("template"), Key("spec"), Key("containers")]

  /** A DaemonSet document written out: the pointer reads its container list and writes nothing else. */
  function Document(top: map<string, Json>, spec: map<string, Json>, template: map<string, Json>, pod: map<string, Json>,
                    containers: Json): Json
  {
    Obj(top["spec" := Obj(spec["template" := Obj(template["spec" := Obj(pod["containers" := containers])])])])
  }

  /** A key of the pointer descends into that field alone. */
  lemma {:induction false} Under(m: map<string, Json>, k: string, inner: Json, p: Pointer, y: Json)
    ensures var d := Obj(m[k := inner]);
      && Get(d, [Key(k)] + p) == Get(inner, p)
      && (Get(inner, p).Some? ==> Put(d, [Key(k)] + p, y) == Obj(m[k := Put(inner, p, y)]))
  {
    var d, q := Obj(m[k := inner]), [Key(k)] + p;
    assert q[0] == Key(k) && q[1..] == p && Child(d, q[0]) == Some(inner);
    if Get(inner, p).Some? {
      assert m[k := inner][k := Put(inner, p, y)] == m[k := Put(inner, p, y)];
    }
  }

  lemma {:induction false} ContainersOfDocument(top: map<string, Json>, spec: map<string, Json>, template: map<string, Json>,
                                                pod: map<string, Json>, x: Json, y: Json)
    ensures var d := Document(top, spec, template, pod, x);
      Get(d, CONTAINERS) == Some(x) && Put(d, CONTAINERS, y) == Document(top, spec, template, pod, y)
  {
    hide Get, Put;
    var none: Pointer := [];
    var p3 := [Key("containers")];
    var p2 := [Key("spec"), Key("containers")];
    var p1 := [Key("template"), Key("spec"), Key("containers")];
    assert p3 == [Key("containers")] + none && p2 == [Key("spec")] + p3 && p1 == [Key("template")] + p2;
    assert CONTAINERS == [Key("spec")] + p1;
    Whole(x, y);
    Under(pod, "containers", x, none, y);
    var d3 := Obj(pod["containers" := x]);
    Under(template, "spec", d3, p3, y);
    var d2 := Obj(template["spec" := d3]);
    Under(spec, "template", d2, p2, y);
    Under(top, "spec", Obj(spec["template" := d2]), p1, y);
  }

  lemma {:induction false} Whole(x: Json, y: Json)
    ensures Get(x, []) == Some(x) && Put(x, [], y) == y
  {
  }

  predicate Selected(port: Json, ports: seq<int>) {
    port.Obj? && "hostPort" in port.fields && port.fields["hostPort"].Num? && port.fields["hostPort"].n in ports
  }

  function PortsOf(c: Json): seq<Json> {
    if c.Obj? && "ports" in c.fields && c.fields["ports"].Arr? then c.fields["ports"].items else []
  }

  function PathTo(ci: nat, pi: nat): Pointer {
    CONTAINERS + [Index(ci), Key("ports"), Index(pi), Key("hostPort")]
  }

  /** Operations for the first `k` ports of container `ci`. */
  function PortOps(ci: nat, items: seq<Json>, k: nat, ports: seq<int>): seq<Pointer>
    requires k <= |items|
  {
    if k == 0 then []
    else PortOps(ci, items, k - 1, ports) + if Selected(items[k - 1], ports) then [PathTo(ci, k - 1)] else []
  }

  /** Operations for the first `n` containers. */
  function ContainerOps(cs: seq<Json>, n: nat, ports: seq<int>): seq<Pointer>
    requires n <= |cs|
  {
    if n == 0 then []
    else ContainerOps(cs, n - 1, ports) + PortOps(n - 1, PortsOf(cs[n - 1]), |PortsOf(cs[n - 1])|, ports)
  }

  /** The inner loop. */
  method BuildPortOperations(ci: nat, items: seq<Json>, ports: seq<int>) returns (operations: seq<Pointer>)
    ensures operations == PortOps(ci, items, |items|, ports)
  {
    operations := [];
    for pi := 0 to |items|
      invariant operations == PortOps(ci, items, pi, ports)
    {
      if Selected(items[pi], ports) {
        operations := operations + [PathTo(ci, pi)];
      }
    }
  }

  method BuildOperations(cs: seq<Json>, ports: seq<int>) returns (operations: seq<Pointer>)
    ensures operations == ContainerOps(cs, |cs|, ports)
  {
    operations := [];
    for ci := 0 to |cs|
      invariant operations == ContainerOps(cs, ci, ports)
    {
      var here := BuildPortOperations(ci, PortsOf(cs[ci]), ports);
      operations := operations + here;
    }
  }

  // ----- what the patch is meant to do

  function WithoutClaim(port: Json, ports: seq<int>): Json {
    if Selected(port, ports) then Obj(port.fields - {"hostPort"}) else port
  }

  /** The first `k` ports released. */
  function ReleasedPorts(items: seq<Json>, k: nat, ports: seq<int>): (r: seq<Json>)
    requires k <= |items|
    ensures |r| == |items|
  {
    seq(|items|, i requires 0 <= i < |items| => if i < k then WithoutClaim(items[i], ports) else items[i])
  }

  function ReleasedContainer(c: Json, k: nat, ports: seq<int>): Json
    requires k <= |PortsOf(c)|
  {
    if PortsOf(c) == [] then c else Obj(c.fields["ports" := Arr(ReleasedPorts(PortsOf(c), k, ports))])
  }

  /** Containers before `ci` released, container `ci` up to port `k`, the rest as they were. */
  function Released(cs: seq<Json>, ci: nat, k: nat, ports: seq<int>): (r: seq<Json>)
    requires ci <= |cs| && (ci < |cs| ==> k <= |PortsOf(cs[ci])|)
    ensures |r| == |cs|
  {
    seq(|cs|, i requires 0 <= i < |cs| =>
      if i < ci then ReleasedContainer(cs[i], |PortsOf(cs[i])|, ports)
      else if i == ci then ReleasedContainer(cs[i], k, ports)
      else cs[i])
  }

  lemma {:induction false} ReleasedNone(c: Json, ports: seq<int>)
    ensures ReleasedContainer(c, 0, ports) == c
  {
    if PortsOf(c) != [] {
      assert ReleasedPorts(PortsOf(c), 0, ports) == PortsOf(c);
      assert c.fields["ports" := Arr(PortsOf(c))] == c.fields;
    }
  }

  /** One operation, at the moment it is reached. */
  lemma {:induction false} RemoveOne(d: Json, cs: seq<Json>, ci: nat, k: nat, ports: seq<int>)
    requires Get(d, CONTAINERS).Some? && ci < |cs| && k < |PortsOf(cs[ci])| && Selected(PortsOf(cs[ci])[k], ports)
    ensures Remove(Put(d, CONTAINERS, Arr(Released(cs, ci, k, ports))), PathTo(ci, k))
         == Some(Put(d, CONTAINERS, Arr(Released(cs, ci, k + 1, ports))))
  {
    var before, after := Released(cs, ci, k, ports), Released(cs, ci, k + 1, ports);
    var items := PortsOf(cs[ci]);
    var q: Pointer := [Index(ci), Key("ports"), Index(k), Key("hostPort")];
    var inner := Arr(ReleasedPorts(items, k, ports));
    var port := items[k];
    assert q[1..][1..] == [Index(k), Key("hostPort")] && q[1..] == [Key("ports"), Index(k), Key("hostPort")];
    assert [Index(k), Key("hostPort")][1..] == [Key("hostPort")];
    assert Remove(port, [Key("hostPort")]) == Some(WithoutClaim(port, ports));
    assert Remove(inner, [Index(k), Key("hostPort")]) == Some(Arr(ReleasedPorts(items, k, ports)[k := WithoutClaim(port, ports)]));
    assert ReleasedPorts(items, k, ports)[k := WithoutClaim(port, ports)] == ReleasedPorts(items, k + 1, ports);
    var c := ReleasedContainer(cs[ci], k, ports);
    assert Remove(c, q[1..]) == Some(Obj(c.fields["ports" := Arr(ReleasedPorts(items, k + 1, ports))]));
    assert c.fields["ports" := Arr(ReleasedPorts(items, k + 1, ports))]
        == cs[ci].fields["ports" := Arr(ReleasedPorts(items, k + 1, ports))];
    assert Remove(Arr(before), q) == Some(Arr(before[ci := ReleasedContainer(cs[ci], k + 1, ports)]));
    assert before[ci := ReleasedContainer(cs[ci], k + 1, ports)] == after;
    PutPut(d, CONTAINERS, Arr(before), Arr(after));
    RemoveBelow(Put(d, CONTAINERS, Arr(before)), CONTAINERS, q);
  }

  /** A port that claims nothing is released as it is. */
  lemma {:induction false} SkippedPort(cs: seq<Json>, ci: nat, k: nat, ports: seq<int>)
    requires ci < |cs| && k < |PortsOf(cs[ci])| && !Selected(PortsOf(cs[ci])[k], ports)
    ensures Released(cs, ci, k + 1, ports) == Released(cs, ci, k, ports)
  {
    assert ReleasedPorts(PortsOf(cs[ci]), k + 1, ports) == ReleasedPorts(PortsOf(cs[ci]), k, ports);
  }

  lemma {:induction false} PortsPatched(d: Json, cs: seq<Json>, ci: nat, k: nat, ops: seq<Pointer>, ports: seq<int>)
    requires Get(d, CONTAINERS).Some? && ci < |cs| && k <= |PortsOf(cs[ci])|
    requires ApplyPatch(d, ops) == Some(Put(d, CONTAINERS, Arr(Released(cs, ci, 0, ports))))
    ensures ApplyPatch(d, ops + PortOps(ci, PortsOf(cs[ci]), k, ports))
         == Some(Put(d, CONTAINERS, Arr(Released(cs, ci, k, ports))))
    decreases k
  {
    hide Selected, PortsOf, PathTo, Get, Put, Remove, Released;
    var items := PortsOf(cs[ci]);
    if k == 0 {
      assert ops + [] == ops;
    } else {
      PortsPatched(d, cs, ci, k - 1, ops, ports);
      var front := ops + PortOps(ci, items, k - 1, ports);
      if Selected(items[k - 1], ports) {
        assert ops + PortOps(ci, items, k, ports) == front + [PathTo(ci, k - 1)];
        assert (front + [PathTo(ci, k - 1)])[..|front|] == front;
        RemoveOne(d, cs, ci, k - 1, ports);
      } else {
        assert ops + PortOps(ci, items, k, ports) == front;
        SkippedPort(cs, ci, k - 1, ports);
      }
    }
  }

  lemma {:induction false} ContainersPatched(d: Json, cs: seq<Json>, n: nat, ports: seq<int>)
    requires Get(d, CONTAINERS) == Some(Arr(cs)) && n <= |cs|
    ensures ApplyPatch(d, ContainerOps(cs, n, ports)) == Some(Put(d, CONTAINERS, Arr(Released(cs, n, 0, ports))))
    decreases n
  {
    hide Get, Put, Selected, PortsOf, ReleasedPorts;
    if n == 0 {
      if |cs| > 0 { ReleasedNone(cs[0], ports); }
      assert Released(cs, 0, 0, ports) == cs;
      PutGot(d, CONTAINERS);
    } else {
      ContainersPatched(d, cs, n - 1, ports);
      PortsPatched(d, cs, n - 1, |PortsOf(cs[n - 1])|, ContainerOps(cs, n - 1, ports), ports);
      if n < |cs| { ReleasedNone(cs[n], ports); }
      assert Released(cs, n - 1, |PortsOf(cs[n - 1])|, ports) == Released(cs, n, 0, ports);
    }
  }

  lemma {:induction false} PutGot(d: Json, p: Pointer)
    requires Get(d, p).Some?
    ensures Put(d, p, Get(d, p).value) == d
    decreases |p|
  {
    if p != [] {
      PutGot(Child(d, p[0]).value, p[1..]);
      match p[0]
      case Key(k) => assert d.fields[k := d.fields[k]] == d.fields;
      case Index(i) => assert d.items[i := d.items[i]] == d.items;
    }
  }

  /** For any nesting of containers and ports the patch goes through, every target being there when
      it is reached, and changes the container list into the released one and nothing else. */
  lemma {:induction false} PatchIsExact(d: Json, cs: seq<Json>, ports: seq<int>)
    requires Get(d, CONTAINERS) == Some(Arr(cs))
    ensures ApplyPatch(d, ContainerOps(cs, |cs|, ports)) == Some(Put(d, CONTAINERS, Arr(Released(cs, |cs|, 0, ports))))
  {
    ContainersPatched(d, cs, |cs|, ports);
  }

  /** What "released" means, port by port and field by field. */
  lemma {:induction false} ReleasedMeans(cs: seq<Json>, ports: seq<int>, ci: nat, pi: nat)
    requires ci < |cs| && pi < |PortsOf(cs[ci])|
    ensures var c := Released(cs, |cs|, 0, ports)[ci]; var before := PortsOf(cs[ci])[pi];
      && c.Obj? && c.fields.Keys == cs[ci].fields.Keys
      && (forall k :: k in c.fields && k != "ports" ==> c.fields[k] == cs[ci].fields[k])
      && |PortsOf(c)| == |PortsOf(cs[ci])|
      && !Selected(PortsOf(c)[pi], ports)
      && (!Selected(before, ports) ==> PortsOf(c)[pi] == before)
      && (Selected(before, ports) ==>
            PortsOf(c)[pi].Obj? && PortsOf(c)[pi].fields.Keys == before.fields.Keys - {"hostPort"}
            && forall k :: k in PortsOf(c)[pi].fields ==> PortsOf(c)[pi].fields[k] == before.fields[k])
  {
  }

  lemma {:induction false} PortlessUnchanged(cs: seq<Json>, ports: seq<int>, ci: nat)
    requires ci < |cs| && PortsOf(cs[ci]) == []
    ensures Released(cs, |cs|, 0, ports)[ci] == cs[ci]
  {
  }

  /** Port `pi` of container `ci` names one of the ports as its `hostPort`. */
  predicate ClaimAt(cs: seq<Json>, ports: seq<int>, ci: int, pi: int) {
    && 0 <= ci < |cs| && cs[ci].Obj? && "ports" in cs[ci].fields && cs[ci].fields["ports"].Arr?
    && 0 <= pi < |cs[ci].fields["ports"].items|
    && var port := cs[ci].fields["ports"].items[pi];
    && port.Obj? && "hostPort" in port.fields && port.fields["hostPort"].Num? && port.fields["hostPort"].n in ports
  }

  lemma {:induction false} ClaimIsSelected(cs: seq<Json>, ports: seq<int>, ci: int, pi: int)
    ensures ClaimAt(cs, ports, ci, pi) <==>
      0 <= ci < |cs| && 0 <= pi < |PortsOf(cs[ci])| && Selected(PortsOf(cs[ci])[pi], ports)
  {
  }

  ghost predicate Claims(cs: seq<Json>, ports: seq<int>) {
    exists ci, pi :: ClaimAt(cs, ports, ci, pi)
  }

  lemma {:induction false} PortShows(ci: nat, items: seq<Json>, k: nat, ports: seq<int>, pi: nat)
    requires pi < k <= |items| && Selected(items[pi], ports)
    ensures |PortOps(ci, items, k, ports)| > 0
  {
    if pi < k - 1 { PortShows(ci, items, k - 1, ports, pi); }
  }

  lemma {:induction false} PortWitness(ci: nat, items: seq<Json>, k: nat, ports: seq<int>) returns (pi: nat)
    requires k <= |items| && |PortOps(ci, items, k, ports)| > 0
    ensures pi < k && Selected(items[pi], ports)
  {
    if Selected(items[k - 1], ports) { pi := k - 1; } else { pi := PortWitness(ci, items, k - 1, ports); }
  }

  lemma {:induction false} ClaimShows(cs: seq<Json>, n: nat, ports: seq<int>, ci: nat, pi: nat)
    requires ci < n <= |cs| && ClaimAt(cs, ports, ci, pi)
    ensures |ContainerOps(cs, n, ports)| > 0
  {
    hide PortOps, Selected;
    if ci < n - 1 {
      ClaimShows(cs, n - 1, ports, ci, pi);
    } else {
      PortShows(ci, PortsOf(cs[ci]), |PortsOf(cs[ci])|, ports, pi);
    }
  }

  lemma {:induction false} ClaimWitness(cs: seq<Json>, n: nat, ports: seq<int>) returns (ci: nat, pi: nat)
    requires n <= |cs| && |ContainerOps(cs, n, ports)| > 0
    ensures ci < n && ClaimAt(cs, ports, ci, pi)
  {
    if |ContainerOps(cs, n - 1, ports)| > 0 {
      ci, pi := ClaimWitness(cs, n - 1, ports);
    } else {
      ci := n - 1;
      pi := PortWitness(ci, PortsOf(cs[ci]), |PortsOf(cs[ci])|, ports);
    }
  }

  /** There is something to remove exactly when some port claims one. */
  lemma {:induction false} OperationsExactly(cs: seq<Json>, ports: seq<int>)
    ensures ContainerOps(cs, |cs|, ports) != [] <==> Claims(cs, ports)
  {
    if ci, pi :| ClaimAt(cs, ports, ci, pi) { ClaimShows(cs, |cs|, ports, ci, pi); }
    if ContainerOps(cs, |cs|, ports) != [] { var ci, pi := ClaimWitness(cs, |cs|, ports); }
  }

  lemma {:induction false} ReleasedUnclaimed(cs: seq<Json>, ports: seq<int>)
    ensures !Claims(Released(cs, |cs|, 0, ports), ports)
  {
    var after := Released(cs, |cs|, 0, ports);
    forall ci, pi ensures !ClaimAt(after, ports, ci, pi) {
      if 0 <= ci < |cs| && 0 <= pi < |PortsOf(after[ci])| {
        if PortsOf(cs[ci]) == [] { PortlessUnchanged(cs, ports, ci); }
        else { ReleasedMeans(cs, ports, ci, 0); ReleasedMeans(cs, ports, ci, pi); }
      }
    }
  }

  /** Some port still claims one of the ports. */
  method StillClaimed(cs: seq<Json>, ports: seq<int>) returns (r: bool)
    ensures r == Claims(cs, ports)
  {
    var ops := BuildOperations(cs, ports);
    OperationsExactly(cs, ports);
    r := ops != [];
  }

  // ----- the command

  class DaemonSet {
    var doc: Json

    /** `readable` and `rereadable`: the two reads of the container list succeeded; `patched`: the API
        server accepted the patch; `overwritten`: the container list found in place of the patched one,
        the old one if the patch was accepted without effect. Returns true when claims were found and
        none is seen afterwards. */
    method ReleaseHostPortClaim(ports: seq<int>, readable: bool, patched: bool, overwritten: Option<seq<Json>>, rereadable: bool)
      returns (s: Status, gone: bool)
      modifies this
      ensures !readable || Get(old(doc), CONTAINERS).None? || !Get(old(doc), CONTAINERS).value.Arr? ==>
                doc == old(doc) && s == Ok && !gone
      ensures readable && Get(old(doc), CONTAINERS).Some? && Get(old(doc), CONTAINERS).value.Arr? ==>
                var cs := Get(old(doc), CONTAINERS).value.items;
                var after := if overwritten.Some? then overwritten.value else Released(cs, |cs|, 0, ports);
                && s == (if Claims(cs, ports) && !patched then Failed else Ok)
                && gone == (Claims(cs, ports) && patched
                            && (rereadable && overwritten.Some? ==> !Claims(overwritten.value, ports)))
                && doc == (if Claims(cs, ports) && patched then Put(old(doc), CONTAINERS, Arr(after)) else old(doc))
    {
      s, gone := Ok, false;
      var found := Get(doc, CONTAINERS);
      if !readable || found.None? || !found.value.Arr? { return; }
      var cs := found.value.items;
      var operations := BuildOperations(cs, ports);
      OperationsExactly(cs, ports);
      if operations == [] { return; }
      if !patched { return Failed, false; }
      PatchIsExact(doc, cs, ports);
      var result := ApplyPatch(doc, operations);
      doc := result.value;
      PutPut(old(doc), CONTAINERS, Arr(Released(cs, |cs|, 0, ports)), Null);
      ReleasedUnclaimed(cs, ports);
      if overwritten.Some? {
        PutPut(old(doc), CONTAINERS, Arr(Released(cs, |cs|, 0, ports)), Arr(overwritten.value));
        PutPut(old(doc), CONTAINERS, Arr(overwritten.value), Null);
        doc := Put(doc, CONTAINERS, Arr(overwritten.value));
      }
      var still := StillClaimed(if rereadable then Get(doc, CONTAINERS).value.items else [], ports);
      gone := !still;
    }
  }
}
