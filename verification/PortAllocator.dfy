/** The ports of every deploy: one slot per path, two with a peer; a path run as single replicas gets
    one slot per replica instead, after the other paths of its host. */
module PortAllocator {
  import opened Base

  datatype Env = Production | Development | Test

  function BasePort(e: Env): int {
    match e
    case Production => 3000
    case Development => 4000
    case Test => 5000
  }

  function Envs(): seq<Env> {
    [Production, Development, Test]
  }

  datatype Path = Path(single: bool, replicas: Option<seq<string>>, peer: bool)

  /** `files` are the environments the deploy has an env file for; `hosts` its paths, host by host. */
  datatype Deploy = Deploy(id: string, files: set<Env>, hosts: seq<seq<Path>>)

  datatype Owner = Own(deploy: string, host: nat, path: nat) | Replica(deploy: string, host: nat, replica: string)
  datatype Item = Item(owner: Owner, width: nat)
  datatype Deferral = Deferral(replicas: seq<string>, peer: bool)

  function WidthOf(peer: bool): nat {
    if peer then 2 else 1
  }

  function ReplicaId(deploy: string, replica: string): string {
    deploy + "-" + if replica == "" then "" else replica[1..]
  }

  predicate Deferred(p: Path) {
    p.single && p.replicas.Some?
  }

  // ----- the plan: the slots in their order

  function OwnPlan(deploy: string, host: nat, paths: seq<Path>): seq<Item> {
    if paths == [] then [] else
    var n := |paths| - 1;
    OwnPlan(deploy, host, paths[..n]) + if Deferred(paths[n]) then [] else [Item(Own(deploy, host, n), WidthOf(paths[n].peer))]
  }

  function Deferrals(paths: seq<Path>): seq<Deferral> {
    if paths == [] then [] else
    var n := |paths| - 1;
    Deferrals(paths[..n]) + if Deferred(paths[n]) then [Deferral(paths[n].replicas.value, paths[n].peer)] else []
  }

  function Replicas(deploy: string, host: nat, replicas: seq<string>, peer: bool): seq<Item> {
    if replicas == [] then [] else
    var n := |replicas| - 1;
    Replicas(deploy, host, replicas[..n], peer) + [Item(Replica(deploy, host, replicas[n]), WidthOf(peer))]
  }

  function ReplicaPlan(deploy: string, host: nat, ds: seq<Deferral>): seq<Item> {
    if ds == [] then [] else
    var n := |ds| - 1;
    ReplicaPlan(deploy, host, ds[..n]) + Replicas(deploy, host, ds[n].replicas, ds[n].peer)
  }

  function HostPlan(deploy: string, host: nat, paths: seq<Path>): seq<Item> {
    OwnPlan(deploy, host, paths) + ReplicaPlan(deploy, host, Deferrals(paths))
  }

  function DeployPlan(deploy: string, hosts: seq<seq<Path>>): seq<Item> {
    if hosts == [] then [] else
    var n := |hosts| - 1;
    DeployPlan(deploy, hosts[..n]) + HostPlan(deploy, n, hosts[n])
  }

  function Width(plan: seq<Item>): nat {
    if plan == [] then 0 else Width(plan[..|plan| - 1]) + plan[|plan| - 1].width
  }

  function Start(plan: seq<Item>, i: nat): nat
    requires i <= |plan|
  {
    Width(plan[..i])
  }

  /** The slot of each replica by the id of its deploy. */
  function Singles(plan: seq<Item>): map<string, nat> {
    if plan == [] then map[] else
    var n := |plan| - 1;
    match plan[n].owner
    case Own(_, _, _) => Singles(plan[..n])
    case Replica(d, _, r) => Singles(plan[..n])[ReplicaId(d, r) := Width(plan[..n])]
  }

  predicate Skipped(d: Deploy) {
    exists e :: e in Envs() && e !in d.files
  }

  /** The slots of the first `n` deploys. */
  function PlanTo(deploys: seq<Deploy>, n: nat): seq<Item>
    requires n <= |deploys|
  {
    if n == 0 then [] else
    var before := PlanTo(deploys, n - 1);
    var d := deploys[n - 1];
    if Skipped(d) || d.id in Singles(before) then before else before + DeployPlan(d.id, d.hosts)
  }

  function Plan(deploys: seq<Deploy>): seq<Item> {
    PlanTo(deploys, |deploys|)
  }

  function OffsetOf(plan: seq<Item>, id: string): nat {
    if id in Singles(plan) then Singles(plan)[id] else Width(plan)
  }

  /** The env files are written in order up to the first that does not exist. */
  predicate Written(files: set<Env>, e: Env) {
    Production in files && (e == Production || (Development in files && (e == Development || Test in files)))
  }

  /** The PORT the first `n` deploys leave in the file of `id` for `e`, if they write one. */
  function PortTo(deploys: seq<Deploy>, n: nat, id: string, e: Env): Option<int>
    requires n <= |deploys|
  {
    if n == 0 then None
    else if deploys[n - 1].id == id && Written(deploys[n - 1].files, e) then
      Some(BasePort(e) + OffsetOf(PlanTo(deploys, n - 1), id))
    else PortTo(deploys, n - 1, id, e)
  }

  function PortOf(deploys: seq<Deploy>, id: string, e: Env): Option<int> {
    PortTo(deploys, |deploys|, id, e)
  }

  // ----- the run

  class EnvFiles {
    var port: map<(string, Env), int>
    var portOffset: nat
    var singleReplicaPortOffsets: map<string, nat>
    ghost var plan: seq<Item>

    constructor (port: map<(string, Env), int>)
      ensures this.port == port && Valid() && plan == []
    {
      this.port, portOffset, singleReplicaPortOffsets, plan := port, 0, map[], [];
    }

    ghost predicate Valid() reads this {
      portOffset == Width(plan) && singleReplicaPortOffsets == Singles(plan)
    }

    method Take(item: Item)
      requires Valid()
      modifies this`portOffset, this`singleReplicaPortOffsets, this`plan
      ensures Valid() && plan == old(plan) + [item]
    {
      if item.owner.Replica? {
        singleReplicaPortOffsets := singleReplicaPortOffsets[ReplicaId(item.owner.deploy, item.owner.replica) := portOffset];
      }
      portOffset := portOffset + item.width;
      plan := plan + [item];
      assert plan[..|plan| - 1] == old(plan);
    }

    method TakeReplicas(deploy: string, host: nat, slot: Deferral)
      requires Valid()
      modifies this`portOffset, this`singleReplicaPortOffsets, this`plan
      ensures Valid() && plan == old(plan) + Replicas(deploy, host, slot.replicas, slot.peer)
    {
      hide Singles, Width, WidthOf;
      var rs := slot.replicas;
      for i := 0 to |rs|
        invariant Valid() && plan == old(plan) + Replicas(deploy, host, rs[..i], slot.peer)
      {
        assert rs[..i + 1][..i] == rs[..i];
        Take(Item(Replica(deploy, host, rs[i]), WidthOf(slot.peer)));
      }
      assert rs[..|rs|] == rs;
    }

    method TakeOwn(deploy: string, host: nat, paths: seq<Path>) returns (deferred: seq<Deferral>)
      requires Valid()
      modifies this`portOffset, this`singleReplicaPortOffsets, this`plan
      ensures Valid() && plan == old(plan) + OwnPlan(deploy, host, paths) && deferred == Deferrals(paths)
    {
      hide Singles, Width, WidthOf;
      deferred := [];
      for i := 0 to |paths|
        invariant Valid() && plan == old(plan) + OwnPlan(deploy, host, paths[..i]) && deferred == Deferrals(paths[..i])
      {
        assert paths[..i + 1][..i] == paths[..i];
        if Deferred(paths[i]) {
          deferred := deferred + [Deferral(paths[i].replicas.value, paths[i].peer)];
          continue;
        }
        Take(Item(Own(deploy, host, i), WidthOf(paths[i].peer)));
      }
      assert paths[..|paths|] == paths;
    }

    method TakeDeferred(deploy: string, host: nat, deferred: seq<Deferral>)
      requires Valid()
      modifies this`portOffset, this`singleReplicaPortOffsets, this`plan
      ensures Valid() && plan == old(plan) + ReplicaPlan(deploy, host, deferred)
    {
      hide Singles, Width, Replicas;
      for i := 0 to |deferred|
        invariant Valid() && plan == old(plan) + ReplicaPlan(deploy, host, deferred[..i])
      {
        assert deferred[..i + 1][..i] == deferred[..i];
        TakeReplicas(deploy, host, deferred[i]);
      }
      assert deferred[..|deferred|] == deferred;
    }

    method TakeHost(deploy: string, host: nat, paths: seq<Path>)
      requires Valid()
      modifies this`portOffset, this`singleReplicaPortOffsets, this`plan
      ensures Valid() && plan == old(plan) + HostPlan(deploy, host, paths)
    {
      hide Singles, Width, OwnPlan, ReplicaPlan, Deferrals;
      var deferred := TakeOwn(deploy, host, paths);
      TakeDeferred(deploy, host, deferred);
    }

    method TakeHosts(deploy: string, hosts: seq<seq<Path>>)
      requires Valid()
      modifies this`portOffset, this`singleReplicaPortOffsets, this`plan
      ensures Valid() && plan == old(plan) + DeployPlan(deploy, hosts)
    {
      hide Singles, Width, HostPlan;
      for h := 0 to |hosts|
        invariant Valid() && plan == old(plan) + DeployPlan(deploy, hosts[..h])
      {
        assert hosts[..h + 1][..h] == hosts[..h];
        TakeHost(deploy, h, hosts[h]);
      }
      assert hosts[..|hosts|] == hosts;
    }

    /** Writes the env files of one deploy; `skip` when one is missing. */
    method WriteEnvs(d: Deploy, offset: nat) returns (skip: bool)
      modifies this`port
      ensures skip <==> Skipped(d)
      ensures forall id, e :: ((id, e) in port) == (((id, e) in old(port)) || (id == d.id && Written(d.files, e)))
      ensures forall id, e :: (id, e) in port ==>
        port[(id, e)] == if id == d.id && Written(d.files, e) then BasePort(e) + offset else old(port)[(id, e)]
    {
      assert Envs() == [Production, Development, Test];
      assert Production in Envs() && Development in Envs() && Test in Envs();
      if Production !in d.files { return true; }
      port := port[(d.id, Production) := BasePort(Production) + offset];
      if Development !in d.files { return true; }
      port := port[(d.id, Development) := BasePort(Development) + offset];
      if Test !in d.files { return true; }
      port := port[(d.id, Test) := BasePort(Test) + offset];
      skip := false;
    }

    method SyncEnvPort(deploys: seq<Deploy>)
      requires Valid() && plan == []
      modifies this
      ensures Valid() && plan == Plan(deploys)
      ensures forall id, e :: ((id, e) in port) == (((id, e) in old(port)) || PortOf(deploys, id, e).Some?)
      ensures forall id, e :: (id, e) in port ==>
        port[(id, e)] == if PortOf(deploys, id, e).Some? then PortOf(deploys, id, e).value else old(port)[(id, e)]
    {
      hide DeployPlan, Singles, Width, Skipped, Written;
      for i := 0 to |deploys|
        invariant Valid() && plan == PlanTo(deploys, i)
        invariant forall id, e :: ((id, e) in port) == (((id, e) in old(port)) || PortTo(deploys, i, id, e).Some?)
        invariant forall id, e :: (id, e) in port ==>
          port[(id, e)] == if PortTo(deploys, i, id, e).Some? then PortTo(deploys, i, id, e).value else old(port)[(id, e)]
      {
        var d := deploys[i];
        var offset := if d.id in singleReplicaPortOffsets then singleReplicaPortOffsets[d.id] else portOffset;
        var skip := WriteEnvs(d, offset);
        if skip || d.id in singleReplicaPortOffsets { continue; }
        TakeHosts(d.id, d.hosts);
      }
    }
  }

  // ----- the slots tile

  lemma {:induction false} WidthSplit(a: seq<Item>, b: seq<Item>)
    ensures Width(a + b) == Width(a) + Width(b)
  {
    if b == [] {
      assert a + b == a;
    } else {
      var n := |b| - 1;
      assert (a + b)[..|a| + n] == a + b[..n];
      WidthSplit(a, b[..n]);
    }
  }

  lemma {:induction false} StartStep(plan: seq<Item>, i: nat)
    requires i < |plan|
    ensures Start(plan, i + 1) == Start(plan, i) + plan[i].width
  {
    assert plan[..i + 1][..i] == plan[..i];
  }

  /** A slot ends before any later one starts. */
  lemma {:induction false} SlotsInOrder(plan: seq<Item>, i: nat, j: nat)
    requires i < j <= |plan|
    ensures Start(plan, i) + plan[i].width <= Start(plan, j) <= Width(plan)
    decreases j
  {
    StartStep(plan, i);
    assert plan == plan[..j] + plan[j..];
    WidthSplit(plan[..j], plan[j..]);
    if i + 1 < j {
      SlotsInOrder(plan, i, j - 1);
      StartStep(plan, j - 1);
    }
  }

  ghost predicate Covers(plan: seq<Item>, i: int, x: int) {
    0 <= i < |plan| && Start(plan, i) <= x < Start(plan, i) + plan[i].width
  }

  /** No gap and no overlap: every offset below the total is in exactly one slot, and no other is. */
  lemma {:induction false} SlotsTile(plan: seq<Item>, x: int)
    ensures 0 <= x < Width(plan) <==> exists i :: Covers(plan, i, x)
    ensures forall i, j :: Covers(plan, i, x) && Covers(plan, j, x) ==> i == j
  {
    forall i, j | Covers(plan, i, x) && Covers(plan, j, x) ensures i == j {
      if i < j { SlotsInOrder(plan, i, j); }
      if j < i { SlotsInOrder(plan, j, i); }
    }
    if i :| Covers(plan, i, x) { SlotsInOrder(plan, i, |plan|); assert plan[..|plan|] == plan; }
    if 0 <= x < Width(plan) {
      var n := |plan| - 1;
      if x < Width(plan[..n]) {
        SlotsTile(plan[..n], x);
        var i :| Covers(plan[..n], i, x);
        assert plan[..n][..i] == plan[..i];
        assert Covers(plan, i, x);
      } else {
        assert Covers(plan, n, x);
      }
    }
  }

  ghost predicate Thin(plan: seq<Item>) {
    forall i :: 0 <= i < |plan| ==> 1 <= plan[i].width <= 2
  }

  lemma {:induction false} ReplicasThin(deploy: string, host: nat, rs: seq<string>, peer: bool)
    ensures Thin(Replicas(deploy, host, rs, peer))
  {
    if rs != [] { ReplicasThin(deploy, host, rs[..|rs| - 1], peer); }
  }

  lemma {:induction false} ReplicaPlanThin(deploy: string, host: nat, ds: seq<Deferral>)
    ensures Thin(ReplicaPlan(deploy, host, ds))
  {
    if ds != [] {
      var n := |ds| - 1;
      ReplicaPlanThin(deploy, host, ds[..n]);
      ReplicasThin(deploy, host, ds[n].replicas, ds[n].peer);
    }
  }

  lemma {:induction false} OwnPlanThin(deploy: string, host: nat, paths: seq<Path>)
    ensures Thin(OwnPlan(deploy, host, paths))
  {
    if paths != [] { OwnPlanThin(deploy, host, paths[..|paths| - 1]); }
  }

  lemma {:induction false} DeployPlanThin(deploy: string, hosts: seq<seq<Path>>)
    ensures Thin(DeployPlan(deploy, hosts))
  {
    if hosts != [] {
      var n := |hosts| - 1;
      DeployPlanThin(deploy, hosts[..n]);
      OwnPlanThin(deploy, n, hosts[n]);
      ReplicaPlanThin(deploy, n, Deferrals(hosts[n]));
    }
  }

  lemma {:induction false} PlanThin(deploys: seq<Deploy>, n: nat)
    requires n <= |deploys|
    ensures Thin(PlanTo(deploys, n))
  {
    if n > 0 {
      PlanThin(deploys, n - 1);
      DeployPlanThin(deploys[n - 1].id, deploys[n - 1].hosts);
    }
  }

  // ----- whose slots they are

  /** The slot of a path of its own: it is not run as single replicas. */
  predicate OwnItem(host: seq<Path>, it: Item) {
    it.owner.Own? && it.owner.path < |host| &&
    var q := host[it.owner.path];
    !(q.single && q.replicas.Some?) && it.width == if q.peer then 2 else 1
  }

  /** A slot of a path that is: one of its replicas. */
  predicate ReplicaItem(host: seq<Path>, it: Item) {
    it.owner.Replica? &&
    exists q :: q in host && q.single && q.replicas.Some? && it.owner.replica in q.replicas.value
                && it.width == if q.peer then 2 else 1
  }

  predicate HostItem(deploy: string, hosts: seq<seq<Path>>, it: Item) {
    it.owner.deploy == deploy && it.owner.host < |hosts| && (OwnItem(hosts[it.owner.host], it) || ReplicaItem(hosts[it.owner.host], it))
  }

  lemma {:induction false} OwnPlanHas(deploy: string, host: nat, paths: seq<Path>, it: Item)
    ensures it in OwnPlan(deploy, host, paths) <==> it.owner.deploy == deploy && it.owner.host == host && OwnItem(paths, it)
  {
    if paths != [] { OwnPlanHas(deploy, host, paths[..|paths| - 1], it); }
  }

  lemma {:induction false} ReplicasHas(deploy: string, host: nat, rs: seq<string>, peer: bool, it: Item)
    ensures it in Replicas(deploy, host, rs, peer) <==>
      it.owner.Replica? && it.owner.deploy == deploy && it.owner.host == host && it.owner.replica in rs && it.width == WidthOf(peer)
  {
    if rs != [] {
      ReplicasHas(deploy, host, rs[..|rs| - 1], peer, it);
      assert rs == rs[..|rs| - 1] + [rs[|rs| - 1]];
    }
  }

  lemma {:induction false} ReplicaPlanHas(deploy: string, host: nat, ds: seq<Deferral>, it: Item)
    ensures it in ReplicaPlan(deploy, host, ds) <==>
      it.owner.Replica? && it.owner.deploy == deploy && it.owner.host == host
      && exists d :: d in ds && it.owner.replica in d.replicas && it.width == WidthOf(d.peer)
  {
    if ds != [] {
      var n := |ds| - 1;
      ReplicaPlanHas(deploy, host, ds[..n], it);
      ReplicasHas(deploy, host, ds[n].replicas, ds[n].peer, it);
      assert forall d :: d in ds <==> d in ds[..n] || d == ds[n];
    }
  }

  lemma {:induction false} DeferralsHas(paths: seq<Path>, d: Deferral)
    ensures d in Deferrals(paths) <==> exists q :: q in paths && Deferred(q) && d == Deferral(q.replicas.value, q.peer)
  {
    if paths != [] {
      var n := |paths| - 1;
      DeferralsHas(paths[..n], d);
      assert forall q :: q in paths <==> q in paths[..n] || q == paths[n];
    }
  }

  lemma {:induction false} HostPlanHas(deploy: string, host: nat, paths: seq<Path>, it: Item)
    ensures it in HostPlan(deploy, host, paths) <==>
      it.owner.deploy == deploy && it.owner.host == host && (OwnItem(paths, it) || ReplicaItem(paths, it))
  {
    OwnPlanHas(deploy, host, paths, it);
    ReplicaPlanHas(deploy, host, Deferrals(paths), it);
    forall d ensures d in Deferrals(paths) <==> exists q :: q in paths && Deferred(q) && d == Deferral(q.replicas.value, q.peer) {
      DeferralsHas(paths, d);
    }
    forall q | q in paths && Deferred(q) ensures Deferral(q.replicas.value, q.peer) in Deferrals(paths) {}
  }

  lemma {:induction false} DeployPlanHas(deploy: string, hosts: seq<seq<Path>>, it: Item)
    ensures it in DeployPlan(deploy, hosts) <==> HostItem(deploy, hosts, it)
  {
    hide HostPlan, OwnItem, ReplicaItem;
    if hosts != [] {
      var n := |hosts| - 1;
      DeployPlanHas(deploy, hosts[..n], it);
      HostPlanHas(deploy, n, hosts[n], it);
    }
  }

  /** Deploy `j` is nobody's replica, has all its files and lists this slot. */
  ghost predicate Lists(deploys: seq<Deploy>, j: int, it: Item) {
    0 <= j < |deploys| && Plain(deploys, j) && HostItem(deploys[j].id, deploys[j].hosts, it)
  }

  lemma {:induction false} PlanHas(deploys: seq<Deploy>, n: nat, it: Item)
    requires n <= |deploys|
    ensures it in PlanTo(deploys, n) <==> exists j :: j < n && Lists(deploys, j, it)
  {
    hide DeployPlan, HostItem, Singles, Skipped;
    if n > 0 {
      PlanHas(deploys, n - 1, it);
      DeployPlanHas(deploys[n - 1].id, deploys[n - 1].hosts, it);
      assert it in PlanTo(deploys, n) <==> it in PlanTo(deploys, n - 1) || Lists(deploys, n - 1, it);
    }
  }

  ghost predicate Plain(deploys: seq<Deploy>, j: nat)
    requires j < |deploys|
  {
    !Skipped(deploys[j]) && deploys[j].id !in Singles(PlanTo(deploys, j))
  }

  /** No path of its own has two slots. */
  ghost predicate OwnOnce(plan: seq<Item>) {
    forall i, k :: 0 <= i < k < |plan| && plan[i].owner.Own? ==> plan[i].owner != plan[k].owner
  }

  lemma {:induction false} AppendOnce(a: seq<Item>, b: seq<Item>)
    requires OwnOnce(a) && OwnOnce(b) && forall x, y :: x in a && y in b && x.owner.Own? ==> x.owner != y.owner
    ensures OwnOnce(a + b)
  {
    var c := a + b;
    forall i, k | 0 <= i < k < |c| && c[i].owner.Own? ensures c[i].owner != c[k].owner {
      if i < |a| <= k { assert a[i] in a && b[k - |a|] in b; }
    }
  }

  lemma {:induction false} OwnPlanOnce(deploy: string, host: nat, paths: seq<Path>)
    ensures OwnOnce(OwnPlan(deploy, host, paths))
  {
    if paths != [] {
      var n := |paths| - 1;
      OwnPlanOnce(deploy, host, paths[..n]);
      forall it | it in OwnPlan(deploy, host, paths[..n]) ensures it.owner.Own? && it.owner.path < n {
        OwnPlanHas(deploy, host, paths[..n], it);
      }
    }
  }

  lemma {:induction false} DeployPlanOnce(deploy: string, hosts: seq<seq<Path>>)
    ensures OwnOnce(DeployPlan(deploy, hosts))
  {
    if hosts != [] {
      var n := |hosts| - 1;
      var own, replicas := OwnPlan(deploy, n, hosts[n]), ReplicaPlan(deploy, n, Deferrals(hosts[n]));
      DeployPlanOnce(deploy, hosts[..n]);
      DeployPlanShape(deploy, hosts[..n]);
      OwnPlanOnce(deploy, n, hosts[n]);
      OwnPlanShape(deploy, n, hosts[n]);
      ReplicaPlanShape(deploy, n, Deferrals(hosts[n]));
      AppendOnce(own, replicas);
      AppendOnce(DeployPlan(deploy, hosts[..n]), own + replicas);
    }
  }

  lemma {:induction false} PlanOnce(deploys: seq<Deploy>, n: nat)
    requires PlacedOnce(deploys) && n <= |deploys|
    ensures OwnOnce(PlanTo(deploys, n))
  {
    hide DeployPlan, Singles, Skipped;
    if n > 0 {
      var before, last := PlanTo(deploys, n - 1), deploys[n - 1];
      PlanOnce(deploys, n - 1);
      PlanShape(deploys, n - 1);
      DeployPlanOnce(last.id, last.hosts);
      DeployPlanShape(last.id, last.hosts);
      if Plain(deploys, n - 1) { AppendOnce(before, DeployPlan(last.id, last.hosts)); }
    }
  }

  /** Over the deploys that are not skipped: the slots are those of their own paths, one each, and of their
      single replicas, as wide as the path, and every offset below the total is in exactly one of them. */
  lemma {:induction false} PlanTiles(deploys: seq<Deploy>, it: Item, x: int)
    ensures it in Plan(deploys) <==> exists j :: Lists(deploys, j, it)
    ensures PlacedOnce(deploys) ==> OwnOnce(Plan(deploys))
    ensures 0 <= x < Width(Plan(deploys)) <==> exists i :: Covers(Plan(deploys), i, x)
    ensures forall i, j :: Covers(Plan(deploys), i, x) && Covers(Plan(deploys), j, x) ==> i == j
  {
    hide HostItem, Width, Plain, PlanTo, Covers;
    PlanHas(deploys, |deploys|, it);
    assert forall j :: Lists(deploys, j, it) ==> j < |deploys|;
    if PlacedOnce(deploys) { PlanOnce(deploys, |deploys|); }
    SlotsTile(Plan(deploys), x);
  }

  // ----- the order of the slots

  /** No deploy that takes slots is listed twice. A replica may be: it takes none on its own turns. */
  ghost predicate PlacedOnce(deploys: seq<Deploy>) {
    forall i, j :: 0 <= i < j < |deploys| && Plain(deploys, i) && Plain(deploys, j) ==> deploys[i].id != deploys[j].id
  }

  /** The last turn on which the file of that deploy and environment is written. */
  predicate LastTurn(deploys: seq<Deploy>, j: nat, e: Env)
    requires j < |deploys|
  {
    Written(deploys[j].files, e)
    && forall k :: j < k < |deploys| && deploys[k].id == deploys[j].id ==> !Written(deploys[k].files, e)
  }

  /** When every deploy is listed once, both are plain. */
  lemma {:induction false} ListedOnce(deploys: seq<Deploy>)
    requires forall i, j :: 0 <= i < j < |deploys| ==> deploys[i].id != deploys[j].id
    ensures PlacedOnce(deploys)
    ensures forall j, e :: 0 <= j < |deploys| ==> (LastTurn(deploys, j, e) <==> Written(deploys[j].files, e))
  {
  }

  ghost predicate OfHosts(plan: seq<Item>, deploy: string, hosts: nat) {
    forall i :: 0 <= i < |plan| ==> plan[i].owner.deploy == deploy && plan[i].owner.host < hosts
  }

  predicate SameHost(a: Item, b: Item) {
    a.owner.deploy == b.owner.deploy && a.owner.host == b.owner.host
  }

  /** On each host of a deploy the paths of its own come before the single replicas. */
  ghost predicate OwnFirst(plan: seq<Item>) {
    forall i, k :: 0 <= i < k < |plan| && SameHost(plan[i], plan[k]) && plan[i].owner.Replica? ==> plan[k].owner.Replica?
  }

  /** The slots of one deploy stand together. */
  ghost predicate Together(plan: seq<Item>) {
    forall i, k, l :: 0 <= i < k < l < |plan| && plan[i].owner.deploy == plan[l].owner.deploy
      ==> plan[k].owner.deploy == plan[i].owner.deploy
  }

  lemma {:induction false} OwnPlanShape(deploy: string, host: nat, paths: seq<Path>)
    ensures forall i :: 0 <= i < |OwnPlan(deploy, host, paths)| ==>
      var o := OwnPlan(deploy, host, paths)[i].owner; o.Own? && o.deploy == deploy && o.host == host
  {
    if paths != [] { OwnPlanShape(deploy, host, paths[..|paths| - 1]); }
  }

  lemma {:induction false} ReplicasShape(deploy: string, host: nat, rs: seq<string>, peer: bool)
    ensures forall i :: 0 <= i < |Replicas(deploy, host, rs, peer)| ==>
      var o := Replicas(deploy, host, rs, peer)[i].owner; o.Replica? && o.deploy == deploy && o.host == host
  {
    if rs != [] { ReplicasShape(deploy, host, rs[..|rs| - 1], peer); }
  }

  lemma {:induction false} ReplicaPlanShape(deploy: string, host: nat, ds: seq<Deferral>)
    ensures forall i :: 0 <= i < |ReplicaPlan(deploy, host, ds)| ==>
      var o := ReplicaPlan(deploy, host, ds)[i].owner; o.Replica? && o.deploy == deploy && o.host == host
  {
    if ds != [] {
      var n := |ds| - 1;
      ReplicaPlanShape(deploy, host, ds[..n]);
      ReplicasShape(deploy, host, ds[n].replicas, ds[n].peer);
    }
  }

  lemma {:induction false} DeployPlanShape(deploy: string, hosts: seq<seq<Path>>)
    ensures OfHosts(DeployPlan(deploy, hosts), deploy, |hosts|) && OwnFirst(DeployPlan(deploy, hosts))
  {
    if hosts != [] {
      var n := |hosts| - 1;
      DeployPlanShape(deploy, hosts[..n]);
      OwnPlanShape(deploy, n, hosts[n]);
      ReplicaPlanShape(deploy, n, Deferrals(hosts[n]));
    }
  }

  ghost predicate OfDeploys(plan: seq<Item>, deploys: seq<Deploy>, n: nat)
    requires n <= |deploys|
  {
    forall i :: 0 <= i < |plan| ==> exists d :: 0 <= d < n && Plain(deploys, d) && deploys[d].id == plan[i].owner.deploy
  }

  lemma {:induction false} PlanShape(deploys: seq<Deploy>, n: nat)
    requires PlacedOnce(deploys) && n <= |deploys|
    ensures OfDeploys(PlanTo(deploys, n), deploys, n) && OwnFirst(PlanTo(deploys, n)) && Together(PlanTo(deploys, n))
  {
    hide DeployPlan, Singles, Skipped;
    if n > 0 {
      var before, last := PlanTo(deploys, n - 1), deploys[n - 1];
      PlanShape(deploys, n - 1);
      DeployPlanShape(last.id, last.hosts);
      if Plain(deploys, n - 1) { AppendShape(before, DeployPlan(last.id, last.hosts), last.id, |last.hosts|); }
    }
  }

  lemma {:induction false} AppendShape(a: seq<Item>, b: seq<Item>, deploy: string, hosts: nat)
    requires OwnFirst(a) && Together(a) && OwnFirst(b) && OfHosts(b, deploy, hosts)
    requires forall i :: 0 <= i < |a| ==> a[i].owner.deploy != deploy
    ensures OwnFirst(a + b) && Together(a + b)
  {
    var c := a + b;
    forall i, k, l | 0 <= i < k < l < |c| && c[i].owner.deploy == c[l].owner.deploy
      ensures c[k].owner.deploy == c[i].owner.deploy
    {
      if l >= |a| { assert c[l] == b[l - |a|]; }
    }
  }

  lemma {:induction false} PlanPrefix(deploys: seq<Deploy>, j: nat, n: nat)
    requires j <= n <= |deploys|
    ensures PlanTo(deploys, j) <= PlanTo(deploys, n)
  {
    hide DeployPlan, Singles, Skipped;
    if j < n { PlanPrefix(deploys, j, n - 1); }
  }

  lemma {:induction false} StartInPrefix(a: seq<Item>, b: seq<Item>, i: nat)
    requires a <= b && i <= |a|
    ensures Start(a, i) == Start(b, i)
  {
    assert a[..i] == b[..i];
  }

  // ----- what is written

  /** A file keeps what its last turn wrote, however often its deploy is listed. */
  lemma {:induction false} LastTurnDecides(deploys: seq<Deploy>, j: nat, n: nat, e: Env)
    requires j < n <= |deploys| && LastTurn(deploys, j, e)
    ensures PortTo(deploys, n, deploys[j].id, e) == Some(BasePort(e) + OffsetOf(PlanTo(deploys, j), deploys[j].id))
  {
    hide OffsetOf, PlanTo, Written;
    if j < n - 1 { LastTurnDecides(deploys, j, n - 1, e); }
  }

  /** The deploy's id, a dash, and the replica's path without its first character. */
  predicate NamesReplica(deploy: string, replica: string, id: string) {
    && |id| == |deploy| + (if |replica| == 0 then 1 else |replica|)
    && id[..|deploy|] == deploy && id[|deploy|] == '-'
    && forall i :: 0 < i < |replica| ==> id[|deploy| + i] == replica[i]
  }

  lemma {:induction false} ReplicaIdExactly(deploy: string, replica: string, id: string)
    ensures ReplicaId(deploy, replica) == id <==> NamesReplica(deploy, replica, id)
  {
    var made := ReplicaId(deploy, replica);
    var tail := if replica == "" then "" else replica[1..];
    assert made == deploy + ("-" + tail) && |made| == |deploy| + 1 + |tail|;
    assert made[..|deploy|] == deploy && made[|deploy|] == '-';
    assert forall i :: 0 < i < |replica| ==> made[|deploy| + i] == tail[i - 1] == replica[i];
    if NamesReplica(deploy, replica, id) {
      assert forall k :: 0 <= k < |deploy| ==> id[k] == id[..|deploy|][k] && made[k] == made[..|deploy|][k];
      forall k | 0 <= k < |id| ensures id[k] == made[k] {
        if k > |deploy| { assert id[|deploy| + (k - |deploy|)] == replica[k - |deploy|]; }
      }
      assert id == made;
    }
  }

  ghost predicate SlotOf(plan: seq<Item>, id: string, i: int) {
    0 <= i < |plan| && plan[i].owner.Replica? && NamesReplica(plan[i].owner.deploy, plan[i].owner.replica, id)
  }

  /** A replica id is known exactly when it has a slot, and then the last one is its offset. */
  lemma {:induction false} SinglesExactly(plan: seq<Item>, id: string)
    ensures id in Singles(plan) <==> exists i :: SlotOf(plan, id, i)
    ensures id in Singles(plan) ==> exists i :: SlotOf(plan, id, i) && Singles(plan)[id] == Start(plan, i)
  {
    hide ReplicaId, NamesReplica;
    if plan != [] {
      var n := |plan| - 1;
      SinglesExactly(plan[..n], id);
      if plan[n].owner.Replica? { ReplicaIdExactly(plan[n].owner.deploy, plan[n].owner.replica, id); }
      if SlotOf(plan, id, n) {
        assert Singles(plan)[id] == Start(plan, n);
      } else {
        assert id in Singles(plan) <==> id in Singles(plan[..n]);
        if i :| SlotOf(plan, id, i) { assert SlotOf(plan[..n], id, i); }
        if i :| SlotOf(plan[..n], id, i) && Singles(plan[..n])[id] == Start(plan[..n], i) {
          assert plan[..n][..i] == plan[..i];
          assert SlotOf(plan, id, i);
        }
      }
    }
  }

  /** No path of its own of the slot's host comes after it, and the slots from the first of its deploy
      to the last are all that deploy's. */
  ghost predicate InItsBlock(plan: seq<Item>, i: nat)
    requires i < |plan|
  {
    && (forall k :: i < k < |plan| && SameHost(plan[i], plan[k]) ==> plan[k].owner.Replica?)
    && (forall k, l :: i <= k <= l < |plan| && plan[l].owner.deploy == plan[i].owner.deploy ==> plan[k].owner.deploy == plan[i].owner.deploy)
    && (forall k, l :: 0 <= l <= k <= i && plan[l].owner.deploy == plan[i].owner.deploy ==> plan[k].owner.deploy == plan[i].owner.deploy)
  }

  lemma {:induction false} SlotInItsBlock(plan: seq<Item>, i: nat)
    requires OwnFirst(plan) && Together(plan) && i < |plan| && plan[i].owner.Replica?
    ensures InItsBlock(plan, i)
  {}

  lemma {:induction false} SlotKept(deploys: seq<Deploy>, j: nat, id: string) returns (i: nat)
    requires j <= |deploys| && id in Singles(PlanTo(deploys, j))
    ensures SlotOf(Plan(deploys), id, i) && Start(Plan(deploys), i) == OffsetOf(PlanTo(deploys, j), id)
  {
    var pre := PlanTo(deploys, j);
    SinglesExactly(pre, id);
    i :| SlotOf(pre, id, i) && Singles(pre)[id] == Start(pre, i);
    PlanPrefix(deploys, j, |deploys|);
    StartInPrefix(pre, Plan(deploys), i);
  }

  ghost predicate GetsSlot(deploys: seq<Deploy>, id: string, e: Env, i: int) {
    var plan := Plan(deploys);
    SlotOf(plan, id, i) && InItsBlock(plan, i) && PortOf(deploys, id, e) == Some(BasePort(e) + Start(plan, i))
  }

  /** A deploy that is some earlier deploy's single replica gets the start of a slot of its own: a slot of
      that replica, in its parent's block, after the paths of that host. It may be listed more than once,
      for several hosts or before its parent too: what counts is the last turn. */
  lemma {:induction false} ReplicaGetsItsSlot(deploys: seq<Deploy>, j: nat, e: Env)
    requires PlacedOnce(deploys) && j < |deploys| && LastTurn(deploys, j, e)
    requires deploys[j].id in Singles(PlanTo(deploys, j))
    ensures exists i :: GetsSlot(deploys, deploys[j].id, e, i)
  {
    hide DeployPlan, PlanTo, PortTo, Singles, Width, LastTurn, InItsBlock;
    var i := SlotKept(deploys, j, deploys[j].id);
    PlanShape(deploys, |deploys|);
    SlotInItsBlock(Plan(deploys), i);
    LastTurnDecides(deploys, j, |deploys|, e);
    assert GetsSlot(deploys, deploys[j].id, e, i);
  }

  /** Written on a turn on which the id is nobody's replica: the offset of that moment. */
  lemma {:induction false} PortAtWidth(deploys: seq<Deploy>, j: nat, e: Env)
    requires j < |deploys| && LastTurn(deploys, j, e)
    requires deploys[j].id !in Singles(PlanTo(deploys, j))
    ensures PortOf(deploys, deploys[j].id, e) == Some(BasePort(e) + Width(PlanTo(deploys, j)))
  {
    hide DeployPlan, PlanTo, PortTo, Singles, Width, LastTurn;
    LastTurnDecides(deploys, j, |deploys|, e);
  }

  lemma {:induction false} PlanStep(deploys: seq<Deploy>, j: nat)
    requires j < |deploys| && deploys[j].id !in Singles(PlanTo(deploys, j))
    ensures PlanTo(deploys, j + 1) == PlanTo(deploys, j) + if Skipped(deploys[j]) then [] else DeployPlan(deploys[j].id, deploys[j].hosts)
  {
  }

  /** Any other deploy with all its files, a replica listed only before its parent included, gets the start
      of its block. */
  lemma {:induction false} PlainGetsItsBlock(deploys: seq<Deploy>, j: nat, e: Env)
    requires j < |deploys| && Plain(deploys, j) && LastTurn(deploys, j, e)
    ensures var plan, from, block := Plan(deploys), |PlanTo(deploys, j)|, DeployPlan(deploys[j].id, deploys[j].hosts);
      from + |block| <= |plan| && plan[from..from + |block|] == block
      && PortOf(deploys, deploys[j].id, e) == Some(BasePort(e) + Start(plan, from))
  {
    BlockInPlan(deploys, j);
    PortAtWidth(deploys, j, e);
    PlanPrefix(deploys, j, |deploys|);
    assert Plan(deploys)[..|PlanTo(deploys, j)|] == PlanTo(deploys, j);
  }

  lemma {:induction false} BlockInPlan(deploys: seq<Deploy>, j: nat)
    requires j < |deploys| && Plain(deploys, j)
    ensures var plan, from, block := Plan(deploys), |PlanTo(deploys, j)|, DeployPlan(deploys[j].id, deploys[j].hosts);
      from + |block| <= |plan| && plan[from..from + |block|] == block
  {
    hide DeployPlan, PlanTo, Singles, Skipped;
    PlanStep(deploys, j);
    PlanPrefix(deploys, j + 1, |deploys|);
  }

  /** The ranges of the three environments start at 3000, 4000 and 5000: that is where the first deploy is. */
  lemma {:induction false} FirstDeployPorts(deploys: seq<Deploy>, e: Env)
    requires deploys != [] && LastTurn(deploys, 0, e)
    ensures PortOf(deploys, deploys[0].id, e) == Some(if e == Production then 3000 else if e == Development then 4000 else 5000)
  {
    LastTurnDecides(deploys, 0, |deploys|, e);
    assert PlanTo(deploys, 0) == [];
  }

  /** Which env files a deploy gets to write, and when it is skipped: each needs the ones before it. */
  lemma {:induction false} WrittenExactly(d: Deploy)
    ensures Written(d.files, Production) <==> Production in d.files
    ensures Written(d.files, Development) <==> {Production, Development} <= d.files
    ensures Written(d.files, Test) <==> {Production, Development, Test} <= d.files
    ensures Skipped(d) <==> !({Production, Development, Test} <= d.files)
  {
    assert Envs() == [Production, Development, Test];
    assert Production in Envs() && Development in Envs() && Test in Envs();
  }

  /** Two slots start at the same offset only if they are one, and so do a slot and the end. */
  lemma {:induction false} StartInjective(plan: seq<Item>, i: nat, j: nat)
    requires Thin(plan) && i <= |plan| && j <= |plan|
    ensures Start(plan, i) == Start(plan, j) <==> i == j
  {
    if i < j { SlotsInOrder(plan, i, j); }
    if j < i { SlotsInOrder(plan, j, i); }
  }

  /** Two deploys that are nobody's replicas share a PORT exactly when no slot was placed from the
      first up to the second. */
  lemma {:induction false} PlainShareExactly(deploys: seq<Deploy>, j: nat, k: nat, e: Env)
    requires j < k < |deploys| && Plain(deploys, j) && Plain(deploys, k)
    requires LastTurn(deploys, j, e) && LastTurn(deploys, k, e)
    ensures PortOf(deploys, deploys[j].id, e) == PortOf(deploys, deploys[k].id, e)
      <==> PlanTo(deploys, j) == PlanTo(deploys, k)
  {
    hide PlanTo, DeployPlan, PortOf, Plain, Singles, Thin, LastTurn;
    PlainStart(deploys, j, e);
    PlainStart(deploys, k, e);
    PlanThin(deploys, |deploys|);
    StartInjective(Plan(deploys), |PlanTo(deploys, j)|, |PlanTo(deploys, k)|);
    PlanPrefix(deploys, j, k);
  }

  lemma {:induction false} PlainStart(deploys: seq<Deploy>, j: nat, e: Env)
    requires j < |deploys| && Plain(deploys, j) && LastTurn(deploys, j, e)
    ensures |PlanTo(deploys, j)| <= |Plan(deploys)|
    ensures PortOf(deploys, deploys[j].id, e) == Some(BasePort(e) + Start(Plan(deploys), |PlanTo(deploys, j)|))
  {
    PlainGetsItsBlock(deploys, j, e);
  }

  /** A deploy shares its PORT with the replica of a slot exactly when its block begins with that slot,
      so a deploy whose first path runs as single replicas and whose first host has no other path
      always does. */
  lemma {:induction false} ParentSharesExactly(deploys: seq<Deploy>, j: nat, i: nat, e: Env)
    requires j < |deploys| && Plain(deploys, j) && LastTurn(deploys, j, e) && i < |Plan(deploys)|
    ensures PortOf(deploys, deploys[j].id, e) == Some(BasePort(e) + Start(Plan(deploys), i))
      <==> i == |PlanTo(deploys, j)|
  {
    PlainStart(deploys, j, e);
    PlanThin(deploys, |deploys|);
    StartInjective(Plan(deploys), i, |PlanTo(deploys, j)|);
  }

  /** A deploy with only some of its env files is skipped after the first ones are written, and takes
      no slot: the next deploy gets the same PORT in those environments. */
  lemma {:induction false} SkippedSharesWithNext(deploys: seq<Deploy>, j: nat, e: Env)
    requires j + 1 < |deploys| && Skipped(deploys[j]) && deploys[j].id !in Singles(PlanTo(deploys, j)) && LastTurn(deploys, j, e)
    requires Plain(deploys, j + 1) && LastTurn(deploys, j + 1, e)
    ensures PortOf(deploys, deploys[j].id, e).Some? && PortOf(deploys, deploys[j].id, e) == PortOf(deploys, deploys[j + 1].id, e)
  {
    PortAtWidth(deploys, j, e);
    PortAtWidth(deploys, j + 1, e);
    PlanStep(deploys, j);
  }

  /** The slots of the three environments stay apart exactly up to a total of 1000. */
  lemma {:induction false} EnvironmentsApartExactly(deploys: seq<Deploy>)
    ensures (forall a, b, i, j, x, y :: a != b && Covers(Plan(deploys), i, x) && Covers(Plan(deploys), j, y)
              ==> BasePort(a) + x != BasePort(b) + y)
      <==> Width(Plan(deploys)) <= 1000
  {
    var plan := Plan(deploys);
    forall a, b, i, j, x, y | a != b && Covers(plan, i, x) && Covers(plan, j, y) && Width(plan) <= 1000
      ensures BasePort(a) + x != BasePort(b) + y
    {
      SlotsTile(plan, x);
      SlotsTile(plan, y);
    }
    if Width(plan) > 1000 {
      SlotsTile(plan, 0);
      SlotsTile(plan, 1000);
      var i :| Covers(plan, i, 0);
      var j :| Covers(plan, j, 1000);
      assert BasePort(Development) + 0 == BasePort(Production) + 1000;
    }
  }
}
