/** Mounting and unmounting the file systems of an NFS root. Mounts stack: one unmount takes off one
    layer, so the unmount repeats itself until a pass finds nothing mounted, up to a bound. */
module NfsMount {
  datatype Workflow = Unknown | Chroot | OtherType

  function Paths(): seq<string> {
    ["/proc", "/sys", "/run", "/dev"]
  }

  ghost predicate Distinct(ps: seq<string>) {
    forall i, j :: 0 <= i < j < |ps| ==> ps[i] != ps[j]
  }

  lemma {:induction false} PathsDistinct()
    ensures Distinct(Paths())
  {
    assert "/proc"[1] == 'p' && "/sys"[1] == 's' && "/run"[1] == 'r' && "/dev"[1] == 'd';
  }

  lemma {:induction false} PathsExactly(p: string)
    ensures p in Paths() <==> p == "/proc" || p == "/sys" || p == "/run" || p == "/dev"
  {
  }

  /** Passes the unmount may still ask for. */
  function Recalls(currentRecall: int, maxRecalls: int): nat {
    if currentRecall < maxRecalls then maxRecalls - currentRecall else 0
  }

  /** What becomes of a stack of `d` layers: whether the command returns is decided by the deepest one
      and given as `ok`. */
  function Layers(d: nat, mount: bool, unmount: bool, recalls: nat, ok: bool): nat {
    if !unmount then (if mount && d == 0 then 1 else d)
    else if ok then (if mount then 1 else 0)
    else if d > recalls then d - (recalls + 1) else 0
  }

  class Host {
    var layers: map<string, nat>

    constructor (layers: map<string, nat>)
      ensures this.layers == layers
    {
      this.layers := layers;
    }

    function Depth(p: string): nat reads this {
      if p in layers then layers[p] else 0
    }

    ghost predicate NoDeeperThan(n: nat) reads this {
      forall p :: p in Paths() ==> Depth(p) <= n
    }

    /** Which commands a pass runs. */
    method Survey(mount: bool, unmount: bool) returns (unMountCmds: seq<string>, mountCmds: seq<string>, recall: bool)
      ensures Distinct(unMountCmds) && Distinct(mountCmds)
      ensures forall p :: p in unMountCmds <==> unmount && p in Paths() && Depth(p) > 0
      ensures forall p :: p in mountCmds <==> mount && p in Paths() && Depth(p) == 0
      ensures recall <==> unmount && !NoDeeperThan(0)
    {
      unMountCmds, mountCmds, recall := [], [], false;
      var paths := Paths();
      PathsDistinct();
      for i := 0 to |paths|
        invariant Distinct(unMountCmds) && Distinct(mountCmds)
        invariant forall p :: p in unMountCmds <==> unmount && Depth(p) > 0 && exists k :: 0 <= k < i && paths[k] == p
        invariant forall p :: p in mountCmds <==> mount && Depth(p) == 0 && exists k :: 0 <= k < i && paths[k] == p
        invariant recall <==> unMountCmds != []
      {
        if Depth(paths[i]) > 0 {
          if unmount {
            unMountCmds := unMountCmds + [paths[i]];
            recall := true;
          }
        } else if mount {
          mountCmds := mountCmds + [paths[i]];
        }
      }
      if recall { assert unMountCmds[0] in unMountCmds; }
    }

    method Unmount(cmds: seq<string>)
      requires Distinct(cmds) && forall p :: p in cmds ==> Depth(p) > 0
      modifies this
      ensures forall p :: Depth(p) == if p in cmds then old(Depth(p)) - 1 else old(Depth(p))
    {
      for i := 0 to |cmds|
        invariant forall p :: Depth(p) == if p in cmds[..i] then old(Depth(p)) - 1 else old(Depth(p))
      {
        assert cmds[i] in cmds && cmds[i] !in cmds[..i];
        layers := layers[cmds[i] := Depth(cmds[i]) - 1];
        assert cmds[..i + 1] == cmds[..i] + [cmds[i]];
      }
      assert cmds[..|cmds|] == cmds;
    }

    method Mount(cmds: seq<string>)
      requires Distinct(cmds)
      modifies this
      ensures forall p :: Depth(p) == if p in cmds then old(Depth(p)) + 1 else old(Depth(p))
    {
      for i := 0 to |cmds|
        invariant forall p :: Depth(p) == if p in cmds[..i] then old(Depth(p)) + 1 else old(Depth(p))
      {
        assert cmds[i] !in cmds[..i];
        layers := layers[cmds[i] := Depth(cmds[i]) + 1];
        assert cmds[..i + 1] == cmds[..i] + [cmds[i]];
      }
      assert cmds[..|cmds|] == cmds;
    }

    /** `ok` is false when it throws. Always terminates; an unmount returns exactly when no stack is
        deeper than the recalls it has left, and then nothing is mounted, or, when a mount is asked for
        as well, everything is mounted once. A mount alone mounts what is not and stacks nothing. */
    method NfsMountCallback(w: Workflow, mount: bool, unmount: bool, currentRecall: int, maxRecalls: int) returns (ok: bool)
      modifies this
      ensures ok <==> !w.Unknown? && (w.Chroot? && unmount ==> old(NoDeeperThan(Recalls(currentRecall, maxRecalls))))
      ensures forall p :: p in Paths() && w.Chroot? ==>
        Depth(p) == Layers(old(Depth(p)), mount, unmount, Recalls(currentRecall, maxRecalls), ok)
      ensures w == Chroot && !unmount ==> forall p :: p in Paths() ==>
        Depth(p) == if mount && old(Depth(p)) == 0 then 1 else old(Depth(p))
      ensures w == Chroot && unmount && ok ==> forall p :: p in Paths() ==> Depth(p) == if mount then 1 else 0
      ensures w == Chroot && unmount && !ok ==> forall p :: p in Paths() ==>
        var taken := if maxRecalls > currentRecall then maxRecalls - currentRecall + 1 else 1;
        Depth(p) == if old(Depth(p)) > taken then old(Depth(p)) - taken else 0
      ensures forall p :: p !in Paths() || !w.Chroot? ==> Depth(p) == old(Depth(p))
      decreases Recalls(currentRecall, maxRecalls)
    {
      if w.Unknown? { return false; }
      if !w.Chroot? { return true; }
      var unMountCmds, mountCmds, recall := Survey(mount, unmount);
      Unmount(unMountCmds);
      if recall {
        if currentRecall >= maxRecalls { return false; }
        ok := NfsMountCallback(w, mount, unmount, currentRecall + 1, maxRecalls);
        return;
      }
      if mountCmds != [] { Mount(mountCmds); }
      return true;
    }
  }

  /** What `k` unmounts that threw leave of a stack. */
  function AfterFailures(d: nat, recalls: nat, k: nat): nat {
    if k == 0 then d else Layers(AfterFailures(d, recalls, k - 1), false, true, recalls, false)
  }

  /** A failure is progress: each one takes `recalls + 1` layers off, so asking again succeeds in the
      end. At exactly one layer more than the bound the unmount throws with nothing left mounted. */
  lemma {:induction false} FailuresAreProgress(d: nat, recalls: nat, k: nat)
    ensures AfterFailures(d, recalls, k) == if d > k * (recalls + 1) then d - k * (recalls + 1) else 0
    ensures k > d ==> AfterFailures(d, recalls, k) == 0
  {
    if k > 0 {
      FailuresAreProgress(d, recalls, k - 1);
      assert k * (recalls + 1) == (k - 1) * (recalls + 1) + (recalls + 1);
    }
  }
}
