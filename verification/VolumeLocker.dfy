/**
 The volumeLocker object of pkg/driverd/volumelock.go on one node.  Other nodes may act between any
 two of its LVM calls; they are bound by `Rely`, which every step of another node obeys
 (VolumeLock.NodeStepKeeps).
 */
module VolumeLocker {
  import opened Options
  import opened VolumeLock

  /** The other nodes left everything but perhaps v alone. */
  ghost predicate RelyBut(n: Node, m: Lvm, m': Lvm, v: Vol) {
    && (forall w :: w != v && ActiveOn(m, w, n) ==> ActiveOn(m', w, n) && Owners(m', w) == Owners(m, w))
    && (forall w :: w != v && ActiveOn(m', w, n) ==> ActiveOn(m, w, n))
    && (forall w :: w != v && n in Owners(m', w) ==> n in Owners(m, w))
    && OneOwner(m')
  }

  predicate OneOwnerHolds(m: Lvm) {
    forall v | v in m.owners :: |m.owners[v]| <= 1
  }

  predicate RelyHolds(n: Node, m: Lvm, m': Lvm) {
    && (forall v | v in m.active :: m.active[v] == n ==> ActiveOn(m', v, n) && Owners(m', v) == Owners(m, v))
    && (forall v | v in m'.active :: m'.active[v] == n ==> ActiveOn(m, v, n))
    && (forall v | v in m'.owners :: n in m'.owners[v] ==> n in Owners(m, v))
  }

  /** A call to lvmctrld and whether it succeeded. */
  datatype Call =
    | Activation(v: Vol, ok: bool)
    | Deactivation(v: Vol, ok: bool)
    | Fetch(v: Vol, ok: bool)
    | Retag(v: Vol, ok: bool)
    | List(ok: bool)

  /** LVM as one node sees it through lvmctrld, and the calls the node made. */
  class LvmCtrld {
    var state: Lvm
    ghost var calls: seq<Call>

    constructor (s: Lvm)
      ensures state == s && calls == []
    {
      state, calls := s, [];
    }

    /** Any number of steps of other nodes. */
    method Interfere(n: Node)
      requires OneOwner(state)
      modifies this`state
      ensures OneOwner(state) && Rely(n, old(state), state)
    {
      var s: Lvm := *;
      if RelyHolds(n, state, s) && OneOwnerHolds(s) {
        state := s;
      }
    }

    method LvActivate(n: Node, v: Vol) returns (ok: bool)
      requires OneOwner(state)
      modifies this
      ensures RelyBut(n, old(state), state, v)
      ensures ok ==> ActiveOn(state, v, n)
      ensures calls == old(calls) + [Activation(v, ok)]
    {
      hide Owners;
      Interfere(n);
      var fail: bool := *;
      var late: bool := *;
      ok := CanActivate(state, n, v) && !fail;
      if CanActivate(state, n, v) && (ok || late) {
        ActivateMine(n, state, v);
        MineKeeps(n, state, Activate(state, n, v), v);
        MineSame(n, state, Activate(state, n, v), v);
        state := Activate(state, n, v);
      }
      calls := calls + [Activation(v, ok)];
    }

    method LvDeactivate(n: Node, v: Vol) returns (ok: bool)
      requires OneOwner(state)
      modifies this
      ensures RelyBut(n, old(state), state, v)
      ensures ok ==> !ActiveOn(state, v, n)
      ensures n in Owners(state, v) ==> n in old(Owners(state, v))
      ensures calls == old(calls) + [Deactivation(v, ok)]
    {
      Interfere(n);
      var fail: bool := *;
      var late: bool := *;
      ok := !fail;
      if ok || late {
        DeactivateMine(n, state, v);
        MineKeeps(n, state, Deactivate(state, n, v), v);
        MineSame(n, state, Deactivate(state, n, v), v);
        state := Deactivate(state, n, v);
      }
      calls := calls + [Deactivation(v, ok)];
    }

    /** Fetch the volume and decode its owner tags. */
    method FetchOwner(n: Node, v: Vol) returns (r: Option<set<Node>>)
      requires OneOwner(state)
      modifies this
      ensures OneOwner(state) && Rely(n, old(state), state)
      ensures r.Some? ==> r.value == Owners(state, v)
      ensures calls == old(calls) + [Fetch(v, r.Some?)]
    {
      Interfere(n);
      var fail: bool := *;
      if fail {
        calls := calls + [Fetch(v, false)];
        return None;
      }
      calls := calls + [Fetch(v, true)];
      r := Some(Owners(state, v));
    }

    method LvChangeTags(n: Node, v: Vol, del: set<Node>, add: set<Node>) returns (ok: bool)
      requires OneOwner(state)
      requires add == {} || (add == {n} && ActiveOn(state, v, n) && |Owners(state, v) - del + add| <= 1)
      modifies this
      ensures RelyBut(n, old(state), state, v)
      ensures old(ActiveOn(state, v, n)) <==> ActiveOn(state, v, n)
      ensures ok && old(ActiveOn(state, v, n)) ==> Owners(state, v) == old(Owners(state, v)) - del + add
      ensures ok && add == {} && n in Owners(state, v) ==> n in old(Owners(state, v)) - del
      ensures add == {} && n in Owners(state, v) ==> n in old(Owners(state, v))
      ensures calls == old(calls) + [Retag(v, ok)]
    {
      Interfere(n);
      var fail: bool := *;
      var late: bool := *;
      ok := CanTag(state, n, v) && !fail;
      if CanTag(state, n, v) && (ok || late) {
        if add == {} {
          RemoveMine(n, state, v, del);
        } else {
          TagsMine(n, state, v, del, add);
        }
        MineKeeps(n, state, ChangeTags(state, v, del, add), v);
        MineSame(n, state, ChangeTags(state, v, del, add), v);
        state := ChangeTags(state, v, del, add);
      }
      calls := calls + [Retag(v, ok)];
    }

    /** The volumes active on the host, which other hosts cannot change, and whether they are open. */
    method ListActive(n: Node) returns (r: Option<map<Vol, bool>>)
      requires OneOwner(state)
      modifies this
      ensures OneOwner(state) && Rely(n, old(state), state)
      ensures r.Some? ==> forall v :: v in r.value <==> ActiveOn(state, v, n)
      ensures calls == old(calls) + [List(r.Some?)]
    {
      Interfere(n);
      var fail: bool := *;
      if fail {
        calls := calls + [List(false)];
        return None;
      }
      var open: set<Vol> := *;
      calls := calls + [List(true)];
      r := Some(map v | v in state.active && state.active[v] == n :: v in open);
    }
  }

  /** The calls of setOwner without an owner, and whether they amount to a success. */
  ghost predicate DropCalls(s: seq<Call>, v: Vol, ok: bool) {
    || (s == [Fetch(v, false)] && !ok)
    || (s == [Fetch(v, true)] && ok)
    || s == [Fetch(v, true), Retag(v, ok)]
  }

  /** The calls of LockVolume on a volume without ops: a lock that was granted but not tagged is given back. */
  ghost predicate LockCalls(s: seq<Call>, v: Vol, ok: bool) {
    || (s == [Activation(v, false)] && !ok)
    || (s == [Activation(v, true), Fetch(v, true), Retag(v, true)] && ok)
    || (!ok && exists back :: s == [Activation(v, true), Fetch(v, false), Deactivation(v, back)])
    || (!ok && exists back :: s == [Activation(v, true), Fetch(v, true), Retag(v, false), Deactivation(v, back)])
  }

  /** A granted lock that could not be tagged is given back. */
  lemma LockGivenBack(s0: seq<Call>, s1: seq<Call>, v: Vol, back: bool)
    requires s1 == s0 + [Activation(v, true)] + [Fetch(v, false)] || s1 == s0 + [Activation(v, true)] + [Fetch(v, true), Retag(v, false)]
    ensures s0 <= s1 + [Deactivation(v, back)] && LockCalls((s1 + [Deactivation(v, back)])[|s0|..], v, false)
  {
    var s := (s1 + [Deactivation(v, back)])[|s0|..];
    if s1 == s0 + [Activation(v, true)] + [Fetch(v, false)] {
      assert s == [Activation(v, true), Fetch(v, false), Deactivation(v, back)];
    } else {
      assert s == [Activation(v, true), Fetch(v, true), Retag(v, false), Deactivation(v, back)];
    }
  }

  lemma LockRefused(s0: seq<Call>, v: Vol)
    ensures LockCalls((s0 + [Activation(v, false)])[|s0|..], v, false)
  {
    assert (s0 + [Activation(v, false)])[|s0|..] == [Activation(v, false)];
  }

  lemma LockTaken(s0: seq<Call>, s1: seq<Call>, v: Vol)
    requires s1 == s0 + [Activation(v, true)] + [Fetch(v, true), Retag(v, true)]
    ensures s0 <= s1 && LockCalls(s1[|s0|..], v, true)
  {
    assert s1[|s0|..] == [Activation(v, true), Fetch(v, true), Retag(v, true)];
  }

  /** The calls of UnlockVolume for the last op: tags first, and the volume only if that worked. */
  ghost predicate UnlockCalls(s: seq<Call>, v: Vol, ok: bool) {
    || (DropCalls(s, v, false) && !ok)
    || (s != [] && DropCalls(s[..|s| - 1], v, true) && s[|s| - 1] == Deactivation(v, ok))
  }

  /** A volume that was found but not open: deactivated and untagged, unless a call about it failed. */
  ghost predicate GivenUp(n: Node, m: Lvm, v: Vol, s: seq<Call>) {
    && (ActiveOn(m, v, n) ==> Deactivation(v, false) in s)
    && (n in Owners(m, v) ==> Fetch(v, false) in s || Retag(v, false) in s)
  }

  /** Giving up one more volume keeps the others given up. */
  lemma StaysGivenUp(n: Node, m: Lvm, m': Lvm, v: Vol, s: seq<Call>, more: seq<Call>)
    requires RelyBut(n, m, m', v) && GivenUp(n, m', v, more)
    ensures GivenUp(n, m', v, s + more)
    ensures forall w :: w != v && GivenUp(n, m, w, s) ==> GivenUp(n, m', w, s + more)
  {
  }

  class Locker {
    const node: Node
    const lvm: LvmCtrld
    var locks: map<Vol, set<Op>>
    ghost var adopted: set<Vol>

    ghost function Here(): Local
      reads this
    {
      Local(locks, adopted, Idle)
    }

    /** What the cluster protocol keeps for this node. */
    ghost predicate Valid()
      reads this, lvm
    {
      OneOwner(lvm.state) && Held(node, lvm.state, Here())
    }

    function OpsOf(v: Vol): set<Op>
      reads this
    {
      if v in locks then locks[v] else {}
    }

    constructor (node: Node, lvm: LvmCtrld)
      requires OneOwner(lvm.state)
      ensures this.node == node && this.lvm == lvm && Valid()
      ensures locks == map[]
    {
      this.node, this.lvm := node, lvm;
      locks, adopted := map[], {};
    }

    /** setOwner with an owner, on a volume that is active here. */
    method TakeOwnership(v: Vol) returns (ok: bool)
      requires OneOwner(lvm.state) && ActiveOn(lvm.state, v, node)
      modifies lvm
      ensures RelyBut(node, old(lvm.state), lvm.state, v)
      ensures ActiveOn(lvm.state, v, node)
      ensures ok ==> Owners(lvm.state, v) == {node}
      ensures lvm.calls == old(lvm.calls) + [Fetch(v, true), Retag(v, ok)] || (!ok && lvm.calls == old(lvm.calls) + [Fetch(v, false)])
    {
      var seen := lvm.FetchOwner(node, v);
      if seen.None? {
        return false;
      }
      assert seen.value - (seen.value - {node}) + {node} == {node};
      ok := lvm.LvChangeTags(node, v, seen.value - {node}, {node});
    }

    /** setOwner without an owner. */
    method DropOwnership(v: Vol) returns (ok: bool)
      requires OneOwner(lvm.state)
      modifies lvm
      ensures RelyBut(node, old(lvm.state), lvm.state, v)
      ensures old(ActiveOn(lvm.state, v, node)) <==> ActiveOn(lvm.state, v, node)
      ensures ok && old(ActiveOn(lvm.state, v, node)) ==> Owners(lvm.state, v) == {}
      ensures ok ==> node !in Owners(lvm.state, v)
      ensures old(lvm.calls) <= lvm.calls && DropCalls(lvm.calls[|old(lvm.calls)|..], v, ok)
    {
      var seen := lvm.FetchOwner(node, v);
      if seen.None? {
        return false;
      }
      if seen.value == {} {
        return true;
      }
      ok := lvm.LvChangeTags(node, v, seen.value, {});
    }

    lemma StillHeld(m: Lvm, m': Lvm, l: Local, l': Local, v: Vol)
      requires Held(node, m, l) && RelyBut(node, m, m', v)
      requires forall w :: w != v ==> Ops(l', w) == Ops(l, w) && (w in l'.adopted <==> w in l.adopted)
      requires Ops(l', v) != {} ==> ActiveOn(m', v, node) && (v !in l'.adopted ==> Owners(m', v) == {node})
      ensures Held(node, m', l')
    {
      forall w | Ops(l', w) != {}
        ensures ActiveOn(m', w, node) && (w !in l'.adopted ==> Owners(m', w) == {node})
      {
        if w != v {
          assert Ops(l, w) != {};
        }
      }
    }

    /** Activate and tag a volume; one that cannot be tagged is deactivated again unless that call fails too. */
    method Acquire(v: Vol) returns (ok: bool)
      requires OneOwner(lvm.state)
      modifies lvm
      ensures RelyBut(node, old(lvm.state), lvm.state, v)
      ensures ok ==> ActiveOn(lvm.state, v, node) && Owners(lvm.state, v) == {node}
      ensures old(lvm.calls) < lvm.calls && LockCalls(lvm.calls[|old(lvm.calls)|..], v, ok)
      ensures !ok && lvm.calls[|lvm.calls| - 1] == Deactivation(v, true) ==> !ActiveOn(lvm.state, v, node)
    {
      hide OneOwner;
      hide LockCalls;
      ghost var s0 := lvm.calls;
      ok := lvm.LvActivate(node, v);
      if !ok {
        LockRefused(s0, v);
        return false;
      }
      ok := TakeOwnership(v);
      ghost var s1 := lvm.calls;
      if !ok {
        var back := lvm.LvDeactivate(node, v);
        LockGivenBack(s0, s1, v, back);
        return false;
      }
      LockTaken(s0, s1, v);
    }

    /**
     On success one more op holds the volume; on failure no op was there and none is, and a volume that
     was activated is deactivated again unless that call fails too.
     */
    method LockVolume(v: Vol, op: Op) returns (ok: bool)
      requires Valid()
      modifies this`locks, this`adopted, lvm
      ensures Valid()
      ensures forall w :: w != v ==> OpsOf(w) == old(OpsOf(w))
      ensures OpsOf(v) == if ok then old(OpsOf(v)) + {op} else {}
      ensures !ok ==> old(OpsOf(v)) == {}
      ensures old(OpsOf(v)) != {} ==> LockAt(old(Here()), Here(), v, op)
      ensures ok ==> ActiveOn(lvm.state, v, node)
      ensures ok && old(OpsOf(v)) == {} ==> Owners(lvm.state, v) == {node} && v !in adopted
      ensures old(lvm.calls) <= lvm.calls
      ensures var s := lvm.calls[|old(lvm.calls)|..];
              if old(OpsOf(v)) != {} then s == [] else LockCalls(s, v, ok)
      ensures !ok && lvm.calls[|lvm.calls| - 1] == Deactivation(v, true) ==> !ActiveOn(lvm.state, v, node)
    {
      hide Held;
      hide OneOwner;
      hide LockCalls;
      ghost var l0 := Here();
      HeldAt(node, lvm.state, l0, v);
      assert forall w :: Ops(l0, w) == OpsOf(w);
      if v !in locks {
        locks := locks[v := {}];
      }
      if locks[v] != {} {
        locks := locks[v := locks[v] + {op}];
        StillHeld(lvm.state, lvm.state, l0, Here(), v);
        return true;
      }
      ghost var m0 := lvm.state;
      ok := Acquire(v);
      if ok {
        locks := locks[v := locks[v] + {op}];
        adopted := adopted - {v};
      }
      StillHeld(m0, lvm.state, l0, Here(), v);
    }

    /**
     The op is released whether or not LVM can be updated; the last release removes the owner tags and
     deactivates, and the volume is forgotten only when both worked.
     */
    method UnlockVolume(v: Vol, op: Op) returns (ok: bool)
      requires Valid()
      modifies this`locks, lvm
      ensures Valid()
      ensures forall w :: w != v ==> OpsOf(w) == old(OpsOf(w))
      ensures OpsOf(v) == old(OpsOf(v)) - {op}
      ensures OpsOf(v) != {} ==> UnlockAt(old(Here()), Here(), v, op)
      ensures var last := v in old(locks) && OpsOf(v) == {};
              && (ok && last ==> v !in locks && !ActiveOn(lvm.state, v, node) && node !in Owners(lvm.state, v))
              && (!ok ==> last && v in locks)
              && (!last ==> lvm.state == old(lvm.state))
              && old(lvm.calls) <= lvm.calls
              && (var s := lvm.calls[|old(lvm.calls)|..]; if last then UnlockCalls(s, v, ok) else s == [])
    {
      hide Held;
      hide OneOwner;
      ghost var l0, s0 := Here(), lvm.calls;
      HeldAt(node, lvm.state, l0, v);
      assert forall w :: Ops(l0, w) == OpsOf(w);
      if v !in locks {
        return true;
      }
      locks := locks[v := locks[v] - {op}];
      if locks[v] != {} {
        assert Ops(l0, v) != {};
        StillHeld(lvm.state, lvm.state, l0, Here(), v);
        return true;
      }
      ghost var m0 := lvm.state;
      ok := DropOwnership(v);
      ghost var s1 := lvm.calls;
      if !ok {
        StillHeld(m0, lvm.state, l0, Here(), v);
        return false;
      }
      ok := lvm.LvDeactivate(node, v);
      assert lvm.calls[|s0|..] == s1[|s0|..] + [Deactivation(v, ok)];
      if !ok {
        StillHeld(m0, lvm.state, l0, Here(), v);
        return false;
      }
      locks := locks - {v};
      StillHeld(m0, lvm.state, l0, Here(), v);
    }

    /** Deactivate a volume that is not open and remove its owner tags, whatever fails. */
    method GiveUp(v: Vol)
      requires Valid() && OpsOf(v) == {}
      modifies lvm
      ensures Valid() && RelyBut(node, old(lvm.state), lvm.state, v)
      ensures old(lvm.calls) <= lvm.calls && GivenUp(node, lvm.state, v, lvm.calls[|old(lvm.calls)|..])
    {
      hide Held;
      ghost var m0, l0, s0 := lvm.state, Here(), lvm.calls;
      var down := lvm.LvDeactivate(node, v);
      ghost var s1 := lvm.calls;
      var dropped := DropOwnership(v);
      StillHeld(m0, lvm.state, l0, Here(), v);
      ghost var s := lvm.calls[|s0|..];
      assert s[0] == Deactivation(v, down) && s[0] in s;
      assert s[1..] == lvm.calls[|s1|..];
      if !dropped {
        assert s[|s| - 1] in s;
      }
    }

    /**
     sync after a restart: of the volumes found active here, exactly the open ones are locked, under the
     default op, and marked as adopted; the others are given up.
     */
    method Sync() returns (ok: bool, ghost listed: map<Vol, bool>)
      requires Valid() && locks == map[]
      modifies this`locks, this`adopted, lvm
      ensures Valid()
      ensures old(lvm.calls) <= lvm.calls
      ensures ok ==> forall v :: v in listed <==> old(ActiveOn(lvm.state, v, node))
      ensures ok ==> forall v :: v in locks <==> v in listed && listed[v]
      ensures ok ==> forall v :: v in listed && !listed[v] ==> GivenUp(node, lvm.state, v, lvm.calls[|old(lvm.calls)|..])
      ensures forall v :: v in locks ==> locks[v] == {DEFAULT_LOCK_OP} && v in adopted
      ensures !ok ==> locks == map[] && lvm.calls == old(lvm.calls) + [List(false)]
    {
      hide Held;
      hide OneOwner;
      hide GivenUp;
      ghost var s0 := lvm.calls;
      listed := map[];
      var found := lvm.ListActive(node);
      NothingHeld(lvm.state);
      if found.None? {
        return false, listed;
      }
      var todo := found.value;
      listed := todo;
      while todo != map[]
        invariant Valid() && s0 <= lvm.calls
        invariant forall v :: v in locks ==> locks[v] == {DEFAULT_LOCK_OP} && v in adopted
        invariant forall v :: v in todo ==> ActiveOn(lvm.state, v, node) && v !in locks && v in listed && todo[v] == listed[v]
        invariant forall v :: v in listed && listed[v] ==> v in todo || v in locks
        invariant forall v :: v in locks ==> v in listed && listed[v]
        invariant forall v :: v in listed && !listed[v] && v !in todo ==> GivenUp(node, lvm.state, v, lvm.calls[|s0|..])
        decreases todo.Keys
      {
        var v :| v in todo.Keys;
        ghost var m0, l0, s1 := lvm.state, Here(), lvm.calls;
        if todo[v] {
          locks := locks[v := {DEFAULT_LOCK_OP}];
          adopted := adopted + {v};
          StillHeld(m0, lvm.state, l0, Here(), v);
        } else {
          GiveUp(v);
          assert lvm.calls[|s0|..] == s1[|s0|..] + lvm.calls[|s1|..];
          StaysGivenUp(node, m0, lvm.state, v, s1[|s0|..], lvm.calls[|s1|..]);
        }
        todo := todo - {v};
      }
      ok := true;
    }

    lemma NothingHeld(m: Lvm)
      ensures Held(node, m, Local(map[], adopted, Idle))
    {
    }
  }
}
