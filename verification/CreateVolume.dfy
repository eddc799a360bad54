/**
 CreateVolume of pkg/driverd/controllerserver.go: its locks and its cleanup list, on the local path,
 with every call able to fail.
 */
module CreateVolume {
  import opened Options
  import opened VolumeLock
  import opened VolumeLocker

  /** What lvcreate can answer. */
  datatype Created = New | AlreadyExists | Failed

  /** The logical volumes of the volume group. */
  class VolumeGroup {
    var vols: set<Vol>
    /** The removals that lvremove refused, in order. */
    ghost var refused: seq<Vol>
    /** The volumes that lvcreate made and then reported as failed, in order. */
    ghost var late: seq<Vol>
    /** How often lvcreate failed, other than for a volume that exists. */
    ghost var failures: nat

    constructor (vs: set<Vol>)
      ensures vols == vs && refused == [] && late == [] && failures == 0
    {
      vols, refused, late, failures := vs, [], [], 0;
    }

    /** The volumes that were made although lvcreate reported a failure, since the log had `from` entries. */
    ghost function LateSince(from: nat): set<Vol>
      requires from <= |late|
      reads this
    {
      set v | v in late[from..]
    }

    /** lvcreate may fail before or after it took effect. */
    method LvCreate(v: Vol) returns (r: Created)
      modifies this
      ensures r.New? ==> v !in old(vols) && vols == old(vols) + {v} && late == old(late)
      ensures r.AlreadyExists? ==> v in vols && vols == old(vols) && late == old(late)
      ensures r.Failed? ==> || (vols == old(vols) && late == old(late))
                            || (v !in old(vols) && vols == old(vols) + {v} && late == old(late) + [v])
      ensures refused == old(refused) && failures == old(failures) + if r.Failed? then 1 else 0
    {
      var fail: bool := *;
      var effect: bool := *;
      if fail {
        failures := failures + 1;
        if effect && v !in vols {
          vols := vols + {v};
          late := late + [v];
        }
        return Failed;
      }
      if v in vols {
        return AlreadyExists;
      }
      vols := vols + {v};
      r := New;
    }

    method LvRemove(v: Vol) returns (ok: bool)
      modifies this
      ensures vols == if ok then old(vols) - {v} else old(vols)
      ensures refused == if ok then old(refused) else old(refused) + [v]
      ensures late == old(late) && failures == old(failures)
    {
      var fail: bool := *;
      if fail {
        refused := refused + [v];
        return false;
      }
      vols := vols - {v};
      ok := true;
    }
  }

  /** Where the content comes from: a volume is read through a temporary snapshot of it. */
  datatype Source = Blank | FromVolume(v: Vol) | FromSnapshot(snap: Vol, origin: Vol)

  /**
   `temp`, `srcOp` and `newOp` are the names made unique with a fresh UUID.  What is checked or done
   outside LVM is an answer here: `valid`, that arguments, capabilities, source and filesystem pass;
   `usable`, that a volume of that name is still there and large enough; `fillable`, that formatting or
   copying the content works.
   */
  datatype Request = Request(vol: Vol, source: Source, temp: Vol, srcOp: Op, newOp: Op, valid: bool, usable: bool, fillable: bool)

  /** Fresh and Existing are the successful answers. */
  datatype Outcome = Fresh | Existing | Delegated | Error

  /** No call to LVM failed. */
  ghost predicate AllWell(calls: seq<Call>) {
    forall i :: 0 <= i < |calls| ==> calls[i].ok
  }

  lemma LockFailed(calls: seq<Call>, v: Vol)
    requires LockCalls(calls, v, false)
    ensures !AllWell(calls)
  {
    assert calls != [] && (!calls[0].ok || !calls[1].ok || !calls[2].ok);
  }

  lemma AllWellParts(a: seq<Call>, b: seq<Call>)
    ensures AllWell(a + b) <==> AllWell(a) && AllWell(b)
  {
    if AllWell(a + b) {
      assert forall i :: 0 <= i < |a| ==> (a + b)[i] == a[i];
      assert forall i :: 0 <= i < |b| ==> (a + b)[|a| + i] == b[i];
    }
  }

  /** The later calls of an all-well stretch are all well, and so are the earlier ones. */
  lemma AllWellSince(s0: seq<Call>, s1: seq<Call>, s2: seq<Call>)
    requires s0 <= s1 <= s2
    ensures AllWell(s2[|s0|..]) <==> AllWell(s1[|s0|..]) && AllWell(s2[|s1|..])
  {
    assert s2[|s0|..] == s1[|s0|..] + s2[|s1|..];
    AllWellParts(s1[|s0|..], s2[|s1|..]);
  }

  /** A lock to be released when the call returns. */
  datatype Lock = Lock(v: Vol, op: Op)

  class Controller {
    const group: VolumeGroup
    const locker: Locker

    constructor (group: VolumeGroup, locker: Locker)
      ensures this.group == group && this.locker == locker
    {
      this.group, this.locker := group, locker;
    }

    /** The request's names are unused, as fresh UUIDs make them. */
    ghost predicate FreshNames(req: Request)
      reads this, group, locker
    {
      && req.temp !in group.vols && req.temp != req.vol && req.srcOp != req.newOp
      && forall v :: req.srcOp !in locker.OpsOf(v) && req.newOp !in locker.OpsOf(v)
    }

    /** The ops that the deferred unlocks will release from volume v. */
    static function OpsIn(held: seq<Lock>, v: Vol): set<Op> {
      set l | l in held && l.v == v :: l.op
    }

    /** The locked volume that a source is read under. */
    static function LockVol(s: Source): Vol
      requires !s.Blank?
    {
      if s.FromVolume? then s.v else s.origin
    }

    /** Lock the source and take a temporary snapshot of a source volume. */
    method PrepareSource(req: Request) returns (stop: Option<Outcome>, cleanup: set<Vol>, held: seq<Lock>)
      requires locker.Valid() && FreshNames(req)
      modifies group, locker`locks, locker`adopted, locker.lvm
      ensures locker.Valid()
      ensures forall v :: locker.OpsOf(v) == old(locker.OpsOf(v)) + OpsIn(held, v)
      ensures forall l :: l in held ==> l.op == req.srcOp
      ensures cleanup !! old(group.vols) && cleanup <= {req.temp}
      ensures old(group.late) <= group.late
      ensures var extra := group.LateSince(|old(group.late)|);
              extra <= {req.temp} && extra !! old(group.vols) && extra !! cleanup && group.vols == old(group.vols) + cleanup + extra
              && (extra != {} ==> stop == Some(Error))
              && (!req.source.Blank? && (stop.None? || cleanup != {} || extra != {}) ==>
                    held == [Lock(LockVol(req.source), req.srcOp)] && ActiveOn(locker.lvm.state, LockVol(req.source), locker.node))
      ensures stop.None? && req.source.FromVolume? ==> cleanup == {req.temp}
      ensures stop.Some? ==> stop.value.Delegated? || stop.value.Error?
      ensures group.refused == old(group.refused)
      ensures old(locker.lvm.calls) <= locker.lvm.calls && old(group.failures) <= group.failures
      ensures stop.Some? && group.failures == old(group.failures) ==> !AllWell(locker.lvm.calls[|old(locker.lvm.calls)|..])
    {
      hide OpsIn;
      hide Held;
      hide Owners;
      hide OneOwner;
      hide ActiveOn;
      hide AllWell;
      hide LockCalls;
      OpsInOne(Lock(req.vol, req.srcOp));
      if req.source.Blank? {
        return None, {}, [];
      }
      var src := LockVol(req.source);
      ghost var s0 := locker.lvm.calls;
      var ok := locker.LockVolume(src, req.srcOp);
      if !ok {
        LockFailed(locker.lvm.calls[|s0|..], src);
        var denied: bool := *;
        return Some(if denied then Delegated else Error), {}, [];
      }
      held := [Lock(src, req.srcOp)];
      OpsInOne(held[0]);
      if req.source.FromSnapshot? {
        return None, {}, held;
      }
      var r := group.LvCreate(req.temp);
      if !r.New? {
        return Some(Error), {}, held;
      }
      return None, {req.temp}, held;
    }

    /** What the second half answers when no call fails. */
    static function Answer(req: Request, present: bool): Outcome {
      if present then (if req.usable then Existing else Error) else if req.fillable then Fresh else Error
    }

    /** Create, lock and fill the new volume; `made` says that it is to be cleaned up again. */
    method CreateTarget(req: Request) returns (out: Outcome, made: bool, held: seq<Lock>)
      requires locker.Valid() && forall v :: req.newOp !in locker.OpsOf(v)
      modifies group, locker`locks, locker`adopted, locker.lvm
      ensures locker.Valid()
      ensures forall v :: locker.OpsOf(v) == old(locker.OpsOf(v)) + OpsIn(held, v)
      ensures forall l :: l in held ==> l.op == req.newOp
      ensures made || out.Fresh? ==> req.vol !in old(group.vols)
      ensures old(group.late) <= group.late
      ensures var extra := group.LateSince(|old(group.late)|);
              && extra <= {req.vol} && extra !! old(group.vols)
              && group.vols == old(group.vols) + extra + (if made || out.Fresh? then {req.vol} else {})
              && (extra != {} ==> out.Error? && !made)
      ensures made ==> out.Error?
      ensures out.Fresh? ==> held == [Lock(req.vol, req.newOp)] && ActiveOn(locker.lvm.state, req.vol, locker.node)
      ensures group.refused == old(group.refused)
      ensures out.Existing? ==> req.vol in old(group.vols)
      ensures old(locker.lvm.calls) <= locker.lvm.calls && old(group.failures) <= group.failures
      ensures group.failures == old(group.failures) && AllWell(locker.lvm.calls[|old(locker.lvm.calls)|..])
              ==> out == Answer(req, req.vol in old(group.vols))
    {
      hide OpsIn;
      hide Held;
      hide Owners;
      hide OneOwner;
      hide ActiveOn;
      hide AllWell;
      hide LockCalls;
      OpsInOne(Lock(req.vol, req.newOp));
      var r := group.LvCreate(req.vol);
      if r.AlreadyExists? {
        return if req.usable then Existing else Error, false, [];
      }
      if r.Failed? {
        return Error, false, [];
      }
      ghost var s0 := locker.lvm.calls;
      var ok := locker.LockVolume(req.vol, req.newOp);
      if !ok {
        LockFailed(locker.lvm.calls[|s0|..], req.vol);
        return Error, true, [];
      }
      held := [Lock(req.vol, req.newOp)];
      if !req.fillable {
        return Error, true, held;
      }
      return Fresh, false, held;
    }

    /** Everything up to the return statement: the answer, the cleanup list and the deferred unlocks. */
    method Body(req: Request) returns (out: Outcome, cleanup: set<Vol>, held: seq<Lock>)
      requires locker.Valid() && FreshNames(req)
      modifies group, locker`locks, locker`adopted, locker.lvm
      ensures locker.Valid()
      ensures forall v :: locker.OpsOf(v) == old(locker.OpsOf(v)) + OpsIn(held, v)
      ensures forall l :: l in held ==> l.op in {req.srcOp, req.newOp}
      ensures cleanup !! old(group.vols) && cleanup <= {req.vol, req.temp}
      ensures old(group.late) <= group.late
      ensures var extra := group.LateSince(|old(group.late)|);
              && extra <= {req.vol, req.temp} && extra !! old(group.vols) && extra !! cleanup
              && group.vols == old(group.vols) + cleanup + extra + (if out.Fresh? then {req.vol} else {})
              && (extra != {} ==> out.Error?)
      ensures out.Fresh? ==> req.vol !in old(group.vols) && req.vol !in cleanup && Lock(req.vol, req.newOp) in held
      ensures out.Fresh? && !req.source.Blank? ==> Lock(LockVol(req.source), req.srcOp) in held
      ensures group.refused == old(group.refused)
      ensures out.Existing? ==> req.vol in old(group.vols)
      ensures old(locker.lvm.calls) <= locker.lvm.calls && old(group.failures) <= group.failures
      ensures group.failures == old(group.failures) && AllWell(locker.lvm.calls[|old(locker.lvm.calls)|..])
              ==> out == if req.valid then Answer(req, req.vol in old(group.vols)) else Error
    {
      hide AllWell;
      hide Owners;
      hide ActiveOn;
      hide Held;
      hide OneOwner;
      // Arguments, capabilities, source and filesystem are checked before anything is done.
      if !req.valid {
        return Error, {}, [];
      }
      ghost var s0 := locker.lvm.calls;
      var stop;
      stop, cleanup, held := PrepareSource(req);
      if stop.Some? {
        return stop.value, cleanup, held;
      }
      ghost var s1 := locker.lvm.calls;
      assert forall v :: req.newOp !in OpsIn(held, v);
      var made, more;
      out, made, more := CreateTarget(req);
      AllWellSince(s0, s1, locker.lvm.calls);
      OpsInConcat(held, more);
      held := held + more;
      if made {
        cleanup := cleanup + {req.vol};
      }
    }

    static lemma OpsInOne(l: Lock)
      ensures forall v :: OpsIn([l], v) == if v == l.v then {l.op} else {}
      ensures forall v :: OpsIn([], v) == {}
    {
    }

    static lemma OpsInConcat(held: seq<Lock>, more: seq<Lock>)
      ensures forall v :: OpsIn(held + more, v) == OpsIn(held, v) + OpsIn(more, v)
    {
      forall v
        ensures OpsIn(held + more, v) == OpsIn(held, v) + OpsIn(more, v)
      {
        assert forall x :: x in held + more <==> x in held || x in more;
      }
    }

    /** The deferred unlocks, last one first. */
    method ReleaseAll(held: seq<Lock>)
      requires locker.Valid()
      modifies locker`locks, locker.lvm
      ensures locker.Valid()
      ensures forall v :: locker.OpsOf(v) == old(locker.OpsOf(v)) - OpsIn(held, v)
      ensures old(locker.lvm.calls) <= locker.lvm.calls
    {
      hide UnlockCalls;
      hide Owners;
      hide ActiveOn;
      hide OneOwner;
      hide Held;
      var i := |held|;
      while i > 0
        invariant 0 <= i <= |held|
        invariant locker.Valid() && old(locker.lvm.calls) <= locker.lvm.calls
        invariant forall v :: locker.OpsOf(v) == old(locker.OpsOf(v)) - OpsIn(held[i..], v)
      {
        i := i - 1;
        OpsInConcat([held[i]], held[i + 1..]);
        assert held[i..] == [held[i]] + held[i + 1..];
        var _ := locker.UnlockVolume(held[i].v, held[i].op);
      }
      assert held[0..] == held;
    }

    /** The deferred cleanup; `leaked` are the volumes whose removal failed. */
    method CleanUp(cleanup: set<Vol>) returns (leaked: set<Vol>)
      modifies group
      ensures leaked <= cleanup
      ensures group.vols == old(group.vols) - (cleanup - leaked) && group.late == old(group.late) && group.failures == old(group.failures)
      ensures old(group.refused) <= group.refused
      ensures leaked == set v | v in group.refused[|old(group.refused)|..]
    {
      leaked := {};
      var todo := cleanup;
      while todo != {}
        invariant todo <= cleanup && leaked <= cleanup - todo
        invariant group.vols == old(group.vols) - (cleanup - todo - leaked) && group.late == old(group.late) && group.failures == old(group.failures)
        invariant old(group.refused) <= group.refused
        invariant leaked == set v | v in group.refused[|old(group.refused)|..]
        decreases todo
      {
        ghost var before := group.refused;
        var v :| v in todo;
        var ok := group.LvRemove(v);
        todo := todo - {v};
        if !ok {
          leaked := leaked + {v};
          assert group.refused[|old(group.refused)|..] == before[|old(group.refused)|..] + [v];
        }
      }
    }

    /**
     CreateVolume: op sets end as they began, and the volume group gains the new volume exactly on a
     fresh creation, besides what could not be removed and what lvcreate made while reporting a
     failure, which no cleanup list knows of; no volume that was there is ever lost.  When no call fails,
     the answer is what the request and the volume group determine.
     */
    method Create(req: Request) returns (out: Outcome, leaked: set<Vol>)
      requires locker.Valid() && FreshNames(req)
      modifies group, locker`locks, locker`adopted, locker.lvm
      ensures locker.Valid()
      ensures forall v :: locker.OpsOf(v) == old(locker.OpsOf(v))
      ensures leaked <= {req.vol, req.temp} && leaked !! old(group.vols)
      ensures old(group.refused) <= group.refused
      ensures leaked == set v | v in group.refused[|old(group.refused)|..]
      ensures old(group.late) <= group.late
      ensures var extra := group.LateSince(|old(group.late)|);
              && extra <= {req.vol, req.temp} && extra !! old(group.vols) && extra !! leaked
              && group.vols == old(group.vols) + leaked + extra + (if out.Fresh? then {req.vol} else {})
              && (extra != {} ==> out.Error?)
      ensures out.Fresh? ==> req.vol !in old(group.vols)
      ensures out.Existing? ==> req.vol in old(group.vols)
      ensures old(locker.lvm.calls) <= locker.lvm.calls
      ensures group.failures == old(group.failures) && AllWell(locker.lvm.calls[|old(locker.lvm.calls)|..])
              ==> out == if req.valid then Answer(req, req.vol in old(group.vols)) else Error
    {
      hide AllWell;
      ghost var s0 := locker.lvm.calls;
      var cleanup, held;
      out, cleanup, held := Body(req);
      ghost var s1 := locker.lvm.calls;
      ReleaseAll(held);
      AllWellSince(s0, s1, locker.lvm.calls);
      forall v
        ensures old(locker.OpsOf(v)) + OpsIn(held, v) - OpsIn(held, v) == old(locker.OpsOf(v))
      {
        assert OpsIn(held, v) <= {req.srcOp, req.newOp};
      }
      leaked := CleanUp(cleanup);
    }
  }
}
