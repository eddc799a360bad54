/**
 Any interleaving of locked Send and Recv calls, by any nodes, over one formatted data file.  A call
 may be interrupted in any write, provided the second and third state copies agree when it starts.
 */
module MailHistory {
  import opened Arith
  import opened Bytes
  import opened Disk
  import opened State
  import opened MailSpec
  import opened MailOps
  import opened MailRecv
  import opened MailRuns

  datatype Event =
    | SendDone(sender: BoxId, id: BoxId, payload: bytes)
    | SendRefused(sender: BoxId, id: BoxId, payload: bytes)
    | SendCut(sender: BoxId, id: BoxId, payload: bytes)
    | RecvDone(id: BoxId, msgs: seq<Delivery>)
    | RecvSkipped(id: BoxId)
    | RecvCut(id: BoxId)

  /**
   One call seen from the disk.  SendRefused is a Send that failed before it wrote anything, and
   RecvSkipped a Recv that failed before it wrote, or whose unlocked pre-read saw no message.
   */
  ghost predicate Step(c: Codec, g: Geo, d: bytes, ev: Event, d': bytes) {
    match ev
    case SendDone(sender, id, payload) =>
      PlanSend(c, d, sender, id, payload).Some?
      && d' == ApplyAll(d, SendWrites(g, PlanSend(c, d, sender, id, payload).value))
    case SendRefused(sender, id, payload) => d' == d
    case SendCut(sender, id, payload) =>
      HasState(d, g) && Recoverable(d, g) && PlanSend(c, d, sender, id, payload).Some?
      && Interrupted(d, SendWrites(g, PlanSend(c, d, sender, id, payload).value), d')
    case RecvDone(id, msgs) =>
      Drainable(d) && PlanRecv(c, d, id).Some? && PlanRecv(c, d, id).value.msgs == msgs
      && d' == ApplyAll(d, StateWrites(g, PlanRecv(c, d, id).value.state))
    case RecvSkipped(id) => d' == d
    case RecvCut(id) =>
      HasState(d, g) && Recoverable(d, g) && Drainable(d) && PlanRecv(c, d, id).Some?
      && Interrupted(d, StateWrites(g, PlanRecv(c, d, id).value.state), d')
  }

  /** The frame is below 2 GiB whatever its next link is. */
  ghost predicate Marshals(c: Codec, sender: BoxId, payload: bytes) {
    forall next: uint32 :: |c.marshal(NewMsg(next, sender, payload))| < 0x8000_0000
  }

  /** Recv will read the frame back, whatever its next link is. */
  ghost predicate Legible(c: Codec, bSize: nat, sender: BoxId, payload: bytes)
    requires bSize > 0
  {
    Marshals(c, sender, payload) && forall next: uint32 :: ReadsBack(bSize, c.marshal(NewMsg(next, sender, payload)))
  }

  /** The event is a Send that may put a message into mailbox id. */
  predicate SendsTo(ev: Event, id: BoxId) {
    (ev.SendDone? || ev.SendCut?) && ev.id == id
  }

  /** No frame that Recv misreads was sent to mailbox id. */
  ghost predicate AllLegible(c: Codec, bSize: nat, evs: seq<Event>, id: BoxId)
    requires bSize > 0
  {
    forall k :: 0 <= k < |evs| && SendsTo(evs[k], id) ==> Legible(c, bSize, evs[k].sender, evs[k].payload)
  }

  /** What each mailbox contains for its reader, newest first. */
  function Contents(boxes: Boxes): (r: seq<seq<Delivery>>)
    ensures |r| == |boxes|
  {
    seq(|boxes|, i requires 0 <= i < |boxes| => DeliverAll(boxes[i]))
  }

  function Inbox(boxes: Boxes, id: BoxId): seq<Delivery>
    requires |boxes| == MAX_BOXES
  {
    DeliverAll(boxes[id - 1])
  }

  /** The ideal mailboxes: a send pushes, a receive drains; `landed` settles an interrupted call. */
  function Ideal(m: seq<seq<Delivery>>, ev: Event, landed: bool): seq<seq<Delivery>>
    requires |m| == MAX_BOXES
  {
    match ev
    case SendDone(sender, id, payload) => m[id - 1 := [Delivery(sender, payload)] + m[id - 1]]
    case SendCut(sender, id, payload) =>
      if landed then m[id - 1 := [Delivery(sender, payload)] + m[id - 1]] else m
    case RecvDone(id, msgs) => m[id - 1 := []]
    case RecvCut(id) => if landed then m[id - 1 := []] else m
    case SendRefused(_, _, _) => m
    case RecvSkipped(_) => m
  }

  lemma ContentsPush(boxes: Boxes, id: BoxId, e: Entry)
    requires |boxes| == MAX_BOXES
    ensures Contents(Push(boxes, id, e)) == Contents(boxes)[id - 1 := [Deliver(e.msg)] + DeliverAll(boxes[id - 1])]
  {
    assert DeliverAll([e] + boxes[id - 1]) == [Deliver(e.msg)] + DeliverAll(boxes[id - 1]);
  }

  lemma ContentsClear(boxes: Boxes, id: BoxId)
    requires |boxes| == MAX_BOXES
    ensures Contents(Clear(boxes, id)) == Contents(boxes)[id - 1 := []]
  {
    assert DeliverAll([]) == [];
  }

  lemma ReadablePush(c: Codec, bSize: nat, es: seq<Entry>, e: Entry)
    requires bSize > 0 && Readable(c, bSize, es) && |c.marshal(e.msg)| < 0x8000_0000 && ReadsBack(bSize, c.marshal(e.msg))
    ensures Readable(c, bSize, [e] + es)
  {
    hide ReadsBack;
    assert forall k :: 0 < k < |[e] + es| ==> ([e] + es)[k] == es[k - 1];
  }

  /** Mailboxes of which Recv reads every frame stay so, unless the step sends a frame that it misreads. */
  ghost predicate StaysReadable(c: Codec, bSize: nat, boxes: Boxes, ev: Event, after: Boxes)
    requires bSize > 0 && |boxes| == |after| == MAX_BOXES
  {
    forall id: BoxId :: Readable(c, bSize, boxes[id - 1]) && (SendsTo(ev, id) ==> Legible(c, bSize, ev.sender, ev.payload))
      ==> Readable(c, bSize, after[id - 1])
  }

  /** What a step leaves: mailboxes that follow the ideal ones. */
  ghost predicate Follows(c: Codec, g: Geo, h: nat, boxes: Boxes, ev: Event, landed: bool, d': bytes, after: Boxes) {
    && g.bSize > 0 && |boxes| == |after| == MAX_BOXES
    && Holds(c, d', g, h, after)
    && StaysReadable(c, g.bSize, boxes, ev, after)
    && Contents(after) == Ideal(Contents(boxes), ev, landed)
    && (ev.RecvDone? ==> ev.msgs == Inbox(boxes, ev.id))
  }

  /** Pushing the sent message follows the ideal mailboxes. */
  lemma PushFollows(c: Codec, g: Geo, h: nat, boxes: Boxes, ev: Event, p: SendPlan, d': bytes)
    requires ev.SendDone? || ev.SendCut?
    requires g.bSize > 0 && |boxes| == MAX_BOXES
    requires Holds(c, d', g, h, Push(boxes, ev.id, SentEntry(boxes, p, ev.sender, ev.id, ev.payload)))
    ensures Follows(c, g, h, boxes, ev, true, d', Push(boxes, ev.id, SentEntry(boxes, p, ev.sender, ev.id, ev.payload)))
  {
    hide Holds;
    hide Contents;
    hide DeliverAll;
    hide Readable;
    hide ReadsBack;
    var e := SentEntry(boxes, p, ev.sender, ev.id, ev.payload);
    var after := Push(boxes, ev.id, e);
    ContentsPush(boxes, ev.id, e);
    ContentsAt(boxes, ev.id);
    if Readable(c, g.bSize, boxes[ev.id - 1]) && Legible(c, g.bSize, ev.sender, ev.payload) {
      ReadablePush(c, g.bSize, boxes[ev.id - 1], e);
    }
  }

  lemma SendStep(c: Codec, g: Geo, h: nat, d: bytes, boxes: Boxes, ev: Event, d': bytes) returns (after: Boxes, landed: bool)
    requires Holds(c, d, g, h, boxes)
    requires ev.SendDone? || ev.SendCut?
    requires Step(c, g, d, ev, d') && Marshals(c, ev.sender, ev.payload)
    ensures Follows(c, g, h, boxes, ev, landed, d', after)
  {
    hide Holds;
    hide PlanSend;
    hide ApplyAll;
    hide Interrupted;
    hide Follows;
    hide Contents;
    HoldsSize(c, d, g, h, boxes);
    var p := PlanSend(c, d, ev.sender, ev.id, ev.payload).value;
    var e := SentEntry(boxes, p, ev.sender, ev.id, ev.payload);
    assert |c.marshal(e.msg)| < 0x8000_0000;
    after, landed := Push(boxes, ev.id, e), true;
    if ev.SendDone? {
      SendCompletes(c, d, g, h, boxes, ev.sender, ev.id, ev.payload);
      PushFollows(c, g, h, boxes, ev, p, d');
    } else {
      SendAtomic(c, d, g, h, boxes, ev.sender, ev.id, ev.payload, d');
      if Holds(c, d', g, h, boxes) {
        after, landed := boxes, false;
        NothingFollows(c, g, h, boxes, ev, d');
      } else {
        PushFollows(c, g, h, boxes, ev, p, d');
      }
    }
  }

  lemma NothingFollows(c: Codec, g: Geo, h: nat, boxes: Boxes, ev: Event, d': bytes)
    requires g.bSize > 0 && |boxes| == MAX_BOXES && Holds(c, d', g, h, boxes)
    requires !ev.SendDone? && !ev.RecvDone?
    ensures Follows(c, g, h, boxes, ev, false, d', boxes)
  {
    hide Holds;
    hide Contents;
    hide Readable;
  }

  lemma ReadableEmpty(c: Codec, bSize: nat)
    requires bSize > 0
    ensures Readable(c, bSize, [])
  {
  }

  lemma ClearReadable(c: Codec, bSize: nat, boxes: Boxes, ev: Event)
    requires ev.RecvDone? || ev.RecvCut?
    requires bSize > 0 && |boxes| == MAX_BOXES
    ensures StaysReadable(c, bSize, boxes, ev, Clear(boxes, ev.id))
  {
    hide Readable;
    ReadableEmpty(c, bSize);
    var after := Clear(boxes, ev.id);
    forall i | 0 <= i < MAX_BOXES && Readable(c, bSize, boxes[i])
      ensures Readable(c, bSize, after[i])
    {
      assert after[i] == if i == ev.id - 1 then [] else boxes[i];
    }
  }

  lemma ClearFollows(c: Codec, g: Geo, h: nat, boxes: Boxes, ev: Event, d': bytes)
    requires ev.RecvDone? || ev.RecvCut?
    requires g.bSize > 0 && |boxes| == MAX_BOXES
    requires Holds(c, d', g, h, Clear(boxes, ev.id))
    requires ev.RecvDone? ==> ev.msgs == Inbox(boxes, ev.id)
    ensures Follows(c, g, h, boxes, ev, true, d', Clear(boxes, ev.id))
  {
    hide Holds;
    hide Contents;
    hide Inbox;
    hide StaysReadable;
    ContentsClear(boxes, ev.id);
    ContentsAt(boxes, ev.id);
    ClearReadable(c, g.bSize, boxes, ev);
  }

  lemma ContentsAt(boxes: Boxes, id: BoxId)
    requires |boxes| == MAX_BOXES
    ensures |Contents(boxes)| == MAX_BOXES && Contents(boxes)[id - 1] == Inbox(boxes, id)
  {
  }

  lemma RecvStep(c: Codec, g: Geo, h: nat, d: bytes, boxes: Boxes, ev: Event, d': bytes) returns (after: Boxes, landed: bool)
    requires GoodCodec(c) && Holds(c, d, g, h, boxes)
    requires ev.RecvDone? || ev.RecvCut?
    requires Readable(c, g.bSize, boxes[ev.id - 1])
    requires Step(c, g, d, ev, d')
    ensures Follows(c, g, h, boxes, ev, landed, d', after)
  {
    hide Holds;
    hide PlanRecv;
    hide ApplyAll;
    hide Interrupted;
    hide DeliverAll;
    hide Readable;
    hide Drainable;
    hide Follows;
    HoldsSize(c, d, g, h, boxes);
    PlanRecvSpec(c, d, g, h, boxes, ev.id);
    after, landed := Clear(boxes, ev.id), true;
    if ev.RecvDone? {
      RecvCompletes(c, d, g, h, boxes, ev.id);
      ClearFollows(c, g, h, boxes, ev, d');
    } else {
      RecvAtomic(c, d, g, h, boxes, ev.id, d');
      if Holds(c, d', g, h, boxes) {
        after, landed := boxes, false;
        NothingFollows(c, g, h, boxes, ev, d');
      } else {
        ClearFollows(c, g, h, boxes, ev, d');
      }
    }
  }

  /** What a call must respect: frames below 2 GiB, and no Recv of a mailbox with a frame it misreads. */
  ghost predicate Proper(c: Codec, bSize: nat, boxes: Boxes, ev: Event)
    requires bSize > 0 && |boxes| == MAX_BOXES
  {
    && (ev.SendDone? || ev.SendCut? ==> Marshals(c, ev.sender, ev.payload))
    && (ev.RecvDone? || ev.RecvCut? ==> Readable(c, bSize, boxes[ev.id - 1]))
  }

  /** Every step, completed, refused, skipped or interrupted, follows the ideal mailboxes. */
  lemma StepFollows(c: Codec, g: Geo, h: nat, d: bytes, boxes: Boxes, ev: Event, d': bytes) returns (after: Boxes, landed: bool)
    requires GoodCodec(c) && Holds(c, d, g, h, boxes)
    requires Step(c, g, d, ev, d') && Proper(c, g.bSize, boxes, ev)
    ensures Follows(c, g, h, boxes, ev, landed, d', after)
  {
    hide Holds;
    hide Follows;
    hide Readable;
    hide PlanSend;
    hide PlanRecv;
    HoldsSize(c, d, g, h, boxes);
    if ev.SendDone? || ev.SendCut? {
      after, landed := SendStep(c, g, h, d, boxes, ev, d');
    } else if ev.RecvDone? || ev.RecvCut? {
      after, landed := RecvStep(c, g, h, d, boxes, ev, d');
    } else {
      after, landed := boxes, false;
      NothingFollows(c, g, h, boxes, ev, d');
    }
  }

  /**
   A run: one more disk than events, each step allowed.  Frames of any size below 2 GiB may be sent to
   any mailbox, but a mailbox is received only if all frames sent to it so far are ones that Recv reads
   back; MailWitness.LongLetter shows what happens otherwise.
   */
  ghost predicate Run(c: Codec, g: Geo, ds: seq<bytes>, evs: seq<Event>) {
    && g.bSize > 0 && |ds| == |evs| + 1
    && (forall i :: 0 <= i < |evs| ==> Step(c, g, ds[i], evs[i], ds[i + 1]))
    && (forall i :: 0 <= i < |evs| && (evs[i].SendDone? || evs[i].SendCut?) ==> Marshals(c, evs[i].sender, evs[i].payload))
    && (forall i :: 0 <= i < |evs| && (evs[i].RecvDone? || evs[i].RecvCut?) ==> AllLegible(c, g.bSize, evs[..i], evs[i].id))
  }

  /** Everything sent to `id` and not yet received, newest first, after the given events. */
  function Unread(evs: seq<Event>, landed: seq<bool>, id: BoxId): seq<Delivery>
    requires |evs| == |landed|
    decreases |evs|
  {
    if evs == [] then []
    else
      var n := |evs| - 1;
      var before, ev, happened := Unread(evs[..n], landed[..n], id), evs[n], landed[n];
      match ev
      case SendDone(sender, to, payload) => if to == id then [Delivery(sender, payload)] + before else before
      case SendCut(sender, to, payload) => if to == id && happened then [Delivery(sender, payload)] + before else before
      case RecvDone(of, msgs) => if of == id then [] else before
      case RecvCut(of) => if of == id && happened then [] else before
      case SendRefused(_, _, _) => before
      case RecvSkipped(_) => before
  }

  /** The mailboxes of every disk of the run are the unread messages, and each Recv returned them. */
  ghost predicate Explained(c: Codec, g: Geo, h: nat, ds: seq<bytes>, evs: seq<Event>, bs: seq<Boxes>, landed: seq<bool>) {
    && g.bSize > 0 && |ds| == |bs| == |evs| + 1 && |landed| == |evs|
    && (forall i :: 0 <= i < |bs| ==> Holds(c, ds[i], g, h, bs[i]))
    && (forall i :: 0 <= i < |bs| ==> |bs[i]| == MAX_BOXES)
    && (forall i, id: BoxId :: 0 <= i < |bs| && AllLegible(c, g.bSize, evs[..i], id) ==> Readable(c, g.bSize, bs[i][id - 1]))
    && (forall i, id: BoxId :: 0 <= i < |bs| ==> Inbox(bs[i], id) == Unread(evs[..i], landed[..i], id))
    && (forall i :: 0 <= i < |evs| && evs[i].RecvDone? ==> evs[i].msgs == Unread(evs[..i], landed[..i], evs[i].id))
  }

  lemma UnreadStep(evs: seq<Event>, landed: seq<bool>, ev: Event, l: bool, m: seq<seq<Delivery>>, id: BoxId)
    requires |evs| == |landed| && |m| == MAX_BOXES && m[id - 1] == Unread(evs, landed, id)
    ensures |Ideal(m, ev, l)| == MAX_BOXES
    ensures Ideal(m, ev, l)[id - 1] == Unread(evs + [ev], landed + [l], id)
  {
    assert (evs + [ev])[..|evs|] == evs && (landed + [l])[..|evs|] == landed;
  }

  /**
   Over every run from a disk without mail, every disk holds well-formed mailboxes (so its blocks
   are exactly the reservation and the undelivered messages), each mailbox is what was sent to it
   since it was last drained, and every completed Recv returned exactly that.
   */
  lemma {:induction false} RunExplained(c: Codec, g: Geo, h: nat, ds: seq<bytes>, evs: seq<Event>) returns (bs: seq<Boxes>, landed: seq<bool>)
    requires GoodCodec(c) && Run(c, g, ds, evs) && Holds(c, ds[0], g, h, NoMail())
    ensures Explained(c, g, h, ds, evs, bs, landed)
    decreases |evs|
  {
    hide Holds;
    hide Step;
    hide Marshals;
    hide AllLegible;
    hide Readable;
    if evs == [] {
      bs, landed := [NoMail()], [];
      ExplainedStart(c, g, h, ds);
    } else {
      var n := |evs| - 1;
      RunFront(c, g, ds, evs);
      var bs', landed' := RunExplained(c, g, h, ds[..n + 1], evs[..n]);
      assert evs[..n][..n] == evs[..n];
      assert evs[n].RecvDone? || evs[n].RecvCut? ==> Readable(c, g.bSize, bs'[n][evs[n].id - 1]);
      var after, l := StepFollows(c, g, h, ds[n], bs'[n], evs[n], ds[n + 1]);
      bs, landed := bs' + [after], landed' + [l];
      ExplainedExtend(c, g, h, ds, evs, bs', landed', after, l);
    }
  }

  lemma ExplainedStart(c: Codec, g: Geo, h: nat, ds: seq<bytes>)
    requires g.bSize > 0 && |ds| == 1 && Holds(c, ds[0], g, h, NoMail())
    ensures Explained(c, g, h, ds, [], [NoMail()], [])
  {
    hide Holds;
    hide Readable;
    hide AllLegible;
    hide Inbox;
    NoMailContents(c, g.bSize);
    var evs: seq<Event>, landed: seq<bool>, bs := [], [], [NoMail()];
    forall i, id: BoxId | 0 <= i < |bs|
      ensures Inbox(bs[i], id) == Unread(evs[..i], landed[..i], id)
    {
      assert evs[..i] == [] && landed[..i] == [];
    }
    forall i, id: BoxId | 0 <= i < |bs| && AllLegible(c, g.bSize, evs[..i], id)
      ensures Readable(c, g.bSize, bs[i][id - 1])
    {
      assert Inbox(NoMail(), id) == [];
    }
    assert Explained(c, g, h, ds, evs, bs, landed);
  }

  lemma RunFront(c: Codec, g: Geo, ds: seq<bytes>, evs: seq<Event>)
    requires evs != [] && Run(c, g, ds, evs)
    ensures Run(c, g, ds[..|evs|], evs[..|evs| - 1])
  {
    hide Step;
    hide Marshals;
    hide AllLegible;
    var n := |evs| - 1;
    forall i | 0 <= i < n
      ensures evs[..n][..i] == evs[..i]
    {
    }
  }

  lemma NoMailContents(c: Codec, bSize: nat)
    requires bSize > 0
    ensures forall id: BoxId :: Inbox(NoMail(), id) == [] && Readable(c, bSize, NoMail()[id - 1])
  {
    forall id: BoxId
      ensures Inbox(NoMail(), id) == []
    {
      assert NoMail()[id - 1] == [];
    }
  }

  /** The contents of every mailbox after one more event. */
  lemma ExplainedInboxes(evs: seq<Event>, bs: seq<Boxes>, landed: seq<bool>, after: Boxes, l: bool)
    requires evs != [] && |bs| == |evs| == |landed| + 1 && |after| == MAX_BOXES
    requires forall i :: 0 <= i < |bs| ==> |bs[i]| == MAX_BOXES
    requires forall i, id: BoxId :: 0 <= i < |bs| ==> Inbox(bs[i], id) == Unread(evs[..i], landed[..i], id)
    requires Contents(after) == Ideal(Contents(bs[|evs| - 1]), evs[|evs| - 1], l)
    ensures forall i, id: BoxId :: 0 <= i <= |evs| ==>
              |(bs + [after])[i]| == MAX_BOXES && Inbox((bs + [after])[i], id) == Unread(evs[..i], (landed + [l])[..i], id)
  {
    hide Contents;
    hide Inbox;
    hide Unread;
    hide Ideal;
    var n := |evs| - 1;
    var bs', landed' := bs + [after], landed + [l];
    assert evs[..n + 1] == evs && evs == evs[..n] + [evs[n]] && landed[..n] == landed && landed'[..n + 1] == landed';
    forall i, id: BoxId | 0 <= i <= |evs|
      ensures |bs'[i]| == MAX_BOXES && Inbox(bs'[i], id) == Unread(evs[..i], landed'[..i], id)
    {
      if i <= n {
        assert bs'[i] == bs[i] && landed[..i] == landed'[..i];
        assert Inbox(bs[i], id) == Unread(evs[..i], landed[..i], id);
      } else {
        assert Inbox(bs[n], id) == Unread(evs[..n], landed[..n], id);
        ContentsAt(bs[n], id);
        ContentsAt(after, id);
        UnreadStep(evs[..n], landed, evs[n], l, Contents(bs[n]), id);
      }
    }
  }

  /** The mailboxes to which only legible frames were sent after one more event. */
  lemma ExplainedReadable(c: Codec, bSize: nat, evs: seq<Event>, bs: seq<Boxes>, after: Boxes)
    requires bSize > 0 && evs != [] && |bs| == |evs| && |after| == MAX_BOXES
    requires forall i :: 0 <= i < |bs| ==> |bs[i]| == MAX_BOXES
    requires forall i, id: BoxId :: 0 <= i < |bs| && AllLegible(c, bSize, evs[..i], id) ==> Readable(c, bSize, bs[i][id - 1])
    requires StaysReadable(c, bSize, bs[|evs| - 1], evs[|evs| - 1], after)
    ensures forall i, id: BoxId :: 0 <= i <= |evs| && AllLegible(c, bSize, evs[..i], id) ==>
              |(bs + [after])[i]| == MAX_BOXES && Readable(c, bSize, (bs + [after])[i][id - 1])
  {
    hide Readable;
    hide Legible;
    var n := |evs| - 1;
    var bs' := bs + [after];
    forall i, id: BoxId | 0 <= i <= |evs| && AllLegible(c, bSize, evs[..i], id)
      ensures |bs'[i]| == MAX_BOXES && Readable(c, bSize, bs'[i][id - 1])
    {
      if i <= n {
        assert bs'[i] == bs[i];
      } else {
        assert evs[..i][n] == evs[n];
        assert AllLegible(c, bSize, evs[..n], id) by {
          assert forall k :: 0 <= k < n ==> evs[..n][k] == evs[..i][k];
        }
        assert Readable(c, bSize, bs[n][id - 1]);
      }
    }
  }

  lemma ExplainedExtend(c: Codec, g: Geo, h: nat, ds: seq<bytes>, evs: seq<Event>, bs: seq<Boxes>, landed: seq<bool>, after: Boxes, l: bool)
    requires evs != [] && |ds| == |evs| + 1
    requires Explained(c, g, h, ds[..|evs|], evs[..|evs| - 1], bs, landed)
    requires Follows(c, g, h, bs[|evs| - 1], evs[|evs| - 1], l, ds[|evs|], after)
    ensures Explained(c, g, h, ds, evs, bs + [after], landed + [l])
  {
    hide Holds;
    hide StaysReadable;
    hide AllLegible;
    hide Readable;
    hide Contents;
    hide Inbox;
    hide Unread;
    hide Ideal;
    var n := |evs| - 1;
    var bs', landed' := bs + [after], landed + [l];
    assert evs[..n + 1] == evs;
    forall i | 0 <= i <= n
      ensures evs[..n][..i] == evs[..i] && landed[..i] == landed'[..i]
    {
    }
    assert landed[..n] == landed;
    ExplainedInboxes(evs, bs, landed, after, l);
    ExplainedReadable(c, g.bSize, evs, bs, after);
    forall i | 0 <= i < |evs| && evs[i].RecvDone?
      ensures evs[i].msgs == Unread(evs[..i], landed'[..i], evs[i].id)
    {
      if i < n {
        assert evs[..n][i] == evs[i];
      } else {
        assert Inbox(bs[n], evs[n].id) == Unread(evs[..n][..n], landed[..n], evs[n].id);
      }
    }
    forall i | 0 <= i < |bs'|
      ensures Holds(c, ds[i], g, h, bs'[i])
    {
      if i <= n {
        assert bs'[i] == bs[i] && ds[..n + 1][i] == ds[i];
      }
    }
  }
}
