/**
 Send and Recv of pkg/diskrpc/mailbox.go as functions from disk bytes to the writes they make, and
 their effect on the mailboxes when they complete and when they are interrupted.
 */
module MailOps {
  import opened Options
  import opened Arith
  import opened Bytes
  import opened Disk
  import opened State
  import opened Buddy
  import opened BuddyBlocks
  import opened Allocator
  import opened MailSpec

  lemma Pow2Quarter(n: nat)
    requires IsPow2(n) && n >= 4
    ensures n % 4 == 0 && (n / 4 == 1 || (n / 4) % 2 == 0) && IsPow2(n / 4)
  {
    assert IsPow2(n / 2) && IsPow2(n / 2 / 2);
  }

  lemma GeoNumbers(bSize: uint32, aSize: uint32)
    requires bSize > 0 && bSize % PLATFORM_BLOCK == 0 && IsPow2(aSize + 4)
    ensures bSize >= PLATFORM_BLOCK && NodeOff(aSize / 4) <= ToBlocks(bSize, TREE + aSize) * bSize
    ensures IsPow2(aSize / 4 + 1)
    ensures aSize / 4 == 0 || (aSize / 4) % 2 == 1
    ensures aSize / 4 + 1 < 0x8000_0000
  {
    hide IsPow2;
    hide ToBlocks;
    var n: int := (aSize as int) + 4;
    Pow2Quarter(n);
    assert aSize / 4 == n / 4 - 1;
    ToBlocksCover(bSize, TREE + aSize);
  }

  /** What any accepted header guarantees. */
  lemma ParsedGeo(d: bytes)
    requires ParseHeader(d).Some?
    ensures var g := ParseHeader(d).value;
            g.bSize >= PLATFORM_BLOCK && NodeOff(g.nodeCnt) <= g.sSize && (g.nodeCnt == 0 || g.nodeCnt % 2 == 1)
            && g.nodeCnt + 1 < 0x8000_0000 && IsPow2(g.nodeCnt + 1)
  {
    hide IsPow2;
    hide Slot;
    hide ToBlocks;
    hide NodeOff;
    GeoNumbers(Slot(d, 18), Slot(d, 26));
  }

  // ---------------------------------------------------------------------------------------
  // Send
  // ---------------------------------------------------------------------------------------

  /** A message's bytes behind their length, padded with zeros to whole blocks. */
  function Frame(bSize: nat, buf: bytes): (r: bytes)
    requires bSize > 0
  {
    ToBlocksCover(bSize, 4 + |buf|);
    PutLE(WrapUint32(|buf|)) + buf + Zeros(ToBlocks(bSize, 4 + |buf|) * bSize - 4 - |buf|)
  }

  function NewMsg(head: uint32, sender: BoxId, payload: bytes): Msg {
    Msg(head, sender, WrapUint32(|payload|), payload)
  }

  /** The write that puts a frame at the start of its block. */
  function DataWrite(addr: Addr, bSize: nat, buf: bytes): Write
    requires bSize > 0
  {
    Write(addr * bSize, Frame(bSize, buf))
  }

  datatype SendPlan = SendPlan(addr: Addr, data: Write, state: bytes)

  /** Allocate for the new message in state s and rewrite the state. */
  function PlanIn(c: Codec, g: Geo, s: bytes, sender: BoxId, id: BoxId, payload: bytes): Option<SendPlan>
    requires g.bSize > 0 && Holding(s, g.nodeCnt) && g.nodeCnt % 2 == 1
  {
    var buf := c.marshal(NewMsg(Head(s, id), sender, payload));
    var a := Alloc(LoadNodes(s, g.nodeCnt), WrapInt32(ToBlocks(g.bSize, 4 + |buf|)));
    if a.None? || a.value.1 < 0 then None
    else
      var (nodes, addr) := a.value;
      Some(SendPlan(addr, DataWrite(addr, g.bSize, buf), Rewrite(s, nodes, id, addr)))
  }

  /**
   What Send computes under the lock before it writes; nothing on an error, or when it panics because
   the accepted header promises no allocator node at all.
   */
  function PlanSend(c: Codec, d: bytes, sender: BoxId, id: BoxId, payload: bytes): Option<SendPlan>
  {
    if ParseHeader(d).None? then None
    else
      var g := ParseHeader(d).value;
      ParsedGeo(d);
      if !HasState(d, g) || g.nodeCnt == 0 then None else PlanIn(c, g, ReadState(d, g), sender, id, payload)
  }

  function SendWrites(g: Geo, p: SendPlan): seq<Write> {
    [p.data] + StateWrites(g, p.state)
  }

  lemma NoWrap(g: Geo, n: nat)
    requires g.bSize > 0 && g.bSize % PLATFORM_BLOCK == 0 && n < 0x8000_0000
    ensures WrapInt32(ToBlocks(g.bSize, 4 + n)) == ToBlocks(g.bSize, 4 + n)
    ensures WrapUint32(n) == n
  {
    ToBlocksCover(g.bSize, 4 + n);
    var k := ToBlocks(g.bSize, 4 + n);
    MulMono(4096, g.bSize, k - 1);
    assert (k - 1) * g.bSize == g.bSize * (k - 1);
    WrapInt32Id(k);
  }

  /** Allocating for a message in a state: the new state lists it first, in a block that was free. */
  lemma PushState(c: Codec, g: Geo, h: nat, s: bytes, boxes: Boxes, id: BoxId, e: Entry, nodes: seq<int32>)
    requires GeoOk(g, h) && StateOk(c, g, h, s, boxes)
    requires e.msg.next == HeadOf(boxes[id - 1])
    requires |nodes| == g.nodeCnt
    requires forall x :: x in Live(c, g, boxes) ==> Apart(x, BlockOf(c, g.bSize, e))
    requires Represents(nodes, h, Live(c, g, boxes) + {BlockOf(c, g.bSize, e)})
    ensures StateOk(c, g, h, Rewrite(s, nodes, id, e.addr), Push(boxes, id, e))
  {
    hide Represents;
    hide Live;
    hide Rewrite;
    hide RoundExp;
    var b := BlockOf(c, g.bSize, e);
    var after := Push(boxes, id, e);
    RewriteReads(s, nodes, id, e.addr);
    LivePush(c, g, boxes, id, e);
    FreeBlockBehindState(c, g, boxes, b);
    forall j, i | 0 <= j < |boxes| && 0 <= i < |boxes[j]|
      ensures boxes[j][i].addr != e.addr
    {
      LiveMember(c, g, boxes, j, i);
      assert Apart(BlockOf(c, g.bSize, boxes[j][i]), b);
    }
    DistinctPush(boxes, id, e);
    ChainedPush(boxes[id - 1], e);
    assert forall j :: 0 <= j < |after| ==> Chained(after[j]);
    assert forall j: BoxId :: Head(Rewrite(s, nodes, id, e.addr), j) == HeadOf(after[j - 1]);
  }

  /**
   On a disk that holds mailboxes, Send finds a plan exactly when an aligned free run is left for
   the frame; the plan's block is the lowest such run.
   */
  lemma PlanSendSpec(c: Codec, d: bytes, g: Geo, h: nat, boxes: Boxes, sender: BoxId, id: BoxId, payload: bytes)
    requires Holds(c, d, g, h, boxes)
    requires |c.marshal(NewMsg(HeadOf(boxes[id - 1]), sender, payload))| < 0x8000_0000
    ensures var m := NewMsg(HeadOf(boxes[id - 1]), sender, payload);
            var k := RoundExp(FrameBlocks(c, g.bSize, m));
            var p := PlanSend(c, d, sender, id, payload);
            && (p.Some? <==> exists o :: FreeRun(Live(c, g, boxes), o, k, 0, h))
            && (p.Some? ==>
                  var e := Entry(p.value.addr, m);
                  && FreeRun(Live(c, g, boxes), e.addr, k, 0, h)
                  && (forall o :: FreeRun(Live(c, g, boxes), o, k, 0, h) ==> e.addr <= o)
                  && p.value.data == Write(e.addr * g.bSize, Frame(g.bSize, c.marshal(m)))
                  && StateOk(c, g, h, p.value.state, Push(boxes, id, e)))
  {
    hide ParseHeader;
    hide Represents;
    hide Live;
    hide Rewrite;
    hide FreeRun;
    hide Alloc;
    hide RoundExp;
    hide Pow2;
    hide LoadNodes;
    hide ReadState;
    hide Frame;
    var s := ReadState(d, g);
    var m := NewMsg(HeadOf(boxes[id - 1]), sender, payload);
    assert Head(s, id) == HeadOf(boxes[id - 1]);
    ParsedGeo(d);
    var S := Live(c, g, boxes);
    var nodes := LoadNodes(s, g.nodeCnt);
    var n := FrameBlocks(c, g.bSize, m);
    NoWrap(g, |c.marshal(m)|);
    ToBlocksCover(g.bSize, 4 + |c.marshal(m)|);
    RepresentsComplete(nodes, h, S);
    AllocRefines(nodes, h, S, n);
    if Alloc(nodes, n).Some? {
      var (nodes', v) := Alloc(nodes, n).value;
      FreeRunBounds(S, v, RoundExp(n), h);
      var e := Entry(v, m);
      PushState(c, g, h, s, boxes, id, e, nodes');
    }
  }

  lemma FreeRunBounds(S: set<Block>, o: int, k: nat, h: nat)
    requires FreeRun(S, o, k, 0, h) && h <= 29
    ensures 0 <= o < 0x8000_0000 && o + Pow2(k) <= Pow2(h)
    ensures forall x :: x in S ==> Apart(x, Block(o, Pow2(k)))
  {
    SizeFits(h);
  }

  lemma FrameBytes(c: Codec, d: bytes, g: Geo, e: Entry)
    requires g.bSize > 0 && |c.marshal(e.msg)| < 0x8000_0000
    requires (e.addr + BlockOf(c, g.bSize, e).size) * g.bSize <= |d|
    ensures var w := Write(e.addr * g.bSize, Frame(g.bSize, c.marshal(e.msg)));
            && Fits(d, w)
            && w.off + |w.data| <= (e.addr + BlockOf(c, g.bSize, e).size) * g.bSize
            && FrameAt(c, Apply(d, w), g.bSize, e)
  {
    var buf := c.marshal(e.msg);
    var n := FrameBlocks(c, g.bSize, e.msg);
    var w := Write(e.addr * g.bSize, Frame(g.bSize, buf));
    FrameInBlock(c, g.bSize, e);
    MulMono(n, BlockOf(c, g.bSize, e).size, g.bSize);
    MulAdd(e.addr, BlockOf(c, g.bSize, e).size, g.bSize);
    FrameLength(g.bSize, buf);
    FrameApplied(d, w, buf);
  }

  lemma FrameLength(bSize: nat, buf: bytes)
    requires bSize > 0 && |buf| < 0x8000_0000
    ensures |Frame(bSize, buf)| == ToBlocks(bSize, 4 + |buf|) * bSize >= 4 + |buf|
    ensures Frame(bSize, buf)[..4] == PutLE(|buf|)
    ensures Frame(bSize, buf)[4..4 + |buf|] == buf
    ensures forall i :: 4 + |buf| <= i < |Frame(bSize, buf)| ==> Frame(bSize, buf)[i] == 0
  {
    hide ToBlocks;
    hide PutLE;
    ToBlocksCover(bSize, 4 + |buf|);
    FrameParts(PutLE(|buf|), buf, Zeros(ToBlocks(bSize, 4 + |buf|) * bSize - 4 - |buf|));
  }

  lemma FrameParts(p: bytes, buf: bytes, z: bytes)
    requires |p| == 4
    ensures |p + buf + z| == 4 + |buf| + |z| && (p + buf + z)[..4] == p && (p + buf + z)[4..4 + |buf|] == buf
  {
  }

  lemma FrameApplied(d: bytes, w: Write, buf: bytes)
    requires Fits(d, w) && 4 + |buf| <= |w.data| && |buf| < 0x8000_0000
    requires w.data[..4] == PutLE(|buf|) && w.data[4..4 + |buf|] == buf
    ensures Apply(d, w)[w.off..w.off + 4] == PutLE(|buf|)
    ensures Apply(d, w)[w.off + 4..w.off + 4 + |buf|] == buf
  {
    var r := Apply(d, w);
    assert r[w.off..w.off + 4] == w.data[..4];
    assert r[w.off + 4..w.off + 4 + |buf|] == w.data[4..4 + |buf|];
  }

  /** The entry that a plan of Send adds to the recipient's list. */
  function SentEntry(boxes: Boxes, p: SendPlan, sender: BoxId, id: BoxId, payload: bytes): Entry
    requires |boxes| == MAX_BOXES
  {
    Entry(p.addr, NewMsg(HeadOf(boxes[id - 1]), sender, payload))
  }

  lemma HoldsSize(c: Codec, d: bytes, g: Geo, h: nat, boxes: Boxes)
    requires Holds(c, d, g, h, boxes)
    ensures GeoOk(g, h) && Pow2(h) * g.bSize <= |d| && HasState(d, g) && |boxes| == MAX_BOXES
  {
  }

  /** d' holds the same mailboxes as d, and a recoverable d gives a recoverable d'. */
  ghost predicate StillHolds(c: Codec, d: bytes, d': bytes, g: Geo, h: nat, boxes: Boxes) {
    && Holds(c, d', g, h, boxes)
    && HasState(d, g) && Copy1(d', g) == Copy1(d, g) && Copy2(d', g) == Copy2(d, g)
  }

  lemma DataTorn(c: Codec, d: bytes, g: Geo, h: nat, boxes: Boxes, b: Block, w: Write, d': bytes)
    requires Holds(c, d, g, h, boxes)
    requires b.addr >= 0 && b.size >= 1
    requires forall x :: x in Live(c, g, boxes) ==> Apart(x, b)
    requires b.addr * g.bSize <= w.off && w.off + |w.data| <= (b.addr + b.size) * g.bSize
    requires Torn(d, w, d')
    ensures StillHolds(c, d, d', g, h, boxes)
  {
    hide Live;
    hide Holds;
    HoldsSize(c, d, g, h, boxes);
    SameWider(d, d', w.off, w.off + |w.data|, b.addr * g.bSize, (b.addr + b.size) * g.bSize);
    SurvivesFreeWrite(c, d, d', g, h, boxes, b);
    HoldsSize(c, d', g, h, boxes);
  }

  /** During and after the data write the old mailboxes are intact; after it the frame is in place. */
  lemma DataWritten(c: Codec, d: bytes, g: Geo, h: nat, boxes: Boxes, e: Entry, w: Write)
    requires g.bSize > 0 && |c.marshal(e.msg)| < 0x8000_0000
    requires w == Write(e.addr * g.bSize, Frame(g.bSize, c.marshal(e.msg)))
    requires FreeRun(Live(c, g, boxes), e.addr, RoundExp(FrameBlocks(c, g.bSize, e.msg)), 0, h)
    requires Holds(c, d, g, h, boxes)
    ensures FrameAt(c, Apply(d, w), g.bSize, e)
    ensures StillHolds(c, d, Apply(d, w), g, h, boxes)
    ensures forall d' :: Torn(d, w, d') ==> StillHolds(c, d, d', g, h, boxes)
  {
    hide Live;
    hide Holds;
    hide FrameAt;
    hide Frame;
    hide Pow2;
    hide RoundExp;
    hide Apply;
    hide Torn;
    hide StillHolds;
    HoldsSize(c, d, g, h, boxes);
    var b := BlockOf(c, g.bSize, e);
    FreeRunBounds(Live(c, g, boxes), e.addr, RoundExp(FrameBlocks(c, g.bSize, e.msg)), h);
    MulMono(b.addr + b.size, Pow2(h), g.bSize);
    FrameBytes(c, d, g, e);
    forall d' | Torn(d, w, d')
      ensures StillHolds(c, d, d', g, h, boxes)
    {
      DataTorn(c, d, g, h, boxes, b, w, d');
    }
    ApplySame(d, w);
  }

  /** A disk that differs from one that holds `boxes` in STATE only. */
  lemma NewState(c: Codec, d: bytes, d': bytes, g: Geo, h: nat, boxes: Boxes, after: Boxes)
    requires Holds(c, d, g, h, boxes) && Frames(c, d, g.bSize, after)
    requires SameOutside(d, d', g.bSize, g.bSize + 3 * g.sSize) && HasState(d', g)
    requires StateOk(c, g, h, ReadState(d', g), after)
    ensures Holds(c, d', g, h, after)
  {
    hide StateOk;
    hide Frames;
    hide ParseHeader;
    FramesSurviveState(c, d, d', g, h, ReadState(d', g), after);
    HeaderStable(d, d', g.bSize, g.bSize + 3 * g.sSize);
  }

  lemma FramesPush(c: Codec, d: bytes, bSize: nat, boxes: Boxes, id: BoxId, e: Entry)
    requires |boxes| == MAX_BOXES && Frames(c, d, bSize, boxes) && FrameAt(c, d, bSize, e)
    ensures Frames(c, d, bSize, Push(boxes, id, e))
  {
    hide FrameAt;
    var after := Push(boxes, id, e);
    forall j, i | 0 <= j < |after| && 0 <= i < |after[j]|
      ensures FrameAt(c, d, bSize, after[j][i])
    {
      if j == id - 1 && i > 0 {
        assert after[j][i] == boxes[j][i - 1];
      }
    }
  }

  lemma ApplyFirst(d: bytes, w: Write, ws: seq<Write>)
    ensures ApplyAll(d, [w] + ws) == ApplyAll(Apply(d, w), ws)
    ensures forall d' :: Interrupted(d, [w] + ws, d') <==> Torn(d, w, d') || Interrupted(Apply(d, w), ws, d')
  {
    assert ([w] + ws)[1..] == ws;
  }

  /** The data write of a plan stays on the device. */
  lemma PlanFits(c: Codec, d: bytes, g: Geo, h: nat, boxes: Boxes, sender: BoxId, id: BoxId, payload: bytes)
    requires Holds(c, d, g, h, boxes) && PlanSend(c, d, sender, id, payload).Some?
    requires |c.marshal(NewMsg(HeadOf(boxes[id - 1]), sender, payload))| < 0x8000_0000
    ensures Fits(d, PlanSend(c, d, sender, id, payload).value.data)
  {
    hide PlanSend;
    hide Holds;
    hide StateOk;
    hide Live;
    hide Frame;
    hide Pow2;
    hide RoundExp;
    HoldsSize(c, d, g, h, boxes);
    PlanSendSpec(c, d, g, h, boxes, sender, id, payload);
    var p := PlanSend(c, d, sender, id, payload).value;
    var e := SentEntry(boxes, p, sender, id, payload);
    FreeRunBounds(Live(c, g, boxes), e.addr, RoundExp(FrameBlocks(c, g.bSize, e.msg)), h);
    MulMono(e.addr + BlockOf(c, g.bSize, e).size, Pow2(h), g.bSize);
    FrameBytes(c, d, g, e);
  }

  /** A completed Send: the message is first in the recipient's box, nothing else changed. */
  lemma SendCompletes(c: Codec, d: bytes, g: Geo, h: nat, boxes: Boxes, sender: BoxId, id: BoxId, payload: bytes)
    requires Holds(c, d, g, h, boxes)
    requires |c.marshal(NewMsg(HeadOf(boxes[id - 1]), sender, payload))| < 0x8000_0000
    requires PlanSend(c, d, sender, id, payload).Some?
    ensures var p := PlanSend(c, d, sender, id, payload).value;
            var d' := ApplyAll(d, SendWrites(g, p));
            && Holds(c, d', g, h, Push(boxes, id, SentEntry(boxes, p, sender, id, payload)))
            && Clean(d', g)
  {
    hide PlanSend;
    hide Holds;
    hide StateOk;
    hide ApplyAll;
    hide Live;
    hide FreeRun;
    HoldsSize(c, d, g, h, boxes);
    PlanSendSpec(c, d, g, h, boxes, sender, id, payload);
    var p := PlanSend(c, d, sender, id, payload).value;
    var e := SentEntry(boxes, p, sender, id, payload);
    DataWritten(c, d, g, h, boxes, e, p.data);
    ApplyFirst(d, p.data, StateWrites(g, p.state));
    SendFinish(c, Apply(d, p.data), g, h, boxes, id, e, p.state);
  }

  lemma SendFinish(c: Codec, d: bytes, g: Geo, h: nat, boxes: Boxes, id: BoxId, e: Entry, s: bytes)
    requires Holds(c, d, g, h, boxes) && FrameAt(c, d, g.bSize, e)
    requires StateOk(c, g, h, s, Push(boxes, id, e))
    ensures var d' := ApplyAll(d, StateWrites(g, s));
            Holds(c, d', g, h, Push(boxes, id, e)) && Clean(d', g)
    ensures Recoverable(d, g) ==> forall d' :: Interrupted(d, StateWrites(g, s), d') ==>
              Holds(c, d', g, h, boxes) || Holds(c, d', g, h, Push(boxes, id, e))
  {
    hide FrameAt;
    hide Frames;
    hide ReadState;
    hide ApplyAll;
    hide Interrupted;
    hide ParseHeader;
    hide Represents;
    FramesPush(c, d, g.bSize, boxes, id, e);
    StateWritten(d, g, s);
    NewState(c, d, ApplyAll(d, StateWrites(g, s)), g, h, boxes, Push(boxes, id, e));
    if Recoverable(d, g) {
      forall d' | Interrupted(d, StateWrites(g, s), d')
        ensures Holds(c, d', g, h, boxes) || Holds(c, d', g, h, Push(boxes, id, e))
      {
        StateAtomic(d, g, s, d');
        if ReadState(d', g) == s {
          NewState(c, d, d', g, h, boxes, Push(boxes, id, e));
        } else {
          NewState(c, d, d', g, h, boxes, boxes);
        }
      }
    }
  }

  /** An interrupted Send: exactly the old mailboxes or exactly the new ones. */
  lemma SendAtomic(c: Codec, d: bytes, g: Geo, h: nat, boxes: Boxes, sender: BoxId, id: BoxId, payload: bytes, d': bytes)
    requires Holds(c, d, g, h, boxes) && Recoverable(d, g)
    requires |c.marshal(NewMsg(HeadOf(boxes[id - 1]), sender, payload))| < 0x8000_0000
    requires PlanSend(c, d, sender, id, payload).Some?
    requires Interrupted(d, SendWrites(g, PlanSend(c, d, sender, id, payload).value), d')
    ensures var p := PlanSend(c, d, sender, id, payload).value;
            || Holds(c, d', g, h, boxes)
            || Holds(c, d', g, h, Push(boxes, id, SentEntry(boxes, p, sender, id, payload)))
  {
    hide PlanSend;
    hide Holds;
    hide StateOk;
    hide Interrupted;
    hide Live;
    hide FreeRun;
    hide Torn;
    hide Apply;
    hide Frame;
    hide Copy1;
    hide Copy2;
    HoldsSize(c, d, g, h, boxes);
    PlanSendSpec(c, d, g, h, boxes, sender, id, payload);
    var p := PlanSend(c, d, sender, id, payload).value;
    var e := SentEntry(boxes, p, sender, id, payload);
    DataWritten(c, d, g, h, boxes, e, p.data);
    ApplyFirst(d, p.data, StateWrites(g, p.state));
    SendFinish(c, Apply(d, p.data), g, h, boxes, id, e, p.state);
  }

  /** A state that lists the new message first is not a state that does not. */
  lemma PushedDiffers(c: Codec, g: Geo, h: nat, s: bytes, boxes: Boxes, id: BoxId, e: Entry)
    requires g.bSize > 0 && StateOk(c, g, h, s, boxes)
    ensures !StateOk(c, g, h, s, Push(boxes, id, e))
  {
    hide Represents;
    hide Live;
    var after := Push(boxes, id, e);
    assert HeadOf(after[id - 1]) == e.addr && Head(s, id) == HeadOf(boxes[id - 1]);
    assert boxes[id - 1] != [] ==> after[id - 1][1] == boxes[id - 1][0];
  }

  /** The cut came before, in or behind the data write; the message is seen exactly when its state landed. */
  lemma StateSeen(c: Codec, d: bytes, d1: bytes, d': bytes, g: Geo, h: nat, boxes: Boxes, id: BoxId, e: Entry, s: bytes)
    requires HasState(d, g) && Recoverable(d, g) && Holds(c, d, g, h, boxes)
    requires StillHolds(c, d, d1, g, h, boxes) && FrameAt(c, d1, g.bSize, e) && StateOk(c, g, h, s, Push(boxes, id, e))
    requires StillHolds(c, d, d', g, h, boxes) || Interrupted(d1, StateWrites(g, s), d')
    ensures Holds(c, d', g, h, Push(boxes, id, e)) <==> Landed(d', g, s)
    ensures !Landed(d', g, s) ==> Holds(c, d', g, h, boxes)
  {
    hide FrameAt;
    hide Frames;
    hide ParseHeader;
    hide Represents;
    hide Interrupted;
    hide StateOk;
    hide GeoOk;
    hide ReadState;
    hide Copy0;
    hide Copy1;
    hide Copy2;
    HoldsSize(c, d, g, h, boxes);
    StateLengths(c, g, h, s, Push(boxes, id, e));
    PushedDiffers(c, g, h, ReadState(d1, g), boxes, id, e);
    RecoverableReads(d, g);
    RecoverableReads(d1, g);
    if StillHolds(c, d, d', g, h, boxes) {
      RecoverableReads(d', g);
      PushedDiffers(c, g, h, ReadState(d', g), boxes, id, e);
    } else {
      FramesPush(c, d1, g.bSize, boxes, id, e);
      LandedIff(d1, g, s, d');
      StateInterrupted(d1, g, s, d');
      if Landed(d', g, s) {
        NewState(c, d1, d', g, h, boxes, Push(boxes, id, e));
      } else {
        NewState(c, d1, d', g, h, boxes, boxes);
      }
    }
  }

  lemma StateLengths(c: Codec, g: Geo, h: nat, s: bytes, boxes: Boxes)
    requires g.bSize > 0 && StateOk(c, g, h, s, boxes)
    ensures |s| == g.sSize && |boxes| == MAX_BOXES
  {
  }

  /**
   After an interrupted Send the message is there if and only if the first two state copies hold the
   planned state; otherwise the mailboxes are the old ones.
   */
  lemma SendLandedIff(c: Codec, d: bytes, g: Geo, h: nat, boxes: Boxes, sender: BoxId, id: BoxId, payload: bytes, d': bytes)
    requires Holds(c, d, g, h, boxes) && Recoverable(d, g)
    requires |c.marshal(NewMsg(HeadOf(boxes[id - 1]), sender, payload))| < 0x8000_0000
    requires PlanSend(c, d, sender, id, payload).Some?
    requires d' == d || Interrupted(d, SendWrites(g, PlanSend(c, d, sender, id, payload).value), d')
    ensures var p := PlanSend(c, d, sender, id, payload).value;
            && (Holds(c, d', g, h, Push(boxes, id, SentEntry(boxes, p, sender, id, payload))) <==> Landed(d', g, p.state))
            && (!Landed(d', g, p.state) ==> Holds(c, d', g, h, boxes))
  {
    hide PlanSend;
    hide Holds;
    hide StateOk;
    hide Interrupted;
    hide Live;
    hide FreeRun;
    hide Torn;
    hide Apply;
    hide Frame;
    hide Copy0;
    hide Copy1;
    hide Copy2;
    HoldsSize(c, d, g, h, boxes);
    PlanSendSpec(c, d, g, h, boxes, sender, id, payload);
    var p := PlanSend(c, d, sender, id, payload).value;
    var e := SentEntry(boxes, p, sender, id, payload);
    DataWritten(c, d, g, h, boxes, e, p.data);
    ApplyFirst(d, p.data, StateWrites(g, p.state));
    StateSeen(c, d, Apply(d, p.data), d', g, h, boxes, id, e, p.state);
  }
}
