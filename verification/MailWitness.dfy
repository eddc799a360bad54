/**
 Inputs at which the mailbox theorems apply, and at which expected properties fail.  There is a codec, a
 device of 32 blocks and a run in which a message goes from mailbox 1 to mailbox 2.  On the same device
 a message that does not fit one block is sent and can never be received, and a device of 8 blocks is
 too small to be formatted.
 */
module MailWitness {
  import opened Options
  import opened Arith
  import opened Bytes
  import opened Disk
  import opened State
  import opened Buddy
  import opened BuddyBlocks
  import opened Allocator
  import opened MailSpec
  import opened MailOps
  import opened MailRecv
  import opened MailRuns
  import opened MailHistory

  /** A plain encoding in place of the protobuf one. */
  function Pack(m: Msg): bytes {
    PutLE(m.next) + PutLE(m.sender) + PutLE(m.length) + m.payload
  }

  function Unpack(b: bytes): Option<Msg> {
    if |b| < 12 then None else Some(Msg(Slot(b, 0), Slot(b, 4), Slot(b, 8), b[12..]))
  }

  const PLAIN := Codec(Pack, Unpack)

  lemma PlainIsGood()
    ensures GoodCodec(PLAIN)
  {
    hide PutLE;
    hide GetLE;
    forall m: Msg
      ensures Unpack(Pack(m)) == Some(m)
    {
      var b := Pack(m);
      GetPut(m.next);
      GetPut(m.sender);
      GetPut(m.length);
      assert b[0..4] == PutLE(m.next) && b[4..8] == PutLE(m.sender) && b[8..12] == PutLE(m.length) && b[12..] == m.payload;
    }
  }

  const UNITS: nat := 32

  function BlankDevice(): bytes {
    Zeros(UNITS * PLATFORM_BLOCK)
  }

  lemma BlankSizes()
    ensures var d, b := BlankDevice(), PLATFORM_BLOCK;
            && |d| == UNITS * PLATFORM_BLOCK && Formattable(d, b) && FormatHeight(d, b) == 5 && Pow2(5) == 32
            && FormatGeo(d, b) == Geo(b, 3 * b, 63) && StateBlocks(FormatGeo(d, b)) == 3
            && Reserved(FormatGeo(d, b)) == Block(0, 16)
  {
    assert |BlankDevice()| / PLATFORM_BLOCK == UNITS;
    assert IsPow2(UNITS) && Log2(UNITS) == 5;
    assert RoundExp(10) == 4 && Pow2(4) == 16;
  }

  lemma FormattedLength(d: bytes, bSize: uint32)
    requires bSize >= PLATFORM_BLOCK && Formattable(d, bSize) && FormatState(d, bSize).Some?
    ensures |Formatted(d, bSize)| == |d|
  {
    hide FormatState;
    hide HeaderWrite;
    hide FormatGeo;
    hide Formattable;
  }

  lemma FormattedDevice() returns (d: bytes, g: Geo, h: nat)
    ensures Holds(PLAIN, d, g, h, NoMail()) && Clean(d, g)
    ensures g.bSize == PLATFORM_BLOCK && Reserved(g) == Block(0, 16) && Pow2(h) == 32
    ensures |d| == UNITS * PLATFORM_BLOCK
  {
    hide BlankDevice;
    hide Formattable;
    hide FormatState;
    hide FormatGeo;
    hide FormatHeight;
    hide Formatted;
    hide Holds;
    hide Clean;
    hide StateOk;
    hide GeoOk;
    hide Reserved;
    hide StateBlocks;
    hide Pow2;
    var d0 := BlankDevice();
    BlankSizes();
    FormatRoom(d0, PLATFORM_BLOCK);
    FormatHolds(PLAIN, d0, PLATFORM_BLOCK);
    FormattedLength(d0, PLATFORM_BLOCK);
    d, g, h := Formatted(d0, PLATFORM_BLOCK), FormatGeo(d0, PLATFORM_BLOCK), FormatHeight(d0, PLATFORM_BLOCK);
  }

  /** Behind the reservation there is room for a message of up to two blocks. */
  lemma RoomBehind(g: Geo, h: nat, m: Msg)
    requires g.bSize == PLATFORM_BLOCK && Reserved(g) == Block(0, 16) && Pow2(h) == 32
    requires |m.payload| == 0 || |m.payload| == PLATFORM_BLOCK
    ensures FreeRun(Live(PLAIN, g, NoMail()), 16, RoundExp(FrameBlocks(PLAIN, g.bSize, m)), 0, h)
  {
    hide Reserved;
    LiveNoMail(PLAIN, g);
    assert |Pack(m)| == 12 + |m.payload|;
    assert RoundExp(1) == 0 && Pow2(0) == 1;
    assert RoundExp(2) == 1 && Pow2(1) == 2 && Aligned(16, 1);
  }

  /** Sending a payload from mailbox 1 to mailbox 2 on the formatted device. */
  lemma FirstLetter(d: bytes, g: Geo, h: nat, payload: bytes) returns (p: SendPlan)
    requires Holds(PLAIN, d, g, h, NoMail()) && g.bSize == PLATFORM_BLOCK && Reserved(g) == Block(0, 16) && Pow2(h) == 32
    requires |payload| == 0 || |payload| == PLATFORM_BLOCK
    ensures PlanSend(PLAIN, d, 1, 2, payload) == Some(p) && p.addr <= 16
    ensures Holds(PLAIN, ApplyAll(d, SendWrites(g, p)), g, h, Push(NoMail(), 2, Entry(p.addr, NewMsg(NULL, 1, payload))))
  {
    hide Holds;
    hide PlanSend;
    hide ApplyAll;
    hide StateOk;
    hide FreeRun;
    hide Live;
    hide Reserved;
    hide Pow2;
    var from: BoxId, to: BoxId := 1, 2;
    var m := NewMsg(NULL, from, payload);
    assert NoMail()[to - 1] == [] && |Pack(m)| == 12 + |payload|;
    RoomBehind(g, h, m);
    PlanSendSpec(PLAIN, d, g, h, NoMail(), from, to, payload);
    SendCompletes(PLAIN, d, g, h, NoMail(), from, to, payload);
    p := PlanSend(PLAIN, d, from, to, payload).value;
  }

  lemma ShortIsLegible(sender: BoxId)
    ensures Legible(PLAIN, PLATFORM_BLOCK, sender, [])
  {
    forall next: uint32
      ensures |Pack(NewMsg(next, sender, []))| == 12
    {
    }
  }

  /** There is a run in which a message is sent and received. */
  lemma OneMessage() returns (c: Codec, g: Geo, h: nat, ds: seq<bytes>, evs: seq<Event>)
    ensures GoodCodec(c) && Run(c, g, ds, evs) && Holds(c, ds[0], g, h, NoMail())
    ensures evs == [SendDone(1, 2, []), RecvDone(2, [Delivery(1, [])])]
  {
    hide Holds;
    hide PlanSend;
    hide PlanRecv;
    hide Drainable;
    hide ApplyAll;
    hide GoodCodec;
    hide StateOk;
    hide Reserved;
    hide Pow2;
    hide Marshals;
    PlainIsGood();
    ShortIsLegible(1);
    c := PLAIN;
    var from: BoxId, to: BoxId := 1, 2;
    var d;
    d, g, h := FormattedDevice();
    var p := FirstLetter(d, g, h, []);
    var m := NewMsg(NULL, from, []);
    var boxes := Push(NoMail(), to, Entry(p.addr, m));
    var d1 := ApplyAll(d, SendWrites(g, p));
    assert boxes[to - 1] == [Entry(p.addr, m)] && |Pack(m)| == 12;
    PlanRecvSpec(c, d1, g, h, boxes, to);
    var q := PlanRecv(c, d1, to).value;
    assert q.msgs == [Delivery(1, [])];
    var d2 := ApplyAll(d1, StateWrites(g, q.state));
    ds, evs := [d, d1, d2], [SendDone(from, to, []), RecvDone(to, q.msgs)];
    assert Step(c, g, ds[0], evs[0], ds[1]) && Step(c, g, ds[1], evs[1], ds[2]);
    assert AllLegible(c, g.bSize, evs[..1], to) && AllLegible(c, g.bSize, evs[..0], to);
  }

  // ---------------------------------------------------------------------------------------
  // A message that does not fit one block
  // ---------------------------------------------------------------------------------------

  /** What Recv reads of such a frame unmarshals to a message whose next link is the frame's length. */
  lemma MisreadFrame(d: bytes, off: nat, buf: bytes)
    requires |buf| == PLATFORM_BLOCK + 12 && FrameFrom(d, off, buf) && off + 2 * PLATFORM_BLOCK <= |d|
    ensures var r := ReadAt(d, PLATFORM_BLOCK, off);
            r.Some? && r.value != buf && Unpack(r.value).Some? && Unpack(r.value).value.next == PLATFORM_BLOCK + 12
  {
    hide PutLE;
    hide GetLE;
    ReadLong(d, PLATFORM_BLOCK, off, buf, 2 * PLATFORM_BLOCK);
    var b := d[off..off + 2 * PLATFORM_BLOCK];
    assert b[0..4] == d[off..off + 4];
    GetPut(|buf|);
  }

  lemma Misread(d: bytes, g: Geo, e: Entry)
    requires g.bSize == PLATFORM_BLOCK && |d| == UNITS * PLATFORM_BLOCK && e.addr <= 16
    requires FrameAt(PLAIN, d, g.bSize, e) && |e.msg.payload| == PLATFORM_BLOCK
    ensures var r := ReadBytes(d, g.bSize, e.addr);
            r.Some? && r.value != Pack(e.msg) && Unpack(r.value).Some? && Unpack(r.value).value.next == PLATFORM_BLOCK + 12
  {
    hide ReadAt;
    hide FrameFrom;
    hide FrameAt;
    hide Unpack;
    FrameIs(PLAIN, d, g.bSize, e);
    MisreadFrame(d, e.addr * g.bSize, Pack(e.msg));
  }

  /** Behind a misread link there is no block, so the loop of Recv ends with an error. */
  lemma NothingThere(d: bytes, bSize: nat, nodes: seq<int32>, head: int32)
    requires bSize == PLATFORM_BLOCK && |d| == UNITS * PLATFORM_BLOCK
    requires Complete(nodes) && |nodes| + 1 < 0x8000_0000 && NoLeast(nodes)
    requires head >= UNITS
    ensures Drain(PLAIN, d, bSize, nodes, head).None?
  {
  }

  lemma LongDrain(d: bytes, g: Geo, nodes: seq<int32>, e: Entry)
    requires g.bSize == PLATFORM_BLOCK && |d| == UNITS * PLATFORM_BLOCK && e.addr <= 16
    requires FrameAt(PLAIN, d, g.bSize, e) && |e.msg.payload| == PLATFORM_BLOCK
    requires Complete(nodes) && |nodes| + 1 < 0x8000_0000 && NoLeast(nodes)
    ensures Drain(PLAIN, d, g.bSize, nodes, e.addr).None?
  {
    hide ReadBytes;
    hide Free;
    hide FrameAt;
    hide Unpack;
    hide Pack;
    Misread(d, g, e);
    var next := WrapInt32(PLATFORM_BLOCK + 12);
    WrapInt32Id(PLATFORM_BLOCK + 12);
    if Free(nodes, e.addr).Some? {
      FreeProgress(nodes, e.addr);
      NothingThere(d, g.bSize, Free(nodes, e.addr).value, next);
    }
  }

  /**
   A message with a payload of one block is sent and is on the disk, but it is not read back, and Recv of
   that mailbox fails; since a failing Recv plans no write, it fails again every time.
   */
  lemma LongLetter(payload: bytes) returns (d: bytes, g: Geo, h: nat, boxes: Boxes)
    requires |payload| == PLATFORM_BLOCK
    ensures Holds(PLAIN, d, g, h, boxes) && |boxes[1]| == 1 && boxes[1][0].msg == NewMsg(NULL, 1, payload)
    ensures g.bSize >= 4 && ReadBytes(d, g.bSize, boxes[1][0].addr) != Some(PLAIN.marshal(boxes[1][0].msg))
    ensures Drainable(d) && PlanRecv(PLAIN, d, 2).None?
  {
    hide Pow2;
    hide ApplyAll;
    hide PlanSend;
    hide Reserved;
    hide Frame;
    hide ParseHeader;
    hide ReadState;
    hide LoadNodes;
    hide Represents;
    hide Live;
    hide Drain;
    hide FrameAt;
    hide ReadBytes;
    hide StateBlocks;
    var d0;
    d0, g, h := FormattedDevice();
    var p := FirstLetter(d0, g, h, payload);
    d := ApplyAll(d0, SendWrites(g, p));
    var e := Entry(p.addr, NewMsg(NULL, 1, payload));
    boxes := Push(NoMail(), 2, e);
    assert boxes[1] == [e];
    var s := ReadState(d, g);
    var id: BoxId := 2;
    assert Head(s, id) == HeadOf(boxes[1]) == e.addr;
    WrapInt32Id(e.addr);
    NodesFit(LoadNodes(s, g.nodeCnt), h, Live(PLAIN, g, boxes));
    ParsedGeo(d);
    assert FrameAt(PLAIN, d, g.bSize, boxes[1][0]);
    Misread(d, g, e);
    LongDrain(d, g, LoadNodes(s, g.nodeCnt), e);
  }

  // ---------------------------------------------------------------------------------------
  // A device that is too small
  // ---------------------------------------------------------------------------------------

  /** Eight blocks: the reservation needs ten, format fails, and the header it wrote is accepted. */
  lemma SmallDevice() returns (d: bytes)
    ensures d == Zeros(8 * PLATFORM_BLOCK) && Formattable(d, PLATFORM_BLOCK)
    ensures FormatState(d, PLATFORM_BLOCK).None?
    ensures ParseHeader(Apply(d, HeaderWrite(d, PLATFORM_BLOCK))).Some?
  {
    d := Zeros(8 * PLATFORM_BLOCK);
    SmallSizes(d);
    hide FormatState;
    hide HeaderWrite;
    hide Apply;
    hide ParseHeader;
    hide FormatGeo;
    hide Pow2;
    FormatTooSmall(d, PLATFORM_BLOCK);
  }

  lemma SmallSizes(d: bytes)
    requires |d| == 8 * PLATFORM_BLOCK
    ensures Formattable(d, PLATFORM_BLOCK) && FormatHeight(d, PLATFORM_BLOCK) == 3 && Pow2(3) == 8
    ensures StateBlocks(FormatGeo(d, PLATFORM_BLOCK)) == 3
  {
    assert |d| / PLATFORM_BLOCK == 8;
    assert IsPow2(8) && Log2(8) == 3 && Pow2(4) == 16;
  }
}
