/**
 What a data file means: for every mailbox a list of messages, stored as linked frames in
 allocated blocks.  `Holds` is the relation between the bytes and that meaning.
 */
module MailSpec {
  import opened Options
  import opened Arith
  import opened Bytes
  import opened Disk
  import opened State
  import opened BuddyBlocks
  import opened Allocator

  /** A block address as stored in list heads and next pointers. */
  type Addr = x: int | 0 <= x < 0x8000_0000

  /** pb.MailBoxMessage. */
  datatype Msg = Msg(next: uint32, sender: uint32, length: uint32, payload: bytes)

  /** proto.Marshal and proto.Unmarshal, of which only the round trip is known. */
  datatype Codec = Codec(marshal: Msg -> bytes, unmarshal: bytes -> Option<Msg>)

  ghost predicate GoodCodec(c: Codec) {
    forall m :: c.unmarshal(c.marshal(m)) == Some(m)
  }

  /** An undelivered message and the address of its block. */
  datatype Entry = Entry(addr: Addr, msg: Msg)

  /** The mailboxes; box id is at index id - 1, newest message first. */
  type Boxes = seq<seq<Entry>>

  function HeadOf(es: seq<Entry>): uint32 {
    if es == [] then NULL else es[0].addr
  }

  predicate Chained(es: seq<Entry>)
    decreases |es|
  {
    es == [] || (es[0].msg.next == HeadOf(es[1..]) && Chained(es[1..]))
  }

  function FrameBlocks(c: Codec, bSize: nat, m: Msg): nat
    requires bSize > 0
  {
    ToBlocks(bSize, 4 + |c.marshal(m)|)
  }

  /** The allocated block that holds an entry. */
  function BlockOf(c: Codec, bSize: nat, e: Entry): Block
    requires bSize > 0
  {
    Block(e.addr, Pow2(RoundExp(FrameBlocks(c, bSize, e.msg))))
  }

  function StateBlocks(g: Geo): nat
    requires g.bSize > 0
  {
    ToBlocks(g.bSize, NodeOff(g.nodeCnt))
  }

  /** The block at address 0 that covers HEADER and STATE. */
  function Reserved(g: Geo): Block
    requires g.bSize > 0
  {
    Block(0, Pow2(RoundExp(1 + 3 * StateBlocks(g))))
  }

  function BoxBlocks(c: Codec, bSize: nat, es: seq<Entry>): set<Block>
    requires bSize > 0
  {
    set i | 0 <= i < |es| :: BlockOf(c, bSize, es[i])
  }

  /** The blocks that must be allocated: the reservation and one per undelivered message. */
  function Live(c: Codec, g: Geo, boxes: Boxes): set<Block>
    requires g.bSize > 0
  {
    {Reserved(g)} + set id, i | 0 <= id < |boxes| && 0 <= i < |boxes[id]| :: BlockOf(c, g.bSize, boxes[id][i])
  }

  /** No block is reached twice, and none is the reservation. */
  ghost predicate Distinct(boxes: Boxes) {
    && (forall id, i :: 0 <= id < |boxes| && 0 <= i < |boxes[id]| ==> boxes[id][i].addr > 0)
    && (forall id, i, id', i' ::
          0 <= id < |boxes| && 0 <= i < |boxes[id]| && 0 <= id' < |boxes| && 0 <= i' < |boxes[id']| && (id != id' || i != i')
          ==> boxes[id][i].addr != boxes[id'][i'].addr)
  }

  /** A device of 2^h blocks with the sizes that format computes. */
  ghost predicate GeoOk(g: Geo, h: nat) {
    && g.bSize > 0 && g.bSize % PLATFORM_BLOCK == 0 && h <= 29
    && g.nodeCnt + 1 == Pow2(h + 1)
    && g.sSize == StateBlocks(g) * g.bSize
    && 1 + 3 * StateBlocks(g) <= Pow2(h)
  }

  /** The STATE bytes s describe the mailboxes: heads, allocator tree, and nothing else. */
  ghost predicate StateOk(c: Codec, g: Geo, h: nat, s: bytes, boxes: Boxes)
    requires g.bSize > 0
  {
    && |boxes| == MAX_BOXES
    && |s| == g.sSize
    && Holding(s, g.nodeCnt)
    && (forall id: BoxId :: Head(s, id) == HeadOf(boxes[id - 1]))
    && Represents(LoadNodes(s, g.nodeCnt), h, Live(c, g, boxes))
    && (forall id :: 0 <= id < |boxes| ==> Chained(boxes[id]))
    && Distinct(boxes)
    && (forall i :: 0 <= i < |s| && Padding(i, g.nodeCnt) ==> s[i] == 0)
  }

  /** The frame of entry e is on the disk, at the start of its block. */
  predicate FrameAt(c: Codec, d: bytes, bSize: nat, e: Entry) {
    var buf, off := c.marshal(e.msg), e.addr * bSize;
    && |buf| < 0x8000_0000
    && off + 4 + |buf| <= |d|
    && d[off..off + 4] == PutLE(|buf|)
    && d[off + 4..off + 4 + |buf|] == buf
  }

  ghost predicate Frames(c: Codec, d: bytes, bSize: nat, boxes: Boxes) {
    forall id, i :: 0 <= id < |boxes| && 0 <= i < |boxes[id]| ==> FrameAt(c, d, bSize, boxes[id][i])
  }

  /** The disk d stores exactly the mailboxes `boxes`. */
  ghost predicate Holds(c: Codec, d: bytes, g: Geo, h: nat, boxes: Boxes) {
    && ParseHeader(d) == Some(g)
    && GeoOk(g, h)
    && Pow2(h) * g.bSize <= |d|
    && HasState(d, g)
    && StateOk(c, g, h, ReadState(d, g), boxes)
    && Frames(c, d, g.bSize, boxes)
  }

  function Push(boxes: Boxes, id: BoxId, e: Entry): Boxes
    requires |boxes| == MAX_BOXES
  {
    boxes[id - 1 := [e] + boxes[id - 1]]
  }

  function Clear(boxes: Boxes, id: BoxId): Boxes
    requires |boxes| == MAX_BOXES
  {
    boxes[id - 1 := []]
  }

  // ---------------------------------------------------------------------------------------
  // Blocks and byte ranges
  // ---------------------------------------------------------------------------------------

  lemma MulMono(a: int, b: int, p: int)
    requires p >= 0 && a <= b
    ensures a * p <= b * p
  {
  }

  lemma MulAdd(a: int, b: int, p: int)
    ensures (a + b) * p == a * p + b * p
  {
  }

  /** A frame fits in its block. */
  lemma FrameInBlock(c: Codec, bSize: nat, e: Entry)
    requires bSize > 0
    ensures BlockOf(c, bSize, e).size >= FrameBlocks(c, bSize, e.msg) >= 1
    ensures e.addr * bSize + 4 + |c.marshal(e.msg)| <= (e.addr + BlockOf(c, bSize, e).size) * bSize
  {
    hide ToBlocks;
    hide Pow2;
    hide RoundExp;
    var n, k := FrameBlocks(c, bSize, e.msg), BlockOf(c, bSize, e).size;
    ToBlocksCover(bSize, 4 + |c.marshal(e.msg)|);
    RoundExpBounds(n);
    MulMono(n, k, bSize);
    MulAdd(e.addr, k, bSize);
  }

  /** HEADER and STATE lie in the reservation. */
  lemma StateInReserved(g: Geo)
    requires g.bSize > 0 && g.sSize == StateBlocks(g) * g.bSize
    ensures g.bSize + 3 * g.sSize <= Reserved(g).size * g.bSize
    ensures NodeOff(g.nodeCnt) <= g.sSize
  {
    hide ToBlocks;
    hide Pow2;
    hide RoundExp;
    var m := StateBlocks(g);
    RoundExpBounds(1 + 3 * m);
    MulMono(1 + 3 * m, Reserved(g).size, g.bSize);
    MulAdd(1, 3 * m, g.bSize);
    MulAdd(m, 2 * m, g.bSize);
    MulAdd(m, m, g.bSize);
    ToBlocksCover(g.bSize, NodeOff(g.nodeCnt));
  }

  lemma ApartBytes(b: Block, c: Block, p: nat)
    requires Apart(b, c)
    ensures (b.addr + b.size) * p <= c.addr * p || (c.addr + c.size) * p <= b.addr * p
  {
    if b.addr + b.size <= c.addr {
      MulMono(b.addr + b.size, c.addr, p);
    } else {
      MulMono(c.addr + c.size, b.addr, p);
    }
  }

  lemma FrameStable(c: Codec, d: bytes, d': bytes, lo: int, hi: int, bSize: nat, e: Entry)
    requires bSize > 0 && SameOutside(d, d', lo, hi) && FrameAt(c, d, bSize, e)
    requires (e.addr + BlockOf(c, bSize, e).size) * bSize <= lo || hi <= e.addr * bSize
    ensures FrameAt(c, d', bSize, e)
  {
    FrameInBlock(c, bSize, e);
    var buf, off := c.marshal(e.msg), e.addr * bSize;
    SameRange(d, d', lo, hi, off, off + 4);
    SameRange(d, d', lo, hi, off + 4, off + 4 + |buf|);
  }

  lemma LiveMember(c: Codec, g: Geo, boxes: Boxes, id: int, i: int)
    requires g.bSize > 0 && 0 <= id < |boxes| && 0 <= i < |boxes[id]|
    ensures BlockOf(c, g.bSize, boxes[id][i]) in Live(c, g, boxes)
  {
  }

  /** Undelivered messages lie behind HEADER and STATE. */
  lemma EntryBehindState(c: Codec, g: Geo, h: nat, s: bytes, boxes: Boxes, id: int, i: int)
    requires GeoOk(g, h) && StateOk(c, g, h, s, boxes)
    requires 0 <= id < |boxes| && 0 <= i < |boxes[id]|
    ensures g.bSize + 3 * g.sSize <= boxes[id][i].addr * g.bSize
  {
    var S := Live(c, g, boxes);
    var e := boxes[id][i];
    var b := BlockOf(c, g.bSize, e);
    LiveBlocks(LoadNodes(s, g.nodeCnt), h, S);
    LiveMember(c, g, boxes, id, i);
    assert e.addr > 0;
    assert Apart(Reserved(g), b);
    StateInReserved(g);
    MulMono(Reserved(g).size, e.addr, g.bSize);
  }

  /** Rewriting STATE, or anything inside it, touches no message. */
  lemma FramesSurviveState(c: Codec, d: bytes, d': bytes, g: Geo, h: nat, s: bytes, boxes: Boxes)
    requires GeoOk(g, h) && StateOk(c, g, h, s, boxes) && Frames(c, d, g.bSize, boxes)
    requires SameOutside(d, d', g.bSize, g.bSize + 3 * g.sSize)
    ensures Frames(c, d', g.bSize, boxes)
  {
    forall id, i | 0 <= id < |boxes| && 0 <= i < |boxes[id]|
      ensures FrameAt(c, d', g.bSize, boxes[id][i])
    {
      EntryBehindState(c, g, h, s, boxes, id, i);
      FrameStable(c, d, d', g.bSize, g.bSize + 3 * g.sSize, g.bSize, boxes[id][i]);
    }
  }

  lemma FramesSurviveFreeWrite(c: Codec, d: bytes, d': bytes, g: Geo, boxes: Boxes, b: Block)
    requires g.bSize > 0 && Frames(c, d, g.bSize, boxes)
    requires forall x :: x in Live(c, g, boxes) ==> Apart(x, b)
    requires SameOutside(d, d', b.addr * g.bSize, (b.addr + b.size) * g.bSize)
    ensures Frames(c, d', g.bSize, boxes)
  {
    hide FrameAt;
    hide BlockOf;
    forall id, i | 0 <= id < |boxes| && 0 <= i < |boxes[id]|
      ensures FrameAt(c, d', g.bSize, boxes[id][i])
    {
      LiveMember(c, g, boxes, id, i);
      var x := BlockOf(c, g.bSize, boxes[id][i]);
      assert Apart(x, b);
      ApartBytes(x, b, g.bSize);
      BlockStart(c, g.bSize, boxes[id][i]);
      FrameStable(c, d, d', b.addr * g.bSize, (b.addr + b.size) * g.bSize, g.bSize, boxes[id][i]);
    }
  }

  lemma BlockStart(c: Codec, bSize: nat, e: Entry)
    requires bSize > 0
    ensures BlockOf(c, bSize, e).addr == e.addr
  {
  }

  lemma StateSurvives(d: bytes, d': bytes, g: Geo, lo: int, hi: int)
    requires HasState(d, g) && SameOutside(d, d', lo, hi) && g.bSize + 3 * g.sSize <= lo && PLATFORM_BLOCK <= lo
    ensures ParseHeader(d') == ParseHeader(d) && HasState(d', g)
    ensures Copy0(d', g) == Copy0(d, g) && Copy1(d', g) == Copy1(d, g) && Copy2(d', g) == Copy2(d, g)
    ensures ReadState(d', g) == ReadState(d, g)
  {
    HeaderStable(d, d', lo, hi);
    SameRange(d, d', lo, hi, g.bSize, g.bSize + g.sSize);
    SameRange(d, d', lo, hi, g.bSize + g.sSize, g.bSize + 2 * g.sSize);
    SameRange(d, d', lo, hi, g.bSize + 2 * g.sSize, g.bSize + 3 * g.sSize);
  }

  lemma FreeBlockBehindState(c: Codec, g: Geo, boxes: Boxes, b: Block)
    requires g.bSize > 0 && g.bSize % PLATFORM_BLOCK == 0 && g.sSize == StateBlocks(g) * g.bSize
    requires b.addr >= 0 && b.size >= 1
    requires forall x :: x in Live(c, g, boxes) ==> Apart(x, b)
    ensures g.bSize + 3 * g.sSize <= b.addr * g.bSize && PLATFORM_BLOCK <= b.addr * g.bSize
    ensures b.addr > 0
  {
    hide Pow2;
    hide RoundExp;
    hide StateBlocks;
    StateInReserved(g);
    assert Apart(Reserved(g), b);
    MulMono(Reserved(g).size, b.addr, g.bSize);
  }

  /** Writing inside a block apart from every allocated one touches no message, HEADER or STATE. */
  lemma SurvivesFreeWrite(c: Codec, d: bytes, d': bytes, g: Geo, h: nat, boxes: Boxes, b: Block)
    requires Holds(c, d, g, h, boxes)
    requires b.addr >= 0 && b.size >= 1
    requires forall x :: x in Live(c, g, boxes) ==> Apart(x, b)
    requires SameOutside(d, d', b.addr * g.bSize, (b.addr + b.size) * g.bSize)
    ensures Holds(c, d', g, h, boxes)
    ensures Copy0(d', g) == Copy0(d, g) && Copy1(d', g) == Copy1(d, g) && Copy2(d', g) == Copy2(d, g)
  {
    hide Frames;
    hide StateOk;
    hide Live;
    hide ParseHeader;
    FreeBlockBehindState(c, g, boxes, b);
    StateSurvives(d, d', g, b.addr * g.bSize, (b.addr + b.size) * g.bSize);
    FramesSurviveFreeWrite(c, d, d', g, boxes, b);
  }

  // ---------------------------------------------------------------------------------------
  // What the two operations do to a state
  // ---------------------------------------------------------------------------------------

  lemma LivePush(c: Codec, g: Geo, boxes: Boxes, id: BoxId, e: Entry)
    requires g.bSize > 0 && |boxes| == MAX_BOXES
    ensures Live(c, g, Push(boxes, id, e)) == Live(c, g, boxes) + {BlockOf(c, g.bSize, e)}
  {
    var after: Boxes := Push(boxes, id, e);
    var k := id - 1;
    forall b | b in Live(c, g, boxes) + {BlockOf(c, g.bSize, e)}
      ensures b in Live(c, g, after)
    {
      if b == BlockOf(c, g.bSize, e) {
        LiveMember(c, g, after, k, 0);
      } else if b != Reserved(g) {
        var j, i :| 0 <= j < |boxes| && 0 <= i < |boxes[j]| && b == BlockOf(c, g.bSize, boxes[j][i]);
        LiveMember(c, g, after, j, if j == k then i + 1 else i);
      }
    }
    forall b | b in Live(c, g, after)
      ensures b in Live(c, g, boxes) + {BlockOf(c, g.bSize, e)}
    {
      if b != Reserved(g) {
        var j, i :| 0 <= j < |after| && 0 <= i < |after[j]| && b == BlockOf(c, g.bSize, after[j][i]);
        if j != k || i > 0 { LiveMember(c, g, boxes, j, if j == k then i - 1 else i); }
      }
    }
  }

  lemma LiveClear(c: Codec, g: Geo, boxes: Boxes, id: BoxId)
    requires g.bSize > 0 && |boxes| == MAX_BOXES && Distinct(boxes)
    ensures Live(c, g, Clear(boxes, id)) == Live(c, g, boxes) - BoxBlocks(c, g.bSize, boxes[id - 1])
    ensures BoxBlocks(c, g.bSize, boxes[id - 1]) <= Live(c, g, boxes)
  {
    var after: Boxes := Clear(boxes, id);
    var k := id - 1;
    var gone := BoxBlocks(c, g.bSize, boxes[k]);
    forall b | b in Live(c, g, boxes) - gone
      ensures b in Live(c, g, after)
    {
      if b != Reserved(g) {
        var j, i :| 0 <= j < |boxes| && 0 <= i < |boxes[j]| && b == BlockOf(c, g.bSize, boxes[j][i]);
        LiveMember(c, g, after, j, i);
      }
    }
    forall b | b in Live(c, g, after)
      ensures b in Live(c, g, boxes) - gone
    {
      if b != Reserved(g) {
        var j, i :| 0 <= j < |after| && 0 <= i < |after[j]| && b == BlockOf(c, g.bSize, after[j][i]);
        LiveMember(c, g, boxes, j, i);
      }
    }
  }

  lemma DistinctPush(boxes: Boxes, id: BoxId, e: Entry)
    requires |boxes| == MAX_BOXES && Distinct(boxes) && e.addr > 0
    requires forall j, i :: 0 <= j < |boxes| && 0 <= i < |boxes[j]| ==> boxes[j][i].addr != e.addr
    ensures Distinct(Push(boxes, id, e))
  {
    var after: Boxes := Push(boxes, id, e);
    var k := id - 1;
    forall j: int, i: int, j': int, i': int | 0 <= j < |after| && 0 <= i < |after[j]| && 0 <= j' < |after| && 0 <= i' < |after[j']| && (j != j' || i != i')
      ensures after[j][i].addr != after[j'][i'].addr
    {
      var p := if j == k then i - 1 else i;
      var p' := if j' == k then i' - 1 else i';
      assert p >= 0 ==> after[j][i] == boxes[j][p];
      assert p' >= 0 ==> after[j'][i'] == boxes[j'][p'];
    }
  }

  lemma DistinctClear(boxes: Boxes, id: BoxId)
    requires |boxes| == MAX_BOXES && Distinct(boxes)
    ensures Distinct(Clear(boxes, id))
  {
  }

  lemma ChainedPush(es: seq<Entry>, e: Entry)
    requires Chained(es) && e.msg.next == HeadOf(es)
    ensures Chained([e] + es)
  {
    assert ([e] + es)[1..] == es;
  }
}
