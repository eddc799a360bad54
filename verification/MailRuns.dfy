/**
 The two ends of a run over one data file: what format writes, and what is left once every mailbox
 is drained.  The bytes of a disk determine its mailboxes.
 */
module MailRuns {
  import opened Options
  import opened Arith
  import opened Bytes
  import opened Disk
  import opened State
  import opened Buddy
  import opened BuddyBlocks
  import opened Allocator
  import opened MailSpec
  import opened MailOps
  import opened MailRecv

  // ---------------------------------------------------------------------------------------
  // The bytes determine the mailboxes
  // ---------------------------------------------------------------------------------------

  lemma PutLEInjective(x: uint32, y: uint32)
    requires PutLE(x) == PutLE(y)
    ensures x == y
  {
    GetPut(x);
    GetPut(y);
  }

  lemma FrameUnique(c: Codec, d: bytes, bSize: nat, e: Entry, f: Entry)
    requires GoodCodec(c) && FrameAt(c, d, bSize, e) && FrameAt(c, d, bSize, f) && e.addr == f.addr
    ensures e == f
  {
    PutLEInjective(|c.marshal(e.msg)|, |c.marshal(f.msg)|);
    assert c.unmarshal(c.marshal(e.msg)) == Some(e.msg);
    assert c.unmarshal(c.marshal(f.msg)) == Some(f.msg);
  }

  ghost predicate ListFrames(c: Codec, d: bytes, bSize: nat, es: seq<Entry>) {
    forall i :: 0 <= i < |es| ==> FrameAt(c, d, bSize, es[i])
  }

  lemma {:induction false} ListUnique(c: Codec, d: bytes, bSize: nat, es: seq<Entry>, fs: seq<Entry>)
    requires GoodCodec(c) && Chained(es) && Chained(fs) && HeadOf(es) == HeadOf(fs)
    requires ListFrames(c, d, bSize, es) && ListFrames(c, d, bSize, fs)
    ensures es == fs
    decreases |es|
  {
    hide FrameAt;
    if es != [] {
      FrameUnique(c, d, bSize, es[0], fs[0]);
      ListUnique(c, d, bSize, es[1..], fs[1..]);
      assert es == [es[0]] + es[1..] && fs == [fs[0]] + fs[1..];
    }
  }

  /** Reading the state and walking the lists can show only one collection of mailboxes. */
  lemma HoldsUnique(c: Codec, d: bytes, g: Geo, h: nat, g': Geo, h': nat, boxes: Boxes, boxes': Boxes)
    requires GoodCodec(c) && Holds(c, d, g, h, boxes) && Holds(c, d, g', h', boxes')
    ensures boxes == boxes' && g == g' && h == h'
  {
    hide FrameAt;
    hide Represents;
    hide ParseHeader;
    Pow2Injective(h + 1, h' + 1);
    forall i | 0 <= i < |boxes|
      ensures boxes[i] == boxes'[i]
    {
      var id: BoxId := i + 1;
      assert Head(ReadState(d, g), id) == HeadOf(boxes[i]) == HeadOf(boxes'[i]);
      ListUnique(c, d, g.bSize, boxes[i], boxes'[i]);
    }
  }

  // ---------------------------------------------------------------------------------------
  // An empty disk
  // ---------------------------------------------------------------------------------------

  function NoMail(): Boxes {
    seq(MAX_BOXES, _ => [])
  }

  lemma LiveNoMail(c: Codec, g: Geo)
    requires g.bSize > 0
    ensures Live(c, g, NoMail()) == {Reserved(g)}
  {
  }

  /** Two states without undelivered messages are the same bytes. */
  lemma EmptyStateUnique(c: Codec, g: Geo, h: nat, s: bytes, t: bytes)
    requires GeoOk(g, h) && StateOk(c, g, h, s, NoMail()) && StateOk(c, g, h, t, NoMail())
    ensures s == t
  {
    hide Represents;
    CanonicalNodes(LoadNodes(s, g.nodeCnt), LoadNodes(t, g.nodeCnt), h, Live(c, g, NoMail()));
    assert forall id: BoxId :: Head(s, id) == Head(t, id);
    StateDetermined(s, t, g.nodeCnt);
  }

  /** format's loop over the list heads, after k iterations. */
  function NullHeads(s: bytes, k: nat): (r: bytes)
    requires Holding(s, 0) && k <= MAX_BOXES
    ensures |r| == |s|
  {
    if k == 0 then s else SetSlot(NullHeads(s, k - 1), HEADS + 4 * (k - 1), NULL)
  }

  lemma {:induction false} NullHeadsReads(s: bytes, k: nat)
    requires Holding(s, 0) && k <= MAX_BOXES
    ensures forall i :: 0 <= i < k ==> Slot(NullHeads(s, k), HEADS + 4 * i) == NULL
    ensures forall i :: 0 <= i < |s| && (i < HEADS || TREE <= i) ==> NullHeads(s, k)[i] == s[i]
    decreases k
  {
    if k > 0 {
      NullHeadsReads(s, k - 1);
      SetSlotReads(NullHeads(s, k - 1), HEADS + 4 * (k - 1), NULL);
    }
  }

  /** The state that format writes. */
  function FreshState(sSize: nat, nodes: seq<int32>): (r: bytes)
    requires NodeOff(|nodes|) <= sSize
    ensures |r| == sSize
  {
    StoreNodes(NullHeads(Zeros(sSize), MAX_BOXES), nodes, |nodes|)
  }

  lemma FreshStateReads(sSize: nat, nodes: seq<int32>)
    requires NodeOff(|nodes|) <= sSize
    ensures var s := FreshState(sSize, nodes);
            && LoadNodes(s, |nodes|) == nodes
            && (forall id: BoxId :: Head(s, id) == NULL)
            && (forall i :: 0 <= i < |s| && Padding(i, |nodes|) ==> s[i] == 0)
  {
    hide StoreNodes;
    hide NullHeads;
    hide GetLE;
    hide WrapUint32;
    hide WrapInt32;
    var z := Zeros(sSize);
    var m := NullHeads(z, MAX_BOXES);
    var s := FreshState(sSize, nodes);
    NullHeadsReads(z, MAX_BOXES);
    StoreNodesReads(m, nodes, |nodes|);
    forall i | 0 <= i < |nodes|
      ensures LoadNodes(s, |nodes|)[i] == nodes[i]
    {
      WrapRoundTrip(nodes[i]);
    }
    forall id: BoxId
      ensures Head(s, id) == NULL
    {
      HeadStable(s, m, id);
      assert Slot(m, HEADS + 4 * (id - 1)) == NULL;
    }
  }

  function FormatNodes(units: nat): (r: seq<int32>)
    requires 0 < units < 0x8000_0000
  {
    var zero: int32 := 0;
    InitAt(seq(Pow2(Log2(units) + 1) - 1, _ => zero), 0, units)
  }

  /** The device sizes that format accepts: a power of two blocks, below 2 GiB. */
  predicate Formattable(d: bytes, bSize: nat)
    requires bSize > 0
  {
    |d| <= MAX_INT32 && IsPow2(|d| / bSize)
  }

  function FormatGeo(d: bytes, bSize: nat): Geo
    requires bSize > 0 && Formattable(d, bSize)
  {
    var n := Pow2(Log2(|d| / bSize) + 1) - 1;
    Geo(bSize, ToBlocks(bSize, NodeOff(n)) * bSize, n)
  }

  function FormatHeight(d: bytes, bSize: nat): nat
    requires bSize > 0 && Formattable(d, bSize)
  {
    Log2(|d| / bSize)
  }

  /** The first write of format. */
  function HeaderWrite(d: bytes, bSize: uint32): Write
    requires bSize >= PLATFORM_BLOCK && Formattable(d, bSize)
  {
    Write(0, HeaderBlock(bSize, WrapUint32(|d|), WrapUint32(4 * FormatGeo(d, bSize).nodeCnt)))
  }

  /** The state that format then writes; nothing when the reservation does not fit. */
  function FormatState(d: bytes, bSize: uint32): Option<bytes>
    requires bSize >= PLATFORM_BLOCK && Formattable(d, bSize)
  {
    FormatFacts(d, bSize);
    var g := FormatGeo(d, bSize);
    var a := Alloc(FormatNodes(|d| / bSize), WrapInt32(1 + 3 * StateBlocks(g)));
    if a.None? then None else Some(FreshState(g.sSize, a.value.0))
  }

  /** The device after a successful format. */
  function Formatted(d: bytes, bSize: uint32): bytes
    requires bSize >= PLATFORM_BLOCK && Formattable(d, bSize) && FormatState(d, bSize).Some?
  {
    ApplyAll(d, [HeaderWrite(d, bSize)] + StateWrites(FormatGeo(d, bSize), FormatState(d, bSize).value))
  }

  lemma FreshNodes(units: nat, h: nat)
    requires units == Pow2(h) && h <= 29 && Log2(units) == h
    ensures units < 0x8000_0000
    ensures |FormatNodes(units)| + 1 == Pow2(h + 1)
    ensures Represents(FormatNodes(units), h, {})
  {
    hide InitAt;
    hide Pow2;
    hide Log2;
    hide Represents;
    SizeFits(h);
    var zero: int32 := 0;
    FreshRepresents(seq(Pow2(h + 1) - 1, _ => zero), h);
  }

  lemma FormatSizes(d: bytes, bSize: uint32)
    requires bSize >= PLATFORM_BLOCK && Formattable(d, bSize)
    ensures var units, g := |d| / bSize, FormatGeo(d, bSize);
            var h := Log2(units);
            && units == Pow2(h) && h <= 29 && Pow2(h) * bSize <= |d| && units <= 0x8_0000
            && g.nodeCnt + 1 == Pow2(h + 1)
            && NodeOff(g.nodeCnt) <= g.sSize
            && g.sSize == StateBlocks(g) * g.bSize && StateBlocks(g) <= 0x100_0000
  {
    hide Pow2;
    hide Log2;
    hide ToBlocks;
    var units, g := |d| / bSize, FormatGeo(d, bSize);
    IsPow2Witness(units);
    UnitsBound(d, bSize, Log2(units));
    ToBlocksCover(bSize, NodeOff(g.nodeCnt));
  }

  /** The sizes format works with. */
  lemma FormatFacts(d: bytes, bSize: uint32)
    requires bSize >= PLATFORM_BLOCK && Formattable(d, bSize)
    ensures var units, g := |d| / bSize, FormatGeo(d, bSize);
            var h := Log2(units);
            && units == Pow2(h) && h <= 29 && Pow2(h) * bSize <= |d| && units <= 0x8_0000
            && |FormatNodes(units)| == g.nodeCnt && g.nodeCnt + 1 == Pow2(h + 1)
            && Represents(FormatNodes(units), h, {})
            && Complete(FormatNodes(units)) && |FormatNodes(units)| > 0
            && NodeOff(g.nodeCnt) <= g.sSize
            && g.sSize == StateBlocks(g) * g.bSize && StateBlocks(g) <= 0x100_0000
  {
    hide Pow2;
    hide Log2;
    hide ToBlocks;
    hide Represents;
    hide FormatNodes;
    FormatSizes(d, bSize);
    var units := |d| / bSize;
    FreshNodes(units, Log2(units));
    RepresentsComplete(FormatNodes(units), Log2(units), {});
  }

  lemma UnitsBound(d: bytes, bSize: uint32, h: nat)
    requires bSize >= PLATFORM_BLOCK && |d| <= MAX_INT32 && |d| / bSize == Pow2(h)
    ensures Pow2(h) <= 0x8_0000 && h <= 29 && Pow2(h) * bSize <= |d|
    ensures ToBlocks(bSize, NodeOff(Pow2(h + 1) - 1)) <= 0x100_0000
  {
    var u := |d| / bSize;
    assert u * bSize <= |d|;
    MulMono(PLATFORM_BLOCK, bSize, u);
    assert u * bSize == bSize * u;
    if h > 29 {
      Pow2Mono(30, h);
      Pow2Bound30();
    }
    var size := NodeOff(Pow2(h + 1) - 1);
    assert size <= 0x100_0000;
    ToBlocksCover(bSize, size);
    var k := ToBlocks(bSize, size);
    MulMono(1, bSize, k - 1);
    assert (k - 1) * bSize == bSize * (k - 1);
  }

  lemma RoundExpFits(x: int, h: nat)
    requires 0 < x
    ensures RoundExp(x) <= h <==> x <= Pow2(h)
  {
    RoundExpBounds(x);
    var k := RoundExp(x);
    if k <= h { Pow2Mono(k, h); } else { Pow2Mono(h, k); }
  }

  /** The first allocation of a fresh tree succeeds when it fits, and is placed at address 0. */
  lemma FirstAlloc(nodes: seq<int32>, h: nat, x: int32)
    requires Represents(nodes, h, {}) && h <= 29 && 0 < x
    ensures Complete(nodes) && |nodes| > 0
    ensures Alloc(nodes, x).Some? <==> x <= Pow2(h)
    ensures Alloc(nodes, x).Some? ==>
              Alloc(nodes, x).value.1 == 0 && Represents(Alloc(nodes, x).value.0, h, {Block(0, Pow2(RoundExp(x)))})
  {
    hide Represents;
    hide RoundExp;
    hide Alloc;
    AllocRefines(nodes, h, {}, x);
    RoundExpFits(x, h);
    var k := RoundExp(x);
    ZeroAligned(k);
    if k <= h {
      Pow2Mono(k, h);
      assert FreeRun({}, 0, k, 0, h);
      var (b, v) := Alloc(nodes, x).value;
      assert {} + {Block(v, Pow2(k))} == {Block(0, Pow2(k))};
    } else {
      Pow2Mono(h, k);
      forall o | FreeRun({}, o, k, 0, h) ensures false {
      }
    }
  }

  /** format succeeds exactly when the reservation for HEADER and STATE fits on the device. */
  lemma FormatRoom(d: bytes, bSize: uint32)
    requires bSize >= PLATFORM_BLOCK && bSize % PLATFORM_BLOCK == 0 && Formattable(d, bSize)
    ensures FormatState(d, bSize).Some? <==> 1 + 3 * StateBlocks(FormatGeo(d, bSize)) <= Pow2(FormatHeight(d, bSize))
    ensures FormatState(d, bSize).Some? ==> GeoOk(FormatGeo(d, bSize), FormatHeight(d, bSize))
    ensures FormatState(d, bSize).Some? ==>
              forall c :: StateOk(c, FormatGeo(d, bSize), FormatHeight(d, bSize), FormatState(d, bSize).value, NoMail())
  {
    hide Represents;
    hide Alloc;
    hide FormatNodes;
    hide FreshState;
    hide Pow2;
    hide Log2;
    hide StateBlocks;
    hide RoundExp;
    FormatFacts(d, bSize);
    var g, h := FormatGeo(d, bSize), FormatHeight(d, bSize);
    var x := 1 + 3 * StateBlocks(g);
    var nodes := FormatNodes(|d| / bSize);
    WrapInt32Id(x);
    FirstAlloc(nodes, h, x);
    if Alloc(nodes, x).Some? {
      forall c
        ensures StateOk(c, g, h, FreshState(g.sSize, Alloc(nodes, x).value.0), NoMail())
      {
        FreshStateOk(c, g, h, Alloc(nodes, x).value.0);
      }
    }
  }

  /** The reservation of a device of u platform blocks, with two tree words per block but one. */
  lemma ReservationFits(u: nat)
    requires u > 0
    ensures 1 + 3 * ToBlocks(PLATFORM_BLOCK, NodeOff(2 * u - 1)) <= u <==> u >= 10
  {
    assert NodeOff(2 * u - 1) == 8192 + 8 * u - 4;
    var q := (8192 + 8 * u - 5) / PLATFORM_BLOCK;
    assert 4096 * q <= 8192 + 8 * u - 5 < 4096 * q + 4096;
  }

  lemma AtLeastSixteen(h: nat)
    ensures Pow2(h) >= 10 <==> h >= 4
    ensures h >= 4 ==> Pow2(h) >= 16
  {
    assert Pow2(3) == 8 && Pow2(4) == 16;
    if h >= 4 { Pow2Mono(4, h); } else { Pow2Mono(h, 3); }
  }

  /** The devices that format accepts: below 2 GiB, with a power of two of at least sixteen platform blocks. */
  lemma FormatIff(d: bytes)
    ensures Formattable(d, PLATFORM_BLOCK) && FormatState(d, PLATFORM_BLOCK).Some?
            <==> |d| < 0x8000_0000 && exists h: nat :: h >= 4 && |d| / 4096 == Pow2(h)
  {
    hide FormatState;
    hide Pow2;
    hide IsPow2;
    hide Log2;
    var u := |d| / 4096;
    if Formattable(d, PLATFORM_BLOCK) {
      FormatRoom(d, PLATFORM_BLOCK);
      FormatSizes(d, PLATFORM_BLOCK);
      var h := FormatHeight(d, PLATFORM_BLOCK);
      assert Pow2(h + 1) == 2 * Pow2(h) by { Pow2Double(h); }
      ReservationFits(u);
      AtLeastSixteen(h);
      forall k: nat | u == Pow2(k) ensures k == h { Pow2Injective(k, h); }
    } else if |d| < 0x8000_0000 {
      forall k: nat ensures u != Pow2(k) { Pow2IsPow2(k); }
    }
  }

  lemma Pow2Double(h: nat)
    ensures Pow2(h + 1) == 2 * Pow2(h)
  {
  }

  lemma FreshStateOk(c: Codec, g: Geo, h: nat, nodes: seq<int32>)
    requires g.bSize > 0 && |nodes| == g.nodeCnt && NodeOff(g.nodeCnt) <= g.sSize
    requires Represents(nodes, h, {Reserved(g)})
    ensures StateOk(c, g, h, FreshState(g.sSize, nodes), NoMail())
  {
    hide Represents;
    hide FreshState;
    LiveNoMail(c, g);
    FreshStateReads(g.sSize, nodes);
  }

  /** After the header write the device is accepted with the sizes format computed. */
  lemma FormatHeader(d: bytes, bSize: uint32)
    requires bSize >= PLATFORM_BLOCK && bSize % PLATFORM_BLOCK == 0 && Formattable(d, bSize)
    ensures ParseHeader(Apply(d, HeaderWrite(d, bSize))) == Some(FormatGeo(d, bSize))
  {
    hide Log2;
    hide Pow2;
    hide HeaderBlock;
    hide ParseHeader;
    hide Apply;
    hide ToBlocks;
    FormatSizes(d, bSize);
    var g, h := FormatGeo(d, bSize), FormatHeight(d, bSize);
    var w := HeaderWrite(d, bSize);
    MulMono(1, Pow2(h), bSize);
    FourNodes(g.nodeCnt, h);
    ApplySame(d, w);
    assert w.data == HeaderBlock(bSize, |d|, 4 * g.nodeCnt);
    HeaderRoundTrip(Apply(d, w), bSize, |d|, 4 * g.nodeCnt);
  }

  lemma FourNodes(n: nat, h: nat)
    requires n + 1 == Pow2(h + 1) && Pow2(h) <= 0x8_0000
    ensures IsPow2(4 * n + 4) && 4 * n < 0x1_0000_0000
  {
    assert Pow2(h + 3) == 2 * (2 * Pow2(h + 1));
    Pow2IsPow2(h + 3);
  }

  lemma StateFits(g: Geo, h: nat, len: nat)
    requires GeoOk(g, h) && Pow2(h) * g.bSize <= len
    ensures g.bSize + 3 * g.sSize <= len
  {
    hide StateBlocks;
    hide Pow2;
    var m := StateBlocks(g);
    MulMono(1 + 3 * m, Pow2(h), g.bSize);
    MulAdd(1, 3 * m, g.bSize);
    MulAdd(m, 2 * m, g.bSize);
    MulAdd(m, m, g.bSize);
  }

  /** Writing a good state on a device with a good header gives a device without mail. */
  lemma FreshHolds(c: Codec, d: bytes, g: Geo, h: nat, s: bytes)
    requires GeoOk(g, h) && ParseHeader(d) == Some(g) && Pow2(h) * g.bSize <= |d|
    requires StateOk(c, g, h, s, NoMail())
    ensures HasState(d, g)
    ensures var d' := ApplyAll(d, StateWrites(g, s));
            Holds(c, d', g, h, NoMail()) && Clean(d', g) && ReadState(d', g) == s
  {
    hide ParseHeader;
    hide StateOk;
    hide ApplyAll;
    hide ReadState;
    hide GeoOk;
    GeoBlock(g, h);
    StateFits(g, h, |d|);
    StateLengths(c, g, h, s, NoMail());
    StateWritten(d, g, s);
    HeaderStable(d, ApplyAll(d, StateWrites(g, s)), g.bSize, g.bSize + 3 * g.sSize);
  }

  lemma GeoBlock(g: Geo, h: nat)
    requires GeoOk(g, h)
    ensures g.bSize >= PLATFORM_BLOCK
  {
  }

  /** A formatted device holds 2000 empty mailboxes, with three equal state copies. */
  lemma FormatHolds(c: Codec, d: bytes, bSize: uint32)
    requires bSize >= PLATFORM_BLOCK && bSize % PLATFORM_BLOCK == 0 && Formattable(d, bSize)
    requires FormatState(d, bSize).Some?
    ensures Holds(c, Formatted(d, bSize), FormatGeo(d, bSize), FormatHeight(d, bSize), NoMail())
    ensures Clean(Formatted(d, bSize), FormatGeo(d, bSize))
    ensures ReadState(Formatted(d, bSize), FormatGeo(d, bSize)) == FormatState(d, bSize).value
  {
    hide FormatState;
    hide FormatGeo;
    hide HeaderWrite;
    hide ApplyAll;
    hide Apply;
    hide ParseHeader;
    hide StateOk;
    hide Holds;
    hide GeoOk;
    hide ReadState;
    hide Clean;
    var g, h := FormatGeo(d, bSize), FormatHeight(d, bSize);
    var s := FormatState(d, bSize).value;
    FormatUnits(d, bSize);
    FormatRoom(d, bSize);
    FormatHeader(d, bSize);
    var d1 := Apply(d, HeaderWrite(d, bSize));
    ApplyFirst(d, HeaderWrite(d, bSize), StateWrites(g, s));
    FreshHolds(c, d1, g, h, s);
  }

  lemma FormatUnits(d: bytes, bSize: uint32)
    requires bSize >= PLATFORM_BLOCK && Formattable(d, bSize)
    ensures FormatGeo(d, bSize).bSize == bSize && Pow2(FormatHeight(d, bSize)) * bSize <= |d|
  {
    FormatFacts(d, bSize);
  }

  /**
   On a device too small for the reservation, format fails, but only after the header was written:
   the next reader accepts the header of a device whose state was never initialised.
   */
  lemma FormatTooSmall(d: bytes, bSize: uint32)
    requires bSize >= PLATFORM_BLOCK && bSize % PLATFORM_BLOCK == 0 && Formattable(d, bSize)
    requires Pow2(FormatHeight(d, bSize)) < 1 + 3 * StateBlocks(FormatGeo(d, bSize))
    ensures FormatState(d, bSize).None?
    ensures ParseHeader(Apply(d, HeaderWrite(d, bSize))).Some?
  {
    hide *;
    FormatRoom(d, bSize);
    FormatHeader(d, bSize);
  }

  /** Draining every mailbox leaves STATE byte for byte as format wrote it. */
  lemma DrainedIsFresh(c: Codec, d: bytes, g: Geo, h: nat, d0: bytes, bSize: uint32)
    requires bSize >= PLATFORM_BLOCK && bSize % PLATFORM_BLOCK == 0 && Formattable(d0, bSize)
    requires FormatState(d0, bSize).Some?
    requires g == FormatGeo(d0, bSize) && h == FormatHeight(d0, bSize)
    requires Holds(c, d, g, h, NoMail())
    ensures ReadState(d, g) == FormatState(d0, bSize).value
  {
    hide FormatState;
    hide FormatGeo;
    hide StateOk;
    hide ReadState;
    hide ParseHeader;
    FormatRoom(d0, bSize);
    EmptyStateUnique(c, g, h, ReadState(d, g), FormatState(d0, bSize).value);
  }
}
