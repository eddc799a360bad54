/** The mailbox object of pkg/diskrpc/mailbox.go and the device it works on. */
module MailBoxes {
  import opened Options
  import opened Arith
  import opened Bytes
  import opened Disk
  import opened State
  import opened Buddy
  import opened BuddyBlocks
  import opened Allocator
  import opened MailSpec
  import opened MailOps
  import opened MailRecv
  import opened MailRuns
  import opened MailHistory

  /**
   The data file.  Any read may fail; a failed write leaves arbitrary bytes where it was going.  `faults`
   counts the failures that are not due to the end of the device.
   */
  class Device {
    var data: bytes
    ghost var faults: nat

    constructor (bs: bytes)
      ensures data == bs && faults == 0
    {
      data, faults := bs, 0;
    }

    method ReadFull(off: nat, len: nat) returns (r: Option<bytes>)
      modifies this`faults
      ensures faults == old(faults) ==> r == if off + len <= |data| then Some(data[off..off + len]) else None
      ensures faults != old(faults) ==> faults == old(faults) + 1 && r.None?
    {
      var fail: bool := *;
      if fail {
        faults := faults + 1;
        return None;
      }
      if off + len > |data| {
        return None;
      }
      r := Some(data[off..off + len]);
    }

    method WriteAt(w: Write) returns (ok: bool)
      modifies this
      ensures ok ==> data == Apply(old(data), w) && Fits(old(data), w)
      ensures !ok ==> Torn(old(data), w, data)
      ensures faults == old(faults) ==> ok == Fits(old(data), w)
      ensures faults != old(faults) ==> faults == old(faults) + 1 && !ok
    {
      var fail: bool := *;
      if Fits(data, w) {
        if fail {
          faults := faults + 1;
          var junk: bytes := *;
          if |junk| == |w.data| {
            data := Apply(data, Write(w.off, junk));
          }
          return false;
        }
        data := Apply(data, w);
        return true;
      }
      return false;
    }

    /** writeState: the three copies, in order, stopping at the first failure. */
    method WriteState(g: Geo, s: bytes) returns (ok: bool)
      requires HasState(data, g) && |s| == g.sSize
      modifies this
      ensures ok ==> data == ApplyAll(old(data), StateWrites(g, s))
      ensures !ok ==> Interrupted(old(data), StateWrites(g, s), data)
      ensures old(faults) <= faults && (ok <==> faults == old(faults))
    {
      ghost var d0 := data;
      var ws := StateWrites(g, s);
      ThreeWrites(d0, ws[0], ws[1], ws[2]);
      var i := 0;
      while i < 3
        invariant 0 <= i <= 3 && |data| == |d0| && faults == old(faults)
        invariant i == 0 ==> data == d0
        invariant i == 1 ==> data == Apply(d0, ws[0])
        invariant i == 2 ==> data == Apply(Apply(d0, ws[0]), ws[1])
        invariant i == 3 ==> data == Apply(Apply(Apply(d0, ws[0]), ws[1]), ws[2])
      {
        hide Apply;
        hide Torn;
        ok := WriteAt(ws[i]);
        if !ok {
          return false;
        }
        i := i + 1;
      }
      ok := true;
    }
  }

  /** A device that was never formatted: the magic bytes are all zero. */
  predicate Blank(d: bytes) {
    |d| >= PLATFORM_BLOCK && d[..16] == Zeros(16)
  }

  class MailBox {
    const localID: BoxId
    const dev: Device
    const codec: Codec

    constructor (localID: BoxId, dev: Device, codec: Codec)
      ensures this.localID == localID && this.dev == dev && this.codec == codec
    {
      this.localID, this.dev, this.codec := localID, dev, codec;
    }

    /** format with the platform block size. */
    method Format() returns (ok: bool)
      modifies dev
      ensures FormatOutcome(old(dev.data), ok, dev.data)
      ensures old(dev.faults) <= dev.faults
      ensures dev.faults == old(dev.faults) ==> ok == CanFormat(old(dev.data))
    {
      hide FormatState;
      hide HeaderWrite;
      hide FormatGeo;
      hide Apply;
      hide ApplyAll;
      hide Interrupted;
      var d := dev.data;
      var bSize: uint32 := PLATFORM_BLOCK;
      if !Formattable(d, bSize) {
        return false;
      }
      var header := HeaderWrite(d, bSize);
      var state := FormatState(d, bSize);
      HeaderFits(d);
      if state.Some? {
        FormatFits(d);
        ApplyFirst(d, header, StateWrites(FormatGeo(d, bSize), state.value));
      }
      ApplySame(d, header);
      ok := dev.WriteAt(header);
      if !ok {
        return false;
      }
      if state.None? {
        return false;
      }
      ok := dev.WriteState(FormatGeo(d, bSize), state.value);
    }

    /** readHeader: the sizes of a formatted device; a blank one is formatted first. */
    method ReadHeader() returns (r: Option<Geo>)
      modifies dev
      ensures r.Some? ==> Opened(old(dev.data), dev.data) && r == ParseHeader(dev.data)
      ensures r.None? ==> NotOpened(old(dev.data), dev.data)
      ensures old(dev.faults) <= dev.faults
      ensures dev.faults == old(dev.faults) && r.None? ==>
                if Blank(old(dev.data)) then !CanFormat(old(dev.data)) else ParseHeader(old(dev.data)).None?
    {
      NothingFormatted(dev.data);
      hide FormatOutcome;
      hide ParseHeader;
      hide Zeros;
      hide CanFormat;
      var i := 0;
      while i < 2
        invariant 0 <= i <= 2 && old(dev.faults) <= dev.faults
        invariant i == 0 ==> dev.data == old(dev.data) && dev.faults == old(dev.faults)
        invariant i > 0 ==> Blank(old(dev.data)) && FormatOutcome(old(dev.data), true, dev.data)
      {
        HeaderStarts(dev.data);
        if i > 0 { FormattedHeader(codec, old(dev.data), dev.data); }
        var block := dev.ReadFull(0, PLATFORM_BLOCK);
        if block.None? {
          return None;
        }
        var header := block.value[..16];
        assert header == dev.data[..16];
        if header == MAGIC {
          break;
        }
        if i != 0 || header != Zeros(16) {
          return None;
        }
        var ok := Format();
        if !ok {
          return None;
        }
        i := i + 1;
      }
      MagicIsNotZero();
      r := ParseHeader(dev.data);
      if i > 0 { FormattedHeader(codec, old(dev.data), dev.data); }
    }

    /** readState, and the allocator tree deserialised from it. */
    method Load(g: Geo) returns (s: Option<bytes>, state: array<byte>, alloc: array<int32>)
      requires NodeOff(g.nodeCnt) <= g.sSize && g.nodeCnt + 1 < 0x8000_0000 && IsPow2(g.nodeCnt + 1)
      modifies dev`faults
      ensures fresh(state) && fresh(alloc)
      ensures s.Some? ==> HasState(dev.data, g) && s.value == ReadState(dev.data, g) == state[..]
      ensures s.Some? ==> alloc[..] == LoadNodes(s.value, g.nodeCnt)
      ensures old(dev.faults) <= dev.faults && (s.Some? ==> dev.faults == old(dev.faults))
      ensures s.None? && dev.faults == old(dev.faults) ==> !HasState(dev.data, g)
    {
      hide InitAt;
      hide LoadNodes;
      hide IsPow2;
      state, alloc := new byte[0], new int32[0];
      Odd31(g.nodeCnt);
      var state3 := dev.ReadFull(g.bSize, 3 * g.sSize);
      if state3.None? {
        return None, state, alloc;
      }
      CopiesOf(dev.data, g, state3.value);
      var t := if state3.value[..g.sSize] == state3.value[g.sSize..2 * g.sSize]
               then state3.value[..g.sSize] else state3.value[2 * g.sSize..];
      state := new byte[|t|](i requires 0 <= i < |t| => t[i]);
      assert state[..] == t;
      var nodes := NewByNodeCnt(g.nodeCnt);
      alloc := nodes;
      AllocatorFromState(alloc, state);
      s := Some(t);
    }

    /** Send: the message is written to free space first, then the state. */
    method Send(recipient: nat, payload: bytes) returns (ok: bool)
      requires recipient <= MAX_BOXES
      modifies dev
      ensures old(dev.faults) <= dev.faults
      ensures || (!ok && NotOpened(old(dev.data), dev.data))
              || exists d :: Opened(old(dev.data), d)
                   && SendOutcome(codec, d, localID, Recipient(localID, recipient), payload, ok, dev.data)
      ensures dev.faults == old(dev.faults) ==> (ok <==> CanSend(codec, old(dev.data), localID, Recipient(localID, recipient), payload))
      ensures Marshals(codec, localID, payload) ==>
                Sent(codec, old(dev.data), localID, recipient, payload, dev.faults == old(dev.faults), ok, dev.data)
    {
      hide Sent;
      ghost var d0 := dev.data;
      ok := SendBody(recipient, payload);
      if Marshals(codec, localID, payload) {
        SentAnyway(codec, d0, localID, recipient, payload, dev.faults == old(dev.faults), ok, dev.data);
      }
    }

    method SendBody(recipient: nat, payload: bytes) returns (ok: bool)
      requires recipient <= MAX_BOXES
      modifies dev
      ensures old(dev.faults) <= dev.faults
      ensures || (!ok && NotOpened(old(dev.data), dev.data))
              || exists d :: Opened(old(dev.data), d)
                   && SendOutcome(codec, d, localID, Recipient(localID, recipient), payload, ok, dev.data)
      ensures dev.faults == old(dev.faults) ==> (ok <==> CanSend(codec, old(dev.data), localID, Recipient(localID, recipient), payload))
    {
      hide Opened;
      hide NotOpened;
      hide Apply;
      hide ApplyAll;
      hide Interrupted;
      hide ParseHeader;
      hide Frame;
      hide Alloc;
      hide LoadNodes;
      hide ReadState;
      hide PlanSend;
      hide StoreNodes;
      hide ToBlocks;
      hide IsPow2;
      hide CanFormat;
      var id := Recipient(localID, recipient);
      ghost var d0 := dev.data;
      var geo := ReadHeader();
      if geo.None? {
        if dev.faults == old(dev.faults) { NotSendable(codec, d0, localID, id, payload); }
        return false;
      }
      var g, d := geo.value, dev.data;
      ParsedGeo(d);
      OpenedOnce(d0, d);
      NoPlan(codec, d, g, localID, id, payload);
      var s, state, alloc := Load(g);
      if s.None? {
        return false;
      }
      // Alloc panics on a tree without nodes; nothing is written either.
      if g.nodeCnt == 0 {
        return false;
      }
      var buf := codec.marshal(NewMsg(Head(s.value, id), localID, payload));
      var pBlocks := WrapInt32(ToBlocks(g.bSize, 4 + |buf|));
      var addr, done := AllocBlock(alloc, pBlocks);
      if !done || addr < 0 {
        return false;
      }
      ghost var p := SendPlan(addr, DataWrite(addr, g.bSize, buf), Rewrite(s.value, alloc[..], id, addr));
      PlanSendIs(codec, d, g, localID, id, payload, p, alloc[..]);
      ok := Commit(g, DataWrite(addr, g.bSize, buf), alloc, state, id, addr);
    }

    /** The writes of Send: the frame, then the state with the new tree and the new head. */
    method Commit(g: Geo, data: Write, alloc: array<int32>, state: array<byte>, id: BoxId, addr: Addr) returns (ok: bool)
      requires Holding(state[..], alloc.Length) && state.Length == g.sSize && HasState(dev.data, g)
      modifies dev, state
      ensures var ws := [data] + StateWrites(g, Rewrite(old(state[..]), alloc[..], id, addr));
              if ok then dev.data == ApplyAll(old(dev.data), ws) else Interrupted(old(dev.data), ws, dev.data)
      ensures old(dev.faults) <= dev.faults
      ensures ok <==> dev.faults == old(dev.faults) && Fits(old(dev.data), data)
    {
      hide Apply;
      hide ApplyAll;
      hide Interrupted;
      hide StoreNodes;
      hide StateWrites;
      hide Torn;
      hide SetSlot;
      hide Fits;
      ApplyFirst(dev.data, data, StateWrites(g, Rewrite(state[..], alloc[..], id, addr)));
      ok := dev.WriteAt(data);
      if !ok {
        return false;
      }
      AllocatorToState(alloc, state);
      PutUint32(state, HeadOff(id), WrapUint32(addr));
      assert state[..] == Rewrite(old(state[..]), alloc[..], id, addr);
      ok := dev.WriteState(g, state[..]);
    }

    /**
     Recv: drain the local list.  `pre` is what the unlocked pre-read showed as its head, or nothing
     when that read failed.
     */
    method Recv(pre: Option<int32>) returns (ok: bool, msgs: seq<Delivery>)
      requires Drainable(dev.data)
      modifies dev
      ensures pre.None? ==> !ok && msgs == [] && dev.data == old(dev.data)
      ensures pre.Some? && pre.value < 0 ==> ok && msgs == [] && dev.data == old(dev.data)
      ensures pre.Some? && pre.value >= 0 ==>
                || (!ok && msgs == [] && NotOpened(old(dev.data), dev.data))
                || exists d :: Opened(old(dev.data), d) && Drainable(d)
                     && RecvOutcome(codec, d, localID, ok, msgs, dev.data)
      ensures old(dev.faults) <= dev.faults
      ensures pre.Some? && pre.value >= 0 && dev.faults == old(dev.faults) ==> (ok <==> CanRecv(codec, old(dev.data), localID))
      ensures pre.Some? && pre.value >= 0 && GoodCodec(codec) ==>
                Emptied(codec, old(dev.data), localID, dev.faults == old(dev.faults), ok, msgs, dev.data)
    {
      hide Emptied;
      hide Drainable;
      if pre.None? {
        return false, [];
      }
      if pre.value < 0 {
        return true, [];
      }
      ghost var d0 := dev.data;
      ok, msgs := RecvBody();
      if GoodCodec(codec) {
        EmptiedAnyway(codec, d0, localID, dev.faults == old(dev.faults), ok, msgs, dev.data);
      }
    }

    /** The part of Recv under the lock. */
    method RecvBody() returns (ok: bool, msgs: seq<Delivery>)
      requires Drainable(dev.data)
      modifies dev
      ensures || (!ok && msgs == [] && NotOpened(old(dev.data), dev.data))
              || exists d :: Opened(old(dev.data), d) && Drainable(d) && RecvOutcome(codec, d, localID, ok, msgs, dev.data)
      ensures old(dev.faults) <= dev.faults
      ensures dev.faults == old(dev.faults) ==> (ok <==> CanRecv(codec, old(dev.data), localID))
    {
      hide Opened;
      hide NotOpened;
      hide Drainable;
      hide ApplyAll;
      hide Interrupted;
      hide ParseHeader;
      hide LoadNodes;
      hide ReadState;
      hide StoreNodes;
      hide Drain;
      hide NoLeast;
      hide IsPow2;
      hide CanFormat;
      ghost var d0 := dev.data;
      var geo := ReadHeader();
      if geo.None? {
        if dev.faults == old(dev.faults) { NotReceivable(codec, d0, localID); }
        return false, [];
      }
      var g, d := geo.value, dev.data;
      OpenedGood(codec, d0, d);
      OpenedOnce(d0, d);
      ParsedGeo(d);
      var s, state, alloc := Load(g);
      if s.None? {
        return false, [];
      }
      var addr := WrapInt32(Head(s.value, localID));
      DrainableNodes(d, g);
      ok, msgs := DrainList(g, alloc, addr);
      if !ok {
        return false, [];
      }
      AllocatorToState(alloc, state);
      PutUint32(state, HeadOff(localID), NULL);
      ok := dev.WriteState(g, state[..]);
      if !ok {
        msgs := [];
      }
    }

    method ReadFrame(g: Geo, addr: Addr) returns (r: Option<bytes>)
      requires g.bSize >= 4
      modifies dev`faults
      ensures old(dev.faults) <= dev.faults && (dev.faults != old(dev.faults) ==> r.None?)
      ensures dev.faults == old(dev.faults) ==> r == ReadBytes(dev.data, g.bSize, addr)
    {
      hide ReadAt;
      r := ReadFrameAt(g, addr * g.bSize);
    }

    /** One block first; the rest only when the frame says that it is longer. */
    method ReadFrameAt(g: Geo, off: nat) returns (r: Option<bytes>)
      requires g.bSize >= 4
      modifies dev`faults
      ensures old(dev.faults) <= dev.faults && (dev.faults != old(dev.faults) ==> r.None?)
      ensures dev.faults == old(dev.faults) ==> r == ReadAt(dev.data, g.bSize, off)
    {
      hide ToBlocks;
      hide GetLE;
      var block := dev.ReadFull(off, g.bSize);
      if block.None? {
        return None;
      }
      var length := Slot(block.value, 0);
      SliceOf(dev.data, off, g.bSize, 0, 4);
      if length <= g.bSize - 4 {
        SliceOf(dev.data, off, g.bSize, 4, 4 + length);
        return Some(block.value[4..4 + length]);
      }
      r := dev.ReadFull(off, ToBlocks(g.bSize, length) * g.bSize);
    }

    /** The loop of Recv, on whatever the disk contains. */
    method DrainList(g: Geo, alloc: array<int32>, head: int32) returns (ok: bool, msgs: seq<Delivery>)
      requires g.bSize >= 4 && Complete(alloc[..]) && alloc.Length + 1 < 0x8000_0000 && NoLeast(alloc[..])
      modifies alloc, dev`faults
      ensures ok ==> Drain(codec, dev.data, g.bSize, old(alloc[..]), head) == Some((msgs, alloc[..]))
      ensures old(dev.faults) <= dev.faults && (ok ==> dev.faults == old(dev.faults))
      ensures !ok && dev.faults == old(dev.faults) ==> Drain(codec, dev.data, g.bSize, old(alloc[..]), head).None?
    {
      hide ReadBytes;
      hide Free;
      msgs := [];
      var addr := head;
      ghost var full := Drain(codec, dev.data, g.bSize, alloc[..], head);
      assert full.Some? ==> [] + full.value.0 == full.value.0;
      while addr >= 0
        invariant Complete(alloc[..]) && NoLeast(alloc[..]) && dev.faults == old(dev.faults)
        invariant ExtendsTo(msgs, Drain(codec, dev.data, g.bSize, alloc[..], addr), full)
        decreases Negatives(alloc[..])
      {
        ghost var nodes := alloc[..];
        var buf := ReadFrame(g, addr);
        if buf.None? {
          return false, [];
        }
        var m := codec.unmarshal(buf.value);
        if m.None? {
          return false, [];
        }
        ghost var before := msgs;
        msgs := msgs + [Deliver(m.value)];
        var freed := FreeBlock(alloc, addr);
        if !freed {
          return false, [];
        }
        FreeProgress(nodes, addr);
        ghost var rest := Drain(codec, dev.data, g.bSize, alloc[..], WrapInt32(m.value.next));
        assert rest.Some? ==> before + ([Deliver(m.value)] + rest.value.0) == msgs + rest.value.0;
        addr := WrapInt32(m.value.next);
      }
      assert msgs + [] == msgs;
      ok := true;
    }
  }

  function Recipient(localID: BoxId, recipient: nat): BoxId
    requires recipient <= MAX_BOXES
  {
    if recipient == 0 then localID else recipient
  }

  /** The plan that Send follows, put together from what it computed. */
  lemma PlanSendIs(c: Codec, d: bytes, g: Geo, sender: BoxId, id: BoxId, payload: bytes, p: SendPlan, nodes: seq<int32>)
    requires ParseHeader(d) == Some(g) && HasState(d, g)
    requires g.bSize > 0 && NodeOff(g.nodeCnt) <= g.sSize && g.nodeCnt % 2 == 1 && |nodes| == g.nodeCnt
    requires var s := ReadState(d, g);
             var buf := c.marshal(NewMsg(Head(s, id), sender, payload));
             && Alloc(LoadNodes(s, g.nodeCnt), WrapInt32(ToBlocks(g.bSize, 4 + |buf|))) == Some((nodes, p.addr))
             && p.data == DataWrite(p.addr, g.bSize, buf)
             && p.state == Rewrite(s, nodes, id, p.addr)
    ensures PlanSend(c, d, sender, id, payload) == Some(p)
  {
    hide ParseHeader;
    hide Alloc;
    hide ReadState;
    hide LoadNodes;
    hide Rewrite;
    hide DataWrite;
  }

  lemma SliceOf(d: bytes, off: nat, n: nat, p: nat, q: nat)
    requires off + n <= |d| && p <= q <= n
    ensures d[off..off + n][p..q] == d[off + p..off + q]
  {
    var x, y := d[off..off + n][p..q], d[off + p..off + q];
    forall i | 0 <= i < q - p
      ensures x[i] == y[i]
    {
      assert x[i] == d[off..off + n][p + i];
    }
  }

  lemma MagicIsNotZero()
    ensures MAGIC != Zeros(16)
  {
    assert MAGIC[0] != Zeros(16)[0];
  }

  lemma CopiesOf(d: bytes, g: Geo, state3: bytes)
    requires HasState(d, g) && state3 == d[g.bSize..g.bSize + 3 * g.sSize]
    ensures state3[..g.sSize] == Copy0(d, g)
    ensures state3[g.sSize..2 * g.sSize] == Copy1(d, g)
    ensures state3[2 * g.sSize..] == Copy2(d, g)
  {
    SliceOf(d, g.bSize, 3 * g.sSize, 0, g.sSize);
    SliceOf(d, g.bSize, 3 * g.sSize, g.sSize, 2 * g.sSize);
    SliceOf(d, g.bSize, 3 * g.sSize, 2 * g.sSize, 3 * g.sSize);
  }

  /** What format leaves, whether it succeeded or not. */
  ghost predicate FormatOutcome(d: bytes, ok: bool, d': bytes) {
    var b := PLATFORM_BLOCK;
    if !Formattable(d, b) then !ok && d' == d
    else if FormatState(d, b).None? then !ok && Torn(d, HeaderWrite(d, b), d')
    else if ok then d' == Formatted(d, b)
    else Interrupted(d, [HeaderWrite(d, b)] + StateWrites(FormatGeo(d, b), FormatState(d, b).value), d')
  }

  /** The device has a size that format accepts and room for the reservation. */
  ghost predicate CanFormat(d: bytes) {
    Formattable(d, PLATFORM_BLOCK) && FormatState(d, PLATFORM_BLOCK).Some?
  }

  /** What readHeader makes of a device before it is used: a blank one is formatted. */
  ghost predicate Opened(d: bytes, d': bytes) {
    if Blank(d) then FormatOutcome(d, true, d') else d' == d
  }

  /** What a failing readHeader can leave. */
  ghost predicate NotOpened(d: bytes, d': bytes) {
    if Blank(d) then FormatOutcome(d, true, d') || FormatOutcome(d, false, d') else d' == d
  }

  /** A format that did nothing is an interrupted one. */
  lemma NothingFormatted(d: bytes)
    ensures FormatOutcome(d, false, d)
  {
    hide FormatState;
    hide HeaderWrite;
    hide FormatGeo;
    hide StateWrites;
  }

  /** A freshly formatted device is in order, and any other is as it was. */
  lemma OpenedGood(c: Codec, d: bytes, d': bytes)
    requires Opened(d, d')
    ensures Drainable(d) ==> Drainable(d')
  {
    hide FormatState;
    hide Formatted;
    hide FormatGeo;
    hide FormatHeight;
    if Blank(d) {
      FormatHolds(c, d, PLATFORM_BLOCK);
      HoldsInOrder(c, d', FormatGeo(d, PLATFORM_BLOCK), FormatHeight(d, PLATFORM_BLOCK), NoMail());
    }
  }

  lemma HoldsInOrder(c: Codec, d: bytes, g: Geo, h: nat, boxes: Boxes)
    requires Holds(c, d, g, h, boxes)
    ensures Drainable(d)
  {
    hide ParseHeader;
    hide Represents;
    hide ReadState;
    hide LoadNodes;
    hide Frames;
    NodesFit(LoadNodes(ReadState(d, g), g.nodeCnt), h, Live(c, g, boxes));
  }

  lemma HeaderFits(d: bytes)
    requires Formattable(d, PLATFORM_BLOCK)
    ensures Fits(d, HeaderWrite(d, PLATFORM_BLOCK))
  {
    hide FormatGeo;
    hide HeaderBlock;
    assert |d| / PLATFORM_BLOCK >= 1;
  }

  lemma FormatFits(d: bytes)
    requires CanFormat(d)
    ensures HasState(d, FormatGeo(d, PLATFORM_BLOCK)) && |FormatState(d, PLATFORM_BLOCK).value| == FormatGeo(d, PLATFORM_BLOCK).sSize
  {
    hide FormatState;
    hide FormatGeo;
    hide FormatHeight;
    hide GeoOk;
    hide Pow2;
    var g, h := FormatGeo(d, PLATFORM_BLOCK), FormatHeight(d, PLATFORM_BLOCK);
    var c := Codec(m => [], b => None);
    FormatRoom(d, PLATFORM_BLOCK);
    FormatUnits(d, PLATFORM_BLOCK);
    StateFits(g, h, |d|);
    StateLengths(c, g, h, FormatState(d, PLATFORM_BLOCK).value, NoMail());
  }

  /** The node count that NewAllocatorByNodeCnt singles out is none that a tree can have. */
  lemma Odd31(n: nat)
    requires n + 1 < 0x8000_0000 && IsPow2(n + 1)
    ensures n != MAX_INT32 - 1 && WrapUint32(n + 1) == n + 1
  {
  }

  /** A header that is accepted starts with the magic bytes. */
  lemma HeaderStarts(d: bytes)
    ensures ParseHeader(d).Some? ==> |d| >= PLATFORM_BLOCK && d[..16] == MAGIC
  {
  }

  lemma FormattedHeader(c: Codec, d: bytes, d': bytes)
    requires FormatOutcome(d, true, d')
    ensures CanFormat(d) && ParseHeader(d').Some?
  {
    hide FormatState;
    hide Formatted;
    hide FormatGeo;
    hide FormatHeight;
    hide ParseHeader;
    FormatHolds(c, d, PLATFORM_BLOCK);
  }

  /** Opening has one result. */
  lemma OpenedOnce(d: bytes, d': bytes)
    requires Opened(d, d')
    ensures forall e :: Opened(d, e) <==> e == d'
  {
    hide Formatted;
    hide FormatState;
  }

  /** Send goes through when the device can be opened, there is a plan, and its block is on the device. */
  ghost predicate CanSend(c: Codec, d: bytes, sender: BoxId, id: BoxId, payload: bytes) {
    exists e :: Opened(d, e) && PlanSend(c, e, sender, id, payload).Some? && Fits(e, PlanSend(c, e, sender, id, payload).value.data)
  }

  lemma NotSendable(c: Codec, d: bytes, sender: BoxId, id: BoxId, payload: bytes)
    requires if Blank(d) then !CanFormat(d) else ParseHeader(d).None?
    ensures !CanSend(c, d, sender, id, payload)
  {
    hide ParseHeader;
    hide FormatState;
    hide Formatted;
  }

  /** Recv goes through when the device can be opened and there is a plan. */
  ghost predicate CanRecv(c: Codec, d: bytes, id: BoxId) {
    exists e :: Opened(d, e) && Drainable(e) && PlanRecv(c, e, id).Some?
  }

  lemma NotReceivable(c: Codec, d: bytes, id: BoxId)
    requires if Blank(d) then !CanFormat(d) else ParseHeader(d).None?
    ensures !CanRecv(c, d, id)
  {
    hide ParseHeader;
    hide FormatState;
    hide Formatted;
    hide Drainable;
  }

  /** The ways in which there is no plan of Send. */
  lemma NoPlan(c: Codec, d: bytes, g: Geo, sender: BoxId, id: BoxId, payload: bytes)
    requires ParseHeader(d) == Some(g)
    requires g.bSize > 0 && NodeOff(g.nodeCnt) <= g.sSize && (g.nodeCnt == 0 || g.nodeCnt % 2 == 1)
    ensures !HasState(d, g) || g.nodeCnt == 0 ==> PlanSend(c, d, sender, id, payload).None?
    ensures HasState(d, g) && g.nodeCnt > 0 ==>
              var s := ReadState(d, g);
              var buf := c.marshal(NewMsg(Head(s, id), sender, payload));
              var a := Alloc(LoadNodes(s, g.nodeCnt), WrapInt32(ToBlocks(g.bSize, 4 + |buf|)));
              a.None? || a.value.1 < 0 ==> PlanSend(c, d, sender, id, payload).None?
  {
    hide ParseHeader;
    hide Alloc;
    hide ReadState;
    hide LoadNodes;
    hide Rewrite;
    hide DataWrite;
  }

  lemma DrainableNodes(d: bytes, g: Geo)
    requires Drainable(d) && ParseHeader(d) == Some(g) && NodeOff(g.nodeCnt) <= g.sSize && HasState(d, g)
    ensures NoLeast(LoadNodes(ReadState(d, g), g.nodeCnt))
  {
    hide ParseHeader;
  }

  /** What Send leaves: all its writes on success; nothing, or an interrupted part of them, on failure. */
  ghost predicate SendOutcome(c: Codec, d: bytes, sender: BoxId, id: BoxId, payload: bytes, ok: bool, d': bytes) {
    var p := PlanSend(c, d, sender, id, payload);
    if ok then p.Some? && d' == ApplyAll(d, SendWrites(ParseHeader(d).value, p.value))
    else d' == d || (p.Some? && Interrupted(d, SendWrites(ParseHeader(d).value, p.value), d'))
  }

  /** What Recv leaves and returns. */
  ghost predicate RecvOutcome(c: Codec, d: bytes, id: BoxId, ok: bool, msgs: seq<Delivery>, d': bytes)
    requires Drainable(d)
  {
    var p := PlanRecv(c, d, id);
    if ok then p.Some? && msgs == p.value.msgs && d' == ApplyAll(d, StateWrites(ParseHeader(d).value, p.value.state))
    else msgs == [] && (d' == d || (p.Some? && Interrupted(d, StateWrites(ParseHeader(d).value, p.value.state), d')))
  }

  // ---------------------------------------------------------------------------------------
  // The calls on mailboxes
  // ---------------------------------------------------------------------------------------

  /**
   The new message is in front of the box it was sent to, 0 being the sender's own, and every other box
   is as it was.
   */
  ghost predicate PutFirst(boxes: Boxes, after: Boxes, localID: BoxId, recipient: nat, payload: bytes) {
    && |boxes| == |after| == MAX_BOXES
    && forall i :: 0 <= i < MAX_BOXES ==>
         if i + 1 == recipient || (recipient == 0 && i + 1 == localID)
         then && after[i] != [] && after[i][1..] == boxes[i]
              && after[i][0].msg == Msg(if boxes[i] == [] then 0xFFFF_FFFF else boxes[i][0].addr, localID, |payload| % 0x1_0000_0000, payload)
         else after[i] == boxes[i]
  }

  /** What Send does to a disk that holds mailboxes; `calm` says that the device had no fault. */
  ghost predicate SentOn(c: Codec, d: bytes, g: Geo, h: nat, boxes: Boxes, localID: BoxId, recipient: nat, payload: bytes,
                         calm: bool, ok: bool, d': bytes)
    requires g.bSize > 0
  {
    && (ok ==> exists after :: Holds(c, d', g, h, after) && PutFirst(boxes, after, localID, recipient, payload))
    && (!ok && HasState(d, g) && Recoverable(d, g) ==>
          || Holds(c, d', g, h, boxes)
          || exists after :: Holds(c, d', g, h, after) && PutFirst(boxes, after, localID, recipient, payload))
    && (calm ==> (ok <==> Room(c, g, h, boxes, localID, recipient, payload)))
  }

  ghost predicate HasRun(S: set<Block>, k: nat, h: nat) {
    exists o :: FreeRun(S, o, k, 0, h)
  }

  /** An aligned free run is left for the frame of a message to the box at index i. */
  ghost predicate RoomAt(c: Codec, g: Geo, h: nat, boxes: Boxes, i: int, localID: BoxId, payload: bytes)
    requires g.bSize > 0
  {
    0 <= i < |boxes| && HasRun(Live(c, g, boxes), RoundExp(FrameBlocks(c, g.bSize, NewMsg(HeadOf(boxes[i]), localID, payload))), h)
  }

  ghost predicate Room(c: Codec, g: Geo, h: nat, boxes: Boxes, localID: BoxId, recipient: nat, payload: bytes)
    requires g.bSize > 0
  {
    exists i :: (i + 1 == recipient || (recipient == 0 && i + 1 == localID)) && RoomAt(c, g, h, boxes, i, localID, payload)
  }

  ghost predicate Sent(c: Codec, d: bytes, localID: BoxId, recipient: nat, payload: bytes, calm: bool, ok: bool, d': bytes) {
    forall g, h, boxes :: Holds(c, d, g, h, boxes) ==> SentOn(c, d, g, h, boxes, localID, recipient, payload, calm, ok, d')
  }

  lemma PushPutsFirst(boxes: Boxes, localID: BoxId, recipient: nat, payload: bytes, addr: Addr)
    requires |boxes| == MAX_BOXES && recipient <= MAX_BOXES
    ensures var id := Recipient(localID, recipient);
            PutFirst(boxes, Push(boxes, id, Entry(addr, NewMsg(HeadOf(boxes[id - 1]), localID, payload))), localID, recipient, payload)
  {
    var id := Recipient(localID, recipient);
    var e := Entry(addr, NewMsg(HeadOf(boxes[id - 1]), localID, payload));
    assert ([e] + boxes[id - 1])[1..] == boxes[id - 1];
  }

  lemma RoomIff(c: Codec, g: Geo, h: nat, boxes: Boxes, localID: BoxId, recipient: nat, payload: bytes)
    requires g.bSize > 0 && |boxes| == MAX_BOXES && recipient <= MAX_BOXES
    ensures var m := NewMsg(HeadOf(boxes[Recipient(localID, recipient) - 1]), localID, payload);
            Room(c, g, h, boxes, localID, recipient, payload) <==> HasRun(Live(c, g, boxes), RoundExp(FrameBlocks(c, g.bSize, m)), h)
  {
    hide HasRun;
    hide Live;
    hide RoundExp;
    hide FrameBlocks;
    var k := Recipient(localID, recipient) - 1;
    if Room(c, g, h, boxes, localID, recipient, payload) {
      var i :| (i + 1 == recipient || (recipient == 0 && i + 1 == localID)) && RoomAt(c, g, h, boxes, i, localID, payload);
      assert i == k;
    }
    assert (k + 1 == recipient || (recipient == 0 && k + 1 == localID))
        && (Room(c, g, h, boxes, localID, recipient, payload) <==> RoomAt(c, g, h, boxes, k, localID, payload));
  }

  lemma SentOnHolds(c: Codec, d: bytes, g: Geo, h: nat, boxes: Boxes, localID: BoxId, recipient: nat, payload: bytes,
                    calm: bool, ok: bool, d': bytes)
    requires Marshals(c, localID, payload) && Holds(c, d, g, h, boxes) && recipient <= MAX_BOXES
    requires SendOutcome(c, d, localID, Recipient(localID, recipient), payload, ok, d')
    requires calm ==> (ok <==> CanSend(c, d, localID, Recipient(localID, recipient), payload))
    ensures g.bSize > 0 && SentOn(c, d, g, h, boxes, localID, recipient, payload, calm, ok, d')
  {
    hide PlanSend;
    hide Holds;
    hide Interrupted;
    hide ApplyAll;
    hide ParseHeader;
    hide PutFirst;
    hide Room;
    hide Landed;
    hide FreeRun;
    hide Live;
    hide RoundExp;
    hide StateOk;
    var id := Recipient(localID, recipient);
    HoldsSize(c, d, g, h, boxes);
    HoldsHeader(c, d, g, h, boxes);
    HoldsOpened(c, d, g, h, boxes);
    PlanSendSpec(c, d, g, h, boxes, localID, id, payload);
    RoomIff(c, g, h, boxes, localID, recipient, payload);
    var p := PlanSend(c, d, localID, id, payload);
    if p.Some? {
      PlanFits(c, d, g, h, boxes, localID, id, payload);
      PushPutsFirst(boxes, localID, recipient, payload, p.value.addr);
      if ok {
        SendCompletes(c, d, g, h, boxes, localID, id, payload);
      } else if Recoverable(d, g) {
        SendErrorIff(c, d, g, h, boxes, localID, id, payload, d');
      }
    }
  }

  /** A disk that holds mailboxes is used as it is. */
  lemma HoldsOpened(c: Codec, d: bytes, g: Geo, h: nat, boxes: Boxes)
    requires Holds(c, d, g, h, boxes)
    ensures !Blank(d) && forall e :: Opened(d, e) <==> e == d
  {
    hide Zeros;
    MagicIsNotZero();
    HeaderStarts(d);
  }

  /** Whatever the disk held, the outcome of Send says what became of the mailboxes. */
  lemma SentAnyway(c: Codec, d: bytes, localID: BoxId, recipient: nat, payload: bytes, calm: bool, ok: bool, d': bytes)
    requires Marshals(c, localID, payload) && recipient <= MAX_BOXES
    requires || (!ok && NotOpened(d, d'))
             || exists e :: Opened(d, e) && SendOutcome(c, e, localID, Recipient(localID, recipient), payload, ok, d')
    requires calm ==> (ok <==> CanSend(c, d, localID, Recipient(localID, recipient), payload))
    ensures Sent(c, d, localID, recipient, payload, calm, ok, d')
  {
    hide SentOn;
    hide SendOutcome;
    hide Opened;
    hide NotOpened;
    hide CanSend;
    hide Holds;
    forall g, h, boxes | Holds(c, d, g, h, boxes)
      ensures g.bSize > 0 && SentOn(c, d, g, h, boxes, localID, recipient, payload, calm, ok, d')
    {
      HoldsOpened(c, d, g, h, boxes);
      if !ok && NotOpened(d, d') {
        NothingSent(c, d, localID, Recipient(localID, recipient), payload, d');
      }
      SentOnHolds(c, d, g, h, boxes, localID, recipient, payload, calm, ok, d');
    }
  }

  lemma NothingSent(c: Codec, d: bytes, sender: BoxId, id: BoxId, payload: bytes, d': bytes)
    requires !Blank(d) && NotOpened(d, d')
    ensures d' == d && SendOutcome(c, d, sender, id, payload, false, d')
  {
    hide PlanSend;
    hide ParseHeader;
  }

  /** What Recv does to the local box of a disk that holds mailboxes, if all its frames are read back. */
  ghost predicate EmptiedOn(c: Codec, g: Geo, h: nat, boxes: Boxes, id: BoxId, calm: bool, ok: bool, msgs: seq<Delivery>, d': bytes)
    requires |boxes| == MAX_BOXES
  {
    && (calm ==> ok)
    && (ok ==> && |msgs| == |boxes[id - 1]|
               && (forall i :: 0 <= i < |msgs| ==> msgs[i] == Delivery(boxes[id - 1][i].msg.sender % 0x1_0000, boxes[id - 1][i].msg.payload))
               && Holds(c, d', g, h, boxes[id - 1 := []]))
  }

  ghost predicate Emptied(c: Codec, d: bytes, id: BoxId, calm: bool, ok: bool, msgs: seq<Delivery>, d': bytes) {
    forall g, h, boxes :: Holds(c, d, g, h, boxes) && Readable(c, g.bSize, boxes[id - 1]) ==>
      EmptiedOn(c, g, h, boxes, id, calm, ok, msgs, d')
  }

  lemma EmptiedOnHolds(c: Codec, d: bytes, g: Geo, h: nat, boxes: Boxes, id: BoxId, calm: bool, ok: bool, msgs: seq<Delivery>, d': bytes)
    requires GoodCodec(c) && Holds(c, d, g, h, boxes) && Readable(c, g.bSize, boxes[id - 1])
    requires Drainable(d) && (ok ==> RecvOutcome(c, d, id, ok, msgs, d')) && (calm ==> (ok <==> CanRecv(c, d, id)))
    ensures EmptiedOn(c, g, h, boxes, id, calm, ok, msgs, d')
  {
    hide PlanRecv;
    hide Holds;
    hide Interrupted;
    hide ApplyAll;
    hide ParseHeader;
    hide Drainable;
    HoldsSize(c, d, g, h, boxes);
    HoldsHeader(c, d, g, h, boxes);
    HoldsOpened(c, d, g, h, boxes);
    PlanRecvSpec(c, d, g, h, boxes, id);
    RecvCompletes(c, d, g, h, boxes, id);
  }

  lemma EmptiedAnyway(c: Codec, d: bytes, id: BoxId, calm: bool, ok: bool, msgs: seq<Delivery>, d': bytes)
    requires GoodCodec(c) && Drainable(d)
    requires || (!ok && msgs == [] && NotOpened(d, d'))
             || exists e :: Opened(d, e) && Drainable(e) && RecvOutcome(c, e, id, ok, msgs, d')
    requires calm ==> (ok <==> CanRecv(c, d, id))
    ensures Emptied(c, d, id, calm, ok, msgs, d')
  {
    hide EmptiedOn;
    hide RecvOutcome;
    hide Opened;
    hide NotOpened;
    hide CanRecv;
    hide Holds;
    hide Readable;
    hide Drainable;
    hide GoodCodec;
    forall g, h, boxes | Holds(c, d, g, h, boxes)
      ensures g.bSize > 0 && |boxes| == MAX_BOXES
      ensures Readable(c, g.bSize, boxes[id - 1]) ==> EmptiedOn(c, g, h, boxes, id, calm, ok, msgs, d')
    {
      HoldsSize(c, d, g, h, boxes);
      HoldsOpened(c, d, g, h, boxes);
      if Readable(c, g.bSize, boxes[id - 1]) {
        EmptiedOnHolds(c, d, g, h, boxes, id, calm, ok, msgs, d');
      }
    }
  }

  // ---------------------------------------------------------------------------------------
  // The calls as steps of a run
  // ---------------------------------------------------------------------------------------

  /** Every outcome of Send is a step of MailHistory, to the box that was named, so RunExplained speaks about it. */
  lemma SendIsStep(c: Codec, g: Geo, d: bytes, sender: BoxId, recipient: nat, payload: bytes, ok: bool, d': bytes) returns (ev: Event)
    requires ParseHeader(d) == Some(g) && recipient <= MAX_BOXES
    requires !ok && d' != d ==> HasState(d, g) && Recoverable(d, g)
    requires SendOutcome(c, d, sender, Recipient(sender, recipient), payload, ok, d')
    ensures Step(c, g, d, ev, d')
    ensures if ok then ev.SendDone? else ev.SendRefused? || ev.SendCut?
    ensures ev.sender == sender && ev.payload == payload && ev.id == if recipient > 0 then recipient else sender
  {
    hide PlanSend;
    hide ParseHeader;
    hide Interrupted;
    var id := Recipient(sender, recipient);
    if ok {
      ev := SendDone(sender, id, payload);
    } else if d' == d {
      ev := SendRefused(sender, id, payload);
    } else {
      ev := SendCut(sender, id, payload);
    }
  }

  lemma RecvIsStep(c: Codec, g: Geo, d: bytes, id: BoxId, ok: bool, msgs: seq<Delivery>, d': bytes) returns (ev: Event)
    requires Drainable(d) && ParseHeader(d) == Some(g)
    requires !ok && d' != d ==> HasState(d, g) && Recoverable(d, g)
    requires RecvOutcome(c, d, id, ok, msgs, d')
    ensures Step(c, g, d, ev, d')
    ensures if ok then ev == RecvDone(id, msgs) else ev == RecvSkipped(id) || ev == RecvCut(id)
  {
    hide PlanRecv;
    hide ParseHeader;
    hide Interrupted;
    hide Drainable;
    if ok {
      ev := RecvDone(id, msgs);
    } else if d' == d {
      ev := RecvSkipped(id);
    } else {
      ev := RecvCut(id);
    }
  }

  // ---------------------------------------------------------------------------------------
  // What an error says about the disk
  // ---------------------------------------------------------------------------------------

  /** Whenever Send finds room, it may report an error although the message has arrived. */
  lemma SendErrorMayLand(c: Codec, d: bytes, g: Geo, h: nat, boxes: Boxes, sender: BoxId, id: BoxId, payload: bytes) returns (d': bytes)
    requires Holds(c, d, g, h, boxes) && PlanSend(c, d, sender, id, payload).Some?
    requires |c.marshal(NewMsg(HeadOf(boxes[id - 1]), sender, payload))| < 0x8000_0000
    ensures SendOutcome(c, d, sender, id, payload, false, d')
    ensures Holds(c, d', g, h, Push(boxes, id, SentEntry(boxes, PlanSend(c, d, sender, id, payload).value, sender, id, payload)))
  {
    hide PlanSend;
    hide Holds;
    hide ApplyAll;
    hide Interrupted;
    hide ParseHeader;
    HoldsSize(c, d, g, h, boxes);
    HoldsHeader(c, d, g, h, boxes);
    var p := PlanSend(c, d, sender, id, payload).value;
    d' := ApplyAll(d, SendWrites(g, p));
    SendCompletes(c, d, g, h, boxes, sender, id, payload);
    CompletedIsInterrupted(d, SendWrites(g, p));
  }

  lemma HoldsHeader(c: Codec, d: bytes, g: Geo, h: nat, boxes: Boxes)
    requires Holds(c, d, g, h, boxes)
    ensures ParseHeader(d) == Some(g)
  {
  }

  /**
   After a Send that reported an error on a recoverable disk, the message is there if and only if there
   was a plan and the first two state copies hold its state; otherwise the mailboxes are as they were.
   */
  lemma SendErrorIff(c: Codec, d: bytes, g: Geo, h: nat, boxes: Boxes, sender: BoxId, id: BoxId, payload: bytes, d': bytes)
    requires Holds(c, d, g, h, boxes) && Recoverable(d, g)
    requires |c.marshal(NewMsg(HeadOf(boxes[id - 1]), sender, payload))| < 0x8000_0000
    requires SendOutcome(c, d, sender, id, payload, false, d')
    ensures var p := PlanSend(c, d, sender, id, payload);
            if p.Some? then
              && (Holds(c, d', g, h, Push(boxes, id, SentEntry(boxes, p.value, sender, id, payload))) <==> Landed(d', g, p.value.state))
              && (!Landed(d', g, p.value.state) ==> Holds(c, d', g, h, boxes))
            else d' == d
  {
    hide PlanSend;
    hide Holds;
    hide Interrupted;
    hide ParseHeader;
    HoldsSize(c, d, g, h, boxes);
    HoldsHeader(c, d, g, h, boxes);
    if PlanSend(c, d, sender, id, payload).Some? {
      SendLandedIff(c, d, g, h, boxes, sender, id, payload, d');
    }
  }

  /** Recv may report an error, and return nothing, although it emptied the mailbox. */
  lemma RecvErrorMayDrain(c: Codec, d: bytes, g: Geo, h: nat, boxes: Boxes, id: BoxId) returns (d': bytes)
    requires GoodCodec(c) && Holds(c, d, g, h, boxes) && Readable(c, g.bSize, boxes[id - 1])
    ensures Drainable(d) && RecvOutcome(c, d, id, false, [], d')
    ensures Holds(c, d', g, h, Clear(boxes, id))
  {
    hide PlanRecv;
    hide Holds;
    hide ApplyAll;
    hide Interrupted;
    hide ParseHeader;
    hide Drainable;
    HoldsSize(c, d, g, h, boxes);
    HoldsHeader(c, d, g, h, boxes);
    RecvCompletes(c, d, g, h, boxes, id);
    var ws := StateWrites(g, PlanRecv(c, d, id).value.state);
    d' := ApplyAll(d, ws);
    CompletedIsInterrupted(d, ws);
  }

  /**
   After a Recv that reported an error on a recoverable disk, the mailbox is empty if and only if it was
   so before or the first two state copies hold the planned state; otherwise nothing changed.
   */
  lemma RecvErrorIff(c: Codec, d: bytes, g: Geo, h: nat, boxes: Boxes, id: BoxId, msgs: seq<Delivery>, d': bytes)
    requires GoodCodec(c) && Holds(c, d, g, h, boxes) && Readable(c, g.bSize, boxes[id - 1]) && Recoverable(d, g)
    requires Drainable(d) && RecvOutcome(c, d, id, false, msgs, d')
    ensures msgs == [] && PlanRecv(c, d, id).Some?
    ensures var s := PlanRecv(c, d, id).value.state;
            && (Holds(c, d', g, h, Clear(boxes, id)) <==> boxes[id - 1] == [] || Landed(d', g, s))
            && (!Landed(d', g, s) ==> Holds(c, d', g, h, boxes))
  {
    hide PlanRecv;
    hide Holds;
    hide Interrupted;
    hide ParseHeader;
    hide Drainable;
    HoldsSize(c, d, g, h, boxes);
    HoldsHeader(c, d, g, h, boxes);
    PlanRecvSpec(c, d, g, h, boxes, id);
    RecvLandedIff(c, d, g, h, boxes, id, d');
  }

  /** The messages read so far, followed by what the loop will still read, make up the whole. */
  ghost predicate ExtendsTo(msgs: seq<Delivery>, rest: Option<(seq<Delivery>, seq<int32>)>, full: Option<(seq<Delivery>, seq<int32>)>) {
    && (full.Some? <==> rest.Some?)
    && (rest.Some? ==> full.value == (msgs + rest.value.0, rest.value.1))
  }
}
