/** Recv of pkg/diskrpc/mailbox.go: draining one list, on any disk and on one that holds mailboxes. */
module MailRecv {
  import opened Options
  import opened Arith
  import opened Bytes
  import opened Disk
  import opened State
  import opened Buddy
  import opened BuddyBlocks
  import opened Allocator
  import opened MailSpec
  import opened MailOps

  /** The bytes that Recv hands to Unmarshal for a frame at byte off; nothing when the read fails. */
  function ReadAt(d: bytes, bSize: nat, off: nat): Option<bytes>
    requires bSize >= 4
  {
    if off + bSize > |d| then None
    else
      var length := Slot(d, off);
      if length <= bSize - 4 then Some(d[off + 4..off + 4 + length])
      else
        var n := ToBlocks(bSize, length) * bSize;
        if off + n > |d| then None else Some(d[off..off + n])
  }

  /** The same for the block at addr. */
  function ReadBytes(d: bytes, bSize: nat, addr: Addr): Option<bytes>
    requires bSize >= 4
  {
    ReadAt(d, bSize, addr * bSize)
  }

  /** What the caller of Recv sees of a message. */
  datatype Delivery = Delivery(sender: nat, payload: bytes)

  /** MailBoxID(pbMsg.Sender) keeps 16 bits of the sender. */
  function Deliver(m: Msg): Delivery {
    Delivery(m.sender % 0x1_0000, m.payload)
  }

  function DeliverAll(es: seq<Entry>): seq<Delivery> {
    seq(|es|, i requires 0 <= i < |es| => Deliver(es[i].msg))
  }

  /**
   The loop of Recv from list address `head` on: the messages and the remaining nodes, or nothing
   on an error.  It ends on every disk, because each round frees one more node.
   */
  function Drain(c: Codec, d: bytes, bSize: nat, nodes: seq<int32>, head: int32): (r: Option<(seq<Delivery>, seq<int32>)>)
    requires bSize >= 4 && Complete(nodes) && |nodes| + 1 < 0x8000_0000 && NoLeast(nodes)
    ensures r.Some? ==> |r.value.1| == |nodes|
    decreases Negatives(nodes)
  {
    if head < 0 then Some(([], nodes))
    else
      var buf := ReadBytes(d, bSize, head);
      if buf.None? then None
      else
        var m := c.unmarshal(buf.value);
        if m.None? then None
        else
          var freed := Free(nodes, head);
          if freed.None? then None
          else
            FreeProgress(nodes, head);
            var rest := Drain(c, d, bSize, freed.value, WrapInt32(m.value.next));
            if rest.None? then None
            else Some(([Deliver(m.value)] + rest.value.0, rest.value.1))
  }

  datatype RecvPlan = RecvPlan(msgs: seq<Delivery>, state: bytes)

  /** No tree node of the readable state is -2^31; see FreeStuckOnLeast. */
  predicate Drainable(d: bytes) {
    ParseHeader(d).Some? ==>
      var g := ParseHeader(d).value;
      ParsedGeo(d);
      HasState(d, g) ==> NoLeast(LoadNodes(ReadState(d, g), g.nodeCnt))
  }

  /** What Recv computes under the lock before it writes; nothing on an error. */
  function PlanRecv(c: Codec, d: bytes, id: BoxId): Option<RecvPlan>
    requires Drainable(d)
  {
    if ParseHeader(d).None? then None
    else
      var g := ParseHeader(d).value;
      ParsedGeo(d);
      if !HasState(d, g) then None
      else
        var s := ReadState(d, g);
        var r := Drain(c, d, g.bSize, LoadNodes(s, g.nodeCnt), WrapInt32(Head(s, id)));
        if r.None? then None
        else Some(RecvPlan(r.value.0, Rewrite(s, r.value.1, id, NULL)))
  }

  // ---------------------------------------------------------------------------------------
  // Reading one frame
  // ---------------------------------------------------------------------------------------

  /** buf repeats the four bytes of its own length. */
  predicate RepeatsLength(buf: bytes)
    requires |buf| < 0x8000_0000
  {
    forall i :: 0 <= i < |buf| ==> buf[i] == (PutLE(|buf|) + buf)[i]
  }

  /** The frames that Recv reads back; `ReadBackIff` shows that there are no others. */
  predicate ReadsBack(bSize: nat, buf: bytes)
    requires bSize > 0 && |buf| < 0x8000_0000
  {
    4 + |buf| <= bSize || (|buf| % bSize == 0 && RepeatsLength(buf))
  }

  /** Every frame of the list is read back. */
  predicate Readable(c: Codec, bSize: nat, es: seq<Entry>)
    requires bSize > 0
  {
    forall i :: 0 <= i < |es| ==> |c.marshal(es[i].msg)| < 0x8000_0000 && ReadsBack(bSize, c.marshal(es[i].msg))
  }

  /** The length and the bytes of a frame, at byte off. */
  predicate FrameFrom(d: bytes, off: nat, buf: bytes)
    requires |buf| < 0x8000_0000
  {
    off + 4 + |buf| <= |d| && d[off..off + 4] == PutLE(|buf|) && d[off + 4..off + 4 + |buf|] == buf
  }

  lemma FrameLeading(d: bytes, off: nat, buf: bytes)
    requires |buf| < 0x8000_0000 && FrameFrom(d, off, buf)
    ensures forall i :: 0 <= i < |buf| ==> d[off + i] == (PutLE(|buf|) + buf)[i]
  {
    hide PutLE;
    forall i | 0 <= i < |buf|
      ensures d[off + i] == (PutLE(|buf|) + buf)[i]
    {
      if i < 4 {
        assert d[off..off + 4][i] == d[off + i];
      } else {
        assert d[off + 4..off + 4 + |buf|][i - 4] == d[off + i];
      }
    }
  }

  /** What is read of a frame of more than one block: n leading bytes, its length among them. */
  lemma ReadLong(d: bytes, bSize: nat, off: nat, buf: bytes, n: nat)
    requires bSize >= 4 && |buf| < 0x8000_0000 && 4 + |buf| > bSize && n == ToBlocks(bSize, |buf|) * bSize
    requires FrameFrom(d, off, buf)
    ensures n >= |buf| && (n == |buf| <==> |buf| % bSize == 0)
    ensures ReadAt(d, bSize, off) == if off + n > |d| then None else Some(d[off..off + n])
  {
    hide PutLE;
    hide GetLE;
    hide ToBlocks;
    GetPut(|buf|);
    FewerBlocks(bSize, |buf|);
    ToBlocksCover(bSize, |buf|);
  }

  lemma ReadShort(d: bytes, bSize: nat, off: nat, buf: bytes)
    requires bSize >= 4 && |buf| < 0x8000_0000 && 4 + |buf| <= bSize && off + bSize <= |d|
    requires FrameFrom(d, off, buf)
    ensures ReadAt(d, bSize, off) == Some(buf)
  {
    hide PutLE;
    hide GetLE;
    GetPut(|buf|);
  }

  /** n leading bytes of a frame are its content exactly when n is its length and it repeats that length. */
  lemma LeadingIsContent(d: bytes, off: nat, buf: bytes, n: nat)
    requires |buf| < 0x8000_0000 && FrameFrom(d, off, buf) && |buf| <= n && off + n <= |d|
    ensures d[off..off + n] == buf <==> n == |buf| && RepeatsLength(buf)
  {
    hide PutLE;
    FrameLeading(d, off, buf);
    if d[off..off + n] == buf {
      forall i | 0 <= i < |buf|
        ensures buf[i] == d[off + i]
      {
        assert d[off..off + n][i] == d[off + i];
      }
    }
  }

  /** A frame is read back exactly if and only if it is one of those, whatever lies behind it. */
  lemma ReadAtIff(d: bytes, bSize: nat, off: nat, buf: bytes)
    requires bSize >= 4 && |buf| < 0x8000_0000 && off + bSize <= |d| && FrameFrom(d, off, buf)
    ensures ReadAt(d, bSize, off) == Some(buf) <==> ReadsBack(bSize, buf)
  {
    hide ReadAt;
    hide FrameFrom;
    hide RepeatsLength;
    hide ToBlocks;
    if 4 + |buf| <= bSize {
      ReadShort(d, bSize, off, buf);
    } else {
      var n := ToBlocks(bSize, |buf|) * bSize;
      ReadLong(d, bSize, off, buf, n);
      FrameEnds(d, off, buf);
      if off + n <= |d| {
        LeadingIsContent(d, off, buf, n);
      }
    }
  }

  lemma FrameEnds(d: bytes, off: nat, buf: bytes)
    requires |buf| < 0x8000_0000 && FrameFrom(d, off, buf)
    ensures off + |buf| <= |d|
  {
  }

  /**
   A frame on the disk is read back exactly if and only if it fits in one block, or it fills whole
   blocks and merely repeats its own length: a longer frame comes back with its length still in front.
   */
  lemma ReadBackIff(c: Codec, d: bytes, bSize: nat, e: Entry)
    requires bSize >= 4 && FrameAt(c, d, bSize, e) && e.addr * bSize + bSize <= |d|
    ensures ReadBytes(d, bSize, e.addr) == Some(c.marshal(e.msg)) <==> ReadsBack(bSize, c.marshal(e.msg))
  {
    hide ReadAt;
    hide ReadsBack;
    hide FrameAt;
    hide FrameFrom;
    FrameIs(c, d, bSize, e);
    ReadAtIff(d, bSize, e.addr * bSize, c.marshal(e.msg));
  }

  lemma FrameIs(c: Codec, d: bytes, bSize: nat, e: Entry)
    requires FrameAt(c, d, bSize, e)
    ensures |c.marshal(e.msg)| < 0x8000_0000 && FrameFrom(d, e.addr * bSize, c.marshal(e.msg))
  {
    hide PutLE;
  }

  lemma WholeBlocks(bSize: nat, size: nat, a: nat)
    requires bSize > 0 && (a - 1) * bSize < size <= a * bSize
    ensures size % bSize == 0 <==> a * bSize == size
  {
    if size % bSize == 0 {
      var q := size / bSize;
      assert size == q * bSize;
      MulLess(a - 1, q, bSize);
      MulAdd(a, 1, bSize);
      MulLess(q, a + 1, bSize);
    }
    if a * bSize == size {
      MulMod(bSize, a);
    }
  }

  lemma FewerBlocks(bSize: nat, size: nat)
    requires bSize >= 4 && size > 0
    ensures ToBlocks(bSize, size) * bSize <= ToBlocks(bSize, 4 + size) * bSize
    ensures size % bSize == 0 <==> ToBlocks(bSize, size) * bSize == size
    ensures bSize <= ToBlocks(bSize, 4 + size) * bSize
  {
    hide ToBlocks;
    ToBlocksCover(bSize, size);
    ToBlocksCover(bSize, 4 + size);
    var a, b := ToBlocks(bSize, size), ToBlocks(bSize, 4 + size);
    MulLess(a - 1, b, bSize);
    MulMono(a, b, bSize);
    MulMono(1, b, bSize);
    WholeBlocks(bSize, size, a);
  }

  // ---------------------------------------------------------------------------------------
  // The loop on any disk
  // ---------------------------------------------------------------------------------------

  /** The link that follows the first i of the entries, starting from head. */
  function Link(head: int32, es: seq<Entry>, i: nat): int32
    requires i <= |es|
  {
    if i == 0 then head else WrapInt32(es[i - 1].msg.next)
  }

  /** The block at the entry's address is readable and unmarshals to its message. */
  predicate Reads(c: Codec, d: bytes, bSize: nat, e: Entry)
    requires bSize >= 4
  {
    ReadBytes(d, bSize, e.addr).Some? && c.unmarshal(ReadBytes(d, bSize, e.addr).value) == Some(e.msg)
  }

  /** Following the links from head leads through the entries, each of which reads. */
  ghost predicate Leads(c: Codec, d: bytes, bSize: nat, head: int32, es: seq<Entry>)
    requires bSize >= 4
  {
    forall i :: 0 <= i < |es| ==> Link(head, es, i) == es[i].addr && Reads(c, d, bSize, es[i])
  }

  /** and ends there. */
  ghost predicate Walk(c: Codec, d: bytes, bSize: nat, head: int32, es: seq<Entry>)
    requires bSize >= 4
  {
    Leads(c, d, bSize, head, es) && Link(head, es, |es|) < 0
  }

  function Addrs(es: seq<Entry>): (r: seq<int32>)
    ensures |r| == |es|
  {
    seq(|es|, i requires 0 <= i < |es| => es[i].addr)
  }

  lemma LeadsTail(c: Codec, d: bytes, bSize: nat, head: int32, es: seq<Entry>)
    requires bSize >= 4 && es != []
    ensures Leads(c, d, bSize, head, es) <==>
              head == es[0].addr && Reads(c, d, bSize, es[0]) && Leads(c, d, bSize, WrapInt32(es[0].msg.next), es[1..])
    ensures Link(head, es, |es|) == Link(WrapInt32(es[0].msg.next), es[1..], |es| - 1)
    ensures Addrs(es) == [es[0].addr] + Addrs(es[1..])
    ensures DeliverAll(es) == [Deliver(es[0].msg)] + DeliverAll(es[1..])
  {
    hide Reads;
    hide WrapInt32;
    var next, t := WrapInt32(es[0].msg.next), es[1..];
    assert forall i :: 0 <= i < |t| ==> t[i] == es[i + 1] && Link(next, t, i) == Link(head, es, i + 1);
    if Leads(c, d, bSize, head, es) {
      assert Link(head, es, 0) == es[0].addr;
    }
    if head == es[0].addr && Reads(c, d, bSize, es[0]) && Leads(c, d, bSize, next, t) {
      forall i | 0 <= i < |es|
        ensures Link(head, es, i) == es[i].addr && Reads(c, d, bSize, es[i])
      {
        if i > 0 { assert t[i - 1] == es[i] && Link(next, t, i - 1) == Link(head, es, i); }
      }
    }
  }

  lemma FreeAllFirst(nodes: seq<int32>, a: int32, rest: seq<int32>)
    requires Complete(nodes)
    ensures FreeAll(nodes, [a] + rest) == if Free(nodes, a).None? then None else FreeAll(Free(nodes, a).value, rest)
  {
    hide Free;
    assert ([a] + rest)[1..] == rest;
  }

  /** A complete walk decides the loop: its deliveries, and the frees of its blocks in order. */
  lemma {:induction false} DrainOnWalk(c: Codec, d: bytes, bSize: nat, nodes: seq<int32>, head: int32, es: seq<Entry>)
    requires bSize >= 4 && Complete(nodes) && |nodes| + 1 < 0x8000_0000 && NoLeast(nodes)
    requires Walk(c, d, bSize, head, es)
    ensures Drain(c, d, bSize, nodes, head)
         == if FreeAll(nodes, Addrs(es)).Some? then Some((DeliverAll(es), FreeAll(nodes, Addrs(es)).value)) else None
    decreases |es|
  {
    hide Free;
    hide ReadBytes;
    hide WrapInt32;
    hide Addrs;
    hide DeliverAll;
    if es == [] {
      assert Addrs(es) == [] && DeliverAll(es) == [] by { NoEntries(); }
    } else {
      LeadsTail(c, d, bSize, head, es);
      FreeAllFirst(nodes, es[0].addr, Addrs(es[1..]));
      if Free(nodes, head).Some? {
        FreeProgress(nodes, head);
        DrainOnWalk(c, d, bSize, Free(nodes, head).value, WrapInt32(es[0].msg.next), es[1..]);
      }
    }
  }

  lemma NoEntries()
    ensures Addrs([]) == [] && DeliverAll([]) == []
  {
  }

  /** A loop that ends without an error went along a walk. */
  lemma {:induction false} DrainHasWalk(c: Codec, d: bytes, bSize: nat, nodes: seq<int32>, head: int32) returns (es: seq<Entry>)
    requires bSize >= 4 && Complete(nodes) && |nodes| + 1 < 0x8000_0000 && NoLeast(nodes)
    requires Drain(c, d, bSize, nodes, head).Some?
    ensures Walk(c, d, bSize, head, es)
    decreases Negatives(nodes)
  {
    hide Free;
    hide ReadBytes;
    hide WrapInt32;
    if head < 0 {
      es := [];
    } else {
      var m := c.unmarshal(ReadBytes(d, bSize, head).value).value;
      FreeProgress(nodes, head);
      var rest := DrainHasWalk(c, d, bSize, Free(nodes, head).value, WrapInt32(m.next));
      es := [Entry(head, m)] + rest;
      assert es[1..] == rest;
      LeadsTail(c, d, bSize, head, es);
    }
  }

  /**
   The loop on any disk, any tree and from any head: it succeeds if and only if there is a walk whose
   blocks can all be freed, one after the other; it then delivers the messages of the walk, in order, and
   leaves the tree after those frees.
   */
  lemma DrainIff(c: Codec, d: bytes, bSize: nat, nodes: seq<int32>, head: int32)
    requires bSize >= 4 && Complete(nodes) && |nodes| + 1 < 0x8000_0000 && NoLeast(nodes)
    ensures Drain(c, d, bSize, nodes, head).Some?
            <==> exists es :: Walk(c, d, bSize, head, es) && FreeAll(nodes, Addrs(es)).Some?
    ensures forall es :: Walk(c, d, bSize, head, es) && FreeAll(nodes, Addrs(es)).Some? ==>
              Drain(c, d, bSize, nodes, head) == Some((DeliverAll(es), FreeAll(nodes, Addrs(es)).value))
  {
    hide Drain;
    hide Walk;
    hide FreeAll;
    forall es | Walk(c, d, bSize, head, es)
      ensures Drain(c, d, bSize, nodes, head)
           == if FreeAll(nodes, Addrs(es)).Some? then Some((DeliverAll(es), FreeAll(nodes, Addrs(es)).value)) else None
    {
      DrainOnWalk(c, d, bSize, nodes, head, es);
    }
    if Drain(c, d, bSize, nodes, head).Some? {
      var es := DrainHasWalk(c, d, bSize, nodes, head);
    }
  }

  /** The frame that the loop reaches after the entries is unreadable or rejected, or some block cannot be freed. */
  ghost predicate Fails(c: Codec, d: bytes, bSize: nat, nodes: seq<int32>, head: int32, es: seq<Entry>)
    requires bSize >= 4 && Complete(nodes)
  {
    var at := Link(head, es, |es|);
    && Leads(c, d, bSize, head, es) && at >= 0
    && ( || ReadBytes(d, bSize, at).None?
         || c.unmarshal(ReadBytes(d, bSize, at).value).None?
         || FreeAll(nodes, Addrs(es) + [at]).None?)
  }

  /** One such frame anywhere on the way, and the loop ends with an error. */
  lemma {:induction false} DrainFails(c: Codec, d: bytes, bSize: nat, nodes: seq<int32>, head: int32, es: seq<Entry>)
    requires bSize >= 4 && Complete(nodes) && |nodes| + 1 < 0x8000_0000 && NoLeast(nodes)
    requires Fails(c, d, bSize, nodes, head, es)
    ensures Drain(c, d, bSize, nodes, head).None?
    decreases |es|
  {
    hide Free;
    hide ReadBytes;
    hide WrapInt32;
    hide Addrs;
    if es == [] {
      NoEntries();
      assert Addrs(es) + [head] == [head] + [];
      FreeAllFirst(nodes, head, []);
    } else {
      var next, at := WrapInt32(es[0].msg.next), Link(head, es, |es|);
      LeadsTail(c, d, bSize, head, es);
      assert Addrs(es) + [at] == [head] + (Addrs(es[1..]) + [at]);
      FreeAllFirst(nodes, head, Addrs(es[1..]) + [at]);
      if Free(nodes, head).Some? {
        FreeProgress(nodes, head);
        DrainFails(c, d, bSize, Free(nodes, head).value, next, es[1..]);
      }
    }
  }

  /** Recv then plans nothing, so it writes nothing. */
  lemma RecvFails(c: Codec, d: bytes, g: Geo, id: BoxId, es: seq<Entry>)
    requires Drainable(d) && ParseHeader(d) == Some(g) && HasState(d, g)
    ensures g.bSize >= 4 && NodeOff(g.nodeCnt) <= g.sSize && Complete(LoadNodes(ReadState(d, g), g.nodeCnt))
    ensures var s := ReadState(d, g);
            Fails(c, d, g.bSize, LoadNodes(s, g.nodeCnt), WrapInt32(Head(s, id)), es) ==> PlanRecv(c, d, id).None?
  {
    hide ParseHeader;
    hide ReadState;
    hide LoadNodes;
    hide Drain;
    hide Fails;
    hide WrapInt32;
    hide Head;
    ParsedGeo(d);
    var s := ReadState(d, g);
    if Fails(c, d, g.bSize, LoadNodes(s, g.nodeCnt), WrapInt32(Head(s, id)), es) {
      DrainFails(c, d, g.bSize, LoadNodes(s, g.nodeCnt), WrapInt32(Head(s, id)), es);
    }
  }

  // ---------------------------------------------------------------------------------------
  // Draining a mailbox
  // ---------------------------------------------------------------------------------------

  ghost predicate AddrsDiffer(es: seq<Entry>) {
    forall i, j :: 0 <= i < j < |es| ==> es[i].addr != es[j].addr
  }

  /** What the loop needs of the part of the list that is still to be drained. */
  ghost predicate Draining(c: Codec, d: bytes, bSize: nat, h: nat, S: set<Block>, es: seq<Entry>)
    requires bSize > 0
  {
    && Chained(es) && AddrsDiffer(es) && Readable(c, bSize, es)
    && BoxBlocks(c, bSize, es) <= S
    && (forall i :: 0 <= i < |es| ==> FrameAt(c, d, bSize, es[i]) && es[i].addr * bSize + bSize <= |d|)
  }

  lemma DrainingTail(c: Codec, d: bytes, bSize: nat, h: nat, S: set<Block>, es: seq<Entry>)
    requires bSize > 0 && es != [] && Draining(c, d, bSize, h, S, es)
    ensures BlockOf(c, bSize, es[0]) in S
    ensures Draining(c, d, bSize, h, S - {BlockOf(c, bSize, es[0])}, es[1..])
    ensures BoxBlocks(c, bSize, es) == {BlockOf(c, bSize, es[0])} + BoxBlocks(c, bSize, es[1..])
    ensures DeliverAll(es) == [Deliver(es[0].msg)] + DeliverAll(es[1..])
  {
    hide FrameAt;
    var b, t := BlockOf(c, bSize, es[0]), es[1..];
    assert forall i :: 0 <= i < |t| ==> t[i] == es[i + 1];
    assert BlockOf(c, bSize, es[0]) in BoxBlocks(c, bSize, es);
    forall x | x in BoxBlocks(c, bSize, t)
      ensures x in S - {b} && x in BoxBlocks(c, bSize, es)
    {
      var i :| 0 <= i < |t| && x == BlockOf(c, bSize, t[i]);
      assert t[i] == es[i + 1];
      assert BlockOf(c, bSize, es[i + 1]) in BoxBlocks(c, bSize, es);
      assert es[0].addr != es[i + 1].addr;
    }
    forall x | x in BoxBlocks(c, bSize, es)
      ensures x in {b} + BoxBlocks(c, bSize, t)
    {
      var i :| 0 <= i < |es| && x == BlockOf(c, bSize, es[i]);
      if i > 0 { assert t[i - 1] == es[i]; }
    }
  }

  /** Draining a well-formed list delivers it whole, in order, and frees exactly its blocks. */
  lemma {:induction false} DrainSpec(c: Codec, d: bytes, bSize: nat, h: nat, S: set<Block>, nodes: seq<int32>, es: seq<Entry>)
    requires GoodCodec(c) && bSize >= 4 && h <= 29
    requires Draining(c, d, bSize, h, S, es)
    requires Represents(nodes, h, S)
    ensures Complete(nodes) && |nodes| + 1 < 0x8000_0000 && NoLeast(nodes)
    ensures var r := Drain(c, d, bSize, nodes, WrapInt32(HeadOf(es)));
            && r.Some? && r.value.0 == DeliverAll(es)
            && Represents(r.value.1, h, S - BoxBlocks(c, bSize, es))
    decreases |es|
  {
    hide Represents;
    hide Free;
    hide BoxBlocks;
    hide DeliverAll;
    hide BlockOf;
    hide FrameAt;
    NodesFit(nodes, h, S);
    if es == [] {
      NothingToDrain(c, bSize, S);
    } else {
      var e := es[0];
      var b := BlockOf(c, bSize, e);
      BlockStart(c, bSize, e);
      DrainingTail(c, d, bSize, h, S, es);
      ReadBackIff(c, d, bSize, e);
      WrapInt32Id(e.addr);
      FreeRefines(nodes, h, S, e.addr);
      assert Starts(S, e.addr);
      var freed := Free(nodes, e.addr).value;
      DrainSpec(c, d, bSize, h, S - {b}, freed, es[1..]);
      assert c.unmarshal(c.marshal(e.msg)) == Some(e.msg);
      assert S - {b} - BoxBlocks(c, bSize, es[1..]) == S - BoxBlocks(c, bSize, es);
    }
  }

  lemma NodesFit(nodes: seq<int32>, h: nat, S: set<Block>)
    requires Represents(nodes, h, S) && h <= 29
    ensures Complete(nodes) && |nodes| + 1 < 0x8000_0000 && NoLeast(nodes)
  {
    RepresentsComplete(nodes, h, S);
    RepresentsNoLeast(nodes, h, S);
    SizeFits(h + 1);
  }

  lemma NothingToDrain(c: Codec, bSize: nat, S: set<Block>)
    requires bSize > 0
    ensures WrapInt32(HeadOf([])) < 0
    ensures S - BoxBlocks(c, bSize, []) == S
    ensures DeliverAll([]) == []
  {
    assert BoxBlocks(c, bSize, []) == {};
  }

  /** Clearing a mailbox in a state. */
  lemma ClearState(c: Codec, g: Geo, h: nat, s: bytes, boxes: Boxes, id: BoxId, nodes: seq<int32>)
    requires GeoOk(g, h) && StateOk(c, g, h, s, boxes) && |nodes| == g.nodeCnt
    requires Represents(nodes, h, Live(c, g, boxes) - BoxBlocks(c, g.bSize, boxes[id - 1]))
    ensures StateOk(c, g, h, Rewrite(s, nodes, id, NULL), Clear(boxes, id))
  {
    hide Represents;
    hide Live;
    hide Rewrite;
    hide BoxBlocks;
    var after := Clear(boxes, id);
    RewriteReads(s, nodes, id, NULL);
    LiveClear(c, g, boxes, id);
    DistinctClear(boxes, id);
    assert forall j: BoxId :: Head(Rewrite(s, nodes, id, NULL), j) == HeadOf(after[j - 1]);
  }

  lemma BlockFits(addr: int, units: int, bSize: nat, len: nat)
    requires addr + 1 <= units && units * bSize <= len
    ensures addr * bSize + bSize <= len
  {
    MulMono(addr + 1, units, bSize);
    MulAdd(addr, 1, bSize);
  }

  /** The first block of an undelivered message is on the device. */
  lemma EntryFits(c: Codec, d: bytes, g: Geo, h: nat, boxes: Boxes, id: int, i: int)
    requires Holds(c, d, g, h, boxes) && 0 <= id < |boxes| && 0 <= i < |boxes[id]|
    ensures boxes[id][i].addr * g.bSize + g.bSize <= |d|
  {
    hide Represents;
    hide Frames;
    hide Pow2;
    hide RoundExp;
    hide ParseHeader;
    hide ReadState;
    hide LoadNodes;
    hide Live;
    LiveBlocks(LoadNodes(ReadState(d, g), g.nodeCnt), h, Live(c, g, boxes));
    LiveMember(c, g, boxes, id, i);
    BlockFits(boxes[id][i].addr, Pow2(h), g.bSize, |d|);
  }

  lemma BoxIsDraining(c: Codec, d: bytes, g: Geo, h: nat, boxes: Boxes, id: BoxId)
    requires Holds(c, d, g, h, boxes) && Readable(c, g.bSize, boxes[id - 1])
    ensures Draining(c, d, g.bSize, h, Live(c, g, boxes), boxes[id - 1])
  {
    hide Represents;
    hide FrameAt;
    hide Pow2;
    hide RoundExp;
    hide ParseHeader;
    hide ReadState;
    hide LoadNodes;
    hide Live;
    hide BoxBlocks;
    hide ReadsBack;
    var es := boxes[id - 1];
    LiveClear(c, g, boxes, id);
    forall i | 0 <= i < |es|
      ensures FrameAt(c, d, g.bSize, es[i]) && es[i].addr * g.bSize + g.bSize <= |d|
    {
      EntryFits(c, d, g, h, boxes, id - 1, i);
    }
  }

  /** On a disk that holds mailboxes, Recv delivers the whole box and plans to clear it. */
  lemma PlanRecvSpec(c: Codec, d: bytes, g: Geo, h: nat, boxes: Boxes, id: BoxId)
    requires GoodCodec(c) && Holds(c, d, g, h, boxes) && Readable(c, g.bSize, boxes[id - 1])
    ensures Drainable(d)
    ensures var p := PlanRecv(c, d, id);
            && p.Some?
            && p.value.msgs == DeliverAll(boxes[id - 1])
            && StateOk(c, g, h, p.value.state, Clear(boxes, id))
  {
    hide Represents;
    hide Live;
    hide Rewrite;
    hide Drain;
    hide Draining;
    hide ReadState;
    hide LoadNodes;
    hide ParseHeader;
    hide Frames;
    hide Pow2;
    var s := ReadState(d, g);
    var nodes := LoadNodes(s, g.nodeCnt);
    ParsedGeo(d);
    NodesFit(nodes, h, Live(c, g, boxes));
    assert g.bSize >= 4;
    BoxIsDraining(c, d, g, h, boxes, id);
    DrainSpec(c, d, g.bSize, h, Live(c, g, boxes), nodes, boxes[id - 1]);
    assert Head(s, id) == HeadOf(boxes[id - 1]);
    ClearState(c, g, h, s, boxes, id, Drain(c, d, g.bSize, nodes, WrapInt32(HeadOf(boxes[id - 1]))).value.1);
  }

  lemma FramesClear(c: Codec, d: bytes, bSize: nat, boxes: Boxes, id: BoxId)
    requires |boxes| == MAX_BOXES && Frames(c, d, bSize, boxes)
    ensures Frames(c, d, bSize, Clear(boxes, id))
  {
    hide FrameAt;
  }

  /** A completed Recv: the box is empty, nothing else changed. */
  lemma RecvCompletes(c: Codec, d: bytes, g: Geo, h: nat, boxes: Boxes, id: BoxId)
    requires GoodCodec(c) && Holds(c, d, g, h, boxes) && Readable(c, g.bSize, boxes[id - 1])
    ensures Drainable(d) && PlanRecv(c, d, id).Some?
    ensures var d' := ApplyAll(d, StateWrites(g, PlanRecv(c, d, id).value.state));
            Holds(c, d', g, h, Clear(boxes, id)) && Clean(d', g)
  {
    hide PlanRecv;
    hide StateOk;
    hide Frames;
    hide ReadState;
    hide ApplyAll;
    hide ParseHeader;
    HoldsSize(c, d, g, h, boxes);
    PlanRecvSpec(c, d, g, h, boxes, id);
    var s := PlanRecv(c, d, id).value.state;
    StateLengths(c, g, h, s, Clear(boxes, id));
    FramesClear(c, d, g.bSize, boxes, id);
    StateWritten(d, g, s);
    NewState(c, d, ApplyAll(d, StateWrites(g, s)), g, h, boxes, Clear(boxes, id));
  }

  /** An interrupted Recv: exactly the old mailboxes or exactly the new ones. */
  lemma RecvAtomic(c: Codec, d: bytes, g: Geo, h: nat, boxes: Boxes, id: BoxId, d': bytes)
    requires GoodCodec(c) && Holds(c, d, g, h, boxes) && Readable(c, g.bSize, boxes[id - 1]) && Recoverable(d, g)
    requires Drainable(d) && PlanRecv(c, d, id).Some?
    requires Interrupted(d, StateWrites(g, PlanRecv(c, d, id).value.state), d')
    ensures Holds(c, d', g, h, boxes) || Holds(c, d', g, h, Clear(boxes, id))
  {
    hide PlanRecv;
    hide StateOk;
    hide Frames;
    hide ReadState;
    hide Interrupted;
    hide ParseHeader;
    HoldsSize(c, d, g, h, boxes);
    PlanRecvSpec(c, d, g, h, boxes, id);
    var s := PlanRecv(c, d, id).value.state;
    StateLengths(c, g, h, s, Clear(boxes, id));
    StateAtomic(d, g, s, d');
    if ReadState(d', g) == s {
      FramesClear(c, d, g.bSize, boxes, id);
      NewState(c, d, d', g, h, boxes, Clear(boxes, id));
    } else {
      NewState(c, d, d', g, h, boxes, boxes);
    }
  }

  /** A state in which a non-empty mailbox is listed is not a state in which it is empty. */
  lemma ClearedDiffers(c: Codec, g: Geo, h: nat, s: bytes, boxes: Boxes, id: BoxId)
    requires g.bSize > 0 && StateOk(c, g, h, s, boxes) && boxes[id - 1] != []
    ensures !StateOk(c, g, h, s, Clear(boxes, id))
  {
    hide Represents;
    hide Live;
    assert Head(s, id) == HeadOf(boxes[id - 1]) && HeadOf(Clear(boxes, id)[id - 1]) == NULL;
  }

  /**
   After an interrupted Recv the mailbox is empty if and only if it was before or the first two state
   copies hold the planned state; otherwise the mailboxes are the old ones.
   */
  lemma RecvLandedIff(c: Codec, d: bytes, g: Geo, h: nat, boxes: Boxes, id: BoxId, d': bytes)
    requires GoodCodec(c) && Holds(c, d, g, h, boxes) && Readable(c, g.bSize, boxes[id - 1]) && Recoverable(d, g)
    requires Drainable(d) && PlanRecv(c, d, id).Some?
    requires d' == d || Interrupted(d, StateWrites(g, PlanRecv(c, d, id).value.state), d')
    ensures var s := PlanRecv(c, d, id).value.state;
            && (Holds(c, d', g, h, Clear(boxes, id)) <==> boxes[id - 1] == [] || Landed(d', g, s))
            && (!Landed(d', g, s) ==> Holds(c, d', g, h, boxes))
  {
    hide PlanRecv;
    hide Holds;
    hide Interrupted;
    hide Copy0;
    hide Copy1;
    hide Copy2;
    hide StateOk;
    HoldsSize(c, d, g, h, boxes);
    PlanRecvSpec(c, d, g, h, boxes, id);
    var s := PlanRecv(c, d, id).value.state;
    if boxes[id - 1] == [] {
      assert Clear(boxes, id) == boxes;
      if d' != d { RecvAtomic(c, d, g, h, boxes, id, d'); }
    } else {
      ClearSeen(c, d, d', g, h, boxes, id, s);
    }
  }

  lemma ClearSeen(c: Codec, d: bytes, d': bytes, g: Geo, h: nat, boxes: Boxes, id: BoxId, s: bytes)
    requires Holds(c, d, g, h, boxes) && HasState(d, g) && Recoverable(d, g) && boxes[id - 1] != []
    requires StateOk(c, g, h, s, Clear(boxes, id))
    requires d' == d || Interrupted(d, StateWrites(g, s), d')
    ensures Holds(c, d', g, h, Clear(boxes, id)) <==> Landed(d', g, s)
    ensures !Landed(d', g, s) ==> Holds(c, d', g, h, boxes)
  {
    hide Frames;
    hide ParseHeader;
    hide Represents;
    hide Interrupted;
    hide StateOk;
    hide GeoOk;
    hide ReadState;
    hide Copy0;
    hide Copy1;
    hide Copy2;
    HoldsSize(c, d, g, h, boxes);
    StateLengths(c, g, h, s, Clear(boxes, id));
    ClearedDiffers(c, g, h, ReadState(d, g), boxes, id);
    RecoverableReads(d, g);
    if d' != d {
      FramesClear(c, d, g.bSize, boxes, id);
      LandedIff(d, g, s, d');
      StateInterrupted(d, g, s, d');
      if Landed(d', g, s) {
        NewState(c, d, d', g, h, boxes, Clear(boxes, id));
      } else {
        NewState(c, d, d', g, h, boxes, boxes);
      }
    }
  }
}
