/**
 The data file of pkg/diskrpc/mailbox.go as bytes: HEADER STATE[0] STATE[1] STATE[2] DATA, the
 writes made to it, and what an interruption in the middle of a write can leave behind.
 */
module Disk {
  import opened Options
  import opened Arith
  import opened Bytes

  // ---------------------------------------------------------------------------------------
  // Writes and interruptions
  // ---------------------------------------------------------------------------------------

  datatype Write = Write(off: nat, data: bytes)

  predicate Fits(d: bytes, w: Write) {
    w.off + |w.data| <= |d|
  }

  /** A completed write; one past the end of the device fails without effect. */
  function Apply(d: bytes, w: Write): (r: bytes)
    ensures |r| == |d|
  {
    if Fits(d, w) then d[..w.off] + w.data + d[w.off + |w.data|..] else d
  }

  function ApplyAll(d: bytes, ws: seq<Write>): (r: bytes)
    ensures |r| == |d|
    decreases |ws|
  {
    if ws == [] then d else ApplyAll(Apply(d, ws[0]), ws[1..])
  }

  /** d and d' agree outside the bytes lo..hi. */
  ghost predicate SameOutside(d: bytes, d': bytes, lo: int, hi: int) {
    |d| == |d'| && forall i :: 0 <= i < |d| && !(lo <= i < hi) ==> d'[i] == d[i]
  }

  /** The write was interrupted: its region holds arbitrary bytes. */
  ghost predicate Torn(d: bytes, w: Write, d': bytes) {
    SameOutside(d, d', w.off, w.off + |w.data|)
  }

  /** The sequence of writes was interrupted during one of them, or completed. */
  ghost predicate Interrupted(d: bytes, ws: seq<Write>, d': bytes)
    decreases |ws|
  {
    if ws == [] then d' == d
    else Torn(d, ws[0], d') || Interrupted(Apply(d, ws[0]), ws[1..], d')
  }

  lemma ApplySame(d: bytes, w: Write)
    ensures Torn(d, w, Apply(d, w))
    ensures Fits(d, w) ==> Apply(d, w)[w.off..w.off + |w.data|] == w.data
  {
  }

  lemma SameRange(d: bytes, d': bytes, lo: int, hi: int, p: nat, q: nat)
    requires SameOutside(d, d', lo, hi) && p <= q <= |d| && (q <= lo || hi <= p)
    ensures d'[p..q] == d[p..q]
  {
  }

  lemma SameWider(d: bytes, e: bytes, lo: int, hi: int, lo': int, hi': int)
    requires SameOutside(d, e, lo, hi) && lo' <= lo && hi <= hi'
    ensures SameOutside(d, e, lo', hi')
  {
  }

  // ---------------------------------------------------------------------------------------
  // HEADER
  // ---------------------------------------------------------------------------------------

  const PLATFORM_BLOCK: nat := 4096
  const DATA_VERSION: byte := 1
  const MAX_BOXES: nat := 2000
  const HEADS: nat := 192
  const TREE: nat := 8192
  const NULL: uint32 := 0xFFFF_FFFF

  /** "csi-sanlock-lvm\n" */
  const MAGIC: bytes := [99, 115, 105, 45, 115, 97, 110, 108, 111, 99, 107, 45, 108, 118, 109, 10]

  /** What the header says: block size, bytes of one STATE copy, number of allocator nodes. */
  datatype Geo = Geo(bSize: nat, sSize: nat, nodeCnt: nat)

  function ToBlocks(bSize: nat, size: nat): (n: nat)
    requires bSize > 0 && size > 0
  {
    (size - 1) / bSize + 1
  }

  lemma ToBlocksCover(bSize: nat, size: nat)
    requires bSize > 0 && size > 0
    ensures ToBlocks(bSize, size) >= 1
    ensures (ToBlocks(bSize, size) - 1) * bSize < size <= ToBlocks(bSize, size) * bSize
  {
    var q, r := (size - 1) / bSize, (size - 1) % bSize;
    assert size - 1 == bSize * q + r;
    assert (q + 1) * bSize == q * bSize + bSize;
  }

  function ParseHeader(d: bytes): Option<Geo> {
    if |d| < PLATFORM_BLOCK || d[..16] != MAGIC || d[16] != DATA_VERSION || d[17] != 0 then None
    else
      var bSize := Slot(d, 18);
      var aSize := Slot(d, 26);
      if bSize == 0 || bSize % PLATFORM_BLOCK != 0 || !IsPow2(aSize + 4) then None
      else Some(Geo(bSize, ToBlocks(bSize, TREE + aSize) * bSize, aSize / 4))
  }

  /** The header block that format writes. */
  function HeaderBlock(bSize: uint32, fSize: uint32, aSize: uint32): (r: bytes)
    requires bSize >= PLATFORM_BLOCK
    ensures |r| == bSize
  {
    var b := MAGIC + [DATA_VERSION, ZERO] + Zeros(bSize - 18);
    SetSlot(SetSlot(SetSlot(b, 18, bSize), 22, fSize), 26, aSize)
  }

  /** Reading a formatted header gives back the sizes format worked with. */
  lemma HeaderRoundTrip(d: bytes, bSize: uint32, fSize: uint32, aSize: uint32)
    requires bSize >= PLATFORM_BLOCK && bSize % PLATFORM_BLOCK == 0 && IsPow2(aSize + 4)
    requires |d| >= bSize && d[..bSize] == HeaderBlock(bSize, fSize, aSize)
    ensures ParseHeader(d) == Some(Geo(bSize, ToBlocks(bSize, TREE + aSize) * bSize, aSize / 4))
  {
    hide IsPow2;
    hide ToBlocks;
    hide GetLE;
    hide PutLE;
    var b0 := MAGIC + [DATA_VERSION, ZERO] + Zeros(bSize - 18);
    var b1 := SetSlot(b0, 18, bSize);
    var b2 := SetSlot(b1, 22, fSize);
    var b3 := SetSlot(b2, 26, aSize);
    SetSlotReads(b0, 18, bSize);
    SetSlotReads(b1, 22, fSize);
    SetSlotReads(b2, 26, aSize);
    assert Slot(b3, 18) == bSize && Slot(b3, 26) == aSize;
    assert d[18..22] == b3[18..22];
    assert d[26..30] == b3[26..30];
    forall i | 0 <= i < 18 ensures d[i] == b0[i] { assert d[i] == d[..bSize][i] == b3[i]; }
    assert d[..16] == MAGIC;
    assert d[16] == b0[16] && d[17] == b0[17];
  }

  /** Four bytes, the least significant first. */
  function Word(d: bytes, off: nat): int
    requires off + 4 <= |d|
  {
    (d[off] as int) + 0x100 * (d[off + 1] as int) + 0x1_0000 * (d[off + 2] as int) + 0x100_0000 * (d[off + 3] as int)
  }

  lemma SlotIsWord(d: bytes, off: nat)
    requires off + 4 <= |d|
    ensures Slot(d, off) == Word(d, off)
  {
  }

  /** The bytes of a header: magic text, version, a zero, three words, and zeros. */
  lemma HeaderBytes(bSize: uint32, fSize: uint32, aSize: uint32)
    requires bSize >= PLATFORM_BLOCK
    ensures var r := HeaderBlock(bSize, fSize, aSize);
            && |r| == bSize
            && (forall i :: 0 <= i < 16 ==> r[i] as char == "csi-sanlock-lvm\n"[i])
            && r[16] == 1 && r[17] == 0
            && Word(r, 18) == bSize && Word(r, 22) == fSize && Word(r, 26) == aSize
            && (forall i :: 30 <= i < |r| ==> r[i] == 0)
  {
    hide GetLE;
    hide PutLE;
    var b0 := MAGIC + [DATA_VERSION, ZERO] + Zeros(bSize - 18);
    var b1 := SetSlot(b0, 18, bSize);
    var b2 := SetSlot(b1, 22, fSize);
    var r := HeaderBlock(bSize, fSize, aSize);
    SetSlotReads(b0, 18, bSize);
    SetSlotReads(b1, 22, fSize);
    SetSlotReads(b2, 26, aSize);
    SlotIsWord(r, 18);
    SlotIsWord(r, 22);
    SlotIsWord(r, 26);
    MagicText();
    forall i | 0 <= i < |r| && (i < 18 || 30 <= i)
      ensures r[i] == b0[i]
    {
    }
  }

  lemma MagicText()
    ensures |MAGIC| == 16 && forall i :: 0 <= i < 16 ==> MAGIC[i] as char == "csi-sanlock-lvm\n"[i]
  {
  }

  /**
   readHeader accepts a device if and only if it has a whole platform block that starts with the magic
   text, version 1 and a zero, a block size that is a positive multiple of 4096, and an allocator size
   that is four less than a power of two; it then returns those sizes, and the least number of whole
   blocks that a state needs.
   */
  lemma AcceptedIff(d: bytes)
    ensures ParseHeader(d).Some? <==>
              && |d| >= 4096 && (forall i :: 0 <= i < 16 ==> d[i] as char == "csi-sanlock-lvm\n"[i])
              && d[16] == 1 && d[17] == 0
              && Word(d, 18) > 0 && Word(d, 18) % 4096 == 0 && IsPow2(Word(d, 26) + 4)
    ensures ParseHeader(d).Some? ==>
              var g, size := ParseHeader(d).value, 8192 + Word(d, 26);
              && g.bSize == Word(d, 18) && g.nodeCnt == Word(d, 26) / 4
              && exists n: nat :: g.sSize == n * g.bSize && (n - 1) * g.bSize < size <= n * g.bSize
  {
    hide GetLE;
    hide IsPow2;
    hide ToBlocks;
    if |d| >= 4096 {
      SlotIsWord(d, 18);
      SlotIsWord(d, 26);
      MagicText();
      TextIff(d);
      if ParseHeader(d).Some? {
        ToBlocksCover(Slot(d, 18), TREE + Slot(d, 26));
      }
    }
  }

  lemma TextIff(d: bytes)
    requires |d| >= 16
    ensures d[..16] == MAGIC <==> forall i :: 0 <= i < 16 ==> d[i] as char == "csi-sanlock-lvm\n"[i]
  {
    MagicText();
    if forall i :: 0 <= i < 16 ==> d[i] as char == "csi-sanlock-lvm\n"[i] {
      forall i | 0 <= i < 16
        ensures d[i] == MAGIC[i]
      {
        assert d[i] as char == MAGIC[i] as char;
      }
    }
  }

  /** The header is read from the first block alone. */
  lemma HeaderStable(d: bytes, d': bytes, lo: int, hi: int)
    requires SameOutside(d, d', lo, hi) && PLATFORM_BLOCK <= lo
    ensures ParseHeader(d') == ParseHeader(d)
  {
    if |d| >= PLATFORM_BLOCK {
      SameRange(d, d', lo, hi, 0, 16);
      SameRange(d, d', lo, hi, 18, 22);
      SameRange(d, d', lo, hi, 26, 30);
    }
  }

  // ---------------------------------------------------------------------------------------
  // The three STATE copies
  // ---------------------------------------------------------------------------------------

  predicate HasState(d: bytes, g: Geo) {
    g.bSize + 3 * g.sSize <= |d|
  }

  function Copy0(d: bytes, g: Geo): bytes
    requires HasState(d, g)
  {
    d[g.bSize..g.bSize + g.sSize]
  }

  function Copy1(d: bytes, g: Geo): bytes
    requires HasState(d, g)
  {
    d[g.bSize + g.sSize..g.bSize + 2 * g.sSize]
  }

  function Copy2(d: bytes, g: Geo): bytes
    requires HasState(d, g)
  {
    d[g.bSize + 2 * g.sSize..g.bSize + 3 * g.sSize]
  }

  /** readState: the first copy when it agrees with the second, the third otherwise. */
  function ReadState(d: bytes, g: Geo): (s: bytes)
    requires HasState(d, g)
    ensures |s| == g.sSize
  {
    if Copy0(d, g) == Copy1(d, g) then Copy0(d, g) else Copy2(d, g)
  }

  /** writeState: the three writes, in order. */
  function StateWrites(g: Geo, s: bytes): seq<Write> {
    [Write(g.bSize, s), Write(g.bSize + g.sSize, s), Write(g.bSize + 2 * g.sSize, s)]
  }

  /** All three copies agree. */
  predicate Clean(d: bytes, g: Geo)
    requires HasState(d, g)
  {
    Copy0(d, g) == Copy1(d, g) == Copy2(d, g)
  }

  /** The condition under which the next state write may be interrupted safely. */
  predicate Recoverable(d: bytes, g: Geo)
    requires HasState(d, g)
  {
    Copy1(d, g) == Copy2(d, g)
  }

  lemma WriteCopy0(d: bytes, g: Geo, s: bytes, d': bytes)
    requires HasState(d, g) && |s| == g.sSize && Torn(d, Write(g.bSize, s), d')
    ensures HasState(d', g) && Copy1(d', g) == Copy1(d, g) && Copy2(d', g) == Copy2(d, g)
    ensures d' == Apply(d, Write(g.bSize, s)) ==> Copy0(d', g) == s
  {
    SameRange(d, d', g.bSize, g.bSize + g.sSize, g.bSize + g.sSize, g.bSize + 2 * g.sSize);
    SameRange(d, d', g.bSize, g.bSize + g.sSize, g.bSize + 2 * g.sSize, g.bSize + 3 * g.sSize);
    ApplySame(d, Write(g.bSize, s));
  }

  lemma WriteCopy1(d: bytes, g: Geo, s: bytes, d': bytes)
    requires HasState(d, g) && |s| == g.sSize && Torn(d, Write(g.bSize + g.sSize, s), d')
    ensures HasState(d', g) && Copy0(d', g) == Copy0(d, g) && Copy2(d', g) == Copy2(d, g)
    ensures d' == Apply(d, Write(g.bSize + g.sSize, s)) ==> Copy1(d', g) == s
  {
    var lo, hi := g.bSize + g.sSize, g.bSize + 2 * g.sSize;
    SameRange(d, d', lo, hi, g.bSize, lo);
    SameRange(d, d', lo, hi, hi, g.bSize + 3 * g.sSize);
    ApplySame(d, Write(lo, s));
  }

  lemma WriteCopy2(d: bytes, g: Geo, s: bytes, d': bytes)
    requires HasState(d, g) && |s| == g.sSize && Torn(d, Write(g.bSize + 2 * g.sSize, s), d')
    ensures HasState(d', g) && Copy0(d', g) == Copy0(d, g) && Copy1(d', g) == Copy1(d, g)
    ensures d' == Apply(d, Write(g.bSize + 2 * g.sSize, s)) ==> Copy2(d', g) == s
  {
    var lo, hi := g.bSize + 2 * g.sSize, g.bSize + 3 * g.sSize;
    SameRange(d, d', lo, hi, g.bSize, g.bSize + g.sSize);
    SameRange(d, d', lo, hi, g.bSize + g.sSize, lo);
    ApplySame(d, Write(lo, s));
  }

  lemma ThreeWrites(d: bytes, a: Write, b: Write, c: Write)
    ensures ApplyAll(d, [a, b, c]) == Apply(Apply(Apply(d, a), b), c)
    ensures forall d' :: Interrupted(d, [a, b, c], d') <==>
              || Torn(d, a, d') || Torn(Apply(d, a), b, d') || Torn(Apply(Apply(d, a), b), c, d')
  {
    hide Apply;
    hide Torn;
    assert [a, b, c][1..] == [b, c] && [b, c][1..] == [c] && [c][1..] == [];
    assert ApplyAll(Apply(Apply(d, a), b), [c]) == Apply(Apply(Apply(d, a), b), c);
    assert ApplyAll(Apply(d, a), [b, c]) == ApplyAll(Apply(Apply(d, a), b), [c]);
    assert ApplyAll(d, [a, b, c]) == ApplyAll(Apply(d, a), [b, c]);
    forall d'
      ensures Interrupted(d, [a, b, c], d') <==>
              || Torn(d, a, d') || Torn(Apply(d, a), b, d') || Torn(Apply(Apply(d, a), b), c, d')
    {
      var e := Apply(Apply(d, a), b);
      ApplySame(e, c);
      assert Interrupted(Apply(e, c), [], d') <==> d' == Apply(e, c);
      assert Interrupted(e, [c], d') <==> Torn(e, c, d') || Interrupted(Apply(e, c), [], d');
      assert Interrupted(Apply(d, a), [b, c], d') <==> Torn(Apply(d, a), b, d') || Interrupted(e, [c], d');
      assert Interrupted(d, [a, b, c], d') <==> Torn(d, a, d') || Interrupted(Apply(d, a), [b, c], d');
    }
  }

  /** What the three writes leave, whatever the copies held before. */
  lemma StateWritten(d: bytes, g: Geo, s: bytes)
    requires HasState(d, g) && |s| == g.sSize
    ensures var e := ApplyAll(d, StateWrites(g, s));
            && SameOutside(d, e, g.bSize, g.bSize + 3 * g.sSize)
            && HasState(e, g) && Clean(e, g) && ReadState(e, g) == s
  {
    hide Apply;
    hide ApplyAll;
    var ws := StateWrites(g, s);
    ThreeWrites(d, ws[0], ws[1], ws[2]);
    var d1 := Apply(d, ws[0]);
    var d2 := Apply(d1, ws[1]);
    var d3 := Apply(d2, ws[2]);
    ApplySame(d, ws[0]);
    ApplySame(d1, ws[1]);
    ApplySame(d2, ws[2]);
    WriteCopy0(d, g, s, d1);
    WriteCopy1(d1, g, s, d2);
    WriteCopy2(d2, g, s, d3);
  }

  /** What an interruption of the three writes can leave. */
  lemma StateInterrupted(d: bytes, g: Geo, s: bytes, d': bytes)
    requires HasState(d, g) && |s| == g.sSize
    requires Interrupted(d, StateWrites(g, s), d')
    ensures SameOutside(d, d', g.bSize, g.bSize + 3 * g.sSize) && HasState(d', g)
    ensures || (Copy1(d', g) == Copy1(d, g) && Copy2(d', g) == Copy2(d, g))
            || (Copy0(d', g) == s && Copy2(d', g) == Copy2(d, g))
            || (Copy0(d', g) == s && Copy1(d', g) == s)
  {
    hide Apply;
    hide Interrupted;
    var ws := StateWrites(g, s);
    ThreeWrites(d, ws[0], ws[1], ws[2]);
    var d1 := Apply(d, ws[0]);
    var d2 := Apply(d1, ws[1]);
    ApplySame(d, ws[0]);
    ApplySame(d1, ws[1]);
    WriteCopy0(d, g, s, d1);
    WriteCopy1(d1, g, s, d2);
    if Torn(d, ws[0], d') {
      WriteCopy0(d, g, s, d');
    } else if Torn(d1, ws[1], d') {
      WriteCopy1(d1, g, s, d');
    } else {
      WriteCopy2(d2, g, s, d');
    }
  }

  /** From a recoverable disk, an interrupted state write reads as the old or the new state. */
  lemma StateAtomic(d: bytes, g: Geo, s: bytes, d': bytes)
    requires HasState(d, g) && |s| == g.sSize && Recoverable(d, g)
    requires Interrupted(d, StateWrites(g, s), d')
    ensures SameOutside(d, d', g.bSize, g.bSize + 3 * g.sSize) && HasState(d', g)
    ensures ReadState(d', g) == ReadState(d, g) || ReadState(d', g) == s
  {
    StateInterrupted(d, g, s, d');
  }

  /** The first two copies hold s: the state write got far enough to be seen. */
  predicate Landed(d: bytes, g: Geo, s: bytes) {
    HasState(d, g) && Copy0(d, g) == s && Copy1(d, g) == s
  }

  /** A recoverable disk reads as its third copy. */
  lemma RecoverableReads(d: bytes, g: Geo)
    requires HasState(d, g) && Recoverable(d, g)
    ensures ReadState(d, g) == Copy1(d, g) == Copy2(d, g)
  {
  }

  /** From a recoverable disk, an interrupted write of another state is seen exactly when it landed. */
  lemma LandedIff(d: bytes, g: Geo, s: bytes, d': bytes)
    requires HasState(d, g) && |s| == g.sSize && Recoverable(d, g) && s != ReadState(d, g)
    requires Interrupted(d, StateWrites(g, s), d')
    ensures HasState(d', g)
    ensures ReadState(d', g) == s <==> Landed(d', g, s)
    ensures !Landed(d', g, s) ==> ReadState(d', g) == ReadState(d, g)
  {
    hide Interrupted;
    StateInterrupted(d, g, s, d');
    RecoverableReads(d, g);
  }

  /** An interruption may come after the last byte. */
  lemma {:induction false} CompletedIsInterrupted(d: bytes, ws: seq<Write>)
    ensures Interrupted(d, ws, ApplyAll(d, ws))
    decreases |ws|
  {
    if ws != [] { CompletedIsInterrupted(Apply(d, ws[0]), ws[1..]); }
  }

  function NextByte(b: byte): (r: byte)
    ensures r != b
  {
    ((b as int) + 1) % 256
  }

  /** Every interrupted write of any state reads as the old or the new state. */
  ghost predicate NextWriteAtomic(d: bytes, g: Geo)
    requires HasState(d, g)
  {
    forall s, d' :: |s| == g.sSize && Interrupted(d, StateWrites(g, s), d') && HasState(d', g)
      ==> ReadState(d', g) == ReadState(d, g) || ReadState(d', g) == s
  }

  /**
   On a disk whose second and third copies differ, rewriting the very state that is read, cut while
   the first copy is being written, can make another state appear.
   */
  lemma UnsafeWrite(d: bytes, g: Geo) returns (d': bytes)
    requires HasState(d, g) && g.sSize > 0 && !Recoverable(d, g)
    ensures Interrupted(d, StateWrites(g, ReadState(d, g)), d') && HasState(d', g)
    ensures ReadState(d', g) != ReadState(d, g)
  {
    var c := Copy1(d, g);
    var z := if Copy0(d, g) == c then c[0 := NextByte(c[0])] else c;
    assert z == c || z[0] != c[0];
    var w := Write(g.bSize, z);
    d' := Apply(d, w);
    ApplySame(d, w);
    WriteCopy0(d, g, z, d');
    var ws := StateWrites(g, ReadState(d, g));
    assert Torn(d, ws[0], d');
    ThreeWrites(d, ws[0], ws[1], ws[2]);
  }

  /**
   Such a disk is one interruption away from any clean one, and the next interruption can then install
   any bytes z as the state: the first write is cut in its second copy, the second one, of whatever
   state t, in its first copy.
   */
  lemma TwoInterruptions(d: bytes, g: Geo, s: bytes, t: bytes, z: bytes) returns (d1: bytes, d2: bytes)
    requires HasState(d, g) && Clean(d, g) && |s| == |t| == |z| == g.sSize && z != s
    ensures Interrupted(d, StateWrites(g, s), d1) && HasState(d1, g)
    ensures ReadState(d1, g) == ReadState(d, g) && (z != ReadState(d, g) ==> !Recoverable(d1, g))
    ensures Interrupted(d1, StateWrites(g, t), d2) && HasState(d2, g) && ReadState(d2, g) == z
  {
    hide Apply;
    hide Interrupted;
    var ws, vs := StateWrites(g, s), StateWrites(g, t);
    ThreeWrites(d, ws[0], ws[1], ws[2]);
    var d0 := Apply(d, ws[0]);
    ApplySame(d, ws[0]);
    WriteCopy0(d, g, s, d0);
    var w1 := Write(g.bSize + g.sSize, z);
    d1 := Apply(d0, w1);
    ApplySame(d0, w1);
    WriteCopy1(d0, g, z, d1);
    assert Torn(d0, ws[1], d1);
    var w2 := Write(g.bSize, z);
    d2 := Apply(d1, w2);
    ApplySame(d1, w2);
    WriteCopy0(d1, g, z, d2);
    assert Torn(d1, vs[0], d2);
    ThreeWrites(d1, vs[0], vs[1], vs[2]);
  }

  /**
   The triple copy makes the next state write atomic if and only if the second and third copies
   agree; in particular a disk left by an interruption in the second or third copy is not safe
   until some state write completes.
   */
  lemma AtomicIffRecoverable(d: bytes, g: Geo)
    requires HasState(d, g) && g.sSize > 0
    ensures NextWriteAtomic(d, g) <==> Recoverable(d, g)
  {
    hide Interrupted;
    hide ReadState;
    if Recoverable(d, g) {
      forall s, d' | |s| == g.sSize && Interrupted(d, StateWrites(g, s), d') && HasState(d', g)
        ensures ReadState(d', g) == ReadState(d, g) || ReadState(d', g) == s
      {
        StateAtomic(d, g, s, d');
      }
    } else {
      var d' := UnsafeWrite(d, g);
    }
  }
}
