/** Bytes, little-endian words, and the fixed word slots of a STATE segment. */
module Bytes {
  import opened Arith

  type byte = x: int | 0 <= x < 256
  type bytes = seq<byte>

  const ZERO: byte := 0

  function Zeros(n: nat): (r: bytes)
    ensures |r| == n
  {
    seq(n, _ => ZERO)
  }

  /** binary.LittleEndian.PutUint32. */
  function PutLE(v: uint32): (r: bytes)
    ensures |r| == 4
  {
    [v % 256, v / 256 % 256, v / 256 / 256 % 256, v / 256 / 256 / 256]
  }

  /** binary.LittleEndian.Uint32. */
  function GetLE(b: bytes): uint32
    requires |b| == 4
  {
    (b[0] as int) + 0x100 * (b[1] as int) + 0x1_0000 * (b[2] as int) + 0x100_0000 * (b[3] as int)
  }

  lemma GetPut(v: uint32)
    ensures GetLE(PutLE(v)) == v
  {
    var q1: int := v / 256;
    var q2: int := q1 / 256;
    var q3: int := q2 / 256;
    assert v == 256 * q1 + v % 256;
    assert q1 == 256 * q2 + q1 % 256;
    assert q2 == 256 * q3 + q2 % 256;
  }

  lemma PutGet(b: bytes)
    requires |b| == 4
    ensures PutLE(GetLE(b)) == b
  {
    var x0, x1, x2, x3 := b[0] as int, b[1] as int, b[2] as int, b[3] as int;
    var v := GetLE(b);
    assert v / 256 == x1 + 256 * x2 + 65536 * x3 && v % 256 == x0;
    assert v / 256 / 256 == x2 + 256 * x3 && v / 256 % 256 == x1;
    assert v / 256 / 256 / 256 == x3 && v / 256 / 256 % 256 == x2;
  }

  function Slot(s: bytes, off: nat): uint32
    requires off + 4 <= |s|
  {
    GetLE(s[off..off + 4])
  }

  function SetSlot(s: bytes, off: nat, v: uint32): (r: bytes)
    requires off + 4 <= |s|
    ensures |r| == |s|
  {
    s[..off] + PutLE(v) + s[off + 4..]
  }

  /** A slot holds what was last put there, and disjoint slots and bytes do not see the update. */
  lemma SetSlotReads(s: bytes, off: nat, v: uint32)
    requires off + 4 <= |s|
    ensures Slot(SetSlot(s, off, v), off) == v
    ensures forall o: nat :: o + 4 <= |s| && (o + 4 <= off || off + 4 <= o) ==> Slot(SetSlot(s, off, v), o) == Slot(s, o)
    ensures forall i :: 0 <= i < |s| && (i < off || off + 4 <= i) ==> SetSlot(s, off, v)[i] == s[i]
  {
    var r := SetSlot(s, off, v);
    assert r[off..off + 4] == PutLE(v);
    GetPut(v);
    forall o: nat | o + 4 <= |s| && (o + 4 <= off || off + 4 <= o)
      ensures Slot(r, o) == Slot(s, o)
    {
      assert r[o..o + 4] == s[o..o + 4];
    }
  }

  /** Equal words are equal bytes. */
  lemma SlotBytes(s: bytes, t: bytes, off: nat)
    requires off + 4 <= |s| && off + 4 <= |t| && Slot(s, off) == Slot(t, off)
    ensures s[off..off + 4] == t[off..off + 4]
  {
    PutGet(s[off..off + 4]);
    PutGet(t[off..off + 4]);
  }
}
