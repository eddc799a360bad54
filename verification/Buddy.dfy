/**
 The buddy allocator of pkg/diskrpc/allocator.go, as functions on the node array.

 Node `pos` of the implicit binary tree holds the size of the largest free aligned block below
 it, or minus its own size when it is allocated as a whole.  `Tree` is the shape such an array
 stands for, and `Blocks` the set of allocated blocks that shape stands for.
 */
module Buddy {
  import opened Options
  import opened Arith

  // ---------------------------------------------------------------------------------------
  // The array algorithm
  // ---------------------------------------------------------------------------------------

  function LeftPos(pos: nat): nat { 2 * pos + 1 }

  function RightPos(pos: nat): nat { 2 * pos + 2 }

  function Level(pos: nat): nat { Log2(pos + 1) }

  /** The closed form for the first unit covered by node `pos` of a tree of `len` nodes. */
  function Address(len: nat, pos: nat): int32 {
    var l := Level(pos);
    var size := (len + 1) / 2 / Pow2(l);
    WrapInt32((pos - (Pow2(l) - 1)) * size)
  }

  /** A complete tree: every node has two children or none. */
  predicate Complete(a: seq<int32>) {
    |a| == 0 || |a| % 2 == 1
  }

  lemma BothChildren(a: seq<int32>, pos: nat)
    requires Complete(a)
    ensures LeftPos(pos) < |a| <==> RightPos(pos) < |a|
  {
  }

  function InitAt(a: seq<int32>, pos: nat, free: int32): (r: seq<int32>)
    requires free >= 0
    ensures |r| == |a|
    decreases |a| - pos
  {
    if pos >= |a| then a
    else InitAt(InitAt(a[pos := free], LeftPos(pos), free / 2), RightPos(pos), free / 2)
  }

  function AllocAt(a: seq<int32>, pos: nat, size: int32): (r: (seq<int32>, int32))
    requires Complete(a) && pos < |a| && 0 < size <= a[pos]
    ensures |r.0| == |a|
    decreases |a| - pos
  {
    var l, r := LeftPos(pos), RightPos(pos);
    BothChildren(a, pos);
    if (l >= |a| || a[l] < size) && (r >= |a| || a[r] < size) then
      (a[pos := Negate(a[pos])], Address(|a|, pos))
    else
      var (b, addr) := if a[l] >= size then AllocAt(a, l, size) else AllocAt(a, r, size);
      (b[pos := Max(Max(b[l], b[r]), 0)], addr)
  }

  /** The Go negation `-x`, which maps the least 32-bit integer to itself. */
  function Negate(x: int32): int32 {
    var v: int := x;
    WrapInt32(-v)
  }

  /** The Go quotient `x / 2`, which truncates toward zero. */
  function Half(x: int32): int32 {
    if x >= 0 then x / 2 else 0 - (0 - x) / 2
  }

  /** Which way Free descends from node pos, with `half` half the size the node covers. */
  predicate GoesLeft(len: nat, pos: nat, half: int32, addr: int32) {
    WrapInt32(addr - Address(len, pos)) < half
  }

  /** Recompute node pos from its children after one of them gained a free block. */
  function Coalesce(b: seq<int32>, pos: nat, size: int32): (r: seq<int32>)
    requires RightPos(pos) < |b|
    ensures |r| == |b|
  {
    var l: int := b[LeftPos(pos)];
    var r: int := b[RightPos(pos)];
    b[pos := if WrapInt32(l + r) == size then size else Max(Max(l, r), 0)]
  }

  function FreeAt(a: seq<int32>, pos: nat, size: int32, addr: int32): (r: Option<seq<int32>>)
    requires Complete(a)
    ensures r.Some? ==> |r.value| == |a|
    decreases |a| - pos
  {
    if pos >= |a| then None
    else if a[pos] < 0 then
      if Address(|a|, pos) == addr then Some(a[pos := Negate(a[pos])]) else None
    else if RightPos(pos) > |a| then None
    else
      // `size / 2` on the Euclidean division is the arithmetic shift `size >> 1`.
      var child := if GoesLeft(|a|, pos, Half(size), addr) then LeftPos(pos) else RightPos(pos);
      var sub := FreeAt(a, child, size / 2, addr);
      if sub.None? then None else Some(Coalesce(sub.value, pos, size))
  }

  /** Alloc: the new nodes and the address, or nothing when there is no room. */
  function Alloc(a: seq<int32>, size: int32): (r: Option<(seq<int32>, int32)>)
    requires Complete(a) && |a| > 0
    ensures r.Some? ==> |r.value.0| == |a|
  {
    if size <= 0 || a[0] < size then None else Some(AllocAt(a, 0, size))
  }

  /** Free: the new nodes, or nothing when the address is not the start of an allocated block. */
  function Free(a: seq<int32>, addr: int32): (r: Option<seq<int32>>)
    requires Complete(a)
    ensures r.Some? ==> |r.value| == |a|
  {
    FreeAt(a, 0, Half(WrapInt32(|a| + 1)), addr)
  }

  // ---------------------------------------------------------------------------------------
  // Shapes
  // ---------------------------------------------------------------------------------------

  /** A buddy tree: wholly free, allocated as one block, or split into two buddies. */
  datatype Tree = Empty | Used | Split(l: Tree, r: Tree)

  function L(t: Tree): Tree { if t.Split? then t.l else Empty }

  function R(t: Tree): Tree { if t.Split? then t.r else Empty }

  /** Fits height h, and free buddies are always merged. */
  predicate Canon(t: Tree, h: nat) {
    t.Split? ==> h > 0 && Canon(t.l, h - 1) && Canon(t.r, h - 1) && !(t.l.Empty? && t.r.Empty?)
  }

  /** What the node at the root of t holds. */
  function Val(t: Tree, h: nat): int {
    match t
    case Empty => Pow2(h)
    case Used => 0 - Pow2(h)
    case Split(l, r) => if h == 0 then 0 else Max(Max(Val(l, h - 1), Val(r, h - 1)), 0)
  }

  lemma {:induction false} ValBounds(t: Tree, h: nat)
    requires Canon(t, h)
    ensures 0 - Pow2(h) <= Val(t, h) <= Pow2(h)
    ensures Val(t, h) == Pow2(h) <==> t.Empty?
    ensures Val(t, h) < 0 <==> t.Used?
    ensures t.Split? ==> Val(t, h) <= Pow2(h - 1)
  {
    if t.Split? {
      ValBounds(t.l, h - 1);
      ValBounds(t.r, h - 1);
    }
  }

  /** The subtree of `a` rooted at pos, of height h, stores exactly the shape t. */
  ghost predicate Stores(a: seq<int32>, pos: nat, h: nat, t: Tree)
    decreases h
  {
    && pos < |a|
    && a[pos] == Val(t, h)
    && (h > 0 ==> Stores(a, LeftPos(pos), h - 1, L(t)) && Stores(a, RightPos(pos), h - 1, R(t)))
  }

  /** `a` is the node array of a tree of 2^h units with shape t. */
  ghost predicate Nodes(a: seq<int32>, h: nat, t: Tree) {
    && |a| + 1 == Pow2(h + 1)
    && Canon(t, h)
    && Stores(a, 0, h, t)
  }

  /** q lies in the subtree rooted at pos. */
  predicate Under(q: nat, pos: nat)
    decreases q
  {
    q == pos || (q > pos && Under((q - 1) / 2, pos))
  }

  /** Node pos of a tree of 2^H units has height h and covers the units from off on. */
  predicate At(H: nat, pos: nat, h: nat, off: int)
    decreases pos
  {
    if pos == 0 then h == H && off == 0
    else h < H && At(H, (pos - 1) / 2, h + 1, if pos % 2 == 1 then off else off - Pow2(h))
  }

  lemma {:induction false} UnderApart(q: nat, pos: nat)
    ensures !(Under(q, LeftPos(pos)) && Under(q, RightPos(pos)))
    ensures Under(q, LeftPos(pos)) || Under(q, RightPos(pos)) ==> q != pos && Under(q, pos)
    decreases q
  {
    if q > RightPos(pos) {
      UnderApart((q - 1) / 2, pos);
    } else if q == RightPos(pos) {
      assert (q - 1) / 2 == pos;
    } else if q == LeftPos(pos) {
      assert (q - 1) / 2 == pos;
    }
  }

  /** a and b agree on the subtree rooted at pos. */
  ghost predicate SameOn(a: seq<int32>, b: seq<int32>, pos: nat) {
    |a| == |b| && forall q: nat {:trigger b[q]} :: q < |a| && Under(q, pos) ==> b[q] == a[q]
  }

  lemma SameOnChildren(a: seq<int32>, b: seq<int32>, pos: nat)
    requires SameOn(a, b, pos)
    ensures SameOn(a, b, LeftPos(pos)) && SameOn(a, b, RightPos(pos))
  {
    forall q: nat | q < |a|
      ensures Under(q, LeftPos(pos)) || Under(q, RightPos(pos)) ==> Under(q, pos)
    {
      UnderApart(q, pos);
    }
  }

  /** Only the nodes of a subtree decide what it stores. */
  lemma {:induction false} StoresFrame(a: seq<int32>, b: seq<int32>, pos: nat, h: nat, t: Tree)
    requires Stores(a, pos, h, t) && SameOn(a, b, pos)
    ensures Stores(b, pos, h, t)
    decreases h
  {
    assert Under(pos, pos);
    if h > 0 {
      SameOnChildren(a, b, pos);
      StoresFrame(a, b, LeftPos(pos), h - 1, L(t));
      StoresFrame(a, b, RightPos(pos), h - 1, R(t));
    }
  }

  lemma AtChildren(H: nat, pos: nat, h: nat, off: int)
    requires At(H, pos, h, off) && h > 0
    ensures At(H, LeftPos(pos), h - 1, off)
    ensures At(H, RightPos(pos), h - 1, off + Pow2(h - 1))
  {
    assert (LeftPos(pos) - 1) / 2 == pos && (RightPos(pos) - 1) / 2 == pos;
  }

  lemma ChildProduct(up: int, p: int, N: int, off: int)
    requires (up + 1) * (2 * p) == N + off
    ensures (2 * up + 2) * p == N + off
    ensures (2 * up + 3) * p == N + off + p
  {
    assert (2 * up + 3) * p == (2 * up + 2) * p + p;
  }

  lemma AtParent(H: nat, pos: nat, h: nat, off: int)
    requires At(H, pos, h, off)
    ensures if pos == 0 then h == H && off == 0
            else h < H && At(H, (pos - 1) / 2, h + 1, if pos % 2 == 1 then off else off - Pow2(h))
    ensures Pow2(h + 1) == 2 * Pow2(h)
  {
  }

  lemma {:induction false} AtProduct(H: nat, pos: nat, h: nat, off: int)
    requires At(H, pos, h, off)
    ensures h <= H && 0 <= off && off + Pow2(h) <= Pow2(H)
    ensures (pos + 1) * Pow2(h) == Pow2(H) + off
    decreases pos
  {
    hide At;
    hide Pow2;
    AtParent(H, pos, h, off);
    if pos > 0 {
      var up, p, left := (pos - 1) / 2, Pow2(h), pos % 2 == 1;
      var off' := if left then off else off - p;
      AtProduct(H, up, h + 1, off');
      ChildProduct(up, p, Pow2(H), off');
      assert pos + 1 == if left then 2 * up + 2 else 2 * up + 3;
    }
  }

  lemma MulLess(a: int, b: int, p: int)
    requires p >= 1 && a * p < b * p
    ensures a < b
  {
  }

  lemma DivMul(a: int, b: int)
    requires a >= 1
    ensures (a * b) / a == b
  {
    var q := (a * b) / a;
    assert a * b == a * q + (a * b) % a;
    assert b * a == a * b && q * a == a * q && (q + 1) * a == a * q + a && (b + 1) * a == a * b + a;
    MulLess(b, q + 1, a);
    MulLess(q, b + 1, a);
  }

  lemma AddressArith(P: int, p: int, N: int, pos: int, off: int)
    requires P >= 1 && p >= 1 && P * p == N && (pos + 1) * p == N + off && 0 <= off && off + p <= N
    ensures P <= pos + 1 < 2 * P
    ensures (pos - (P - 1)) * p == off
  {
    assert (pos + 2) * p == (pos + 1) * p + p;
    MulLess(P, pos + 2, p);
    assert (2 * P) * p == 2 * N;
    MulLess(pos + 1, 2 * P, p);
    assert (pos - (P - 1)) * p == (pos + 1) * p - P * p;
  }

  /** The closed-form address agrees with recursive halving, and leaves are at the end. */
  lemma AddressAt(len: nat, H: nat, pos: nat, h: nat, off: int)
    requires At(H, pos, h, off) && len + 1 == Pow2(H + 1) && H <= 30
    ensures Address(len, pos) == off
    ensures pos < len
    ensures h == 0 ==> LeftPos(pos) >= len
    ensures h > 0 ==> RightPos(pos) < len
  {
    hide Log2;
    hide WrapInt32;
    hide At;
    AtProduct(H, pos, h, off);
    var l := H - h;
    Pow2Add(l, h);
    AddressArith(Pow2(l), Pow2(h), Pow2(H), pos, off);
    DivMul(Pow2(l), Pow2(h));
    Log2Bounds(pos + 1, l);
    Pow2Mono(H, 30);
    Pow2Bound30();
    WrapInt32Id(off);
    Pow2Mono(l, H);
  }

  // ---------------------------------------------------------------------------------------
  // The algorithm on shapes
  // ---------------------------------------------------------------------------------------

  function AllocTree(t: Tree, h: nat, off: int, size: int): (r: (Tree, int))
    requires Canon(t, h) && 0 < size <= Val(t, h)
    ensures Canon(r.0, h) && !r.0.Empty?
  {
    if h == 0 || (Val(L(t), h - 1) < size && Val(R(t), h - 1) < size) then (Used, off)
    else if Val(L(t), h - 1) >= size then
      var (l, v) := AllocTree(L(t), h - 1, off, size);
      (Split(l, R(t)), v)
    else
      var (r, v) := AllocTree(R(t), h - 1, off + Pow2(h - 1), size);
      (Split(L(t), r), v)
  }

  function Merge(l: Tree, r: Tree): Tree {
    if l.Empty? && r.Empty? then Empty else Split(l, r)
  }

  function FreeTree(t: Tree, h: nat, off: int, addr: int): (r: Option<Tree>)
    requires Canon(t, h)
    ensures r.Some? ==> Canon(r.value, h)
    decreases h
  {
    match t
    case Empty => None
    case Used => if addr == off then Some(Empty) else None
    case Split(l, r) =>
      if addr - off < Pow2(h - 1) then
        var s := FreeTree(l, h - 1, off, addr);
        if s.None? then None else Some(Merge(s.value, r))
      else
        var s := FreeTree(r, h - 1, off + Pow2(h - 1), addr);
        if s.None? then None else Some(Merge(l, s.value))
  }

  /** b differs from a only in the subtree rooted at pos. */
  ghost predicate SameElsewhere(a: seq<int32>, b: seq<int32>, pos: nat) {
    |a| == |b| && forall q: nat {:trigger b[q]} :: q < |a| && !Under(q, pos) ==> b[q] == a[q]
  }

  lemma SetNode(a: seq<int32>, pos: nat, v: int32)
    requires pos < |a|
    ensures SameElsewhere(a, a[pos := v], pos)
    ensures SameOn(a, a[pos := v], LeftPos(pos))
    ensures SameOn(a, a[pos := v], RightPos(pos))
  {
    forall q: nat | q < |a|
      ensures Under(q, LeftPos(pos)) || Under(q, RightPos(pos)) ==> q != pos
    {
      UnderApart(q, pos);
    }
  }

  lemma Widen(a: seq<int32>, b: seq<int32>, pos: nat, left: bool)
    requires SameElsewhere(a, b, if left then LeftPos(pos) else RightPos(pos))
    ensures SameElsewhere(a, b, pos)
    ensures SameOn(a, b, if left then RightPos(pos) else LeftPos(pos))
  {
    forall q: nat | q < |a|
      ensures !(Under(q, LeftPos(pos)) && Under(q, RightPos(pos)))
      ensures Under(q, LeftPos(pos)) || Under(q, RightPos(pos)) ==> Under(q, pos)
    {
      UnderApart(q, pos);
    }
  }

  /** Rewriting one child subtree and then the node itself. */
  lemma RebuildLeft(a: seq<int32>, b: seq<int32>, pos: nat, h: nat, t: Tree, t': Tree, v: int32)
    requires h > 0 && Stores(a, pos, h, t)
    requires SameElsewhere(a, b, LeftPos(pos))
    requires Stores(b, LeftPos(pos), h - 1, L(t')) && R(t') == R(t) && v == Val(t', h)
    ensures Stores(b[pos := v], pos, h, t')
    ensures SameElsewhere(a, b[pos := v], pos)
  {
    SetNode(b, pos, v);
    Widen(a, b, pos, true);
    StoresFrame(a, b, RightPos(pos), h - 1, R(t'));
    StoresFrame(b, b[pos := v], LeftPos(pos), h - 1, L(t'));
    StoresFrame(b, b[pos := v], RightPos(pos), h - 1, R(t'));
  }

  lemma RebuildRight(a: seq<int32>, b: seq<int32>, pos: nat, h: nat, t: Tree, t': Tree, v: int32)
    requires h > 0 && Stores(a, pos, h, t)
    requires SameElsewhere(a, b, RightPos(pos))
    requires Stores(b, RightPos(pos), h - 1, R(t')) && L(t') == L(t) && v == Val(t', h)
    ensures Stores(b[pos := v], pos, h, t')
    ensures SameElsewhere(a, b[pos := v], pos)
  {
    SetNode(b, pos, v);
    Widen(a, b, pos, false);
    StoresFrame(a, b, LeftPos(pos), h - 1, L(t'));
    StoresFrame(b, b[pos := v], LeftPos(pos), h - 1, L(t'));
    StoresFrame(b, b[pos := v], RightPos(pos), h - 1, R(t'));
  }

  /** The other child keeps its value. */
  lemma SiblingValue(a: seq<int32>, b: seq<int32>, pos: nat, left: bool)
    requires RightPos(pos) < |a|
    requires SameElsewhere(a, b, if left then LeftPos(pos) else RightPos(pos))
    ensures left ==> b[RightPos(pos)] == a[RightPos(pos)]
    ensures !left ==> b[LeftPos(pos)] == a[LeftPos(pos)]
  {
    Widen(a, b, pos, left);
  }

  /** Flipping a node between wholly free and allocated leaves a free subtree below it. */
  lemma Flip(a: seq<int32>, pos: nat, h: nat, t: Tree, t': Tree, v: int32)
    requires !t.Split? && !t'.Split? && Stores(a, pos, h, t)
    requires v == Val(t', h)
    ensures Stores(a[pos := v], pos, h, t')
    ensures SameElsewhere(a, a[pos := v], pos)
  {
    SetNode(a, pos, v);
    if h > 0 {
      StoresFrame(a, a[pos := v], LeftPos(pos), h - 1, Empty);
      StoresFrame(a, a[pos := v], RightPos(pos), h - 1, Empty);
    }
  }

  lemma NotUnderChildren(pos: nat)
    ensures !Under(pos, LeftPos(pos)) && !Under(pos, RightPos(pos))
  {
  }

  lemma InitBoth(a1: seq<int32>, a2: seq<int32>, a3: seq<int32>, pos: nat, h: nat)
    requires h > 0 && RightPos(pos) < |a1| && a1[pos] == Pow2(h)
    requires SameElsewhere(a1, a2, LeftPos(pos)) && Stores(a2, LeftPos(pos), h - 1, Empty)
    requires SameElsewhere(a2, a3, RightPos(pos)) && Stores(a3, RightPos(pos), h - 1, Empty)
    ensures Stores(a3, pos, h, Empty)
    ensures SameElsewhere(a1, a3, pos)
  {
    Widen(a1, a2, pos, true);
    Widen(a2, a3, pos, false);
    StoresFrame(a2, a3, LeftPos(pos), h - 1, Empty);
    NotUnderChildren(pos);
    assert a3[pos] == a2[pos] == a1[pos];
  }

  lemma InitUnfold(a: seq<int32>, pos: nat, p: int32)
    requires pos < |a| && p >= 0
    ensures var a1 := a[pos := p];
            && SameElsewhere(a, a1, pos)
            && (forall b :: SameElsewhere(a1, b, pos) ==> SameElsewhere(a, b, pos))
            && (LeftPos(pos) >= |a| ==> InitAt(a, pos, p) == a1)
            && InitAt(a, pos, p) == InitAt(InitAt(a1, LeftPos(pos), p / 2), RightPos(pos), p / 2)
  {
    SetNode(a, pos, p);
  }

  lemma {:induction false} InitStores(a: seq<int32>, H: nat, pos: nat, h: nat, off: int)
    requires |a| + 1 == Pow2(H + 1) && H <= 30 && At(H, pos, h, off)
    requires Pow2(h) < 0x8000_0000
    ensures Stores(InitAt(a, pos, Pow2(h)), pos, h, Empty)
    ensures SameElsewhere(a, InitAt(a, pos, Pow2(h)), pos)
    decreases h
  {
    hide InitAt;
    hide Address;
    hide SameElsewhere;
    hide At;
    AddressAt(|a|, H, pos, h, off);
    var a1 := a[pos := Pow2(h)];
    InitUnfold(a, pos, Pow2(h));
    if h > 0 {
      AtChildren(H, pos, h, off);
      var p := Pow2(h - 1);
      assert Pow2(h) / 2 == p;
      InitStores(a1, H, LeftPos(pos), h - 1, off);
      var a2 := InitAt(a1, LeftPos(pos), p);
      InitStores(a2, H, RightPos(pos), h - 1, off + p);
      InitBoth(a1, a2, InitAt(a2, RightPos(pos), p), pos, h);
    }
  }

  // One step of the recursion of AllocAt, for each of its branches.

  lemma AllocLeft(a: seq<int32>, pos: nat, h: nat, t: Tree, size: int32, l: Tree)
    requires Complete(a) && h > 0 && RightPos(pos) < |a| && Stores(a, pos, h, t) && 0 < size <= a[pos] && size <= a[LeftPos(pos)]
    requires var b := AllocAt(a, LeftPos(pos), size).0;
             Stores(b, LeftPos(pos), h - 1, l) && SameElsewhere(a, b, LeftPos(pos))
    ensures AllocAt(a, pos, size).1 == AllocAt(a, LeftPos(pos), size).1
    ensures Stores(AllocAt(a, pos, size).0, pos, h, Split(l, R(t)))
    ensures SameElsewhere(a, AllocAt(a, pos, size).0, pos)
  {
    hide Address;
    hide WrapInt32;
    var b := AllocAt(a, LeftPos(pos), size).0;
    SiblingValue(a, b, pos, true);
    RebuildLeft(a, b, pos, h, t, Split(l, R(t)), Max(Max(b[LeftPos(pos)], b[RightPos(pos)]), 0));
  }

  lemma AllocRight(a: seq<int32>, pos: nat, h: nat, t: Tree, size: int32, r: Tree)
    requires Complete(a) && h > 0 && RightPos(pos) < |a| && Stores(a, pos, h, t) && 0 < size <= a[pos]
    requires a[LeftPos(pos)] < size <= a[RightPos(pos)]
    requires var b := AllocAt(a, RightPos(pos), size).0;
             Stores(b, RightPos(pos), h - 1, r) && SameElsewhere(a, b, RightPos(pos))
    ensures AllocAt(a, pos, size).1 == AllocAt(a, RightPos(pos), size).1
    ensures Stores(AllocAt(a, pos, size).0, pos, h, Split(L(t), r))
    ensures SameElsewhere(a, AllocAt(a, pos, size).0, pos)
  {
    hide Address;
    hide WrapInt32;
    var b := AllocAt(a, RightPos(pos), size).0;
    SiblingValue(a, b, pos, false);
    RebuildRight(a, b, pos, h, t, Split(L(t), r), Max(Max(b[LeftPos(pos)], b[RightPos(pos)]), 0));
  }

  lemma AllocHere(a: seq<int32>, pos: nat, h: nat, t: Tree, size: int32)
    requires Complete(a) && Canon(t, h) && Stores(a, pos, h, t) && 0 < size <= a[pos]
    requires h == 0 ==> LeftPos(pos) >= |a|
    requires h > 0 ==> RightPos(pos) < |a| && a[LeftPos(pos)] < size && a[RightPos(pos)] < size
    requires Pow2(h) < 0x8000_0000
    ensures AllocAt(a, pos, size).1 == Address(|a|, pos)
    ensures Stores(AllocAt(a, pos, size).0, pos, h, Used)
    ensures SameElsewhere(a, AllocAt(a, pos, size).0, pos)
  {
    hide Address;
    hide WrapInt32;
    ValBounds(t, h);
    assert t.Empty?;
    Flip(a, pos, h, t, Used, Negate(a[pos]));
  }

  lemma Pow2Odd(a: seq<int32>, H: nat)
    requires |a| + 1 == Pow2(H + 1)
    ensures Complete(a) && |a| > 0
  {
    assert Pow2(H + 1) == 2 * Pow2(H);
  }

  lemma AtSize(H: nat, pos: nat, h: nat, off: int)
    requires At(H, pos, h, off) && H <= 30
    ensures Pow2(h) <= 0x4000_0000 && 0 <= off < 0x4000_0000
  {
    AtProduct(H, pos, h, off);
    Pow2Mono(h, 30);
    Pow2Mono(H, 30);
    Pow2Bound30();
  }

  lemma {:induction false} AllocStores(a: seq<int32>, H: nat, pos: nat, h: nat, off: int, t: Tree, size: int32)
    requires |a| + 1 == Pow2(H + 1) && H <= 30 && At(H, pos, h, off)
    requires Canon(t, h) && Stores(a, pos, h, t) && 0 < size <= Val(t, h)
    ensures Complete(a)
    ensures AllocAt(a, pos, size).1 == AllocTree(t, h, off, size).1
    ensures Stores(AllocAt(a, pos, size).0, pos, h, AllocTree(t, h, off, size).0)
    ensures SameElsewhere(a, AllocAt(a, pos, size).0, pos)
    decreases h
  {
    hide Pow2;
    hide AllocAt;
    hide SameElsewhere;
    hide At;
    hide Address;
    hide WrapInt32;
    Pow2Odd(a, H);
    AddressAt(|a|, H, pos, h, off);
    AtSize(H, pos, h, off);
    if h == 0 {
      AllocHere(a, pos, h, t, size);
    } else {
      AtChildren(H, pos, h, off);
      if a[LeftPos(pos)] >= size {
        AllocStores(a, H, LeftPos(pos), h - 1, off, L(t), size);
        AllocLeft(a, pos, h, t, size, AllocTree(L(t), h - 1, off, size).0);
      } else if a[RightPos(pos)] >= size {
        AllocStores(a, H, RightPos(pos), h - 1, off + Pow2(h - 1), R(t), size);
        AllocRight(a, pos, h, t, size, AllocTree(R(t), h - 1, off + Pow2(h - 1), size).0);
      } else {
        AllocHere(a, pos, h, t, size);
      }
    }
  }

  /** Two buddies add up to the whole exactly when both are free. */
  lemma FreedValue(x: int32, y: int32, l: Tree, r: Tree, h: nat)
    requires h > 0 && Canon(l, h - 1) && Canon(r, h - 1) && Pow2(h) < 0x8000_0000
    requires x == Val(l, h - 1) && y == Val(r, h - 1)
    ensures Canon(Merge(l, r), h)
    ensures (if WrapInt32(x + y) == Pow2(h) then Pow2(h) else Max(Max(x, y), 0)) == Val(Merge(l, r), h)
  {
    ValBounds(l, h - 1);
    ValBounds(r, h - 1);
    var sum: int := x;
    sum := sum + y;
    WrapInt32Id(sum);
  }

  lemma StoresChildren(a: seq<int32>, pos: nat, h: nat, t: Tree)
    requires Stores(a, pos, h, t) && h > 0
    ensures Stores(a, LeftPos(pos), h - 1, L(t)) && Stores(a, RightPos(pos), h - 1, R(t))
  {
  }

  // One step of the recursion of FreeAt, for each of its branches.

  lemma FreeUnfold(a: seq<int32>, pos: nat, size: int32, half: int32, addr: int32, child: nat)
    requires Complete(a) && RightPos(pos) < |a| && a[pos] >= 0 && size == 2 * half && half >= 0
    requires child == if GoesLeft(|a|, pos, half, addr) then LeftPos(pos) else RightPos(pos)
    ensures FreeAt(a, pos, size, addr).Some? <==> FreeAt(a, child, half, addr).Some?
    ensures FreeAt(a, child, half, addr).Some? ==>
              FreeAt(a, pos, size, addr).value == Coalesce(FreeAt(a, child, half, addr).value, pos, size)
  {
    hide GoesLeft;
    hide Coalesce;
  }

  lemma FreeLeft(a: seq<int32>, pos: nat, h: nat, t: Tree, addr: int32, l: Option<Tree>)
    requires Complete(a) && h > 0 && Pow2(h) < 0x8000_0000 && Canon(t, h) && Stores(a, pos, h, t) && !t.Used?
    requires GoesLeft(|a|, pos, Pow2(h - 1), addr)
    requires var s := FreeAt(a, LeftPos(pos), Pow2(h - 1), addr);
             && (s.Some? <==> l.Some?)
             && (l.Some? ==> Canon(l.value, h - 1) && Stores(s.value, LeftPos(pos), h - 1, l.value)
                             && SameElsewhere(a, s.value, LeftPos(pos)))
    ensures FreeAt(a, pos, Pow2(h), addr).Some? <==> l.Some?
    ensures l.Some? ==> Stores(FreeAt(a, pos, Pow2(h), addr).value, pos, h, Merge(l.value, R(t)))
                        && SameElsewhere(a, FreeAt(a, pos, Pow2(h), addr).value, pos)
  {
    hide GoesLeft;
    hide WrapInt32;
    hide FreeAt;
    ValBounds(t, h);
    assert Pow2(h) == 2 * Pow2(h - 1);
    FreeUnfold(a, pos, Pow2(h), Pow2(h - 1), addr, LeftPos(pos));
    if l.Some? {
      var b := FreeAt(a, LeftPos(pos), Pow2(h - 1), addr).value;
      SiblingValue(a, b, pos, true);
      FreedValue(b[LeftPos(pos)], b[RightPos(pos)], l.value, R(t), h);
      RebuildLeft(a, b, pos, h, t, Merge(l.value, R(t)), Val(Merge(l.value, R(t)), h));
    }
  }

  lemma FreeRight(a: seq<int32>, pos: nat, h: nat, t: Tree, addr: int32, r: Option<Tree>)
    requires Complete(a) && h > 0 && Pow2(h) < 0x8000_0000 && Canon(t, h) && Stores(a, pos, h, t) && !t.Used?
    requires !GoesLeft(|a|, pos, Pow2(h - 1), addr)
    requires var s := FreeAt(a, RightPos(pos), Pow2(h - 1), addr);
             && (s.Some? <==> r.Some?)
             && (r.Some? ==> Canon(r.value, h - 1) && Stores(s.value, RightPos(pos), h - 1, r.value)
                             && SameElsewhere(a, s.value, RightPos(pos)))
    ensures FreeAt(a, pos, Pow2(h), addr).Some? <==> r.Some?
    ensures r.Some? ==> Stores(FreeAt(a, pos, Pow2(h), addr).value, pos, h, Merge(L(t), r.value))
                        && SameElsewhere(a, FreeAt(a, pos, Pow2(h), addr).value, pos)
  {
    hide GoesLeft;
    hide WrapInt32;
    hide FreeAt;
    ValBounds(t, h);
    assert Pow2(h) == 2 * Pow2(h - 1);
    FreeUnfold(a, pos, Pow2(h), Pow2(h - 1), addr, RightPos(pos));
    if r.Some? {
      var b := FreeAt(a, RightPos(pos), Pow2(h - 1), addr).value;
      SiblingValue(a, b, pos, false);
      FreedValue(b[LeftPos(pos)], b[RightPos(pos)], L(t), r.value, h);
      RebuildRight(a, b, pos, h, t, Merge(L(t), r.value), Val(Merge(L(t), r.value), h));
    }
  }

  lemma FreeHere(a: seq<int32>, pos: nat, h: nat, addr: int32)
    requires Complete(a) && Pow2(h) < 0x8000_0000 && Stores(a, pos, h, Used)
    ensures FreeAt(a, pos, Pow2(h), addr).Some? <==> Address(|a|, pos) == addr
    ensures Address(|a|, pos) == addr ==>
              && Stores(FreeAt(a, pos, Pow2(h), addr).value, pos, h, Empty)
              && SameElsewhere(a, FreeAt(a, pos, Pow2(h), addr).value, pos)
  {
    hide Address;
    hide WrapInt32;
    Flip(a, pos, h, Used, Empty, Negate(a[pos]));
  }

  lemma FreeLeaf(a: seq<int32>, pos: nat, t: Tree, addr: int32)
    requires Complete(a) && Stores(a, pos, 0, t) && t.Empty? && LeftPos(pos) >= |a|
    ensures Pow2(0) == 1 && FreeAt(a, pos, Pow2(0), addr).None?
  {
  }

  lemma {:induction false} FreeStores(a: seq<int32>, H: nat, pos: nat, h: nat, off: int, t: Tree, addr: int32)
    requires |a| + 1 == Pow2(H + 1) && H <= 30 && At(H, pos, h, off)
    requires Canon(t, h) && Stores(a, pos, h, t)
    requires off == 0 || off <= addr
    ensures Complete(a) && Pow2(h) < 0x8000_0000
    ensures FreeAt(a, pos, Pow2(h), addr).Some? <==> FreeTree(t, h, off, addr).Some?
    ensures FreeTree(t, h, off, addr).Some? ==>
              && Stores(FreeAt(a, pos, Pow2(h), addr).value, pos, h, FreeTree(t, h, off, addr).value)
              && SameElsewhere(a, FreeAt(a, pos, Pow2(h), addr).value, pos)
    decreases h
  {
    hide Pow2;
    hide Stores;
    hide Log2;
    hide FreeAt;
    hide SameElsewhere;
    hide At;
    hide Address;
    hide WrapInt32;
    Pow2Odd(a, H);
    AddressAt(|a|, H, pos, h, off);
    AtSize(H, pos, h, off);
    if t.Used? {
      FreeHere(a, pos, h, addr);
    } else if h == 0 {
      FreeLeaf(a, pos, t, addr);
    } else {
      AtChildren(H, pos, h, off);
      StoresChildren(a, pos, h, t);
      var p := Pow2(h - 1);
      var d: int := addr;
      d := d - off;
      WrapInt32Id(d);
      if d < p {
        FreeStores(a, H, LeftPos(pos), h - 1, off, L(t), addr);
        FreeLeft(a, pos, h, t, addr, FreeTree(L(t), h - 1, off, addr));
      } else {
        FreeStores(a, H, RightPos(pos), h - 1, off + p, R(t), addr);
        FreeRight(a, pos, h, t, addr, FreeTree(R(t), h - 1, off + p, addr));
      }
    }
  }
}
