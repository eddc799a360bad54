/**
 The allocator of pkg/diskrpc/allocator.go: the in-place methods, and the theorems that say what
 they do to the set of allocated blocks.
 */
module Allocator {
  import opened Options
  import opened Arith
  import opened Buddy
  import opened BuddyBlocks

  // ---------------------------------------------------------------------------------------
  // In-place methods
  // ---------------------------------------------------------------------------------------

  method Initialize(a: array<int32>, pos: nat, free: int32)
    requires free >= 0
    modifies a
    ensures a[..] == InitAt(old(a[..]), pos, free)
    decreases a.Length - pos
  {
    if pos >= a.Length { return; }
    a[pos] := free;
    assert a[..] == old(a[..])[pos := free];
    Initialize(a, LeftPos(pos), free / 2);
    Initialize(a, RightPos(pos), free / 2);
  }

  /** A tree of `size` units, all free; null stands for the error of a size that is no power of two. */
  method NewBySize(size: int32) returns (a: array?<int32>)
    ensures a == null <==> size <= 0 || !IsPow2(size)
    ensures a != null ==> fresh(a) && Represents(a[..], Log2(size), {})
    ensures a != null ==> a.Length > 0
  {
    if size <= 0 || !IsPow2(size) {
      return null;
    }
    ghost var h := Log2(size);
    IsPow2Witness(size);
    var depth, i := 0, size;
    while i > 0
      invariant 0 <= i
      invariant depth <= h + 1
      invariant i == if depth <= h then Pow2(h - depth) else 0
    {
      depth, i := depth + 1, i / 2;
    }
    var nodes := new int32[Pow2(depth) - 1](_ => 0);
    ghost var was := nodes[..];
    Initialize(nodes, 0, size);
    SizeBound(h);
    FreshRepresents(was, h);
    a := nodes;
  }

  /** The 32-bit shift `1 << k`. */
  function ShiftInt32(k: nat): int32 {
    if k < 31 then Pow2Fits(k); Pow2(k) else if k == 31 then MIN_INT32 else 0
  }

  lemma Pow2Fits(k: nat)
    requires k < 31
    ensures Pow2(k) < 0x8000_0000
  {
    Pow2Mono(k, 30);
    Pow2Bound30();
  }

  /** What NewAllocatorByNodeCnt starts from; half a power of two is never 31. */
  function NodeCntRoot(nodeCnt: nat): (r: int32)
    requires IsPow2(nodeCnt + 1)
    ensures r >= 0
  {
    assert !IsPow2(31) && !IsPow2(62) && !IsPow2(63);
    ShiftInt32((nodeCnt + 1) / 2)
  }

  /** A tree of nodeCnt nodes whose values are to be overwritten; null stands for the error. */
  method NewByNodeCnt(nodeCnt: uint32) returns (a: array?<int32>)
    ensures a == null <==> nodeCnt == MAX_INT32 - 1 || !IsPow2(WrapUint32(nodeCnt + 1))
    ensures a != null ==> fresh(a) && a.Length == nodeCnt
    ensures a != null ==> IsPow2(nodeCnt + 1) && a[..] == InitAt(ZeroNodes(nodeCnt), 0, NodeCntRoot(nodeCnt))
  {
    if nodeCnt == MAX_INT32 - 1 || !IsPow2(WrapUint32(nodeCnt + 1)) {
      return null;
    }
    assert WrapUint32(nodeCnt + 1) > 0;
    var nodes := new int32[nodeCnt](_ => 0);
    assert nodes[..] == ZeroNodes(nodeCnt);
    Initialize(nodes, 0, NodeCntRoot(nodeCnt));
    a := nodes;
  }

  function ZeroNodes(n: nat): seq<int32> {
    var zero: int32 := 0;
    seq(n, _ => zero)
  }

  /** Allocate in the subtree at pos; on failure the address is -1 and nothing changes. */
  method AllocNodes(a: array<int32>, pos: nat, size: int32) returns (addr: int32, ok: bool)
    requires Complete(a[..]) && pos < a.Length
    modifies a
    ensures ok <==> 0 < size <= old(a[pos])
    ensures ok ==> (a[..], addr) == AllocAt(old(a[..]), pos, size)
    ensures !ok ==> addr == -1 && a[..] == old(a[..])
    decreases a.Length - pos
  {
    if size <= 0 || a[pos] < size {
      return -1, false;
    }
    ok := true;
    var l, r := LeftPos(pos), RightPos(pos);
    if (l >= a.Length || a[l] < size) && (r >= a.Length || a[r] < size) {
      a[pos] := Negate(a[pos]);
      addr := Address(a.Length, pos);
      assert a[..] == old(a[..])[pos := Negate(old(a[pos]))];
      return;
    }
    var done;
    if a[l] >= size {
      addr, done := AllocNodes(a, l, size);
    } else {
      addr, done := AllocNodes(a, r, size);
    }
    ghost var b := a[..];
    a[pos] := Max(Max(a[l], a[r]), 0);
    assert a[..] == b[pos := Max(Max(b[l], b[r]), 0)];
  }

  /** Free in the subtree at pos; on failure nothing changes. */
  method FreeNodes(a: array<int32>, pos: nat, size: int32, addr: int32) returns (ok: bool)
    requires Complete(a[..])
    modifies a
    ensures ok <==> FreeAt(old(a[..]), pos, size, addr).Some?
    ensures ok ==> a[..] == FreeAt(old(a[..]), pos, size, addr).value
    ensures !ok ==> a[..] == old(a[..])
    decreases a.Length - pos
  {
    hide Address;
    hide GoesLeft;
    hide WrapInt32;
    if pos >= a.Length {
      return false;
    }
    if a[pos] < 0 {
      if Address(a.Length, pos) == addr {
        a[pos] := Negate(a[pos]);
        assert a[..] == old(a[..])[pos := Negate(old(a[pos]))];
        return true;
      }
      return false;
    }
    if RightPos(pos) > a.Length {
      return false;
    }
    if GoesLeft(a.Length, pos, Half(size), addr) {
      ok := FreeNodes(a, LeftPos(pos), size / 2, addr);
    } else {
      ok := FreeNodes(a, RightPos(pos), size / 2, addr);
    }
    if ok {
      ghost var b := a[..];
      var rFree: int := a[RightPos(pos)];
      var lFree: int := a[LeftPos(pos)];
      if WrapInt32(lFree + rFree) == size {
        a[pos] := size;
      } else {
        a[pos] := Max(Max(lFree, rFree), 0);
      }
      assert a[..] == Coalesce(b, pos, size);
    }
  }

  method AllocBlock(a: array<int32>, size: int32) returns (addr: int32, ok: bool)
    requires Complete(a[..]) && a.Length > 0
    modifies a
    ensures ok <==> Alloc(old(a[..]), size).Some?
    ensures ok ==> Alloc(old(a[..]), size) == Some((a[..], addr))
    ensures !ok ==> addr == -1 && a[..] == old(a[..])
  {
    addr, ok := AllocNodes(a, 0, size);
  }

  method FreeBlock(a: array<int32>, addr: int32) returns (ok: bool)
    requires Complete(a[..])
    modifies a
    ensures ok <==> Free(old(a[..]), addr).Some?
    ensures ok ==> Free(old(a[..]), addr) == Some(a[..])
    ensures !ok ==> a[..] == old(a[..])
  {
    ok := FreeNodes(a, 0, Half(WrapInt32(a.Length + 1)), addr);
  }

  // ---------------------------------------------------------------------------------------
  // What the allocator does to the set of allocated blocks
  // ---------------------------------------------------------------------------------------

  lemma SizeBound(h: nat)
    requires Pow2(h) < 0x8000_0000
    ensures h <= 30
  {
    if h > 30 {
      Pow2Mono(31, h);
      Pow2Bound30();
    }
  }

  lemma SizeFits(h: nat)
    requires h <= 30
    ensures Pow2(h) <= 0x4000_0000
    ensures h <= 29 ==> Pow2(h) <= 0x2000_0000
  {
    if h <= 29 { Pow2Mono(h, 29); }
    Pow2Bound30();
  }

  /** Initialising any array of the right length yields the wholly free tree. */
  lemma FreshRepresents(a: seq<int32>, h: nat)
    requires |a| + 1 == Pow2(h + 1) && h <= 30
    ensures Pow2(h) < 0x8000_0000 && Represents(InitAt(a, 0, Pow2(h)), h, {})
  {
    hide Pow2;
    hide InitAt;
    SizeFits(h);
    InitStores(a, h, 0, h, 0);
    assert Nodes(InitAt(a, 0, Pow2(h)), h, Empty);
    assert Blocks(Empty, 0, h) == {};
  }

  /** Initialising a subtree does not touch the nodes before it. */
  lemma {:induction false} InitKeeps(a: seq<int32>, pos: nat, free: int32, q: nat)
    requires free >= 0 && q < |a| && q < pos
    ensures InitAt(a, pos, free)[q] == a[q]
    decreases |a| - pos
  {
    if pos < |a| {
      var b := a[pos := free];
      InitKeeps(b, LeftPos(pos), free / 2, q);
      InitKeeps(InitAt(b, LeftPos(pos), free / 2), RightPos(pos), free / 2, q);
    }
  }

  lemma InitRoot(a: seq<int32>, free: int32)
    requires free >= 0 && a != []
    ensures InitAt(a, 0, free)[0] == free
  {
    var b := a[0 := free];
    InitKeeps(b, 1, free / 2, 0);
    InitKeeps(InitAt(b, 1, free / 2), 2, free / 2, 0);
  }

  lemma {:induction false} ExpAbove(k: nat)
    ensures Pow2(k) > k
  {
    if k > 0 { ExpAbove(k - 1); }
  }

  /** The two constructors never agree: for the same number of nodes their roots differ. */
  lemma ConstructorsDiffer(h: nat, z: seq<int32>)
    requires h <= 30 && |z| + 1 == Pow2(h + 1)
    ensures IsPow2(|z| + 1) && Pow2(h) < 0x8000_0000
    ensures InitAt(z, 0, NodeCntRoot(|z|)) != InitAt(z, 0, Pow2(h))
  {
    hide InitAt;
    hide ShiftInt32;
    Pow2IsPow2(h + 1);
    Pow2Odd(z, h);
    SizeFits(h);
    assert (|z| + 1) / 2 == Pow2(h);
    hide Pow2;
    InitRoot(z, NodeCntRoot(|z|));
    InitRoot(z, Pow2(h));
    ShiftDiffers(Pow2(h));
  }

  lemma ShiftDiffers(k: nat)
    requires k > 0
    ensures ShiftInt32(k) != k
  {
    ExpAbove(k);
  }

  lemma RepresentsComplete(a: seq<int32>, h: nat, S: set<Block>)
    requires Represents(a, h, S)
    ensures Complete(a) && |a| > 0 && |a| + 1 == Pow2(h + 1)
  {
    Pow2Odd(a, h);
  }

  /** Every allocated block is an aligned power of two inside the tree, and no two overlap. */
  lemma LiveBlocks(a: seq<int32>, h: nat, S: set<Block>)
    requires Represents(a, h, S)
    ensures forall b :: b in S ==> IsBuddy(b)
    ensures forall b :: b in S ==> 0 <= b.addr && b.size >= 1 && b.addr + b.size <= Pow2(h)
    ensures forall b, c :: b in S && c in S && b != c ==> Apart(b, c)
  {
    var t :| Nodes(a, h, t) && Blocks(t, 0, h) == S;
    BlocksInside(t, 0, h);
    BlocksApart(t, 0, h);
    ZeroAligned(h);
    BlocksAligned(t, 0, h);
  }

  /**
   Alloc succeeds exactly when some aligned run of the rounded size is wholly free; it takes the
   lowest one and adds exactly that block.
   */
  lemma AllocRefines(a: seq<int32>, h: nat, S: set<Block>, size: int32)
    requires Represents(a, h, S) && h <= 30
    ensures Complete(a) && |a| > 0
    ensures Alloc(a, size).Some? <==> size > 0 && exists o :: FreeRun(S, o, RoundExp(size), 0, h)
    ensures Alloc(a, size).Some? ==>
              var (b, v) := Alloc(a, size).value;
              && Represents(b, h, S + {Block(v, Pow2(RoundExp(size)))})
              && FreeRun(S, v, RoundExp(size), 0, h)
              && (forall o :: FreeRun(S, o, RoundExp(size), 0, h) ==> v <= o)
  {
    RepresentsComplete(a, h, S);
    var t :| Nodes(a, h, t) && Blocks(t, 0, h) == S;
    ZeroAligned(h);
    RoundExpBounds(size);
    var k := RoundExp(size);
    forall o | FreeRun(S, o, k, 0, h)
      ensures Val(t, h) >= Pow2(k)
    {
      RunShows(t, h, 0, o, k);
    }
    if 0 < size <= Val(t, h) {
      var (b, v) := Alloc(a, size).value;
      var (u, w) := AllocTree(t, h, 0, size);
      AllocStores(a, h, 0, h, 0, t, size);
      AllocAddsBlock(t, h, 0, size);
      assert Nodes(b, h, u);
      forall o | FreeRun(S, o, k, 0, h)
        ensures v <= o
      {
        AllocLowest(t, h, 0, size, o);
      }
    }
  }

  lemma RootSize(a: seq<int32>, h: nat)
    requires |a| + 1 == Pow2(h + 1) && h <= 29
    ensures Half(WrapInt32(|a| + 1)) == Pow2(h)
  {
    Pow2Mono(h + 1, 30);
    Pow2Bound30();
    WrapInt32Id(|a| + 1);
  }

  /** The address is the start of an allocated block. */
  ghost predicate Starts(S: set<Block>, addr: int) {
    exists b :: b in S && b.addr == addr
  }

  /** Free succeeds exactly on the start of an allocated block, and removes exactly that block. */
  ghost predicate FreeIsExact(a: seq<int32>, h: nat, S: set<Block>, addr: int32)
    requires Complete(a)
  {
    && (Free(a, addr).Some? <==> Starts(S, addr))
    && forall b :: b in S && b.addr == addr && Free(a, addr).Some? ==> Represents(Free(a, addr).value, h, S - {b})
  }

  /** On trees of up to 2^29 units, Free is exact for every 32-bit address. */
  lemma FreeRefines(a: seq<int32>, h: nat, S: set<Block>, addr: int32)
    requires Represents(a, h, S) && h <= 29
    ensures Complete(a) && FreeIsExact(a, h, S, addr)
  {
    RepresentsComplete(a, h, S);
    RootSize(a, h);
    var t :| Nodes(a, h, t) && Blocks(t, 0, h) == S;
    FreeStores(a, h, 0, h, 0, t, addr);
    if Free(a, addr).Some? {
      var c := FreeFindsBlock(t, h, 0, addr);
    }
    forall b | b in S && b.addr == addr
      ensures Free(a, addr).Some? && Represents(Free(a, addr).value, h, S - {b})
    {
      FreeRemovesBlock(t, h, 0, b);
      assert Nodes(Free(a, addr).value, h, FreeTree(t, h, 0, addr).value);
    }
  }

  // ---------------------------------------------------------------------------------------
  // The node array is a function of the set of allocated blocks
  // ---------------------------------------------------------------------------------------

  /** The subtree of t at node q. */
  function Sub(t: Tree, q: nat): Tree
    decreases q
  {
    if q == 0 then t
    else if q % 2 == 1 then L(Sub(t, (q - 1) / 2))
    else R(Sub(t, (q - 1) / 2))
  }

  lemma {:induction false} StoresSub(a: seq<int32>, h: nat, t: Tree, q: nat)
    requires Nodes(a, h, t) && q < |a|
    ensures Level(q) <= h && Canon(Sub(t, q), h - Level(q)) && Stores(a, q, h - Level(q), Sub(t, q))
    decreases q
  {
    if q > 0 {
      var p := (q - 1) / 2;
      StoresSub(a, h, t, p);
      assert (q + 1) / 2 == p + 1;
      assert Level(q) == Level(p) + 1;
      LevelBound(q, h);
      assert q == LeftPos(p) || q == RightPos(p);
    }
  }

  lemma LevelBound(q: nat, h: nat)
    requires q + 1 < Pow2(h + 1)
    ensures Level(q) <= h
  {
    Log2Lower(q + 1);
    if Level(q) > h {
      Pow2Mono(h + 1, Level(q));
    }
  }

  lemma {:induction false} Log2Lower(n: nat)
    requires n > 0
    ensures Pow2(Log2(n)) <= n
    decreases n
  {
    if n > 1 { Log2Lower(n / 2); }
  }

  /** Two trees with the same allocated blocks are the same array. */
  lemma CanonicalNodes(a: seq<int32>, b: seq<int32>, h: nat, S: set<Block>)
    requires Represents(a, h, S) && Represents(b, h, S)
    ensures a == b
  {
    var t :| Nodes(a, h, t) && Blocks(t, 0, h) == S;
    var u :| Nodes(b, h, u) && Blocks(u, 0, h) == S;
    BlocksInjective(t, u, 0, h);
    forall q | 0 <= q < |a|
      ensures a[q] == b[q]
    {
      StoresSub(a, h, t, q);
      StoresSub(b, h, t, q);
    }
  }

  /** Freeing a block right after allocating it restores every node. */
  lemma AllocThenFree(a: seq<int32>, h: nat, S: set<Block>, size: int32)
    requires Represents(a, h, S) && h <= 29
    requires Complete(a) && |a| > 0 && Alloc(a, size).Some?
    ensures var (b, v) := Alloc(a, size).value; Complete(b) && Free(b, v) == Some(a)
  {
    AllocRefines(a, h, S, size);
    var (b, v) := Alloc(a, size).value;
    var blk := Block(v, Pow2(RoundExp(size)));
    FreeRefines(b, h, S + {blk}, v);
    assert Apart(blk, blk) ==> false;
    assert blk !in S;
    assert S + {blk} - {blk} == S;
    CanonicalNodes(Free(b, v).value, a, h, S);
  }

  function FreeAll(a: seq<int32>, addrs: seq<int32>): (r: Option<seq<int32>>)
    requires Complete(a)
    decreases |addrs|
  {
    if addrs == [] then Some(a)
    else
      var b := Free(a, addrs[0]);
      if b.None? then None else FreeAll(b.value, addrs[1..])
  }

  lemma StartsWithout(S: set<Block>, b: Block, y: int)
    requires b in S
    requires forall c, d :: c in S && d in S && c != d ==> c.addr != d.addr
    ensures Starts(S - {b}, y) <==> Starts(S, y) && y != b.addr
  {
    if Starts(S, y) && y != b.addr {
      var c :| c in S && c.addr == y;
      assert c in S - {b};
    }
    if Starts(S - {b}, y) {
      var c :| c in S - {b} && c.addr == y;
      assert c in S;
    }
  }

  lemma NoStartsNoBlocks(S: set<Block>, h: nat)
    requires h <= 29 && forall b :: b in S ==> 0 <= b.addr < Pow2(h)
    requires forall x: int32 :: !Starts(S, x)
    ensures S == {}
  {
    SizeFits(h);
    forall b | b in S ensures false {
      var x: int32 := b.addr;
      assert Starts(S, x);
    }
  }

  lemma DistinctStarts(a: seq<int32>, h: nat, S: set<Block>)
    requires Represents(a, h, S)
    ensures forall b :: b in S ==> 0 <= b.addr < Pow2(h)
    ensures forall c, d :: c in S && d in S && c != d ==> c.addr != d.addr
  {
    LiveBlocks(a, h, S);
    forall c, d | c in S && d in S && c != d
      ensures c.addr != d.addr
    {
      assert Apart(c, d);
    }
  }

  /** Freeing all allocated blocks, in any order, gives back the freshly initialised tree. */
  lemma {:induction false} FreeAllRestores(a: seq<int32>, h: nat, S: set<Block>, addrs: seq<int32>, z: seq<int32>)
    requires Represents(a, h, S) && h <= 29
    requires forall i, j :: 0 <= i < j < |addrs| ==> addrs[i] != addrs[j]
    requires forall x: int32 :: x in addrs <==> Starts(S, x)
    requires |z| == |a|
    ensures Complete(a) && Pow2(h) < 0x8000_0000
    ensures FreeAll(a, addrs) == Some(InitAt(z, 0, Pow2(h)))
    decreases |addrs|
  {
    hide Pow2;
    hide InitAt;
    hide Represents;
    hide Free;
    RepresentsComplete(a, h, S);
    DistinctStarts(a, h, S);
    FreshRepresents(z, h);
    if addrs == [] {
      NoStartsNoBlocks(S, h);
      CanonicalNodes(a, InitAt(z, 0, Pow2(h)), h, S);
    } else {
      var x := addrs[0];
      FreeRefines(a, h, S, x);
      assert x in addrs;
      var b :| b in S && b.addr == x;
      forall y: int32
        ensures y in addrs[1..] <==> Starts(S - {b}, y)
      {
        assert y in addrs <==> y == x || y in addrs[1..];
        StartsWithout(S, b, y);
      }
      FreeAllRestores(Free(a, x).value, h, S - {b}, addrs[1..], z);
    }
  }

  // ---------------------------------------------------------------------------------------
  // Where the 32-bit arithmetic ends
  // ---------------------------------------------------------------------------------------

  /** Where the child that Free descends to has nothing to free, the node has neither. */
  lemma FreeNothingBelow(a: seq<int32>, pos: nat, size: int32, addr: int32, child: nat)
    requires Complete(a) && RightPos(pos) < |a| && a[pos] >= 0
    requires child == if GoesLeft(|a|, pos, Half(size), addr) then LeftPos(pos) else RightPos(pos)
    requires FreeAt(a, child, size / 2, addr).None?
    ensures FreeAt(a, pos, size, addr).None?
  {
    hide GoesLeft;
    hide Coalesce;
    hide Address;
  }

  lemma FreeEmptyLeaf(a: seq<int32>, pos: nat, size: int32, addr: int32)
    requires Complete(a) && pos < |a| && a[pos] >= 0 && LeftPos(pos) >= |a|
    ensures FreeAt(a, pos, size, addr).None?
  {
    hide Address;
  }

  lemma EmptyNode(a: seq<int32>, pos: nat, h: nat)
    requires Stores(a, pos, h, Empty)
    ensures pos < |a| && a[pos] >= 0
    ensures h > 0 ==> Stores(a, LeftPos(pos), h - 1, Empty) && Stores(a, RightPos(pos), h - 1, Empty)
  {
  }

  /** Nothing can be freed in a subtree that holds no allocated block, whatever size is claimed. */
  lemma {:induction false} FreeInEmpty(a: seq<int32>, H: nat, pos: nat, h: nat, off: int, size: int32, addr: int32)
    requires |a| + 1 == Pow2(H + 1) && H <= 30 && At(H, pos, h, off) && Stores(a, pos, h, Empty)
    ensures Complete(a) && FreeAt(a, pos, size, addr).None?
    decreases h
  {
    hide Address;
    hide GoesLeft;
    hide FreeAt;
    hide At;
    hide Stores;
    hide Pow2;
    Pow2Odd(a, H);
    AddressAt(|a|, H, pos, h, off);
    EmptyNode(a, pos, h);
    if h == 0 {
      FreeEmptyLeaf(a, pos, size, addr);
    } else {
      AtChildren(H, pos, h, off);
      if GoesLeft(|a|, pos, Half(size), addr) {
        FreeInEmpty(a, H, LeftPos(pos), h - 1, off, size / 2, addr);
        FreeNothingBelow(a, pos, size, addr, LeftPos(pos));
      } else {
        FreeInEmpty(a, H, RightPos(pos), h - 1, off + Pow2(h - 1), size / 2, addr);
        FreeNothingBelow(a, pos, size, addr, RightPos(pos));
      }
    }
  }

  lemma LonelyBlock(t: Tree, h: nat)
    requires Canon(t, h) && h > 0 && Blocks(t, 0, h) == {Block(0, 1)}
    ensures t.Split? && t.r.Empty?
  {
    assert Block(0, 1) in Blocks(t, 0, h);
    assert Pow2(h) == 2 * Pow2(h - 1);
    if t.Split? {
      BlocksInside(t.r, Pow2(h - 1), h - 1);
      SplitHalves(t, 0, h);
    }
  }

  /** A search that turns right at the root finds nothing in a wholly free right half. */
  lemma FreeMissesRight(a: seq<int32>, h: nat, t: Tree, root: nat, size: int32, addr: int32)
    requires 0 < h <= 30 && Nodes(a, h, t) && t.Split? && t.r.Empty? && root == 0
    requires !GoesLeft(|a|, root, Half(size), addr)
    ensures Complete(a) && FreeAt(a, root, size, addr).None?
  {
    hide GoesLeft;
    hide Pow2;
    hide Address;
    hide WrapInt32;
    Pow2Odd(a, h);
    ValBounds(t, h);
    AddressAt(|a|, h, root, h, 0);
    AtChildren(h, root, h, 0);
    FreeInEmpty(a, h, RightPos(root), h - 1, Pow2(h - 1), size / 2, addr);
  }

  lemma FreeFromRoot(a: seq<int32>, root: nat, addr: int32)
    requires Complete(a) && root == 0 && FreeAt(a, root, Half(WrapInt32(|a| + 1)), addr).None?
    ensures Free(a, addr).None?
  {
    hide FreeAt;
  }

  /** The search for address 0 starts with a wrapped size and turns right. */
  ghost predicate RootWraps(len: nat) {
    !GoesLeft(len, 0, Half(Half(WrapInt32(len + 1))), 0)
  }

  lemma RootWrapsAt30(len: nat, h: nat)
    requires len + 1 == Pow2(h + 1) && h == 30
    ensures RootWraps(len)
  {
    Pow2Bound30();
    AddressAt(len, 30, 0, 30, 0);
  }

  lemma FreeFailsWrapped(a: seq<int32>, h: nat)
    requires 0 < h <= 30 && Represents(a, h, {Block(0, 1)}) && Complete(a) && RootWraps(|a|)
    ensures Free(a, 0).None?
  {
    hide Pow2;
    hide GoesLeft;
    hide WrapInt32;
    hide Free;
    var t :| Nodes(a, h, t) && Blocks(t, 0, h) == {Block(0, 1)};
    LonelyBlock(t, h);
    var root := |a| - |a|;
    FreeMissesRight(a, h, t, root, Half(WrapInt32(|a| + 1)), 0);
    FreeFromRoot(a, root, 0);
  }

  /**
   On a tree of 2^30 units, which NewAllocatorBySize accepts, `int32(len+1)` wraps to -2^31.
   After allocating one unit at address 0, freeing address 0 fails and the unit is lost.
   */
  lemma FreeFailsAt30(a: seq<int32>, h: nat)
    requires h == 30 && Represents(a, h, {Block(0, 1)})
    ensures Complete(a) && Free(a, 0).None?
  {
    hide *;
    RepresentsComplete(a, h, {Block(0, 1)});
    RootWrapsAt30(|a|, h);
    FreeFailsWrapped(a, h);
  }

  /** The failed Free contradicts exactness: address 0 does start a block. */
  lemma FreeInexactAt30(a: seq<int32>, h: nat)
    requires h == 30 && Represents(a, h, {Block(0, 1)})
    ensures Complete(a) && !FreeIsExact(a, h, {Block(0, 1)}, 0)
  {
    hide Free;
    hide Represents;
    FreeFailsAt30(a, h);
    assert Block(0, 1) in {Block(0, 1)};
    assert Starts({Block(0, 1)}, 0);
  }

  lemma OneUnitAllocated(h: nat) returns (a: seq<int32>)
    requires h <= 30
    ensures Represents(a, h, {Block(0, 1)})
  {
    var zero: int32 := 0;
    var z := seq(Pow2(h + 1) - 1, _ => zero);
    FreshRepresents(z, h);
    var a0 := InitAt(z, 0, Pow2(h));
    AllocRefines(a0, h, {}, 1);
    Pow2Mono(0, h);
    assert FreeRun({}, 0, RoundExp(1), 0, h);
    var (b, v) := Alloc(a0, 1).value;
    assert {} + {Block(v, 1)} == {Block(0, 1)};
    a := b;
  }

  /**
   Free is exact on every reachable tree of 2^h units and every 32-bit address if and only if the
   tree has at most 2^29 units.
   */
  lemma FreeExactIff(h: nat)
    requires h <= 30
    ensures (forall a, S, addr: int32 :: Represents(a, h, S) && Complete(a) ==> FreeIsExact(a, h, S, addr)) <==> h <= 29
  {
    hide Represents;
    hide FreeIsExact;
    hide Free;
    if h <= 29 {
      forall a, S, addr: int32 | Represents(a, h, S) && Complete(a)
        ensures FreeIsExact(a, h, S, addr)
      {
        FreeRefines(a, h, S, addr);
      }
    } else {
      var a := OneUnitAllocated(h);
      FreeInexactAt30(a, h);
    }
  }

  // ---------------------------------------------------------------------------------------
  // Progress on arbitrary node values
  // ---------------------------------------------------------------------------------------

  /** The positions of the nodes marked as allocated. */
  function Negatives(a: seq<int32>): set<int> {
    set i | 0 <= i < |a| && a[i] < 0
  }

  predicate NoLeast(a: seq<int32>) {
    forall i :: 0 <= i < |a| ==> a[i] > MIN_INT32
  }

  /** The node that Free would release: the first allocated one on its way down. */
  function Found(a: seq<int32>, pos: nat, size: int32, addr: int32): Option<nat>
    requires Complete(a)
    decreases |a| - pos
  {
    if pos >= |a| then None
    else if a[pos] < 0 then if Address(|a|, pos) == addr then Some(pos) else None
    else if RightPos(pos) > |a| then None
    else Found(a, if GoesLeft(|a|, pos, Half(size), addr) then LeftPos(pos) else RightPos(pos), size / 2, addr)
  }

  /** Whatever the array holds, Free negates the node it finds and makes no other node negative or free. */
  lemma {:induction false} FreeAtFound(a: seq<int32>, pos: nat, size: int32, addr: int32)
    requires Complete(a) && size >= 0
    ensures FreeAt(a, pos, size, addr).Some? <==> Found(a, pos, size, addr).Some?
    ensures FreeAt(a, pos, size, addr).Some? ==>
              var b, f := FreeAt(a, pos, size, addr).value, Found(a, pos, size, addr).value;
              && f < |a| && a[f] < 0 && b[f] == Negate(a[f])
              && (forall i :: 0 <= i < |a| && i != f ==> (b[i] < 0 <==> a[i] < 0))
              && (forall i :: 0 <= i < |a| && i != f && b[i] < 0 ==> b[i] == a[i])
    decreases |a| - pos
  {
    hide Address;
    hide GoesLeft;
    hide WrapInt32;
    if pos < |a| && a[pos] >= 0 && RightPos(pos) <= |a| {
      var child := if GoesLeft(|a|, pos, Half(size), addr) then LeftPos(pos) else RightPos(pos);
      FreeAtFound(a, child, size / 2, addr);
    }
  }

  /** The node that Free(addr) releases holds -2^31. */
  predicate FindsLeast(a: seq<int32>, addr: int32)
    requires Complete(a)
  {
    var f := Found(a, 0, Half(WrapInt32(|a| + 1)), addr);
    f.Some? && f.value < |a| && a[f.value] == MIN_INT32
  }

  /** A successful Free leaves strictly fewer allocated nodes if and only if it does not release -2^31. */
  lemma FreeProgressIff(a: seq<int32>, addr: int32)
    requires Complete(a) && |a| + 1 < 0x8000_0000 && Free(a, addr).Some?
    ensures Negatives(Free(a, addr).value) < Negatives(a) <==> !FindsLeast(a, addr)
    ensures FindsLeast(a, addr) ==> Negatives(Free(a, addr).value) == Negatives(a)
  {
    hide FreeAt;
    hide Found;
    var size := Half(WrapInt32(|a| + 1));
    FreeAtFound(a, 0, size, addr);
    var b, f := Free(a, addr).value, Found(a, 0, size, addr).value;
    assert f in Negatives(a);
    if FindsLeast(a, addr) {
      assert b[f] == MIN_INT32;
    } else {
      var v: int := a[f];
      WrapInt32Id(-v);
      assert f !in Negatives(b);
    }
  }

  lemma FreeProgress(a: seq<int32>, addr: int32)
    requires Complete(a) && |a| + 1 < 0x8000_0000 && NoLeast(a) && Free(a, addr).Some?
    ensures NoLeast(Free(a, addr).value)
    ensures Negatives(Free(a, addr).value) < Negatives(a)
  {
    hide FreeAt;
    hide Found;
    FreeProgressIff(a, addr);
    FreeAtFound(a, 0, Half(WrapInt32(|a| + 1)), addr);
    var b, f := Free(a, addr).value, Found(a, 0, Half(WrapInt32(|a| + 1)), addr).value;
    var v: int := a[f];
    WrapInt32Id(-v);
  }

  /** A node holding -2^31 is its own negation, so freeing it succeeds without any progress. */
  lemma FreeStuckOnLeast()
    ensures Complete([MIN_INT32]) && Free([MIN_INT32], 0) == Some([MIN_INT32])
  {
    assert [MIN_INT32][0 := MIN_INT32] == [MIN_INT32];
  }

  /** A tree reached through Alloc and Free never holds that value. */
  lemma RepresentsNoLeast(a: seq<int32>, h: nat, S: set<Block>)
    requires Represents(a, h, S) && h <= 30
    ensures NoLeast(a)
  {
    var t :| Nodes(a, h, t) && Blocks(t, 0, h) == S;
    SizeFits(h);
    forall q | 0 <= q < |a|
      ensures a[q] > MIN_INT32
    {
      hide Pow2;
      StoresSub(a, h, t, q);
      ValBounds(Sub(t, q), h - Level(q));
      Pow2Mono(h - Level(q), h);
    }
  }
}
