/**
 What the buddy allocator does to the set of allocated blocks.

 `Represents(a, h, S)` says that the node array `a` is the tree of 2^h units whose allocated
 blocks are exactly S.  The theorems at the end are the specification of the allocator.
 */
module BuddyBlocks {
  import opened Arith
  import opened Buddy

  datatype Block = Block(addr: int, size: int)

  predicate Apart(b: Block, c: Block) {
    b.addr + b.size <= c.addr || c.addr + c.size <= b.addr
  }

  function Blocks(t: Tree, off: int, h: nat): set<Block> {
    match t
    case Empty => {}
    case Used => {Block(off, Pow2(h))}
    case Split(l, r) => if h == 0 then {} else Blocks(l, off, h - 1) + Blocks(r, off + Pow2(h - 1), h - 1)
  }

  ghost predicate Represents(a: seq<int32>, h: nat, S: set<Block>) {
    exists t :: Nodes(a, h, t) && Blocks(t, 0, h) == S
  }

  /** The least k with size <= 2^k: a request is rounded up to 2^RoundExp(size) units. */
  function RoundExp(size: int): nat
    decreases size
  {
    if size <= 1 then 0 else 1 + RoundExp((size + 1) / 2)
  }

  lemma {:induction false} RoundExpLeast(size: int, h: nat)
    requires size <= Pow2(h)
    requires h > 0 ==> Pow2(h - 1) < size
    ensures RoundExp(size) == h
    decreases h
  {
    if h > 0 { RoundExpLeast((size + 1) / 2, h - 1); }
  }

  lemma {:induction false} RoundExpBounds(size: int)
    ensures size <= Pow2(RoundExp(size))
    ensures size > 1 ==> Pow2(RoundExp(size)) < 2 * size
    decreases size
  {
    if size > 1 { RoundExpBounds((size + 1) / 2); }
  }

  /** x is a multiple of 2^k; `AlignedMod` connects this recursive form to the remainder. */
  predicate Aligned(x: int, k: nat)
    decreases k
  {
    k == 0 || (x % 2 == 0 && Aligned(x / 2, k - 1))
  }

  lemma {:induction false} AlignedMod(x: int, k: nat)
    ensures Aligned(x, k) <==> x % Pow2(k) == 0
    decreases k
  {
    if k > 0 {
      AlignedMod(x / 2, k - 1);
      HalveMod(x, Pow2(k - 1));
    }
  }

  lemma HalveMod(x: int, p: int)
    requires p >= 1
    ensures x % (2 * p) == 0 <==> x % 2 == 0 && (x / 2) % p == 0
  {
    if x % (2 * p) == 0 {
      var q := x / (2 * p);
      assert x == 2 * (p * q);
      MulMod(p, q);
    }
    if x % 2 == 0 && (x / 2) % p == 0 {
      var q := (x / 2) / p;
      assert x == 2 * (p * q) == (2 * p) * q;
      MulMod(2 * p, q);
    }
  }

  lemma MulMod(p: int, q: int)
    requires p >= 1
    ensures (p * q) % p == 0
  {
    DivMul(p, q);
  }

  lemma {:induction false} AlignedHalves(off: int, h: nat)
    requires Aligned(off, h) && h > 0
    ensures Aligned(off, h - 1) && Aligned(off + Pow2(h - 1), h - 1)
    decreases h
  {
    if h > 1 {
      AlignedHalves(off / 2, h - 1);
      assert (off + Pow2(h - 1)) / 2 == off / 2 + Pow2(h - 2);
    }
  }

  lemma {:induction false} ZeroAligned(k: nat)
    ensures Aligned(0, k)
  {
    if k > 0 { ZeroAligned(k - 1); }
  }

  /** An aligned run shorter than an aligned window does not straddle its middle. */
  lemma {:induction false} RunInHalf(o: int, k: nat, off: int, h: nat)
    requires k < h && Aligned(o, k) && Aligned(off, h)
    ensures o + Pow2(k) <= off + Pow2(h - 1) || off + Pow2(h - 1) <= o
    decreases k
  {
    if k > 0 {
      RunInHalf(o / 2, k - 1, off / 2, h - 1);
    }
  }

  /** An aligned run of 2^k units from o on that lies in the window and meets no block of S. */
  ghost predicate FreeRun(S: set<Block>, o: int, k: nat, off: int, h: nat) {
    && off <= o && o + Pow2(k) <= off + Pow2(h) && Aligned(o, k)
    && forall b :: b in S ==> Apart(b, Block(o, Pow2(k)))
  }

  // ---------------------------------------------------------------------------------------
  // Blocks of a shape
  // ---------------------------------------------------------------------------------------

  lemma {:induction false} BlocksInside(t: Tree, off: int, h: nat)
    requires Canon(t, h)
    ensures forall b :: b in Blocks(t, off, h) ==> off <= b.addr && b.size >= 1 && b.addr + b.size <= off + Pow2(h)
    ensures Blocks(t, off, h) == {} <==> t.Empty?
  {
    if t.Split? {
      BlocksInside(t.l, off, h - 1);
      BlocksInside(t.r, off + Pow2(h - 1), h - 1);
    } else if t.Used? {
      assert Block(off, Pow2(h)) in Blocks(t, off, h);
    }
  }

  lemma {:induction false} BlocksApart(t: Tree, off: int, h: nat)
    requires Canon(t, h)
    ensures forall b, c :: b in Blocks(t, off, h) && c in Blocks(t, off, h) && b != c ==> Apart(b, c)
  {
    if t.Split? {
      BlocksApart(t.l, off, h - 1);
      BlocksApart(t.r, off + Pow2(h - 1), h - 1);
      BlocksInside(t.l, off, h - 1);
      BlocksInside(t.r, off + Pow2(h - 1), h - 1);
    }
  }

  /** A power of two units, starting at a multiple of its own size. */
  ghost predicate IsBuddy(b: Block) {
    exists k: nat :: b.size == Pow2(k) && Aligned(b.addr, k)
  }

  lemma {:induction false} BlocksAligned(t: Tree, off: int, h: nat)
    requires Canon(t, h) && Aligned(off, h)
    ensures forall b :: b in Blocks(t, off, h) ==> IsBuddy(b)
    decreases h
  {
    if t.Split? {
      AlignedHalves(off, h);
      BlocksAligned(t.l, off, h - 1);
      BlocksAligned(t.r, off + Pow2(h - 1), h - 1);
    }
  }

  /** A shape is determined by its blocks. */
  lemma {:induction false} BlocksInjective(t: Tree, u: Tree, off: int, h: nat)
    requires Canon(t, h) && Canon(u, h)
    requires Blocks(t, off, h) == Blocks(u, off, h)
    ensures t == u
  {
    BlocksInside(t, off, h);
    BlocksInside(u, off, h);
    if t.Split? && u.Split? {
      SplitHalves(t, off, h);
      SplitHalves(u, off, h);
      BlocksInjective(t.l, u.l, off, h - 1);
      BlocksInjective(t.r, u.r, off + Pow2(h - 1), h - 1);
    } else if t.Split? && u.Used? {
      SplitIsNotWhole(t, off, h);
    } else if t.Used? && u.Split? {
      SplitIsNotWhole(u, off, h);
    }
  }

  lemma SplitHalves(t: Tree, off: int, h: nat)
    requires Canon(t, h) && t.Split?
    ensures Blocks(t.l, off, h - 1) == set b | b in Blocks(t, off, h) && b.addr < off + Pow2(h - 1)
    ensures Blocks(t.r, off + Pow2(h - 1), h - 1) == set b | b in Blocks(t, off, h) && b.addr >= off + Pow2(h - 1)
  {
    BlocksInside(t.l, off, h - 1);
    BlocksInside(t.r, off + Pow2(h - 1), h - 1);
  }

  lemma SplitIsNotWhole(t: Tree, off: int, h: nat)
    requires Canon(t, h) && t.Split?
    ensures Block(off, Pow2(h)) !in Blocks(t, off, h)
  {
    BlocksInside(t.l, off, h - 1);
    BlocksInside(t.r, off + Pow2(h - 1), h - 1);
  }

  // ---------------------------------------------------------------------------------------
  // Alloc on shapes
  // ---------------------------------------------------------------------------------------

  lemma AllocHereSize(t: Tree, h: nat, size: int)
    requires Canon(t, h) && 0 < size <= Val(t, h)
    requires h == 0 || (Val(L(t), h - 1) < size && Val(R(t), h - 1) < size)
    ensures t.Empty? && RoundExp(size) == h
  {
    ValBounds(t, h);
    if h > 0 {
      assert Val(Empty, h - 1) == Pow2(h - 1);
    }
    RoundExpLeast(size, h);
  }

  /** A free run of one half is a free run of the whole. */
  lemma WidenRun(t: Tree, h: nat, off: int, o: int, k: nat, left: bool)
    requires Canon(t, h) && h > 0 && !t.Used?
    requires left ==> FreeRun(Blocks(L(t), off, h - 1), o, k, off, h - 1)
    requires !left ==> FreeRun(Blocks(R(t), off + Pow2(h - 1), h - 1), o, k, off + Pow2(h - 1), h - 1)
    ensures FreeRun(Blocks(t, off, h), o, k, off, h)
  {
    hide Aligned;
    BlocksInside(L(t), off, h - 1);
    BlocksInside(R(t), off + Pow2(h - 1), h - 1);
  }

  lemma HalvesBlocks(t: Tree, h: nat, off: int)
    requires Canon(t, h) && h > 0 && !t.Used?
    ensures Blocks(t, off, h) == Blocks(L(t), off, h - 1) + Blocks(R(t), off + Pow2(h - 1), h - 1)
  {
  }

  /** Alloc adds one block of the rounded size, inside the tree and apart from every other block. */
  lemma {:induction false} AllocAddsBlock(t: Tree, h: nat, off: int, size: int)
    requires Canon(t, h) && 0 < size <= Val(t, h) && Aligned(off, h)
    ensures Blocks(AllocTree(t, h, off, size).0, off, h)
         == Blocks(t, off, h) + {Block(AllocTree(t, h, off, size).1, Pow2(RoundExp(size)))}
    ensures FreeRun(Blocks(t, off, h), AllocTree(t, h, off, size).1, RoundExp(size), off, h)
    decreases h
  {
    if h == 0 || (Val(L(t), h - 1) < size && Val(R(t), h - 1) < size) {
      AllocHereSize(t, h, size);
    } else {
      hide Aligned;
      hide RoundExp;
      hide FreeRun;
      ValBounds(t, h);
      AlignedHalves(off, h);
      HalvesBlocks(t, h, off);
      if Val(L(t), h - 1) >= size {
        AllocAddsBlock(L(t), h - 1, off, size);
        WidenRun(t, h, off, AllocTree(t, h, off, size).1, RoundExp(size), true);
      } else {
        AllocAddsBlock(R(t), h - 1, off + Pow2(h - 1), size);
        WidenRun(t, h, off, AllocTree(t, h, off, size).1, RoundExp(size), false);
      }
    }
  }

  /** A free aligned run shows in the value of every node above it. */
  lemma {:induction false} RunShows(t: Tree, h: nat, off: int, o: int, k: nat)
    requires Canon(t, h) && Aligned(off, h)
    requires FreeRun(Blocks(t, off, h), o, k, off, h)
    ensures Val(t, h) >= Pow2(k)
    decreases h
  {
    BlocksInside(t, off, h);
    if k >= h { Pow2Mono(h, k); }
    assert t.Used? ==> Block(off, Pow2(h)) in Blocks(t, off, h);
    if t.Split? {
      if k < h {
        AlignedHalves(off, h);
        RunInHalf(o, k, off, h);
        if o + Pow2(k) <= off + Pow2(h - 1) {
          RunShows(t.l, h - 1, off, o, k);
        } else {
          RunShows(t.r, h - 1, off + Pow2(h - 1), o, k);
        }
      }
    }
  }

  /** A free run of the whole that lies in one half is a free run of that half. */
  lemma NarrowRun(t: Tree, h: nat, off: int, o: int, k: nat)
    requires Canon(t, h) && h > 0 && !t.Used? && FreeRun(Blocks(t, off, h), o, k, off, h)
    ensures o + Pow2(k) <= off + Pow2(h - 1) ==> FreeRun(Blocks(L(t), off, h - 1), o, k, off, h - 1)
    ensures off + Pow2(h - 1) <= o ==> FreeRun(Blocks(R(t), off + Pow2(h - 1), h - 1), o, k, off + Pow2(h - 1), h - 1)
  {
    hide Aligned;
    hide Apart;
    hide Blocks;
    HalvesBlocks(t, h, off);
    assert Pow2(h) == 2 * Pow2(h - 1);
  }

  /** Alloc takes the lowest free aligned run. */
  lemma {:induction false} AllocLowest(t: Tree, h: nat, off: int, size: int, o: int)
    requires Canon(t, h) && Aligned(off, h) && 0 < size <= Val(t, h)
    requires FreeRun(Blocks(t, off, h), o, RoundExp(size), off, h)
    ensures AllocTree(t, h, off, size).1 <= o
    decreases h
  {
    hide Aligned;
    hide Blocks;
    hide Apart;
    hide RoundExp;
    var k := RoundExp(size);
    if h > 0 && (Val(L(t), h - 1) >= size || Val(R(t), h - 1) >= size) {
      var mid := off + Pow2(h - 1);
      ValBounds(t, h);
      AlignedHalves(off, h);
      RoundExpBounds(size);
      AllocFits(t, h, size);
      RunAligned(Blocks(t, off, h), o, k, off, h);
      RunInHalf(o, k, off, h);
      NarrowRun(t, h, off, o, k);
      hide FreeRun;
      if o + Pow2(k) <= mid {
        RunShows(L(t), h - 1, off, o, k);
        AllocLowest(L(t), h - 1, off, size, o);
      } else if Val(L(t), h - 1) >= size {
        AllocAddsBlock(L(t), h - 1, off, size);
        RunEnds(Blocks(L(t), off, h - 1), AllocTree(L(t), h - 1, off, size).1, k, off, h - 1);
      } else {
        AllocLowest(R(t), h - 1, mid, size, o);
      }
    }
  }

  lemma RunAligned(S: set<Block>, o: int, k: nat, off: int, h: nat)
    requires FreeRun(S, o, k, off, h)
    ensures Aligned(o, k)
  {
  }

  lemma RunEnds(S: set<Block>, o: int, k: nat, off: int, h: nat)
    requires FreeRun(S, o, k, off, h)
    ensures off <= o && o + 1 <= off + Pow2(h)
  {
  }

  lemma AllocFits(t: Tree, h: nat, size: int)
    requires Canon(t, h) && h > 0 && 0 < size
    requires Val(L(t), h - 1) >= size || Val(R(t), h - 1) >= size
    ensures RoundExp(size) < h
  {
    ValBounds(L(t), h - 1);
    ValBounds(R(t), h - 1);
    RoundExpBounds(size);
    if RoundExp(size) >= h {
      Pow2Mono(h, RoundExp(size));
    }
  }

  // ---------------------------------------------------------------------------------------
  // Free on shapes
  // ---------------------------------------------------------------------------------------

  /** Free succeeds only where a block starts. */
  lemma {:induction false} FreeFindsBlock(t: Tree, h: nat, off: int, addr: int) returns (b: Block)
    requires Canon(t, h) && FreeTree(t, h, off, addr).Some?
    ensures b in Blocks(t, off, h) && b.addr == addr
    decreases h
  {
    match t
    case Empty => b := Block(off, 0);
    case Used => b := Block(off, Pow2(h));
    case Split(l, r) =>
      if addr - off < Pow2(h - 1) {
        b := FreeFindsBlock(l, h - 1, off, addr);
      } else {
        b := FreeFindsBlock(r, h - 1, off + Pow2(h - 1), addr);
      }
  }

  /** Free removes exactly the block that starts at the address. */
  lemma {:induction false} FreeRemovesBlock(t: Tree, h: nat, off: int, b: Block)
    requires Canon(t, h) && b in Blocks(t, off, h)
    ensures FreeTree(t, h, off, b.addr).Some?
    ensures Blocks(FreeTree(t, h, off, b.addr).value, off, h) == Blocks(t, off, h) - {b}
    decreases h
  {
    if t.Split? {
      var p := Pow2(h - 1);
      BlocksInside(t.l, off, h - 1);
      BlocksInside(t.r, off + p, h - 1);
      if b in Blocks(t.l, off, h - 1) {
        FreeRemovesBlock(t.l, h - 1, off, b);
        MergeBlocks(FreeTree(t.l, h - 1, off, b.addr).value, t.r, off, h);
      } else {
        FreeRemovesBlock(t.r, h - 1, off + p, b);
        MergeBlocks(t.l, FreeTree(t.r, h - 1, off + p, b.addr).value, off, h);
      }
    }
  }

  lemma MergeBlocks(l: Tree, r: Tree, off: int, h: nat)
    requires h > 0
    ensures Blocks(Merge(l, r), off, h) == Blocks(l, off, h - 1) + Blocks(r, off + Pow2(h - 1), h - 1)
  {
    if l.Empty? && r.Empty? {
      assert Blocks(l, off, h - 1) == {} && Blocks(r, off + Pow2(h - 1), h - 1) == {};
    } else {
      assert Merge(l, r) == Split(l, r);
    }
  }
}
