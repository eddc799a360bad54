/** The STATE segment: 2000 list heads at byte 192 and the allocator nodes at byte 8192. */
module State {
  import opened Arith
  import opened Bytes
  import opened Disk

  /** Mailboxes are numbered from 1. */
  type BoxId = id: nat | 1 <= id <= 2000 witness 1

  function HeadOff(id: BoxId): nat {
    HEADS + 4 * (id - 1)
  }

  function NodeOff(i: nat): nat {
    TREE + 4 * i
  }

  /** 2000 head words from byte 192 on fill the segment up to the tree, whose words start at byte 8192. */
  lemma Layout(id: BoxId, i: nat)
    ensures HeadOff(1) == 192 && HeadOff(2000) + 4 == 8192 && NodeOff(0) == 8192
    ensures id < 2000 ==> HeadOff(id + 1) == HeadOff(id) + 4
    ensures NodeOff(i + 1) == NodeOff(i) + 4 && HeadOff(id) + 4 <= NodeOff(i)
  {
  }

  /** Room for all heads and for n nodes. */
  predicate Holding(s: bytes, n: nat) {
    NodeOff(n) <= |s|
  }

  function Head(s: bytes, id: BoxId): uint32
    requires Holding(s, 0)
  {
    Slot(s, HeadOff(id))
  }

  function SetHead(s: bytes, id: BoxId, v: uint32): (r: bytes)
    requires Holding(s, 0)
    ensures |r| == |s|
  {
    SetSlot(s, HeadOff(id), v)
  }

  /** allocatorFromState. */
  function LoadNodes(s: bytes, n: nat): (r: seq<int32>)
    requires Holding(s, n)
    ensures |r| == n
  {
    seq(n, i requires 0 <= i < n => WrapInt32(Slot(s, NodeOff(i))))
  }

  /** allocatorToState, after its first k iterations. */
  function StoreNodes(s: bytes, nodes: seq<int32>, k: nat): (r: bytes)
    requires k <= |nodes| && Holding(s, |nodes|)
    ensures |r| == |s|
  {
    if k == 0 then s
    else SetSlot(StoreNodes(s, nodes, k - 1), NodeOff(k - 1), WrapUint32(nodes[k - 1]))
  }

  /** Tree slots are stored one by one; everything else in the segment is untouched. */
  lemma {:induction false} StoreNodesReads(s: bytes, nodes: seq<int32>, k: nat)
    requires k <= |nodes| && Holding(s, |nodes|)
    ensures forall i: nat :: i < k ==> Slot(StoreNodes(s, nodes, k), NodeOff(i)) == WrapUint32(nodes[i])
    ensures forall i :: 0 <= i < |s| && !(TREE <= i < NodeOff(k)) ==> StoreNodes(s, nodes, k)[i] == s[i]
    decreases k
  {
    if k > 0 {
      StoreNodesReads(s, nodes, k - 1);
      SetSlotReads(StoreNodes(s, nodes, k - 1), NodeOff(k - 1), WrapUint32(nodes[k - 1]));
    }
  }

  lemma HeadStable(s: bytes, t: bytes, id: BoxId)
    requires |s| == |t| && Holding(s, 0)
    requires forall i :: HeadOff(id) <= i < HeadOff(id) + 4 ==> s[i] == t[i]
    ensures Head(s, id) == Head(t, id)
  {
    assert s[HeadOff(id)..HeadOff(id) + 4] == t[HeadOff(id)..HeadOff(id) + 4];
  }

  /** The state an operation writes: new nodes, then one new head. */
  function Rewrite(s: bytes, nodes: seq<int32>, id: BoxId, head: uint32): (r: bytes)
    requires Holding(s, |nodes|)
    ensures |r| == |s|
  {
    SetHead(StoreNodes(s, nodes, |nodes|), id, head)
  }

  /** Bytes of the segment that belong to no slot. */
  predicate Padding(i: int, n: nat) {
    i < HEADS || NodeOff(n) <= i
  }

  /** The rewritten state reads back exactly what was put, and keeps all other heads and the padding. */
  lemma RewriteReads(s: bytes, nodes: seq<int32>, id: BoxId, head: uint32)
    requires Holding(s, |nodes|)
    ensures var r := Rewrite(s, nodes, id, head);
            && LoadNodes(r, |nodes|) == nodes
            && Head(r, id) == head
            && (forall j: BoxId :: j != id ==> Head(r, j) == Head(s, j))
            && (forall i :: 0 <= i < |s| && Padding(i, |nodes|) ==> r[i] == s[i])
  {
    var n := |nodes|;
    var m := StoreNodes(s, nodes, n);
    var r := Rewrite(s, nodes, id, head);
    StoreNodesReads(s, nodes, n);
    SetSlotReads(m, HeadOff(id), head);
    forall i | 0 <= i < n
      ensures LoadNodes(r, n)[i] == nodes[i]
    {
      assert Slot(r, NodeOff(i)) == Slot(m, NodeOff(i));
      WrapRoundTrip(nodes[i]);
    }
    forall j: BoxId | j != id
      ensures Head(r, j) == Head(s, j)
    {
      assert Slot(r, HeadOff(j)) == Slot(m, HeadOff(j));
      HeadStable(m, s, j);
    }
  }

  lemma WrapInjective(x: uint32, y: uint32)
    requires WrapInt32(x) == WrapInt32(y)
    ensures x == y
  {
  }

  /** A state is determined by its heads, its nodes and its padding. */
  lemma StateDetermined(s: bytes, t: bytes, n: nat)
    requires |s| == |t| && Holding(s, n)
    requires forall id: BoxId :: Head(s, id) == Head(t, id)
    requires LoadNodes(s, n) == LoadNodes(t, n)
    requires forall i :: 0 <= i < |s| && Padding(i, n) ==> s[i] == t[i]
    ensures s == t
  {
    forall i | 0 <= i < |s|
      ensures s[i] == t[i]
    {
      if !Padding(i, n) {
        if i < TREE {
          var id: BoxId := (i - HEADS) / 4 + 1;
          assert Head(s, id) == Head(t, id);
          SlotBytes(s, t, HeadOff(id));
          assert s[HeadOff(id)..HeadOff(id) + 4][i - HeadOff(id)] == s[i];
          assert t[HeadOff(id)..HeadOff(id) + 4][i - HeadOff(id)] == t[i];
        } else {
          var k := (i - TREE) / 4;
          assert LoadNodes(s, n)[k] == LoadNodes(t, n)[k];
          WrapInjective(Slot(s, NodeOff(k)), Slot(t, NodeOff(k)));
          SlotBytes(s, t, NodeOff(k));
          assert s[NodeOff(k)..NodeOff(k) + 4][i - NodeOff(k)] == s[i];
          assert t[NodeOff(k)..NodeOff(k) + 4][i - NodeOff(k)] == t[i];
        }
      }
    }
  }

  // ---------------------------------------------------------------------------------------
  // In-place methods
  // ---------------------------------------------------------------------------------------

  method PutUint32(state: array<byte>, off: nat, v: uint32)
    requires off + 4 <= state.Length
    modifies state
    ensures state[..] == SetSlot(old(state[..]), off, v)
  {
    var b := PutLE(v);
    state[off] := b[0];
    state[off + 1] := b[1];
    state[off + 2] := b[2];
    state[off + 3] := b[3];
    assert state[off..off + 4] == b;
  }

  method AllocatorToState(alloc: array<int32>, state: array<byte>)
    requires Holding(state[..], alloc.Length)
    modifies state
    ensures state[..] == StoreNodes(old(state[..]), alloc[..], alloc.Length)
  {
    for i := 0 to alloc.Length
      invariant state[..] == StoreNodes(old(state[..]), alloc[..], i)
    {
      PutUint32(state, NodeOff(i), WrapUint32(alloc[i]));
    }
  }

  /** Every node is overwritten, so what the constructor put there does not matter. */
  method AllocatorFromState(alloc: array<int32>, state: array<byte>)
    requires Holding(state[..], alloc.Length)
    modifies alloc
    ensures alloc[..] == LoadNodes(state[..], alloc.Length)
  {
    for i := 0 to alloc.Length
      invariant forall j :: 0 <= j < i ==> alloc[j] == WrapInt32(Slot(state[..], NodeOff(j)))
    {
      alloc[i] := WrapInt32(Slot(state[..], NodeOff(i)));
    }
  }
}
