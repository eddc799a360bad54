/**
 The cluster volume lock of pkg/driverd/volumelock.go.  Nodes take their steps in any order; every
 call to LVM is one step and may fail, before or after it took effect.  LVM itself is trusted to
 activate a volume exclusively on one host and to refuse tag changes on a volume that is active on
 another host.
 */
module VolumeLock {

  // Hosts, volume keys and operation names are only ever compared, so numbers stand for them.
  type Node = nat
  type Vol = nat
  type Op = nat

  /** "stage" */
  const DEFAULT_LOCK_OP: Op := 0

  /** What a node is doing while it holds its mutex. */
  datatype PC =
    | Down
    | Idle
    | Locking(v: Vol, op: Op)                       // about to activate
    | Activated(v: Vol, op: Op)                     // about to read the tags
    | Tagging(v: Vol, op: Op, seen: set<Node>)      // about to put its own owner tag
    | Undoing(v: Vol)                               // tagging failed, about to deactivate
    | Untagging(v: Vol)                             // last op gone, about to read the tags
    | Removing(v: Vol, seen: set<Node>)             // about to remove the owner tags it read
    | Releasing(v: Vol)                             // about to deactivate
    | Syncing(todo: map<Vol, bool>)                 // volumes found active, and whether they are open
    | SyncUntag(v: Vol, todo: map<Vol, bool>)
    | SyncRemove(v: Vol, seen: set<Node>, todo: map<Vol, bool>)

  /** The state of one node; `adopted` are the volumes whose op set came from sync. */
  datatype Local = Local(locks: map<Vol, set<Op>>, adopted: set<Vol>, pc: PC)

  /** What LVM stores: the host a volume is active on, and the hosts its owner tags name. */
  datatype Lvm = Lvm(active: map<Vol, Node>, owners: map<Vol, set<Node>>)

  datatype Cluster = Cluster(lvm: Lvm, nodes: map<Node, Local>)

  function Ops(l: Local, v: Vol): set<Op> {
    if v in l.locks then l.locks[v] else {}
  }

  function Owners(m: Lvm, v: Vol): set<Node> {
    if v in m.owners then m.owners[v] else {}
  }

  predicate ActiveOn(m: Lvm, v: Vol, n: Node) {
    v in m.active && m.active[v] == n
  }

  // ---------------------------------------------------------------------------------------
  // LVM calls by node n
  // ---------------------------------------------------------------------------------------

  /** Exclusive activation is granted unless another host has the volume. */
  predicate CanActivate(m: Lvm, n: Node, v: Vol) {
    v in m.active ==> m.active[v] == n
  }

  function Activate(m: Lvm, n: Node, v: Vol): Lvm {
    m.(active := m.active[v := n])
  }

  function Deactivate(m: Lvm, n: Node, v: Vol): Lvm {
    if ActiveOn(m, v, n) then m.(active := m.active - {v}) else m
  }

  /** A tag change is refused while the volume is active on another host. */
  predicate CanTag(m: Lvm, n: Node, v: Vol) {
    v in m.active ==> m.active[v] == n
  }

  function ChangeTags(m: Lvm, v: Vol, del: set<Node>, add: set<Node>): Lvm {
    m.(owners := m.owners[v := Owners(m, v) - del + add])
  }

  // ---------------------------------------------------------------------------------------
  // Steps of one node: from local state and LVM to local state and LVM
  // ---------------------------------------------------------------------------------------

  /** LockVolume up to its first LVM call; a volume that is already locked only gets one more op. */
  predicate LockAt(l: Local, l': Local, v: Vol, op: Op) {
    if Ops(l, v) != {} then l' == l.(locks := l.locks[v := Ops(l, v) + {op}])
    else l' == l.(locks := l.locks[v := {}], pc := Locking(v, op))
  }

  ghost predicate LockStart(l: Local, l': Local) {
    l.pc.Idle? && exists v, op :: LockAt(l, l', v, op)
  }

  ghost predicate ActivateStep(n: Node, m: Lvm, l: Local, m': Lvm, l': Local) {
    && l.pc.Locking?
    && ( || (CanActivate(m, n, l.pc.v) && m' == Activate(m, n, l.pc.v) && l' == l.(pc := Activated(l.pc.v, l.pc.op)))
         || (CanActivate(m, n, l.pc.v) && m' == Activate(m, n, l.pc.v) && l' == l.(pc := Idle))
         || (m' == m && l' == l.(pc := Idle)))
  }

  /** Reading the tags fails when they cannot be decoded, in particular on two owners. */
  ghost predicate FetchStep(n: Node, m: Lvm, l: Local, m': Lvm, l': Local) {
    && l.pc.Activated? && m' == m
    && ( || (|Owners(m, l.pc.v)| <= 1 && l' == l.(pc := Tagging(l.pc.v, l.pc.op, Owners(m, l.pc.v))))
         || l' == l.(pc := Undoing(l.pc.v)))
  }

  ghost predicate TagStep(n: Node, m: Lvm, l: Local, m': Lvm, l': Local) {
    && l.pc.Tagging?
    && var v := l.pc.v;
       var tagged := ChangeTags(m, v, l.pc.seen - {n}, {n});
       || (CanTag(m, n, v) && m' == tagged
           && l' == l.(locks := l.locks[v := Ops(l, v) + {l.pc.op}], adopted := l.adopted - {v}, pc := Idle))
       || (CanTag(m, n, v) && m' == tagged && l' == l.(pc := Undoing(v)))
       || (m' == m && l' == l.(pc := Undoing(v)))
  }

  ghost predicate UndoStep(n: Node, m: Lvm, l: Local, m': Lvm, l': Local) {
    l.pc.Undoing? && (m' == m || m' == Deactivate(m, n, l.pc.v)) && l' == l.(pc := Idle)
  }

  ghost predicate LockSteps(n: Node, m: Lvm, l: Local, m': Lvm, l': Local) {
    || ActivateStep(n, m, l, m', l') || FetchStep(n, m, l, m', l')
    || TagStep(n, m, l, m', l') || UndoStep(n, m, l, m', l')
  }

  /** UnlockVolume: only the release of the last op, or of a volume without ops, goes on to LVM. */
  predicate UnlockAt(l: Local, l': Local, v: Vol, op: Op) {
    v in l.locks &&
    var rest := Ops(l, v) - {op};
    if rest != {} then l' == l.(locks := l.locks[v := rest])
    else l' == l.(locks := l.locks[v := {}], pc := Untagging(v))
  }

  ghost predicate UnlockStart(l: Local, l': Local) {
    l.pc.Idle? && exists v, op :: UnlockAt(l, l', v, op)
  }

  ghost predicate UntagStep(n: Node, m: Lvm, l: Local, m': Lvm, l': Local) {
    && l.pc.Untagging? && m' == m
    && ( || (|Owners(m, l.pc.v)| == 1 && l' == l.(pc := Removing(l.pc.v, Owners(m, l.pc.v))))
         || (Owners(m, l.pc.v) == {} && l' == l.(pc := Releasing(l.pc.v)))
         || l' == l.(pc := Idle))
  }

  ghost predicate RemoveStep(n: Node, m: Lvm, l: Local, m': Lvm, l': Local) {
    && l.pc.Removing?
    && var untagged := ChangeTags(m, l.pc.v, l.pc.seen, {});
       || (CanTag(m, n, l.pc.v) && m' == untagged && l' == l.(pc := Releasing(l.pc.v)))
       || (CanTag(m, n, l.pc.v) && m' == untagged && l' == l.(pc := Idle))
       || (m' == m && l' == l.(pc := Idle))
  }

  ghost predicate ReleaseStep(n: Node, m: Lvm, l: Local, m': Lvm, l': Local) {
    && l.pc.Releasing?
    && ( || (m' == Deactivate(m, n, l.pc.v) && l' == l.(locks := l.locks - {l.pc.v}, pc := Idle))
         || (m' == Deactivate(m, n, l.pc.v) && l' == l.(pc := Idle))
         || (m' == m && l' == l.(pc := Idle)))
  }

  ghost predicate UnlockSteps(n: Node, m: Lvm, l: Local, m': Lvm, l': Local) {
    UntagStep(n, m, l, m', l') || RemoveStep(n, m, l, m', l') || ReleaseStep(n, m, l, m', l')
  }

  /** The process stops. */
  predicate ProcessStops(m: Lvm, m': Lvm, l': Local) {
    m' == m && l' == Local(map[], {}, Down)
  }

  /** The process stops, or starts and lists the volumes active on its host. */
  ghost predicate RestartSteps(n: Node, m: Lvm, l: Local, m': Lvm, l': Local) {
    || ProcessStops(m, m', l')
    || (l.pc.Down? && m' == m && l'.locks == map[] && l'.adopted == {} && l'.pc.Syncing?
        && forall v :: v in l'.pc.todo ==> ActiveOn(m, v, n))
  }

  /** The host stops: its activations end with it. */
  ghost predicate HostStops(n: Node, m: Lvm, l: Local, m': Lvm, l': Local) {
    && l' == Local(map[], {}, Down)
    && m'.owners == m.owners
    && m'.active == map v | v in m.active && m.active[v] != n :: m.active[v]
  }

  /** sync: an open volume is adopted, any other is deactivated and its owner tags are removed. */
  ghost predicate SyncAt(n: Node, m: Lvm, l: Local, m': Lvm, l': Local, v: Vol) {
    && l.pc.Syncing? && v in l.pc.todo
    && var rest := l.pc.todo - {v};
       if l.pc.todo[v] then
         m' == m && l' == l.(locks := l.locks[v := {DEFAULT_LOCK_OP}], adopted := l.adopted + {v}, pc := Syncing(rest))
       else
         (m' == m || m' == Deactivate(m, n, v)) && l' == l.(pc := SyncUntag(v, rest))
  }

  ghost predicate SyncUntagStep(n: Node, m: Lvm, l: Local, m': Lvm, l': Local) {
    && l.pc.SyncUntag? && m' == m
    && ( || (|Owners(m, l.pc.v)| == 1 && l' == l.(pc := SyncRemove(l.pc.v, Owners(m, l.pc.v), l.pc.todo)))
         || l' == l.(pc := Syncing(l.pc.todo)))
  }

  ghost predicate SyncRemoveStep(n: Node, m: Lvm, l: Local, m': Lvm, l': Local) {
    && l.pc.SyncRemove?
    && (m' == m || (CanTag(m, n, l.pc.v) && m' == ChangeTags(m, l.pc.v, l.pc.seen, {})))
    && l' == l.(pc := Syncing(l.pc.todo))
  }

  ghost predicate SyncSteps(n: Node, m: Lvm, l: Local, m': Lvm, l': Local) {
    || (l.pc == Syncing(map[]) && m' == m && l' == l.(pc := Idle))
    || (exists v :: SyncAt(n, m, l, m', l', v))
    || SyncUntagStep(n, m, l, m', l')
    || SyncRemoveStep(n, m, l, m', l')
  }

  ghost predicate NodeStep(n: Node, m: Lvm, l: Local, m': Lvm, l': Local) {
    || (m' == m && (LockStart(l, l') || UnlockStart(l, l')))
    || LockSteps(n, m, l, m', l')
    || UnlockSteps(n, m, l, m', l')
    || SyncSteps(n, m, l, m', l')
    || RestartSteps(n, m, l, m', l')
    || HostStops(n, m, l, m', l')
  }

  ghost predicate Next(c: Cluster, c': Cluster) {
    exists n :: n in c.nodes && c'.nodes.Keys == c.nodes.Keys
      && NodeStep(n, c.lvm, c.nodes[n], c'.lvm, c'.nodes[n])
      && forall k :: k in c.nodes && k != n ==> c'.nodes[k] == c.nodes[k]
  }

  /** Before any node runs: nothing active, and at most one owner tag left over per volume. */
  predicate Init(c: Cluster) {
    && c.lvm.active == map[]
    && (forall v :: v in c.lvm.owners ==> |c.lvm.owners[v]| <= 1)
    && (forall n :: n in c.nodes ==> c.nodes[n] == Local(map[], {}, Down))
  }

  ghost predicate Run(cs: seq<Cluster>) {
    && |cs| > 0 && Init(cs[0])
    && forall i :: 0 <= i < |cs| - 1 ==> Next(cs[i], cs[i + 1])
  }

  // ---------------------------------------------------------------------------------------
  // What one node relies on and keeps
  // ---------------------------------------------------------------------------------------

  /** Locked volumes are active here, and carry this node's owner tag unless sync adopted them. */
  ghost predicate Held(n: Node, m: Lvm, l: Local) {
    forall v :: Ops(l, v) != {} ==> ActiveOn(m, v, n) && (v !in l.adopted ==> Owners(m, v) == {n})
  }

  predicate TodoOk(n: Node, m: Lvm, l: Local, todo: map<Vol, bool>) {
    forall v :: v in todo ==> ActiveOn(m, v, n) && Ops(l, v) == {}
  }

  predicate PcOk(n: Node, m: Lvm, l: Local) {
    match l.pc
    case Down => l.locks == map[]
    case Idle => true
    case Locking(v, op) => Ops(l, v) == {}
    case Activated(v, op) => Ops(l, v) == {} && ActiveOn(m, v, n)
    case Tagging(v, op, seen) => Ops(l, v) == {} && ActiveOn(m, v, n) && seen == Owners(m, v) && |seen| <= 1
    case Undoing(v) => Ops(l, v) == {}
    case Untagging(v) => Ops(l, v) == {}
    case Removing(v, seen) => Ops(l, v) == {} && (n in Owners(m, v) ==> n in seen)
    case Releasing(v) => Ops(l, v) == {} && n !in Owners(m, v)
    case Syncing(todo) => TodoOk(n, m, l, todo)
    case SyncUntag(v, todo) => Ops(l, v) == {} && v !in todo && TodoOk(n, m, l, todo)
    case SyncRemove(v, seen, todo) => Ops(l, v) == {} && v !in todo && TodoOk(n, m, l, todo)
  }

  ghost predicate LocalInv(n: Node, m: Lvm, l: Local) {
    Held(n, m, l) && PcOk(n, m, l)
  }

  /** What the other nodes leave alone: everything about a volume active on n; and none tags for n. */
  ghost predicate Rely(n: Node, m: Lvm, m': Lvm) {
    && (forall v :: ActiveOn(m, v, n) ==> ActiveOn(m', v, n) && Owners(m', v) == Owners(m, v))
    && (forall v :: ActiveOn(m', v, n) ==> ActiveOn(m, v, n))
    && (forall v :: n in Owners(m', v) ==> n in Owners(m, v))
  }

  ghost predicate OneOwner(m: Lvm) {
    forall v :: |Owners(m, v)| <= 1
  }

  lemma SubsetSize(a: set<Node>, b: set<Node>)
    requires a <= b
    ensures |a| <= |b|
  {
    assert b == a + (b - a);
  }

  /** m and m' say the same about every volume but v. */
  ghost predicate SameBut(m: Lvm, m': Lvm, v: Vol) {
    && (forall w, k :: w != v ==> (ActiveOn(m', w, k) <==> ActiveOn(m, w, k)))
    && (forall w :: w != v ==> Owners(m', w) == Owners(m, w))
  }

  /** A call of n about a volume that no other host has active. */
  ghost predicate Mine(n: Node, m: Lvm, m': Lvm, v: Vol) {
    && SameBut(m, m', v)
    && (forall k :: k != n ==> (ActiveOn(m, v, k) <==> ActiveOn(m', v, k)))
    && (forall k :: k != n && ActiveOn(m, v, k) ==> Owners(m', v) == Owners(m, v))
    && Owners(m', v) <= Owners(m, v) + {n}
    && |Owners(m', v)| <= 1
  }

  lemma MineKeeps(n: Node, m: Lvm, m': Lvm, v: Vol)
    requires Mine(n, m, m', v) && OneOwner(m)
    ensures OneOwner(m')
    ensures forall k :: k != n ==> Rely(k, m, m')
  {
    forall w ensures |Owners(m', w)| <= 1 {
      if w != v { assert Owners(m', w) == Owners(m, w); }
    }
    forall k | k != n
      ensures Rely(k, m, m')
    {
      forall w
        ensures ActiveOn(m, w, k) ==> ActiveOn(m', w, k) && Owners(m', w) == Owners(m, w)
        ensures ActiveOn(m', w, k) ==> ActiveOn(m, w, k)
        ensures k in Owners(m', w) ==> k in Owners(m, w)
      {
        if w != v { assert Owners(m', w) == Owners(m, w); }
      }
    }
  }

  lemma TagsMine(n: Node, m: Lvm, v: Vol, del: set<Node>, add: set<Node>)
    requires OneOwner(m) && CanTag(m, n, v) && |Owners(m, v) - del + add| <= 1 && add <= {n}
    ensures Mine(n, m, ChangeTags(m, v, del, add), v)
    ensures Owners(ChangeTags(m, v, del, add), v) == Owners(m, v) - del + add
  {
  }

  lemma RemoveMine(n: Node, m: Lvm, v: Vol, seen: set<Node>)
    requires OneOwner(m) && CanTag(m, n, v)
    ensures Mine(n, m, ChangeTags(m, v, seen, {}), v)
    ensures Owners(ChangeTags(m, v, seen, {}), v) == Owners(m, v) - seen
  {
    var rest := Owners(m, v) - seen;
    assert rest + {} == rest;
    SubsetSize(rest, Owners(m, v));
    TagsMine(n, m, v, seen, {});
  }

  lemma DeactivateMine(n: Node, m: Lvm, v: Vol)
    requires OneOwner(m)
    ensures Mine(n, m, Deactivate(m, n, v), v)
  {
    assert Owners(Deactivate(m, n, v), v) == Owners(m, v);
  }

  lemma ActivateMine(n: Node, m: Lvm, v: Vol)
    requires OneOwner(m) && CanActivate(m, n, v)
    ensures Mine(n, m, Activate(m, n, v), v) && ActiveOn(Activate(m, n, v), v, n)
  {
    assert Owners(Activate(m, n, v), v) == Owners(m, v);
  }

  lemma NothingMine(n: Node, m: Lvm, v: Vol)
    requires OneOwner(m)
    ensures Mine(n, m, m, v)
  {
  }

  /** A change that concerns v only keeps what is held of the other volumes. */
  lemma HeldBut(n: Node, m: Lvm, l: Local, m': Lvm, l': Local, v: Vol)
    requires Held(n, m, l) && SameBut(m, m', v)
    requires forall w :: w != v ==> Ops(l', w) == Ops(l, w) && (w in l'.adopted <==> w in l.adopted)
    requires Ops(l', v) != {} ==> ActiveOn(m', v, n) && (v !in l'.adopted ==> Owners(m', v) == {n})
    ensures Held(n, m', l')
  {
    forall w | Ops(l', w) != {}
      ensures ActiveOn(m', w, n) && (w !in l'.adopted ==> Owners(m', w) == {n})
    {
      if w != v {
        assert Ops(l, w) != {};
        assert Owners(m', w) == Owners(m, w);
      }
    }
  }

  // Each kind of step of a node keeps its invariant and leaves other nodes' volumes alone.

  ghost predicate Keeps(n: Node, m: Lvm, m': Lvm, l': Local, v: Vol) {
    LocalInv(n, m', l') && Mine(n, m, m', v)
  }

  lemma MineSame(n: Node, m: Lvm, m': Lvm, v: Vol)
    requires Mine(n, m, m', v)
    ensures SameBut(m, m', v)
  {
  }

  lemma HeldAt(n: Node, m: Lvm, l: Local, v: Vol)
    requires Held(n, m, l)
    ensures Ops(l, v) != {} ==> ActiveOn(m, v, n) && (v !in l.adopted ==> Owners(m, v) == {n})
  {
  }

  lemma ActivateKeeps(n: Node, m: Lvm, l: Local, m': Lvm, l': Local)
    requires LocalInv(n, m, l) && OneOwner(m) && ActivateStep(n, m, l, m', l')
    ensures Keeps(n, m, m', l', l.pc.v)
  {
    hide Mine;
    hide Held;
    hide Activate;
    hide ActiveOn;
    NothingMine(n, m, l.pc.v);
    if CanActivate(m, n, l.pc.v) { ActivateMine(n, m, l.pc.v); }
    MineSame(n, m, m', l.pc.v);
    HeldBut(n, m, l, m', l', l.pc.v);
  }

  lemma FetchKeeps(n: Node, m: Lvm, l: Local, m': Lvm, l': Local)
    requires LocalInv(n, m, l) && OneOwner(m) && FetchStep(n, m, l, m', l')
    ensures Keeps(n, m, m', l', l.pc.v)
  {
    hide Mine;
    hide Held;
    hide ActiveOn;
    NothingMine(n, m, l.pc.v);
    MineSame(n, m, m', l.pc.v);
    HeldBut(n, m, l, m', l', l.pc.v);
  }

  lemma TagKeeps(n: Node, m: Lvm, l: Local, m': Lvm, l': Local)
    requires LocalInv(n, m, l) && OneOwner(m) && TagStep(n, m, l, m', l')
    ensures Keeps(n, m, m', l', l.pc.v)
  {
    hide Mine;
    hide Held;
    var v, seen := l.pc.v, l.pc.seen;
    NothingMine(n, m, v);
    assert seen - (seen - {n}) + {n} == {n};
    TagsMine(n, m, v, seen - {n}, {n});
    MineSame(n, m, m', v);
    HeldBut(n, m, l, m', l', v);
  }

  lemma UndoKeeps(n: Node, m: Lvm, l: Local, m': Lvm, l': Local)
    requires LocalInv(n, m, l) && OneOwner(m) && UndoStep(n, m, l, m', l')
    ensures Keeps(n, m, m', l', l.pc.v)
  {
    hide Mine;
    hide Held;
    hide Deactivate;
    NothingMine(n, m, l.pc.v);
    DeactivateMine(n, m, l.pc.v);
    MineSame(n, m, m', l.pc.v);
    HeldBut(n, m, l, m', l', l.pc.v);
  }

  lemma UntagKeeps(n: Node, m: Lvm, l: Local, m': Lvm, l': Local)
    requires LocalInv(n, m, l) && OneOwner(m) && UntagStep(n, m, l, m', l')
    ensures Keeps(n, m, m', l', l.pc.v)
  {
    hide Mine;
    hide Held;
    NothingMine(n, m, l.pc.v);
    MineSame(n, m, m', l.pc.v);
    HeldBut(n, m, l, m', l', l.pc.v);
  }

  lemma RemoveKeeps(n: Node, m: Lvm, l: Local, m': Lvm, l': Local)
    requires LocalInv(n, m, l) && OneOwner(m) && RemoveStep(n, m, l, m', l')
    ensures Keeps(n, m, m', l', l.pc.v)
  {
    hide Mine;
    hide Held;
    hide ChangeTags;
    NothingMine(n, m, l.pc.v);
    if CanTag(m, n, l.pc.v) { RemoveMine(n, m, l.pc.v, l.pc.seen); }
    MineSame(n, m, m', l.pc.v);
    HeldBut(n, m, l, m', l', l.pc.v);
  }

  lemma ReleaseKeeps(n: Node, m: Lvm, l: Local, m': Lvm, l': Local)
    requires LocalInv(n, m, l) && OneOwner(m) && ReleaseStep(n, m, l, m', l')
    ensures Keeps(n, m, m', l', l.pc.v)
  {
    hide Mine;
    hide Held;
    hide Deactivate;
    NothingMine(n, m, l.pc.v);
    DeactivateMine(n, m, l.pc.v);
    MineSame(n, m, m', l.pc.v);
    HeldBut(n, m, l, m', l', l.pc.v);
  }

  lemma TodoBut(n: Node, m: Lvm, l: Local, m': Lvm, l': Local, todo: map<Vol, bool>, v: Vol)
    requires TodoOk(n, m, l, todo) && SameBut(m, m', v) && v !in todo
    requires forall w :: w != v ==> Ops(l', w) == Ops(l, w)
    ensures TodoOk(n, m', l', todo)
  {
  }

  lemma SyncAtKeeps(n: Node, m: Lvm, l: Local, m': Lvm, l': Local, v: Vol)
    requires LocalInv(n, m, l) && OneOwner(m) && SyncAt(n, m, l, m', l', v)
    ensures Keeps(n, m, m', l', v)
  {
    hide Mine;
    hide Held;
    hide OneOwner;
    NothingMine(n, m, v);
    DeactivateMine(n, m, v);
    MineSame(n, m, m', v);
    HeldBut(n, m, l, m', l', v);
    TodoBut(n, m, l, m', l', l.pc.todo - {v}, v);
  }

  lemma SyncUntagKeeps(n: Node, m: Lvm, l: Local, m': Lvm, l': Local)
    requires LocalInv(n, m, l) && OneOwner(m) && SyncUntagStep(n, m, l, m', l')
    ensures Keeps(n, m, m', l', l.pc.v)
  {
    hide Mine;
    hide Held;
    NothingMine(n, m, l.pc.v);
    MineSame(n, m, m', l.pc.v);
    HeldBut(n, m, l, m', l', l.pc.v);
    TodoBut(n, m, l, m', l', l.pc.todo, l.pc.v);
  }

  lemma SyncRemoveKeeps(n: Node, m: Lvm, l: Local, m': Lvm, l': Local)
    requires LocalInv(n, m, l) && OneOwner(m) && SyncRemoveStep(n, m, l, m', l')
    ensures Keeps(n, m, m', l', l.pc.v)
  {
    hide Mine;
    hide Held;
    hide ChangeTags;
    NothingMine(n, m, l.pc.v);
    if CanTag(m, n, l.pc.v) { RemoveMine(n, m, l.pc.v, l.pc.seen); }
    MineSame(n, m, m', l.pc.v);
    HeldBut(n, m, l, m', l', l.pc.v);
    TodoBut(n, m, l, m', l', l.pc.todo, l.pc.v);
  }

  lemma StartKeeps(n: Node, m: Lvm, l: Local, l': Local, v: Vol, op: Op)
    requires l.pc.Idle? && LocalInv(n, m, l) && (LockAt(l, l', v, op) || UnlockAt(l, l', v, op))
    ensures LocalInv(n, m, l')
  {
    hide Held;
    HeldAt(n, m, l, v);
    HeldBut(n, m, l, m, l', v);
  }

  lemma KeepsAll(n: Node, m: Lvm, m': Lvm, l': Local, v: Vol)
    requires OneOwner(m) && Keeps(n, m, m', l', v)
    ensures LocalInv(n, m', l') && OneOwner(m')
    ensures forall k :: k != n ==> Rely(k, m, m')
  {
    MineKeeps(n, m, m', v);
  }

  lemma LockStepsKeep(n: Node, m: Lvm, l: Local, m': Lvm, l': Local)
    requires LocalInv(n, m, l) && OneOwner(m) && (LockSteps(n, m, l, m', l') || UnlockSteps(n, m, l, m', l'))
    ensures Keeps(n, m, m', l', l.pc.v)
  {
    hide Keeps;
    hide LocalInv;
    match l.pc
    case Locking(_, _) => ActivateKeeps(n, m, l, m', l');
    case Activated(_, _) => FetchKeeps(n, m, l, m', l');
    case Tagging(_, _, _) => TagKeeps(n, m, l, m', l');
    case Undoing(_) => UndoKeeps(n, m, l, m', l');
    case Untagging(_) => UntagKeeps(n, m, l, m', l');
    case Removing(_, _) => RemoveKeeps(n, m, l, m', l');
    case Releasing(_) => ReleaseKeeps(n, m, l, m', l');
  }

  lemma SyncStepsKeep(n: Node, m: Lvm, l: Local, m': Lvm, l': Local) returns (v: Vol)
    requires LocalInv(n, m, l) && OneOwner(m) && SyncSteps(n, m, l, m', l')
    ensures Keeps(n, m, m', l', v)
  {
    if l.pc == Syncing(map[]) && m' == m && l' == l.(pc := Idle) {
      v := 0;
      NothingMine(n, m, v);
      assert forall w :: Ops(l', w) == Ops(l, w);
    } else {
      hide Keeps;
      hide LocalInv;
      if exists w :: SyncAt(n, m, l, m', l', w) {
        v :| SyncAt(n, m, l, m', l', v);
        SyncAtKeeps(n, m, l, m', l', v);
      } else if SyncUntagStep(n, m, l, m', l') {
        v := l.pc.v;
        SyncUntagKeeps(n, m, l, m', l');
      } else {
        v := l.pc.v;
        SyncRemoveKeeps(n, m, l, m', l');
      }
    }
  }

  lemma RestartKeeps(n: Node, m: Lvm, l: Local, m': Lvm, l': Local)
    requires OneOwner(m) && (RestartSteps(n, m, l, m', l') || HostStops(n, m, l, m', l'))
    ensures LocalInv(n, m', l') && OneOwner(m')
    ensures forall k :: k != n ==> Rely(k, m, m')
  {
    assert forall v :: Owners(m', v) == Owners(m, v);
  }

  lemma NodeStepKeeps(n: Node, m: Lvm, l: Local, m': Lvm, l': Local)
    requires LocalInv(n, m, l) && OneOwner(m) && NodeStep(n, m, l, m', l')
    ensures LocalInv(n, m', l') && OneOwner(m')
    ensures forall k :: k != n ==> Rely(k, m, m')
  {
    hide LocalInv;
    hide Keeps;
    if m' == m && LockStart(l, l') {
      var v, op :| LockAt(l, l', v, op);
      StartKeeps(n, m, l, l', v, op);
    } else if m' == m && UnlockStart(l, l') {
      var v, op :| UnlockAt(l, l', v, op);
      StartKeeps(n, m, l, l', v, op);
    } else if LockSteps(n, m, l, m', l') || UnlockSteps(n, m, l, m', l') {
      LockStepsKeep(n, m, l, m', l');
      KeepsAll(n, m, m', l', l.pc.v);
    } else if SyncSteps(n, m, l, m', l') {
      var v := SyncStepsKeep(n, m, l, m', l');
      KeepsAll(n, m, m', l', v);
    } else {
      RestartKeeps(n, m, l, m', l');
    }
  }

  /** The other nodes' steps keep it too. */
  lemma RelyKeeps(n: Node, m: Lvm, l: Local, m': Lvm)
    requires LocalInv(n, m, l) && Rely(n, m, m')
    ensures LocalInv(n, m', l)
  {
  }

  // ---------------------------------------------------------------------------------------
  // Safety of every run
  // ---------------------------------------------------------------------------------------

  ghost predicate Inv(c: Cluster) {
    OneOwner(c.lvm) && forall n :: n in c.nodes ==> LocalInv(n, c.lvm, c.nodes[n])
  }

  lemma InitInv(c: Cluster)
    requires Init(c)
    ensures Inv(c)
  {
  }

  lemma NextInv(c: Cluster, c': Cluster)
    requires Inv(c) && Next(c, c')
    ensures Inv(c')
  {
    var n :| n in c.nodes && c'.nodes.Keys == c.nodes.Keys
      && NodeStep(n, c.lvm, c.nodes[n], c'.lvm, c'.nodes[n])
      && forall k :: k in c.nodes && k != n ==> c'.nodes[k] == c.nodes[k];
    NodeStepKeeps(n, c.lvm, c.nodes[n], c'.lvm, c'.nodes[n]);
    forall k | k in c'.nodes
      ensures LocalInv(k, c'.lvm, c'.nodes[k])
    {
      if k != n {
        RelyKeeps(k, c.lvm, c.nodes[k], c'.lvm);
      }
    }
  }

  /** At most one node has ops on a volume; that node has it active and, unless adopted, tagged. */
  ghost predicate Safe(c: Cluster) {
    && (forall v, n, k :: n in c.nodes && k in c.nodes && Ops(c.nodes[n], v) != {} && Ops(c.nodes[k], v) != {} ==> n == k)
    && (forall v, n :: n in c.nodes && Ops(c.nodes[n], v) != {} ==>
          ActiveOn(c.lvm, v, n) && (v !in c.nodes[n].adopted ==> Owners(c.lvm, v) == {n}))
  }

  lemma {:induction false} RunInv(cs: seq<Cluster>, i: nat)
    requires Run(cs) && i < |cs|
    ensures Inv(cs[i])
  {
    if i == 0 {
      InitInv(cs[0]);
    } else {
      RunInv(cs, i - 1);
      NextInv(cs[i - 1], cs[i]);
    }
  }

  /** Mutual exclusion over every run of any number of nodes. */
  lemma LockSafety(cs: seq<Cluster>, i: nat)
    requires Run(cs) && i < |cs|
    ensures Safe(cs[i])
  {
    RunInv(cs, i);
  }

  /** UnlockVolume takes the last op of v. */
  ghost predicate LastUnlock(m: Lvm, l: Local, m': Lvm, l': Local, v: Vol) {
    m' == m && l.pc.Idle? && exists op: Op :: UnlockAt(l, l', v, op) && Ops(l, v) == {op}
  }

  /** The ways in which node n gives up a locked volume v. */
  ghost predicate GivesUp(c: Cluster, c': Cluster, n: Node, v: Vol)
    requires n in c.nodes && n in c'.nodes
  {
    || LastUnlock(c.lvm, c.nodes[n], c'.lvm, c'.nodes[n], v)
    || ProcessStops(c.lvm, c'.lvm, c'.nodes[n])
    || HostStops(n, c.lvm, c.nodes[n], c'.lvm, c'.nodes[n])
  }

  lemma UnlockEmpties(l: Local, l': Local, v: Vol, w: Vol, op: Op)
    requires UnlockAt(l, l', w, op) && Ops(l, v) != {}
    ensures Ops(l', v) == {} <==> w == v && Ops(l, v) == {op}
    ensures Ops(l', v) != {} ==> l'.adopted == l.adopted
  {
    if w == v && Ops(l', v) == {} {
      assert Ops(l, v) - {op} == {};
    }
  }

  lemma LockStepsKeepOps(n: Node, m: Lvm, l: Local, m': Lvm, l': Local, v: Vol)
    requires PcOk(n, m, l) && Ops(l, v) != {} && (LockSteps(n, m, l, m', l') || UnlockSteps(n, m, l, m', l'))
    ensures Ops(l', v) == Ops(l, v) && (v in l'.adopted <==> v in l.adopted)
  {
    hide ActiveOn;
    hide Owners;
    hide Activate;
    hide Deactivate;
    hide ChangeTags;
    hide CanTag;
    hide CanActivate;
  }

  lemma SyncStepsKeepOps(n: Node, m: Lvm, l: Local, m': Lvm, l': Local, v: Vol)
    requires PcOk(n, m, l) && Ops(l, v) != {} && SyncSteps(n, m, l, m', l')
    ensures Ops(l', v) == Ops(l, v) && (v in l'.adopted <==> v in l.adopted)
  {
    hide ActiveOn;
    hide Owners;
    hide Deactivate;
    hide ChangeTags;
    hide CanTag;
    if w :| SyncAt(n, m, l, m', l', w) {
      assert w != v;
    }
  }

  /** A step of n ends the op set of v only by giving it up, and never changes whether it was adopted. */
  lemma StepEnds(n: Node, m: Lvm, l: Local, m': Lvm, l': Local, v: Vol)
    requires LocalInv(n, m, l) && NodeStep(n, m, l, m', l') && Ops(l, v) != {}
    ensures Ops(l', v) == {} ==> LastUnlock(m, l, m', l', v) || ProcessStops(m, m', l') || HostStops(n, m, l, m', l')
    ensures Ops(l', v) != {} ==> (v in l'.adopted <==> v in l.adopted)
  {
    hide Held;
    hide LockSteps;
    hide UnlockSteps;
    hide SyncSteps;
    hide HostStops;
    if m' == m && UnlockStart(l, l') {
      var w, op :| UnlockAt(l, l', w, op);
      UnlockEmpties(l, l', v, w, op);
    } else if LockSteps(n, m, l, m', l') || UnlockSteps(n, m, l, m', l') {
      LockStepsKeepOps(n, m, l, m', l', v);
    } else if SyncSteps(n, m, l, m', l') {
      SyncStepsKeepOps(n, m, l, m', l', v);
    } else if HostStops(n, m, l, m', l') {
      StoppedEmpty(n, m, l, m', l', v);
    }
  }

  lemma StoppedEmpty(n: Node, m: Lvm, l: Local, m': Lvm, l': Local, v: Vol)
    requires HostStops(n, m, l, m', l')
    ensures Ops(l', v) == {}
  {
  }

  /** The op set of a locked volume becomes empty exactly when its own node gives it up. */
  lemma EmptiedIff(c: Cluster, c': Cluster, n: Node, v: Vol)
    requires Inv(c) && Next(c, c') && n in c.nodes && Ops(c.nodes[n], v) != {}
    ensures n in c'.nodes
    ensures Ops(c'.nodes[n], v) == {} <==> GivesUp(c, c', n, v)
    ensures Ops(c'.nodes[n], v) != {} ==> (v in c'.nodes[n].adopted <==> v in c.nodes[n].adopted)
  {
    hide NodeStep;
    hide LocalInv;
    var k :| k in c.nodes && c'.nodes.Keys == c.nodes.Keys
      && NodeStep(k, c.lvm, c.nodes[k], c'.lvm, c'.nodes[k])
      && forall j :: j in c.nodes && j != k ==> c'.nodes[j] == c.nodes[j];
    if k == n {
      StepEnds(n, c.lvm, c.nodes[n], c'.lvm, c'.nodes[n], v);
    }
    if LastUnlock(c.lvm, c.nodes[n], c'.lvm, c'.nodes[n], v) {
      var op: Op :| UnlockAt(c.nodes[n], c'.nodes[n], v, op) && Ops(c.nodes[n], v) == {op};
      UnlockEmpties(c.nodes[n], c'.nodes[n], v, v, op);
    }
  }

  /**
   Over every run: from a state in which node n has ops on v, as long as n itself neither unlocks the
   last op nor stops, v keeps its ops, stays active on n, and keeps n as its owner unless sync adopted it.
   */
  lemma {:induction false} ActiveUntilReleased(cs: seq<Cluster>, i: nat, j: nat, n: Node, v: Vol)
    requires Run(cs) && i <= j < |cs| && n in cs[i].nodes && Ops(cs[i].nodes[n], v) != {}
    requires forall a, b :: i <= a && b == a + 1 && b <= j && n in cs[a].nodes && n in cs[b].nodes ==> !GivesUp(cs[a], cs[b], n, v)
    ensures n in cs[j].nodes && Ops(cs[j].nodes[n], v) != {}
    ensures ActiveOn(cs[j].lvm, v, n)
    ensures v !in cs[i].nodes[n].adopted ==> Owners(cs[j].lvm, v) == {n}
    ensures v in cs[j].nodes[n].adopted <==> v in cs[i].nodes[n].adopted
    decreases j
  {
    hide Next;
    hide GivesUp;
    if i < j {
      ActiveUntilReleased(cs, i, j - 1, n, v);
      RunInv(cs, j - 1);
      EmptiedIff(cs[j - 1], cs[j], n, v);
    }
    RunInv(cs, j);
  }

  // ---------------------------------------------------------------------------------------
  // Owner tags after a release
  // ---------------------------------------------------------------------------------------

  /** Node n forgets v while it keeps running: its UnlockVolume ends with success. */
  ghost predicate Releases(c: Cluster, c': Cluster, n: Node, v: Vol) {
    && n in c.nodes && n in c'.nodes
    && v in c.nodes[n].locks && v !in c'.nodes[n].locks && !c'.nodes[n].pc.Down?
  }

  /** Only the last step of UnlockVolume, or a stop, forgets a volume. */
  lemma OthersRemember(n: Node, m: Lvm, l: Local, m': Lvm, l': Local, v: Vol)
    requires v in l.locks
    ensures LockStart(l, l') || UnlockStart(l, l') ==> v in l'.locks
    ensures LockSteps(n, m, l, m', l') ==> v in l'.locks
    ensures UntagStep(n, m, l, m', l') || RemoveStep(n, m, l, m', l') ==> v in l'.locks
    ensures SyncSteps(n, m, l, m', l') ==> v in l'.locks
  {
    hide Owners;
    hide ActiveOn;
    hide ChangeTags;
    hide Activate;
    hide Deactivate;
    hide CanTag;
    hide CanActivate;
  }

  lemma OwnRelease(n: Node, m: Lvm, l: Local, m': Lvm, l': Local, v: Vol)
    requires NodeStep(n, m, l, m', l') && PcOk(n, m, l) && v in l.locks && v !in l'.locks && !l'.pc.Down?
    ensures ReleaseStep(n, m, l, m', l') && l.pc.v == v && m' == Deactivate(m, n, v)
  {
    hide LockStart;
    hide UnlockStart;
    hide LockSteps;
    hide UntagStep;
    hide RemoveStep;
    hide SyncSteps;
    hide Owners;
    hide ActiveOn;
    hide Deactivate;
    hide TodoOk;
    OthersRemember(n, m, l, m', l', v);
  }

  /** At that point n is neither an owner of v nor has it active. */
  lemma ReleasedNow(c: Cluster, c': Cluster, n: Node, v: Vol)
    requires Inv(c) && Next(c, c') && Releases(c, c', n, v)
    ensures n !in Owners(c'.lvm, v) && !ActiveOn(c'.lvm, v, n)
  {
    hide NodeStep;
    var k :| k in c.nodes && c'.nodes.Keys == c.nodes.Keys
      && NodeStep(k, c.lvm, c.nodes[k], c'.lvm, c'.nodes[k])
      && forall j :: j in c.nodes && j != k ==> c'.nodes[j] == c.nodes[j];
    assert PcOk(n, c.lvm, c.nodes[n]);
    OwnRelease(n, c.lvm, c.nodes[n], c'.lvm, c'.nodes[n], v);
  }

  /** LockVolume of node n puts its owner tag on v. */
  ghost predicate Tags(c: Cluster, c': Cluster, n: Node, v: Vol) {
    && n in c.nodes && n in c'.nodes && c.nodes[n].pc.Tagging? && c.nodes[n].pc.v == v
    && TagStep(n, c.lvm, c.nodes[n], c'.lvm, c'.nodes[n])
  }

  /** Only its own tagging step puts a node's tag on a volume. */
  lemma TaggedBy(c: Cluster, c': Cluster, n: Node, v: Vol)
    requires Inv(c) && Next(c, c') && n in c.nodes && n !in Owners(c.lvm, v) && n in Owners(c'.lvm, v)
    ensures Tags(c, c', n, v)
  {
    hide NodeStep;
    var k :| k in c.nodes && c'.nodes.Keys == c.nodes.Keys
      && NodeStep(k, c.lvm, c.nodes[k], c'.lvm, c'.nodes[k])
      && forall j :: j in c.nodes && j != k ==> c'.nodes[j] == c.nodes[j];
    NodeStepKeeps(k, c.lvm, c.nodes[k], c'.lvm, c'.nodes[k]);
    assert k != n ==> Rely(n, c.lvm, c'.lvm);
    OwnTag(n, c.lvm, c.nodes[n], c'.lvm, c'.nodes[n], v);
  }

  lemma OwnTag(n: Node, m: Lvm, l: Local, m': Lvm, l': Local, v: Vol)
    requires NodeStep(n, m, l, m', l') && n !in Owners(m, v) && n in Owners(m', v)
    ensures TagStep(n, m, l, m', l') && l.pc.v == v
  {
    assert HostStops(n, m, l, m', l') ==> Owners(m', v) == Owners(m, v);
  }

  /**
   Over every run: once node n has successfully released v, no owner tag of v names n until n tags it
   again.
   */
  lemma {:induction false} ReleasedIsUntagged(cs: seq<Cluster>, i: nat, j: nat, n: Node, v: Vol)
    requires Run(cs) && i + 1 <= j < |cs| && Releases(cs[i], cs[i + 1], n, v)
    requires forall a, b :: i + 1 <= a && b == a + 1 && b <= j ==> !Tags(cs[a], cs[b], n, v)
    ensures n in cs[j].nodes && n !in Owners(cs[j].lvm, v)
    decreases j
  {
    hide Next;
    hide Tags;
    if j == i + 1 {
      RunInv(cs, i);
      assert Next(cs[i], cs[j]);
      ReleasedNow(cs[i], cs[j], n, v);
    } else {
      ReleasedIsUntagged(cs, i, j - 1, n, v);
      RunInv(cs, j - 1);
      assert Next(cs[j - 1], cs[j]);
      SameNodes(cs[j - 1], cs[j]);
      if n in Owners(cs[j].lvm, v) {
        TaggedBy(cs[j - 1], cs[j], n, v);
      }
    }
  }

  /** LockVolume of node n activates v. */
  ghost predicate Activates(c: Cluster, c': Cluster, n: Node, v: Vol) {
    && n in c.nodes && n in c'.nodes && c.nodes[n].pc.Locking? && c.nodes[n].pc.v == v
    && ActivateStep(n, c.lvm, c.nodes[n], c'.lvm, c'.nodes[n])
  }

  lemma OwnActivation(n: Node, m: Lvm, l: Local, m': Lvm, l': Local, v: Vol)
    requires NodeStep(n, m, l, m', l') && !ActiveOn(m, v, n) && ActiveOn(m', v, n)
    ensures ActivateStep(n, m, l, m', l') && l.pc.v == v
  {
    assert HostStops(n, m, l, m', l') ==> !ActiveOn(m', v, n);
  }

  /** Only its own activating step makes a volume active on a node. */
  lemma ActivatedBy(c: Cluster, c': Cluster, n: Node, v: Vol)
    requires Inv(c) && Next(c, c') && n in c.nodes && !ActiveOn(c.lvm, v, n) && ActiveOn(c'.lvm, v, n)
    ensures Activates(c, c', n, v)
  {
    hide NodeStep;
    var k :| k in c.nodes && c'.nodes.Keys == c.nodes.Keys
      && NodeStep(k, c.lvm, c.nodes[k], c'.lvm, c'.nodes[k])
      && forall j :: j in c.nodes && j != k ==> c'.nodes[j] == c.nodes[j];
    NodeStepKeeps(k, c.lvm, c.nodes[k], c'.lvm, c'.nodes[k]);
    assert k != n ==> Rely(n, c.lvm, c'.lvm);
    OwnActivation(n, c.lvm, c.nodes[n], c'.lvm, c'.nodes[n], v);
  }

  /** Over every run: once node n has successfully released v, v is not active on n until n activates it again. */
  lemma {:induction false} ReleasedIsInactive(cs: seq<Cluster>, i: nat, j: nat, n: Node, v: Vol)
    requires Run(cs) && i + 1 <= j < |cs| && Releases(cs[i], cs[i + 1], n, v)
    requires forall a, b :: i + 1 <= a && b == a + 1 && b <= j ==> !Activates(cs[a], cs[b], n, v)
    ensures n in cs[j].nodes && !ActiveOn(cs[j].lvm, v, n)
    decreases j
  {
    hide Next;
    hide Activates;
    if j == i + 1 {
      RunInv(cs, i);
      assert Next(cs[i], cs[j]);
      ReleasedNow(cs[i], cs[j], n, v);
    } else {
      ReleasedIsInactive(cs, i, j - 1, n, v);
      RunInv(cs, j - 1);
      assert Next(cs[j - 1], cs[j]);
      SameNodes(cs[j - 1], cs[j]);
      if ActiveOn(cs[j].lvm, v, n) {
        ActivatedBy(cs[j - 1], cs[j], n, v);
      }
    }
  }

  lemma SameNodes(c: Cluster, c': Cluster)
    requires Next(c, c')
    ensures c'.nodes.Keys == c.nodes.Keys
  {
    hide NodeStep;
  }
}
