/**
 RPC over mailboxes (pkg/diskrpc/diskrpc.go) as steps of a cluster.  Sends may be lost, a drained
 mailbox may be lost with a failing Recv, handlers may refuse or fail, nodes may stop at any time,
 and an Invoke may time out whenever it is waiting.
 */
module DiskRpc {

  // Hosts, request identifiers, encoded requests and encoded responses are only ever compared.
  type Node = nat
  type Uuid = nat
  type Req = nat
  type Res = nat

  /** Invoke refuses when more than this many messages are queued. */
  const INVOKE_LIMIT: nat := 64
  /** handleRequest drops the response when more than this many messages are queued. */
  const RESPONSE_LIMIT: nat := 256

  /** pb.DiskRpcMessage: what is asked or answered under which identifier. */
  datatype RpcMsg = Request(id: Uuid, req: Req) | Response(id: Uuid, res: Res)

  /** A queued message with its recipient, and a received one with its sender. */
  datatype Out = Out(to: Node, msg: RpcMsg)
  datatype In = In(sender: Node, msg: RpcMsg)

  /** Where the Handle goroutine is. */
  datatype Phase =
    | Ready                                                 // about to receive
    | Handling(inbox: seq<In>)                              // working through received messages
    | HandingOver(id: Uuid, res: Res, inbox: seq<In>)       // blocked on the channel of an Invoke
    | Sending(batch: seq<Out>)                              // working through the outgoing queue

  /** A running Invoke: waiting, or holding the response it received. */
  datatype Call = Waiting | Answered(res: Res)

  datatype Local = Local(pending: set<Uuid>, outgoing: seq<Out>, phase: Phase, calls: map<Uuid, Call>)

  /** A request as it was issued: by which node, to which one, and what it asks. */
  datatype Issue = Issue(from: Node, to: Node, req: Req)

  /** A request was executed with this result, by the node `at`. */
  datatype Execution = Execution(id: Uuid, req: Req, res: Res, at: Node)

  /** An Invoke of node n received this response. */
  datatype Receipt = Receipt(n: Node, id: Uuid, res: Res)

  /** Where the single copy of a message is; Gone once it was consumed. */
  datatype Place = AtSender(n: Node) | AtReceiver(n: Node) | Handed(n: Node) | Gone

  datatype Key = Key(request: bool, id: Uuid)

  /** What happened so far: issued requests, executions, receipts, message places. */
  datatype History = History(
    issued: map<Uuid, Issue>,
    executed: seq<Execution>,
    receipts: seq<Receipt>,
    place: map<Key, Place>)

  /** The mailboxes, the nodes, and the history that the properties speak about. */
  datatype Cluster = Cluster(boxes: map<Node, seq<In>>, nodes: map<Node, Local>, hist: History)

  /** The node that a message to `to` reaches when n sends it: 0 stands for the local mailbox. */
  function Reached(n: Node, to: Node): Node {
    if to == 0 then n else to
  }

  /** The node that an Invoke asked. */
  function Dest(i: Issue): Node {
    Reached(i.from, i.to)
  }

  function Box(c: Cluster, n: Node): seq<In> {
    if n in c.boxes then c.boxes[n] else []
  }

  function KeyOf(m: RpcMsg): Key {
    Key(m.Request?, m.id)
  }

  const FRESH := Local({}, [], Ready, map[])

  // ---------------------------------------------------------------------------------------
  // The local state changes of diskRpc, shared by the cluster steps and the class
  // ---------------------------------------------------------------------------------------

  /** Invoke, up to its wait: register the identifier and queue the request. */
  function Schedule(l: Local, id: Uuid, to: Node, req: Req): Local {
    l.(pending := l.pending + {id}, outgoing := l.outgoing + [Out(to, Request(id, req))])
  }

  predicate CanSchedule(l: Local) {
    |l.outgoing| <= INVOKE_LIMIT
  }

  /** handleRequest, after the call: queue the response unless the queue is full. */
  function Reply(l: Local, to: Node, id: Uuid, res: Res): Local {
    if |l.outgoing| > RESPONSE_LIMIT then l else l.(outgoing := l.outgoing + [Out(to, Response(id, res))])
  }

  /** The deferred function of Invoke, on the tables. */
  function Forgotten(l: Local, id: Uuid): Local {
    l.(pending := l.pending - {id})
  }

  /** handleResponse, up to the hand-over: the identifier is taken from the pending ones. */
  function Offer(l: Local, id: Uuid, res: Res, rest: seq<In>): Local {
    if id in l.pending then l.(pending := l.pending - {id}, phase := HandingOver(id, res, rest))
    else l.(phase := Handling(rest))
  }

  // ---------------------------------------------------------------------------------------
  // Steps
  // ---------------------------------------------------------------------------------------

  function SetNode(c: Cluster, n: Node, l: Local): Cluster {
    c.(nodes := c.nodes[n := l])
  }

  /** A fresh identifier; a full queue makes Invoke fail before anything happens. */
  predicate InvokeStep(c: Cluster, n: Node, c': Cluster, id: Uuid, to: Node, req: Req)
    requires n in c.nodes
  {
    var l, h := c.nodes[n], c.hist;
    && id !in h.issued && CanSchedule(l)
    && c' == SetNode(c, n, Schedule(l, id, to, req).(calls := l.calls[id := Waiting]))
               .(hist := h.(issued := h.issued[id := Issue(n, to, req)], place := h.place[Key(true, id) := AtSender(n)]))
  }

  /** Invoke returns, with its response or on a timeout; the deferred function forgets the identifier. */
  predicate ReturnStep(c: Cluster, n: Node, c': Cluster, id: Uuid)
    requires n in c.nodes
  {
    var l := c.nodes[n];
    id in l.calls && c' == SetNode(c, n, Forgotten(l, id).(calls := l.calls - {id}))
  }

  /** Handle receives: the mailbox is drained into the loop, or drained and lost with an error. */
  predicate RecvStep(c: Cluster, n: Node, c': Cluster)
    requires n in c.nodes
  {
    && c.nodes[n].phase.Ready?
    && ( || c' == SetNode(c, n, c.nodes[n].(phase := Handling(Box(c, n)))).(boxes := c.boxes[n := []])
         || c' == c.(boxes := c.boxes[n := []]))
  }

  predicate HandlingNext(l: Local) {
    l.phase.Handling? && l.phase.inbox != []
  }

  /** One received response: its identifier is taken from the pending ones, or nothing happens. */
  predicate ResponseStep(c: Cluster, n: Node, c': Cluster)
    requires n in c.nodes
  {
    var l := c.nodes[n];
    && HandlingNext(l) && l.phase.inbox[0].msg.Response?
    && var m, rest := l.phase.inbox[0].msg, l.phase.inbox[1..];
       c' == SetNode(c, n, Offer(l, m.id, m.res, rest))
               .(hist := if m.id in l.pending then c.hist.(place := c.hist.place[KeyOf(m) := Handed(n)]) else c.hist)
  }

  /** The waiting Invoke takes the response. */
  predicate HandOverStep(c: Cluster, n: Node, c': Cluster)
    requires n in c.nodes
  {
    var l, h := c.nodes[n], c.hist;
    && l.phase.HandingOver?
    && var id, res := l.phase.id, l.phase.res;
       && id in l.calls && l.calls[id].Waiting?
       && c' == SetNode(c, n, l.(calls := l.calls[id := Answered(res)], phase := Handling(l.phase.inbox)))
                  .(hist := h.(receipts := h.receipts + [Receipt(n, id, res)], place := h.place[Key(false, id) := Gone]))
  }

  /** One received request: its handler is missing or refuses it. */
  predicate RefuseStep(c: Cluster, n: Node, c': Cluster)
    requires n in c.nodes
  {
    var l := c.nodes[n];
    && HandlingNext(l) && l.phase.inbox[0].msg.Request?
    && c' == SetNode(c, n, l.(phase := Handling(l.phase.inbox[1..])))
  }

  /** One received request is executed, with any result. */
  predicate ExecuteStep(c: Cluster, n: Node, c': Cluster, res: Res)
    requires n in c.nodes
  {
    var l, h := c.nodes[n], c.hist;
    && HandlingNext(l) && l.phase.inbox[0].msg.Request?
    && var m, from, next := l.phase.inbox[0].msg, l.phase.inbox[0].sender, l.(phase := Handling(l.phase.inbox[1..]));
       c' == SetNode(c, n, Reply(next, from, m.id, res))
               .(hist := h.(executed := h.executed + [Execution(m.id, m.req, res, n)],
                            place := h.place[KeyOf(m) := Gone][Key(false, m.id) := AtSender(n)]))
  }

  /** The received messages are dealt with, or dropped with an error; then the queue is taken. */
  predicate TakeStep(c: Cluster, n: Node, c': Cluster)
    requires n in c.nodes
  {
    var l := c.nodes[n];
    && l.phase.Handling?
    && ( || (l.phase.inbox == [] && c' == SetNode(c, n, l.(outgoing := [], phase := Sending(l.outgoing))))
         || c' == SetNode(c, n, l.(phase := Ready)))
  }

  /** One queued message is lost, */
  predicate LoseStep(c: Cluster, n: Node, c': Cluster)
    requires n in c.nodes
  {
    var l := c.nodes[n];
    && l.phase.Sending? && l.phase.batch != []
    && c' == SetNode(c, n, l.(phase := Sending(l.phase.batch[1..])))
  }

  /** or reaches the mailbox of its recipient, where 0 stands for the local one. */
  predicate SendStep(c: Cluster, n: Node, c': Cluster)
    requires n in c.nodes
  {
    var l, h := c.nodes[n], c.hist;
    && l.phase.Sending? && l.phase.batch != []
    && var o := l.phase.batch[0];
       var to := Reached(n, o.to);
       c' == SetNode(c, n, l.(phase := Sending(l.phase.batch[1..])))
               .(boxes := c.boxes[to := [In(n, o.msg)] + Box(c, to)],
                 hist := h.(place := h.place[KeyOf(o.msg) := AtReceiver(to)]))
  }

  predicate DoneStep(c: Cluster, n: Node, c': Cluster)
    requires n in c.nodes
  {
    c.nodes[n].phase == Sending([]) && c' == SetNode(c, n, c.nodes[n].(phase := Ready))
  }

  /** The process stops and starts again with nothing in memory. */
  predicate RestartStep(c: Cluster, n: Node, c': Cluster) {
    c' == SetNode(c, n, FRESH)
  }

  ghost predicate Next(c: Cluster, n: Node, c': Cluster) {
    && n in c.nodes
    && ( || (exists id, to, req :: InvokeStep(c, n, c', id, to, req))
         || (exists id :: ReturnStep(c, n, c', id))
         || RecvStep(c, n, c') || ResponseStep(c, n, c') || HandOverStep(c, n, c')
         || RefuseStep(c, n, c') || (exists res :: ExecuteStep(c, n, c', res))
         || TakeStep(c, n, c') || LoseStep(c, n, c') || SendStep(c, n, c')
         || DoneStep(c, n, c') || RestartStep(c, n, c'))
  }

  /** Mailboxes are numbered from 1. */
  predicate Init(c: Cluster) {
    && 0 !in c.nodes && c.boxes == map[] && c.hist == History(map[], [], [], map[])
    && forall n :: n in c.nodes ==> c.nodes[n] == FRESH
  }

  /** c' follows c by a step of some node. */
  ghost predicate Follows(c: Cluster, c': Cluster) {
    exists n :: Next(c, n, c')
  }

  ghost predicate Run(cs: seq<Cluster>) {
    && |cs| > 0 && Init(cs[0])
    && forall i, j :: 0 <= i && j == i + 1 && j < |cs| ==> Follows(cs[i], cs[j])
  }

  // ---------------------------------------------------------------------------------------
  // Invariant
  // ---------------------------------------------------------------------------------------

  /** The messages a node still has to send, and those it still has to handle. */
  function ToSend(l: Local): seq<Out> {
    (if l.phase.Sending? then l.phase.batch else []) + l.outgoing
  }

  function ToHandle(l: Local): seq<In> {
    if l.phase.Handling? || l.phase.HandingOver? then l.phase.inbox else []
  }

  function OutMsgs(s: seq<Out>): (r: seq<RpcMsg>)
    ensures |r| == |s|
  {
    seq(|s|, i requires 0 <= i < |s| => s[i].msg)
  }

  function InMsgs(s: seq<In>): (r: seq<RpcMsg>)
    ensures |r| == |s|
  {
    seq(|s|, i requires 0 <= i < |s| => s[i].msg)
  }

  function ReceivedBy(c: Cluster, n: Node): seq<In> {
    (if n in c.nodes then ToHandle(c.nodes[n]) else []) + Box(c, n)
  }

  /** A request is what was issued; a response is the result of executing what was issued. */
  predicate Genuine(h: History, m: RpcMsg) {
    && m.id in h.issued
    && match m
       case Request(id, req) => h.issued[id].req == req
       case Response(id, res) => Execution(id, h.issued[id].req, res, Dest(h.issued[id])) in h.executed
  }

  predicate Located(h: History, k: Key, p: Place) {
    k in h.place && h.place[k] == p
  }

  /** Each message of s is genuine and is the one copy of its key, recorded at p. */
  predicate Copies(h: History, s: seq<RpcMsg>, p: Place) {
    && (forall i :: 0 <= i < |s| ==> Located(h, KeyOf(s[i]), p) && Genuine(h, s[i]))
    && (forall i, j :: 0 <= i < j < |s| ==> KeyOf(s[i]) != KeyOf(s[j]))
  }

  /** Pending identifiers belong to waiting Invokes of this node; an answered one took its response. */
  predicate CallsOk(h: History, n: Node, l: Local) {
    && (forall id :: id in l.pending ==> id in l.calls && l.calls[id].Waiting?)
    && (forall id :: id in l.calls ==> id in h.issued && h.issued[id].from == n)
    && (forall id :: id in l.calls && l.calls[id].Answered? ==> Located(h, Key(false, id), Gone))
    && (l.phase.HandingOver? ==>
          && l.phase.id !in l.pending && Located(h, Key(false, l.phase.id), Handed(n))
          && Genuine(h, Response(l.phase.id, l.phase.res)))
  }

  predicate NodeOk(h: History, n: Node, l: Local) {
    Copies(h, OutMsgs(ToSend(l)), AtSender(n)) && CallsOk(h, n, l) && |l.outgoing| <= RESPONSE_LIMIT + 1
  }

  predicate BoxOk(c: Cluster, n: Node) {
    Copies(c.hist, InMsgs(ReceivedBy(c, n)), AtReceiver(n))
  }

  /** Executions and receipts happen once per identifier and are accounted for. */
  predicate HistoryOk(h: History) {
    && (forall k :: k in h.place ==> k.id in h.issued)
    && (forall k :: k in h.place && !k.request ==> Located(h, Key(true, k.id), Gone))
    && (forall e :: e in h.executed ==>
          e.id in h.issued && h.issued[e.id].req == e.req && e.at == Dest(h.issued[e.id]) && Located(h, Key(true, e.id), Gone) && Key(false, e.id) in h.place)
    && (forall i, j :: 0 <= i < j < |h.executed| ==> h.executed[i].id != h.executed[j].id)
    && (forall r :: r in h.receipts ==> Located(h, Key(false, r.id), Gone) && Genuine(h, Response(r.id, r.res)) && h.issued[r.id].from == r.n)
    && (forall i, j :: 0 <= i < j < |h.receipts| ==> h.receipts[i].id != h.receipts[j].id)
  }

  ghost predicate Core(c: Cluster) {
    && (forall n :: n in c.nodes ==> NodeOk(c.hist, n, c.nodes[n]))
    && (forall n :: BoxOk(c, n))
    && HistoryOk(c.hist)
  }

  lemma Parts(c: Cluster, n: Node)
    requires Core(c) && n in c.nodes
    ensures HistoryOk(c.hist) && BoxOk(c, n)
    ensures Copies(c.hist, OutMsgs(ToSend(c.nodes[n])), AtSender(n)) && CallsOk(c.hist, n, c.nodes[n])
    ensures |c.nodes[n].outgoing| <= RESPONSE_LIMIT + 1
  {
    hide Copies;
    hide HistoryOk;
    hide CallsOk;
    hide BoxOk;
    assert NodeOk(c.hist, n, c.nodes[n]);
  }

  lemma AnyBox(c: Cluster, n: Node)
    requires Core(c)
    ensures BoxOk(c, n)
  {
  }

  lemma InitInv(c: Cluster)
    requires Init(c)
    ensures Core(c)
  {
  }

  // ---------------------------------------------------------------------------------------
  // How the history grows
  // ---------------------------------------------------------------------------------------

  /** h' has all of h's issues and executions, and agrees on the place of every key but k1 and k2. */
  ghost predicate Grows(h: History, h': History, k1: Key, k2: Key) {
    && (forall id :: id in h.issued ==> id in h'.issued && h'.issued[id] == h.issued[id])
    && (forall e :: e in h.executed ==> e in h'.executed)
    && (forall k, p :: k != k1 && k != k2 ==> (Located(h', k, p) <==> Located(h, k, p)))
  }

  lemma GenuineGrows(h: History, h': History, k1: Key, k2: Key, m: RpcMsg)
    requires Grows(h, h', k1, k2) && Genuine(h, m)
    ensures Genuine(h', m)
  {
  }

  /** Copies at a place where neither changed key was stay copies. */
  lemma CopiesGrow(h: History, h': History, k1: Key, k2: Key, s: seq<RpcMsg>, p: Place)
    requires Grows(h, h', k1, k2) && Copies(h, s, p) && !Located(h, k1, p) && !Located(h, k2, p)
    ensures Copies(h', s, p)
  {
    forall i | 0 <= i < |s|
      ensures Located(h', KeyOf(s[i]), p) && Genuine(h', s[i])
    {
      assert Located(h, KeyOf(s[i]), p);
      GenuineGrows(h, h', k1, k2, s[i]);
    }
  }

  lemma CopiesEmpty(h: History, p: Place)
    ensures Copies(h, [], p)
  {
  }

  lemma CopiesHead(h: History, s: seq<RpcMsg>, p: Place)
    requires s != [] && Copies(h, s, p)
    ensures Located(h, KeyOf(s[0]), p) && Genuine(h, s[0])
  {
  }

  lemma CopiesTail(h: History, s: seq<RpcMsg>, p: Place)
    requires s != [] && Copies(h, s, p)
    ensures Copies(h, s[1..], p)
    ensures forall i :: 0 <= i < |s| - 1 ==> KeyOf(s[1..][i]) != KeyOf(s[0])
  {
  }

  /** After the first message left p, the others are still there. */
  lemma CopiesTailGrow(h: History, h': History, k1: Key, k2: Key, s: seq<RpcMsg>, p: Place)
    requires s != [] && Copies(h, s, p) && Grows(h, h', k1, k2) && k1 == KeyOf(s[0]) && (k2 == k1 || !Located(h, k2, p))
    ensures Copies(h', s[1..], p)
  {
    var t := s[1..];
    forall i | 0 <= i < |t|
      ensures Located(h', KeyOf(t[i]), p) && Genuine(h', t[i])
    {
      assert t[i] == s[i + 1] && KeyOf(s[0]) != KeyOf(s[i + 1]);
      assert Located(h, KeyOf(s[i + 1]), p);
      GenuineGrows(h, h', k1, k2, s[i + 1]);
    }
    forall i, j | 0 <= i < j < |t| ensures KeyOf(t[i]) != KeyOf(t[j]) {
      assert t[i] == s[i + 1] && t[j] == s[j + 1];
    }
  }

  /** A message arrives between a and b. */
  lemma CopiesInsert(h: History, h': History, k2: Key, a: seq<RpcMsg>, m: RpcMsg, b: seq<RpcMsg>, p: Place)
    requires Copies(h, a + b, p) && Grows(h, h', KeyOf(m), k2)
    requires !Located(h, KeyOf(m), p) && !Located(h, k2, p)
    requires Located(h', KeyOf(m), p) && Genuine(h', m)
    ensures Copies(h', a + [m] + b, p)
  {
    var s, t := a + b, a + [m] + b;
    CopiesGrow(h, h', KeyOf(m), k2, s, p);
    forall i | 0 <= i < |t|
      ensures t[i] == m || (t[i] == s[if i < |a| then i else i - 1])
    {
    }
    forall i | 0 <= i < |s| ensures KeyOf(s[i]) != KeyOf(m) {
      assert Located(h, KeyOf(s[i]), p);
    }
    forall i | 0 <= i < |t|
      ensures Located(h', KeyOf(t[i]), p) && Genuine(h', t[i])
    {
    }
    forall i, j | 0 <= i < j < |t| ensures KeyOf(t[i]) != KeyOf(t[j]) {
      var i', j' := if i < |a| then i else i - 1, if j < |a| then j else j - 1;
      if i == |a| {
        assert t[j] == s[j'];
      } else if j == |a| {
        assert t[i] == s[i'];
      } else {
        assert t[i] == s[i'] && t[j] == s[j'];
      }
    }
  }

  lemma CallsGrow(h: History, h': History, k1: Key, k2: Key, n: Node, l: Local)
    requires CallsOk(h, n, l) && Grows(h, h', k1, k2)
    requires forall k :: k == k1 || k == k2 ==> !Located(h, k, Handed(n)) && !Located(h, k, Gone)
    ensures CallsOk(h', n, l)
  {
    hide Genuine;
    if l.phase.HandingOver? {
      GenuineGrows(h, h', k1, k2, Response(l.phase.id, l.phase.res));
    }
  }

  /** Only the tables and the offered response matter. */
  lemma CallsSame(h: History, n: Node, l: Local, l': Local)
    requires CallsOk(h, n, l) && l'.pending <= l.pending && !l'.phase.HandingOver?
    requires l'.calls == l.calls || (l'.calls == map[] && l'.pending == {})
    ensures CallsOk(h, n, l')
  {
  }

  /** Nodes and boxes that the step did not touch. */
  lemma NodeGrows(h: History, h': History, k1: Key, k2: Key, n: Node, l: Local)
    requires NodeOk(h, n, l) && Grows(h, h', k1, k2)
    requires forall k :: k == k1 || k == k2 ==> !Located(h, k, AtSender(n)) && !Located(h, k, Handed(n)) && !Located(h, k, Gone)
    ensures NodeOk(h', n, l)
  {
    hide CallsOk;
    CopiesGrow(h, h', k1, k2, OutMsgs(ToSend(l)), AtSender(n));
    CallsGrow(h, h', k1, k2, n, l);
  }

  lemma BoxGrows(c: Cluster, c': Cluster, k1: Key, k2: Key, n: Node)
    requires BoxOk(c, n) && Grows(c.hist, c'.hist, k1, k2) && ReceivedBy(c', n) == ReceivedBy(c, n)
    requires !Located(c.hist, k1, AtReceiver(n)) && !Located(c.hist, k2, AtReceiver(n))
    ensures BoxOk(c', n)
  {
    CopiesGrow(c.hist, c'.hist, k1, k2, InMsgs(ReceivedBy(c, n)), AtReceiver(n));
  }

  /** The places that no other node than n, and no box outside bs, uses; the message was not consumed. */
  ghost predicate Private(h: History, k: Key, n: Node, bs: set<Node>) {
    k in h.place ==>
      match h.place[k]
      case AtSender(j) => j == n
      case Handed(j) => j == n
      case AtReceiver(j) => j in bs
      case Gone => false
  }

  /** A step of n that concerns the keys k1 and k2 and the boxes bs. */
  lemma StepInv(c: Cluster, n: Node, l': Local, c': Cluster, k1: Key, k2: Key, bs: set<Node>)
    requires Core(c) && n in c.nodes && c'.nodes == c.nodes[n := l']
    requires Grows(c.hist, c'.hist, k1, k2) && Private(c.hist, k1, n, bs) && Private(c.hist, k2, n, bs)
    requires NodeOk(c'.hist, n, l') && HistoryOk(c'.hist)
    requires forall k :: k !in bs ==> ReceivedBy(c', k) == ReceivedBy(c, k)
    requires forall k :: k in bs ==> BoxOk(c', k)
    ensures Core(c')
  {
    hide Copies;
    hide HistoryOk;
    forall k | k in c'.nodes
      ensures NodeOk(c'.hist, k, c'.nodes[k])
    {
      if k != n {
        hide NodeOk;
        NodeGrows(c.hist, c'.hist, k1, k2, k, c.nodes[k]);
      }
    }
    forall k
      ensures BoxOk(c', k)
    {
      hide BoxOk;
      if k !in bs { BoxGrows(c, c', k1, k2, k); }
    }
  }

  /** A step that moves no message: queues only shrink, the history stays. */
  lemma QuietInv(c: Cluster, n: Node, l': Local, c': Cluster)
    requires Core(c) && n in c.nodes && c'.nodes == c.nodes[n := l'] && c'.hist == c.hist
    requires OutMsgs(ToSend(l')) == OutMsgs(ToSend(c.nodes[n])) || ToSend(l') == []
          || (ToSend(c.nodes[n]) != [] && ToSend(l') == ToSend(c.nodes[n])[1..])
    requires l'.pending <= c.nodes[n].pending && |l'.outgoing| <= RESPONSE_LIMIT + 1 && !l'.phase.HandingOver?
    requires l'.calls == c.nodes[n].calls || (l'.calls == map[] && l'.pending == {})
    requires forall k :: k != n ==> Box(c', k) == Box(c, k)
    requires ReceivedBy(c', n) == ReceivedBy(c, n) || ReceivedBy(c', n) == [] || ReceivedBy(c', n) == Box(c, n)
          || (ReceivedBy(c, n) != [] && ReceivedBy(c', n) == ReceivedBy(c, n)[1..])
    ensures Core(c')
  {
    hide Copies;
    hide HistoryOk;
    hide CallsOk;
    hide Core;
    var h, l := c.hist, c.nodes[n];
    var out, inn := OutMsgs(ToSend(l)), InMsgs(ReceivedBy(c, n));
    Parts(c, n);
    CallsSame(h, n, l, l');
    if ToSend(l) != [] {
      CopiesTail(h, out, AtSender(n));
      assert OutMsgs(ToSend(l)[1..]) == out[1..];
    }
    if ReceivedBy(c, n) != [] {
      CopiesTail(h, inn, AtReceiver(n));
      assert InMsgs(ReceivedBy(c, n)[1..]) == inn[1..];
    }
    BoxSuffix(c, n);
    CopiesEmpty(h, AtSender(n));
    CopiesEmpty(h, AtReceiver(n));
    assert OutMsgs([]) == [] && InMsgs([]) == [];
    assert NodeOk(h, n, l');
    assert BoxOk(c', n);
    forall j | j != n
      ensures ReceivedBy(c', j) == ReceivedBy(c, j)
    {
    }
    QuietOthers(c, n, l', c');
  }

  lemma BoxSuffix(c: Cluster, n: Node)
    requires BoxOk(c, n)
    ensures Copies(c.hist, InMsgs(Box(c, n)), AtReceiver(n))
  {
    var s, b := InMsgs(ReceivedBy(c, n)), InMsgs(Box(c, n));
    var a := |s| - |b|;
    forall i | 0 <= i < |b|
      ensures b[i] == s[a + i]
    {
    }
    forall i | 0 <= i < |b|
      ensures Located(c.hist, KeyOf(b[i]), AtReceiver(n)) && Genuine(c.hist, b[i])
    {
      assert b[i] == s[a + i];
    }
    forall i, j | 0 <= i < j < |b| ensures KeyOf(b[i]) != KeyOf(b[j]) {
      assert KeyOf(s[a + i]) != KeyOf(s[a + j]);
    }
  }

  lemma QuietOthers(c: Cluster, n: Node, l': Local, c': Cluster)
    requires Core(c) && n in c.nodes && c'.nodes == c.nodes[n := l'] && c'.hist == c.hist
    requires NodeOk(c.hist, n, l') && BoxOk(c', n)
    requires forall k :: k != n ==> ReceivedBy(c', k) == ReceivedBy(c, k)
    ensures Core(c')
  {
    hide Copies;
    hide HistoryOk;
    forall k | k in c'.nodes ensures NodeOk(c'.hist, k, c'.nodes[k]) {
      if k != n { assert NodeOk(c.hist, k, c.nodes[k]); }
    }
    forall k ensures BoxOk(c', k) {
      if k != n { assert BoxOk(c, k); }
    }
  }

  // ---------------------------------------------------------------------------------------
  // Every step keeps the invariant
  // ---------------------------------------------------------------------------------------

  lemma InvokeInv(c: Cluster, n: Node, c': Cluster, id: Uuid, to: Node, req: Req)
    requires Core(c) && n in c.nodes && InvokeStep(c, n, c', id, to, req)
    ensures Core(c')
  {
    hide Core;
    hide Copies;
    hide HistoryOk;
    hide Genuine;
    hide CallsOk;
    var l, h, h' := c.nodes[n], c.hist, c'.hist;
    var l' := c'.nodes[n];
    var k, m := Key(true, id), Request(id, req);
    Parts(c, n);
    NotIssued(h, id);
    assert Genuine(h', m) by { FreshGenuine(h', m); }
    assert Grows(h, h', k, k);
    var out := OutMsgs(ToSend(l));
    assert out + [] == out;
    CopiesInsert(h, h', k, out, m, [], AtSender(n));
    assert OutMsgs(ToSend(l')) == out + [m] + [];
    assert HistoryOk(h') by { IssueHistory(h, h', n, id, to, req); }
    forall j ensures ReceivedBy(c', j) == ReceivedBy(c, j) {
    }
    InvokeCalls(h, h', n, l, id, to, req);
    StepInv(c, n, l', c', k, k, {});
  }

  // The Invokes of a node after each kind of step.

  lemma InvokeCalls(h: History, h': History, n: Node, l: Local, id: Uuid, to: Node, req: Req)
    requires CallsOk(h, n, l) && HistoryOk(h) && id !in h.issued
    requires h' == h.(issued := h.issued[id := Issue(n, to, req)], place := h.place[Key(true, id) := AtSender(n)])
    ensures CallsOk(h', n, Schedule(l, id, to, req).(calls := l.calls[id := Waiting]))
  {
    hide Genuine;
    NotIssued(h, id);
    assert Grows(h, h', Key(true, id), Key(true, id));
    CallsGrow(h, h', Key(true, id), Key(true, id), n, l);
    if l.phase.HandingOver? {
      assert l.phase.id in h.issued by { assert Located(h, Key(false, l.phase.id), Handed(n)); PlacedIssued(h, Key(false, l.phase.id)); }
    }
  }

  lemma PlacedIssued(h: History, k: Key)
    requires HistoryOk(h) && k in h.place
    ensures k.id in h.issued
  {
  }

  lemma OfferCalls(h: History, h': History, n: Node, l: Local, id: Uuid, res: Res, rest: seq<In>)
    requires CallsOk(h, n, l) && id in l.pending && !l.phase.HandingOver? && Genuine(h, Response(id, res))
    requires Located(h, Key(false, id), AtReceiver(n)) && h' == h.(place := h.place[Key(false, id) := Handed(n)])
    ensures CallsOk(h', n, Offer(l, id, res, rest))
  {
    hide Genuine;
    var k := Key(false, id);
    assert Grows(h, h', k, k);
    GenuineGrows(h, h', k, k, Response(id, res));
    CallsGrow(h, h', k, k, n, l);
  }

  lemma OfferedAt(h: History, n: Node, l: Local)
    requires CallsOk(h, n, l) && l.phase.HandingOver?
    ensures l.phase.id !in l.pending && Located(h, Key(false, l.phase.id), Handed(n))
    ensures Genuine(h, Response(l.phase.id, l.phase.res))
    ensures forall id :: id in l.calls ==> id in h.issued && h.issued[id].from == n
  {
  }

  lemma TakenCalls(h: History, h': History, n: Node, l: Local, rest: seq<In>)
    requires CallsOk(h, n, l) && l.phase.HandingOver? && l.phase.id in l.calls
    requires h' == h.(receipts := h'.receipts, place := h.place[Key(false, l.phase.id) := Gone])
    ensures CallsOk(h', n, l.(calls := l.calls[l.phase.id := Answered(l.phase.res)], phase := Handling(rest)))
  {
    hide Genuine;
    forall k | k in l.calls && l.calls[k].Answered?
      ensures Located(h', Key(false, k), Gone)
    {
      assert Located(h, Key(false, k), Gone);
    }
  }

  lemma ReturnCalls(h: History, n: Node, l: Local, l': Local)
    requires CallsOk(h, n, l) && exists id :: l' == Forgotten(l, id).(calls := l.calls - {id})
    ensures CallsOk(h, n, l')
  {
    hide Genuine;
  }

  lemma FreshGenuine(h: History, m: RpcMsg)
    requires m.Request? && m.id in h.issued && h.issued[m.id].req == m.req
    ensures Genuine(h, m)
  {
  }

  lemma IssueHistory(h: History, h': History, n: Node, id: Uuid, to: Node, req: Req)
    requires HistoryOk(h) && id !in h.issued
    requires h' == h.(issued := h.issued[id := Issue(n, to, req)], place := h.place[Key(true, id) := AtSender(n)])
    ensures HistoryOk(h')
  {
    forall k | k in h'.place && !k.request ensures Located(h', Key(true, k.id), Gone) {
      assert k in h.place;
      assert Located(h, Key(true, k.id), Gone);
    }
    forall e | e in h'.executed
      ensures e.id in h'.issued && h'.issued[e.id].req == e.req && e.at == Dest(h'.issued[e.id]) && Located(h', Key(true, e.id), Gone) && Key(false, e.id) in h'.place
    {
      assert Located(h, Key(true, e.id), Gone);
    }
    forall r | r in h'.receipts
      ensures Located(h', Key(false, r.id), Gone) && Genuine(h', Response(r.id, r.res)) && h'.issued[r.id].from == r.n
    {
      assert Located(h, Key(false, r.id), Gone) && Genuine(h, Response(r.id, r.res));
    }
  }

  lemma ResponseInv(c: Cluster, n: Node, c': Cluster)
    requires Core(c) && n in c.nodes && ResponseStep(c, n, c') && c.nodes[n].phase.inbox[0].msg.id in c.nodes[n].pending
    ensures Core(c')
  {
    hide Core;
    hide Copies;
    hide HistoryOk;
    hide Genuine;
    hide CallsOk;
    var l, h, h', l' := c.nodes[n], c.hist, c'.hist, c'.nodes[n];
    var m := l.phase.inbox[0].msg;
    var k := KeyOf(m);
    assert Grows(h, h', k, k);
    var inn := InMsgs(ReceivedBy(c, n));
    assert inn[0] == m;
    Parts(c, n);
    CopiesHead(h, inn, AtReceiver(n));
    CopiesTailGrow(h, h', k, k, inn, AtReceiver(n));
    assert ReceivedBy(c', n) == ReceivedBy(c, n)[1..];
    assert InMsgs(ReceivedBy(c', n)) == inn[1..];
    CopiesGrow(h, h', k, k, OutMsgs(ToSend(l)), AtSender(n));
    assert ToSend(l') == ToSend(l);
    OfferCalls(h, h', n, l, m.id, m.res, l.phase.inbox[1..]);
    assert HistoryOk(h') by { MoveHistory(h, h', k, Handed(n)); }
    forall j | j != n ensures ReceivedBy(c', j) == ReceivedBy(c, j) {
    }
    StepInv(c, n, l', c', k, k, {n});
  }

  /** A message that was not consumed moves on without being consumed. */
  lemma MoveHistory(h: History, h': History, k: Key, p: Place)
    requires HistoryOk(h) && k in h.place && !h.place[k].Gone? && h' == h.(place := h.place[k := p])
    ensures HistoryOk(h')
  {
    forall j | j in h'.place && !j.request ensures Located(h', Key(true, j.id), Gone) {
      assert Located(h, Key(true, j.id), Gone);
    }
    forall e | e in h'.executed
      ensures e.id in h'.issued && h'.issued[e.id].req == e.req && e.at == Dest(h'.issued[e.id]) && Located(h', Key(true, e.id), Gone) && Key(false, e.id) in h'.place
    {
      assert Located(h, Key(true, e.id), Gone);
    }
    forall r | r in h'.receipts
      ensures Located(h', Key(false, r.id), Gone) && Genuine(h', Response(r.id, r.res)) && h'.issued[r.id].from == r.n
    {
      assert Located(h, Key(false, r.id), Gone) && Genuine(h, Response(r.id, r.res));
    }
  }

  lemma HandOverInv(c: Cluster, n: Node, c': Cluster)
    requires Core(c) && n in c.nodes && HandOverStep(c, n, c')
    ensures Core(c')
  {
    hide Core;
    hide Copies;
    hide HistoryOk;
    hide Genuine;
    hide CallsOk;
    var l, h, h', l' := c.nodes[n], c.hist, c'.hist, c'.nodes[n];
    var k := Key(false, l.phase.id);
    assert Grows(h, h', k, k);
    Parts(c, n);
    OfferedAt(h, n, l);
    TakenCalls(h, h', n, l, l.phase.inbox);
    CopiesGrow(h, h', k, k, OutMsgs(ToSend(l)), AtSender(n));
    assert ToSend(l') == ToSend(l);
    assert HistoryOk(h') by { ReceiptHistory(h, h', n, l.phase.id, l.phase.res); }
    forall j ensures ReceivedBy(c', j) == ReceivedBy(c, j) {
    }
    StepInv(c, n, l', c', k, k, {});
  }

  lemma ReceiptHistory(h: History, h': History, n: Node, id: Uuid, res: Res)
    requires id in h.issued && h.issued[id].from == n
    requires HistoryOk(h) && Key(false, id) in h.place && !h.place[Key(false, id)].Gone? && Genuine(h, Response(id, res))
    requires h' == h.(receipts := h.receipts + [Receipt(n, id, res)], place := h.place[Key(false, id) := Gone])
    ensures HistoryOk(h')
  {
    forall j | j in h'.place && !j.request ensures Located(h', Key(true, j.id), Gone) {
      assert Located(h, Key(true, j.id), Gone);
    }
    forall e | e in h'.executed
      ensures e.id in h'.issued && h'.issued[e.id].req == e.req && e.at == Dest(h'.issued[e.id]) && Located(h', Key(true, e.id), Gone) && Key(false, e.id) in h'.place
    {
      assert Located(h, Key(true, e.id), Gone);
    }
    forall r | r in h'.receipts
      ensures Located(h', Key(false, r.id), Gone) && Genuine(h', Response(r.id, r.res)) && h'.issued[r.id].from == r.n
    {
      if r in h.receipts {
        assert Located(h, Key(false, r.id), Gone) && Genuine(h, Response(r.id, r.res));
      }
    }
    forall i | 0 <= i < |h.receipts| ensures h.receipts[i].id != id {
      assert h.receipts[i] in h.receipts;
      assert Located(h, Key(false, h.receipts[i].id), Gone);
    }
  }

  lemma ExecuteInv(c: Cluster, n: Node, c': Cluster, res: Res)
    requires Core(c) && n in c.nodes && ExecuteStep(c, n, c', res)
    requires var m := c.nodes[n].phase.inbox[0].msg; m.id in c.hist.issued && Dest(c.hist.issued[m.id]) == n
    ensures Core(c')
  {
    hide Core;
    hide Copies;
    hide HistoryOk;
    hide Genuine;
    hide CallsOk;
    var l, h, h', l' := c.nodes[n], c.hist, c'.hist, c'.nodes[n];
    var m := l.phase.inbox[0].msg;
    var k1, k2 := KeyOf(m), Key(false, m.id);
    var inn := InMsgs(ReceivedBy(c, n));
    assert inn[0] == m;
    Parts(c, n);
    CopiesHead(h, inn, AtReceiver(n));
    NoResponseYet(h, m.id);
    ExecuteHistory(h, h', n, m, res);
    CopiesTailGrow(h, h', k1, k2, inn, AtReceiver(n));
    assert ReceivedBy(c', n) == ReceivedBy(c, n)[1..];
    assert InMsgs(ReceivedBy(c', n)) == inn[1..];
    ReplyCopies(h, h', n, l, l', l.phase.inbox[0].sender, m, res);
    forall j | j != n ensures ReceivedBy(c', j) == ReceivedBy(c, j) {
    }
    StepInv(c, n, l', c', k1, k2, {n});
  }

  lemma NoResponseYet(h: History, id: Uuid)
    requires HistoryOk(h) && !Located(h, Key(true, id), Gone)
    ensures Key(false, id) !in h.place
  {
  }

  lemma NotIssued(h: History, id: Uuid)
    requires HistoryOk(h) && id !in h.issued
    ensures Key(true, id) !in h.place && Key(false, id) !in h.place
  {
  }

  lemma ExecuteHistory(h: History, h': History, n: Node, m: RpcMsg, res: Res)
    requires HistoryOk(h) && m.Request? && Genuine(h, m) && n == Dest(h.issued[m.id])
    requires KeyOf(m) in h.place && !h.place[KeyOf(m)].Gone? && Key(false, m.id) !in h.place
    requires h' == h.(executed := h.executed + [Execution(m.id, m.req, res, n)],
                      place := h.place[KeyOf(m) := Gone][Key(false, m.id) := AtSender(n)])
    ensures HistoryOk(h') && Grows(h, h', KeyOf(m), Key(false, m.id)) && Genuine(h', Response(m.id, res))
  {
    forall j | j in h'.place && !j.request ensures Located(h', Key(true, j.id), Gone) {
      if j in h.place { assert Located(h, Key(true, j.id), Gone); }
    }
    forall e | e in h'.executed
      ensures e.id in h'.issued && h'.issued[e.id].req == e.req && e.at == Dest(h'.issued[e.id]) && Located(h', Key(true, e.id), Gone) && Key(false, e.id) in h'.place
    {
      if e in h.executed { assert Located(h, Key(true, e.id), Gone); }
    }
    forall i | 0 <= i < |h.executed| ensures h.executed[i].id != m.id {
      assert h.executed[i] in h.executed;
      assert Located(h, Key(true, h.executed[i].id), Gone);
    }
    var last := Execution(m.id, m.req, res, n);
    assert h'.executed[|h.executed|] == last && last in h'.executed;
    forall e | e in h.executed ensures e in h'.executed {
    }
    forall r | r in h'.receipts
      ensures Located(h', Key(false, r.id), Gone) && Genuine(h', Response(r.id, r.res)) && h'.issued[r.id].from == r.n
    {
      assert Located(h, Key(false, r.id), Gone) && Genuine(h, Response(r.id, r.res));
    }
  }

  lemma ReplyCopies(h: History, h': History, n: Node, l: Local, l': Local, to: Node, m: RpcMsg, res: Res)
    requires Copies(h, OutMsgs(ToSend(l)), AtSender(n)) && CallsOk(h, n, l) && |l.outgoing| <= RESPONSE_LIMIT + 1
    requires l.phase.Handling? && m.Request?
    requires Grows(h, h', KeyOf(m), Key(false, m.id)) && Located(h, KeyOf(m), AtReceiver(n)) && Key(false, m.id) !in h.place
    requires Located(h', Key(false, m.id), AtSender(n)) && Genuine(h', Response(m.id, res))
    requires exists inbox :: l' == Reply(l.(phase := Handling(inbox)), to, m.id, res)
    ensures NodeOk(h', n, l')
  {
    hide CallsOk;
    hide Copies;
    hide Genuine;
    CallsGrow(h, h', KeyOf(m), Key(false, m.id), n, l);
    CallsSame(h', n, l, l');
    var out, r := OutMsgs(ToSend(l)), Response(m.id, res);
    assert GrowsSwapped(h, h', KeyOf(m), Key(false, m.id));
    if |l.outgoing| > RESPONSE_LIMIT {
      CopiesGrow(h, h', KeyOf(m), Key(false, m.id), out, AtSender(n));
      assert ToSend(l') == ToSend(l);
    } else {
      assert out + [] == out;
      CopiesInsert(h, h', KeyOf(m), out, r, [], AtSender(n));
      assert OutMsgs(ToSend(l')) == out + [r] + [];
    }
  }

  ghost predicate GrowsSwapped(h: History, h': History, k1: Key, k2: Key) {
    Grows(h, h', k2, k1)
  }

  lemma SendInv(c: Cluster, n: Node, c': Cluster)
    requires Core(c) && n in c.nodes && SendStep(c, n, c')
    ensures Core(c')
  {
    hide Core;
    hide Copies;
    hide HistoryOk;
    hide Genuine;
    hide CallsOk;
    var l, h, h', l' := c.nodes[n], c.hist, c'.hist, c'.nodes[n];
    var o := l.phase.batch[0];
    var to := Reached(n, o.to);
    var k := KeyOf(o.msg);
    assert Grows(h, h', k, k);
    var out := OutMsgs(ToSend(l));
    Parts(c, n);
    AnyBox(c, to);
    assert out[0] == o.msg;
    CopiesHead(h, out, AtSender(n));
    CopiesTailGrow(h, h', k, k, out, AtSender(n));
    CallsGrow(h, h', k, k, n, l);
    CallsSame(h', n, l, l');
    assert ToSend(l') == ToSend(l)[1..];
    assert OutMsgs(ToSend(l')) == out[1..];
    assert HistoryOk(h') by { MoveHistory(h, h', k, AtReceiver(to)); }
    GenuineGrows(h, h', k, k, o.msg);
    var a := if to in c.nodes then ToHandle(c.nodes[to]) else [];
    ArrivalCopies(h, h', n, to, a, Box(c, to), o.msg);
    assert ReceivedBy(c', to) == a + ([In(n, o.msg)] + Box(c, to));
    forall j | j != to ensures ReceivedBy(c', j) == ReceivedBy(c, j) {
    }
    StepInv(c, n, l', c', k, k, {to});
  }

  lemma InMsgsAppend(a: seq<In>, b: seq<In>)
    ensures InMsgs(a + b) == InMsgs(a) + InMsgs(b)
  {
  }

  lemma ArrivalCopies(h: History, h': History, n: Node, to: Node, a: seq<In>, b: seq<In>, m: RpcMsg)
    requires Copies(h, InMsgs(a + b), AtReceiver(to)) && Grows(h, h', KeyOf(m), KeyOf(m))
    requires !Located(h, KeyOf(m), AtReceiver(to)) && Located(h', KeyOf(m), AtReceiver(to)) && Genuine(h', m)
    ensures Copies(h', InMsgs(a + ([In(n, m)] + b)), AtReceiver(to))
  {
    hide Copies;
    hide InMsgs;
    InMsgsAppend(a, b);
    InMsgsAppend(a, [In(n, m)] + b);
    InMsgsAppend([In(n, m)], b);
    assert InMsgs([In(n, m)]) == [m] by { OneMsg(n, m); }
    CopiesInsert(h, h', KeyOf(m), InMsgs(a), m, InMsgs(b), AtReceiver(to));
    assert InMsgs(a) + ([m] + InMsgs(b)) == InMsgs(a) + [m] + InMsgs(b);
  }

  lemma OneMsg(n: Node, m: RpcMsg)
    ensures InMsgs([In(n, m)]) == [m]
  {
  }

  // ---------------------------------------------------------------------------------------
  // Where messages go
  // ---------------------------------------------------------------------------------------

  /** The node that sent a message and the node that it is for: the issuer and the one it asked. */
  function Source(h: History, m: RpcMsg): Node
    requires m.id in h.issued
  {
    if m.Request? then h.issued[m.id].from else Dest(h.issued[m.id])
  }

  function Target(h: History, m: RpcMsg): Node
    requires m.id in h.issued
  {
    if m.Request? then Dest(h.issued[m.id]) else h.issued[m.id].from
  }

  /** What n sends is its own, and addressed to the node it is for. */
  ghost predicate RightlySent(h: History, n: Node, outs: seq<Out>) {
    forall o :: o in outs ==> o.msg.id in h.issued && Source(h, o.msg) == n && Reached(n, o.to) == Target(h, o.msg)
  }

  /** What n received is for it, and names its sender. */
  ghost predicate RightlyReceived(h: History, n: Node, ins: seq<In>) {
    forall i :: i in ins ==> i.msg.id in h.issued && Target(h, i.msg) == n && i.sender == Source(h, i.msg)
  }

  ghost predicate Routes(c: Cluster) {
    && 0 !in c.nodes
    && (forall id :: id in c.hist.issued ==> c.hist.issued[id].from != 0)
    && (forall n :: n in c.nodes ==> RightlySent(c.hist, n, ToSend(c.nodes[n])))
    && (forall n :: RightlyReceived(c.hist, n, ReceivedBy(c, n)))
  }

  /** A step of n that issues at most new identifiers; what it has to send and what boxes hold is still right. */
  lemma RoutesKept(c: Cluster, n: Node, c': Cluster)
    requires Routes(c) && n in c.nodes && c'.nodes.Keys == c.nodes.Keys
    requires forall k :: k in c.nodes && k != n ==> c'.nodes[k] == c.nodes[k]
    requires forall id :: id in c.hist.issued ==> id in c'.hist.issued && c'.hist.issued[id] == c.hist.issued[id]
    requires forall id :: id in c'.hist.issued ==> c'.hist.issued[id].from != 0
    requires RightlySent(c'.hist, n, ToSend(c'.nodes[n]))
    requires forall k :: RightlyReceived(c'.hist, k, ReceivedBy(c', k)) || forall i :: i in ReceivedBy(c', k) ==> i in ReceivedBy(c, k)
    ensures Routes(c')
  {
    forall k | k in c'.nodes && k != n
      ensures RightlySent(c'.hist, k, ToSend(c'.nodes[k]))
    {
      assert RightlySent(c.hist, k, ToSend(c.nodes[k]));
    }
    forall k
      ensures RightlyReceived(c'.hist, k, ReceivedBy(c', k))
    {
      assert RightlyReceived(c.hist, k, ReceivedBy(c, k));
    }
  }

  /** Steps that issue nothing, and that only lose or pass on what is there. */
  lemma QuietRoutes(c: Cluster, n: Node, c': Cluster)
    requires Routes(c) && n in c.nodes && c'.nodes.Keys == c.nodes.Keys && c'.hist.issued == c.hist.issued
    requires forall k :: k in c.nodes && k != n ==> c'.nodes[k] == c.nodes[k]
    requires forall o :: o in ToSend(c'.nodes[n]) ==> o in ToSend(c.nodes[n])
    requires forall k, i :: i in ReceivedBy(c', k) ==> i in ReceivedBy(c, k)
    ensures Routes(c')
  {
    assert RightlySent(c.hist, n, ToSend(c.nodes[n]));
    RoutesKept(c, n, c');
  }

  lemma InvokeRoutes(c: Cluster, n: Node, c': Cluster, id: Uuid, to: Node, req: Req)
    requires Routes(c) && n in c.nodes && InvokeStep(c, n, c', id, to, req)
    ensures Routes(c')
  {
    var l, l', h' := c.nodes[n], c'.nodes[n], c'.hist;
    assert RightlySent(c.hist, n, ToSend(l));
    assert ToSend(l') == ToSend(l) + [Out(to, Request(id, req))];
    forall o | o in ToSend(l')
      ensures o.msg.id in h'.issued && Source(h', o.msg) == n && Reached(n, o.to) == Target(h', o.msg)
    {
      if o in ToSend(l) { assert o.msg.id in c.hist.issued; }
    }
    forall k ensures ReceivedBy(c', k) == ReceivedBy(c, k) {
    }
    RoutesKept(c, n, c');
  }

  lemma ExecuteRoutes(c: Cluster, n: Node, c': Cluster, res: Res)
    requires Routes(c) && n in c.nodes && ExecuteStep(c, n, c', res)
    ensures Routes(c')
    ensures var m := c.nodes[n].phase.inbox[0].msg; m.id in c.hist.issued && Dest(c.hist.issued[m.id]) == n
  {
    var l, l', h := c.nodes[n], c'.nodes[n], c.hist;
    var i := l.phase.inbox[0];
    assert RightlySent(h, n, ToSend(l)) && RightlyReceived(h, n, ReceivedBy(c, n));
    assert ReceivedBy(c, n)[0] == i && i in ReceivedBy(c, n);
    var r := Out(i.sender, Response(i.msg.id, res));
    forall o | o in ToSend(l')
      ensures o.msg.id in h.issued && Source(h, o.msg) == n && Reached(n, o.to) == Target(h, o.msg)
    {
      assert o in ToSend(l) || o == r;
    }
    forall k, j | j in ReceivedBy(c', k)
      ensures j in ReceivedBy(c, k)
    {
      if k == n { assert ReceivedBy(c', n) == ReceivedBy(c, n)[1..]; }
    }
    RoutesKept(c, n, c');
  }

  lemma SendRoutes(c: Cluster, n: Node, c': Cluster)
    requires Routes(c) && n in c.nodes && SendStep(c, n, c')
    ensures Routes(c')
  {
    var l, l', h := c.nodes[n], c'.nodes[n], c.hist;
    var o := l.phase.batch[0];
    var to := Reached(n, o.to);
    assert RightlySent(h, n, ToSend(l)) && RightlyReceived(h, to, ReceivedBy(c, to));
    assert ToSend(l)[0] == o && o in ToSend(l) && ToSend(l') == ToSend(l)[1..];
    forall i | i in ReceivedBy(c', to)
      ensures i.msg.id in h.issued && Target(h, i.msg) == to && i.sender == Source(h, i.msg)
    {
      assert i in ReceivedBy(c, to) || i == In(n, o.msg);
    }
    forall k | k != to
      ensures ReceivedBy(c', k) == ReceivedBy(c, k)
    {
    }
    RoutesKept(c, n, c');
  }

  /** The steps that neither issue, execute nor send. */
  ghost predicate OtherStep(c: Cluster, n: Node, c': Cluster)
    requires n in c.nodes
  {
    || (exists id :: ReturnStep(c, n, c', id)) || RecvStep(c, n, c') || ResponseStep(c, n, c')
    || HandOverStep(c, n, c') || RefuseStep(c, n, c') || TakeStep(c, n, c') || LoseStep(c, n, c')
    || DoneStep(c, n, c') || RestartStep(c, n, c')
  }

  /** Whatever is left to send, or was received, was there before. */
  lemma FewerRoutes(c: Cluster, n: Node, l': Local, c': Cluster)
    requires Routes(c) && n in c.nodes && c'.nodes == c.nodes[n := l'] && c'.hist.issued == c.hist.issued
    requires ToSend(l') == ToSend(c.nodes[n]) || ToSend(l') == []
          || (ToSend(c.nodes[n]) != [] && ToSend(l') == ToSend(c.nodes[n])[1..])
    requires forall k :: k != n ==> Box(c', k) == Box(c, k)
    requires ReceivedBy(c', n) == ReceivedBy(c, n) || ReceivedBy(c', n) == [] || ReceivedBy(c', n) == Box(c, n)
          || (ReceivedBy(c, n) != [] && ReceivedBy(c', n) == ReceivedBy(c, n)[1..])
    ensures Routes(c')
  {
    hide Routes;
    hide ToSend;
    hide ToHandle;
    forall i | i in ReceivedBy(c', n)
      ensures i in ReceivedBy(c, n)
    {
    }
    forall k, i | i in ReceivedBy(c', k)
      ensures i in ReceivedBy(c, k)
    {
      if k != n { assert ReceivedBy(c', k) == ReceivedBy(c, k); }
    }
    QuietRoutes(c, n, c');
  }

  lemma SendingRoutes(c: Cluster, n: Node, c': Cluster)
    requires Routes(c) && n in c.nodes && (LoseStep(c, n, c') || DoneStep(c, n, c') || RestartStep(c, n, c'))
    ensures Routes(c')
  {
    hide Routes;
    var l, l' := c.nodes[n], c'.nodes[n];
    if RestartStep(c, n, c') {
      assert ToSend(l') == [] && ReceivedBy(c', n) == Box(c, n);
    } else if LoseStep(c, n, c') {
      assert ToSend(l') == ToSend(l)[1..];
    } else {
      assert ToSend(l') == ToSend(l);
    }
    FewerRoutes(c, n, l', c');
  }

  lemma RecvRoutes(c: Cluster, n: Node, c': Cluster)
    requires Routes(c) && n in c.nodes && RecvStep(c, n, c')
    ensures Routes(c')
  {
    hide Routes;
    var l, l' := c.nodes[n], c'.nodes[n];
    assert c'.nodes == c.nodes[n := l'];
    assert Box(c, n) + [] == Box(c, n);
    assert ToSend(l') == ToSend(l);
    FewerRoutes(c, n, l', c');
  }

  lemma HandlingRoutes(c: Cluster, n: Node, c': Cluster)
    requires Routes(c) && n in c.nodes && (ResponseStep(c, n, c') || RefuseStep(c, n, c') || TakeStep(c, n, c'))
    ensures Routes(c')
  {
    hide Routes;
    var l, l' := c.nodes[n], c'.nodes[n];
    assert ToSend(l') == ToSend(l);
    if l'.phase.Handling? || l'.phase.HandingOver? {
      assert ReceivedBy(c', n) == ReceivedBy(c, n)[1..];
    }
    FewerRoutes(c, n, l', c');
  }

  lemma CallRoutes(c: Cluster, n: Node, c': Cluster)
    requires Routes(c) && n in c.nodes && (HandOverStep(c, n, c') || exists id :: ReturnStep(c, n, c', id))
    ensures Routes(c')
  {
    hide Routes;
    var l, l' := c.nodes[n], c'.nodes[n];
    assert ToSend(l') == ToSend(l) && ReceivedBy(c', n) == ReceivedBy(c, n);
    FewerRoutes(c, n, l', c');
  }

  /** What is pending, called or placed does not matter for the routes. */
  lemma OtherRoutes(c: Cluster, n: Node, c': Cluster)
    requires Routes(c) && n in c.nodes && OtherStep(c, n, c')
    ensures Routes(c')
  {
    hide Routes;
    hide Offer;
    hide Forgotten;
    hide Box;
    if LoseStep(c, n, c') || DoneStep(c, n, c') || RestartStep(c, n, c') {
      SendingRoutes(c, n, c');
    } else if RecvStep(c, n, c') {
      RecvRoutes(c, n, c');
    } else if ResponseStep(c, n, c') || RefuseStep(c, n, c') || TakeStep(c, n, c') {
      HandlingRoutes(c, n, c');
    } else {
      CallRoutes(c, n, c');
    }
  }

  ghost predicate Inv(c: Cluster) {
    Core(c) && Routes(c)
  }

  /** Every step of every node keeps the invariant. */
  lemma NextInv(c: Cluster, n: Node, c': Cluster)
    requires Inv(c) && Next(c, n, c')
    ensures Inv(c')
  {
    hide Core;
    hide Routes;
    var l := c.nodes[n];
    if id, to, req :| InvokeStep(c, n, c', id, to, req) {
      InvokeInv(c, n, c', id, to, req);
      InvokeRoutes(c, n, c', id, to, req);
    } else if res :| ExecuteStep(c, n, c', res) {
      ExecuteRoutes(c, n, c', res);
      ExecuteInv(c, n, c', res);
    } else if SendStep(c, n, c') {
      SendInv(c, n, c');
      SendRoutes(c, n, c');
    } else {
      OtherRoutes(c, n, c');
      OtherInv(c, n, c');
    }
  }

  lemma OtherInv(c: Cluster, n: Node, c': Cluster)
    requires Core(c) && n in c.nodes && OtherStep(c, n, c')
    ensures Core(c')
  {
    hide Core;
    var l := c.nodes[n];
    if HandOverStep(c, n, c') {
      HandOverInv(c, n, c');
    } else if ResponseStep(c, n, c') && l.phase.inbox[0].msg.id in l.pending {
      ResponseInv(c, n, c');
    } else if id :| ReturnStep(c, n, c', id) {
      ReturnInv(c, n, c');
    } else if RecvStep(c, n, c') {
      RecvInv(c, n, c');
    } else if LoseStep(c, n, c') || DoneStep(c, n, c') || RestartStep(c, n, c') {
      SendingQuietInv(c, n, c');
    } else {
      HandlingQuietInv(c, n, c');
    }
  }

  lemma SendingQuietInv(c: Cluster, n: Node, c': Cluster)
    requires Core(c) && n in c.nodes && (LoseStep(c, n, c') || DoneStep(c, n, c') || RestartStep(c, n, c'))
    ensures Core(c')
  {
    hide Core;
    hide CallsOk;
    hide Copies;
    hide HistoryOk;
    hide OutMsgs;
    hide InMsgs;
    var l, l' := c.nodes[n], c'.nodes[n];
    Parts(c, n);
    if RestartStep(c, n, c') {
      assert ToSend(l') == [] && ReceivedBy(c', n) == Box(c, n);
    } else if LoseStep(c, n, c') {
      assert ToSend(l') == ToSend(l)[1..];
    } else {
      assert ToSend(l') == ToSend(l);
    }
    QuietInv(c, n, l', c');
  }

  lemma RecvInv(c: Cluster, n: Node, c': Cluster)
    requires Core(c) && n in c.nodes && RecvStep(c, n, c')
    ensures Core(c')
  {
    hide Core;
    hide CallsOk;
    hide Copies;
    hide HistoryOk;
    hide OutMsgs;
    hide InMsgs;
    var l, l' := c.nodes[n], c'.nodes[n];
    Parts(c, n);
    assert c'.nodes == c.nodes[n := l'];
    assert Box(c, n) + [] == Box(c, n);
    assert ToSend(l') == ToSend(l);
    QuietInv(c, n, l', c');
  }

  lemma HandlingQuietInv(c: Cluster, n: Node, c': Cluster)
    requires Core(c) && n in c.nodes
    requires || (ResponseStep(c, n, c') && c.nodes[n].phase.inbox[0].msg.id !in c.nodes[n].pending)
             || RefuseStep(c, n, c') || TakeStep(c, n, c')
    ensures Core(c')
  {
    hide Core;
    hide CallsOk;
    hide Copies;
    hide HistoryOk;
    hide OutMsgs;
    hide InMsgs;
    var l, l' := c.nodes[n], c'.nodes[n];
    Parts(c, n);
    assert ToSend(l') == ToSend(l);
    if l'.phase.Handling? {
      assert ReceivedBy(c', n) == ReceivedBy(c, n)[1..];
    }
    QuietInv(c, n, l', c');
  }

  lemma ReturnInv(c: Cluster, n: Node, c': Cluster)
    requires Core(c) && n in c.nodes && exists id :: ReturnStep(c, n, c', id)
    ensures Core(c')
  {
    hide Core;
    hide Copies;
    hide HistoryOk;
    hide CallsOk;
    hide OutMsgs;
    hide InMsgs;
    var l, l' := c.nodes[n], c'.nodes[n];
    Parts(c, n);
    ReturnCalls(c.hist, n, l, l');
    assert ToSend(l') == ToSend(l);
    assert ReceivedBy(c', n) == ReceivedBy(c, n);
    QuietOthers(c, n, l', c');
  }

  // ---------------------------------------------------------------------------------------
  // Properties of every run
  // ---------------------------------------------------------------------------------------

  lemma {:induction false} RunInv(cs: seq<Cluster>, i: nat)
    requires Run(cs) && i < |cs|
    ensures Inv(cs[i])
  {
    if i == 0 {
      InitInv(cs[0]);
    } else {
      RunInv(cs, i - 1);
      assert Follows(cs[i - 1], cs[i]);
      var n :| Next(cs[i - 1], n, cs[i]);
      NextInv(cs[i - 1], n, cs[i]);
    }
  }

  /** Each request identifier is executed at most once, as it was issued, by the node that was asked, 0 being the issuer. */
  lemma AtMostOnce(cs: seq<Cluster>, i: nat)
    requires Run(cs) && i < |cs|
    ensures var h := cs[i].hist;
            && (forall a, b :: 0 <= a < b < |h.executed| ==> h.executed[a].id != h.executed[b].id)
            && (forall e :: e in h.executed ==>
                  && e.id in h.issued && e.req == h.issued[e.id].req
                  && e.at == if h.issued[e.id].to == 0 then h.issued[e.id].from else h.issued[e.id].to)
  {
    RunInv(cs, i);
  }

  /** Each Invoke receives at most one response, computed from its own request by the node it asked. */
  lemma OwnResponse(cs: seq<Cluster>, i: nat)
    requires Run(cs) && i < |cs|
    ensures var h := cs[i].hist;
            && (forall a, b :: 0 <= a < b < |h.receipts| ==> h.receipts[a].id != h.receipts[b].id)
            && (forall r :: r in h.receipts ==>
                  r.id in h.issued && h.issued[r.id].from == r.n && Execution(r.id, h.issued[r.id].req, r.res, Dest(h.issued[r.id])) in h.executed)
  {
    RunInv(cs, i);
    forall r | r in cs[i].hist.receipts
      ensures r.id in cs[i].hist.issued && cs[i].hist.issued[r.id].from == r.n && Execution(r.id, cs[i].hist.issued[r.id].req, r.res, Dest(cs[i].hist.issued[r.id])) in cs[i].hist.executed
    {
      assert Genuine(cs[i].hist, Response(r.id, r.res));
    }
  }

  /** Pending identifiers belong to running Invokes, and the queue stays within 257 messages. */
  lemma BoundedQueues(cs: seq<Cluster>, i: nat, n: Node)
    requires Run(cs) && i < |cs| && n in cs[i].nodes
    ensures forall id :: id in cs[i].nodes[n].pending ==> id in cs[i].nodes[n].calls && cs[i].nodes[n].calls[id].Waiting?
    ensures |cs[i].nodes[n].outgoing| <= 257
  {
    RunInv(cs, i);
    assert NodeOk(cs[i].hist, n, cs[i].nodes[n]);
  }

  /**
   In every state of every run: what a node has to send is addressed to the node it is for, and what a
   mailbox holds is there rightly; a request is for the node that was asked, a response for the issuer.
   */
  lemma RightlyRouted(cs: seq<Cluster>, i: nat, n: Node)
    requires Run(cs) && i < |cs|
    ensures n in cs[i].nodes ==> RightlySent(cs[i].hist, n, ToSend(cs[i].nodes[n]))
    ensures RightlyReceived(cs[i].hist, n, ReceivedBy(cs[i], n))
  {
    hide Core;
    RunInv(cs, i);
  }

  // ---------------------------------------------------------------------------------------
  // A response that comes too late
  // ---------------------------------------------------------------------------------------

  /** Handle holds a response whose Invoke has already returned. */
  predicate Stuck(c: Cluster, n: Node, id: Uuid) {
    && n in c.nodes && c.nodes[n].phase.HandingOver?
    && c.nodes[n].phase.id == id && id !in c.nodes[n].calls
  }

  lemma StuckStep(c: Cluster, k: Node, c': Cluster, n: Node, id: Uuid)
    requires Core(c) && Next(c, k, c') && Stuck(c, n, id) && !RestartStep(c, n, c')
    ensures Stuck(c', n, id)
  {
    hide Core;
    hide Next;
    hide RestartStep;
    HandedWasIssued(c, n, id);
    if k == n {
      StuckHere(c, n, c', id);
    } else {
      OthersStay(c, k, c', n);
    }
  }

  lemma HandedWasIssued(c: Cluster, n: Node, id: Uuid)
    requires Core(c) && Stuck(c, n, id)
    ensures id in c.hist.issued
  {
    assert NodeOk(c.hist, n, c.nodes[n]);
  }

  lemma OthersStay(c: Cluster, k: Node, c': Cluster, n: Node)
    requires Next(c, k, c') && n in c.nodes && k != n
    ensures n in c'.nodes && c'.nodes[n] == c.nodes[n]
  {
    hide Reply;
    hide Box;
    hide KeyOf;
  }

  /** While it is stuck, a node can only issue and end other Invokes. */
  lemma StuckHere(c: Cluster, n: Node, c': Cluster, id: Uuid)
    requires Next(c, n, c') && Stuck(c, n, id) && id in c.hist.issued && !RestartStep(c, n, c')
    ensures Stuck(c', n, id)
  {
    if other, to, req :| InvokeStep(c, n, c', other, to, req) {
      assert other != id;
    } else {
      var other :| ReturnStep(c, n, c', other);
    }
  }

  /** The hand-over can happen. */
  ghost predicate CanHandOver(c: Cluster, n: Node) {
    n in c.nodes && exists c' :: HandOverStep(c, n, c')
  }

  /**
   In every state of every run in which Handle offers a response, the hand-over can happen if and
   only if the Invoke has not returned: being stuck is the only way to block there.
   */
  lemma BlockedIffStuck(cs: seq<Cluster>, i: nat, n: Node)
    requires Run(cs) && i < |cs| && n in cs[i].nodes && cs[i].nodes[n].phase.HandingOver?
    ensures CanHandOver(cs[i], n) <==> !Stuck(cs[i], n, cs[i].nodes[n].phase.id)
  {
    RunInv(cs, i);
    WaitsForOffer(cs[i], n);
    var c, l, h := cs[i], cs[i].nodes[n], cs[i].hist;
    var id, res := l.phase.id, l.phase.res;
    if id in l.calls {
      var c' := SetNode(c, n, l.(calls := l.calls[id := Answered(res)], phase := Handling(l.phase.inbox)))
                  .(hist := h.(receipts := h.receipts + [Receipt(n, id, res)], place := h.place[Key(false, id) := Gone]));
      assert HandOverStep(c, n, c');
    }
  }

  /** An Invoke to which a response is offered, and which has not returned, is waiting. */
  lemma WaitsForOffer(c: Cluster, n: Node)
    requires Core(c) && n in c.nodes && c.nodes[n].phase.HandingOver?
    ensures c.nodes[n].phase.id in c.nodes[n].calls ==> c.nodes[n].calls[c.nodes[n].phase.id].Waiting?
  {
    assert NodeOk(c.hist, n, c.nodes[n]);
    assert Located(c.hist, Key(false, c.nodes[n].phase.id), Handed(n));
  }

  /** The Invoke returns, on a timeout, while Handle offers it its response. */
  predicate LateTimeout(c: Cluster, n: Node, c': Cluster, id: Uuid) {
    n in c.nodes && c.nodes[n].phase.HandingOver? && c.nodes[n].phase.id == id && ReturnStep(c, n, c', id)
  }

  /** A node gets stuck exactly by a late timeout, whichever node takes the step. */
  lemma StuckIffLateTimeout(c: Cluster, k: Node, c': Cluster, n: Node, id: Uuid)
    requires Core(c) && Next(c, k, c') && !Stuck(c, n, id)
    ensures Stuck(c', n, id) <==> LateTimeout(c, n, c', id)
  {
    hide Core;
    if Stuck(c', n, id) {
      if k == n {
        StuckByReturn(c, n, c', id);
      } else {
        assert n in c.nodes by { OnlyNodes(c, k, c'); }
        OthersStay(c, k, c', n);
      }
    }
  }

  lemma OnlyNodes(c: Cluster, k: Node, c': Cluster)
    requires Next(c, k, c')
    ensures c'.nodes.Keys == c.nodes.Keys
  {
    hide Reply;
    hide Box;
    hide KeyOf;
  }

  lemma StuckByReturn(c: Cluster, n: Node, c': Cluster, id: Uuid)
    requires Core(c) && Next(c, n, c') && !Stuck(c, n, id) && Stuck(c', n, id)
    ensures LateTimeout(c, n, c', id)
  {
    hide Core;
    hide CallsOk;
    hide Copies;
    hide HistoryOk;
    hide Box;
    hide KeyOf;
    PendingCalled(c, n);
    if other :| ReturnStep(c, n, c', other) {
      assert other == id;
    }
  }

  lemma PendingCalled(c: Cluster, n: Node)
    requires Core(c) && n in c.nodes
    ensures forall id :: id in c.nodes[n].pending ==> id in c.nodes[n].calls && c.nodes[n].calls[id].Waiting?
  {
    Parts(c, n);
  }

  /**
   An Invoke that times out between the removal of its identifier and the hand-over blocks Handle
   for good: whatever any node does, only a restart of this one gets it out of that state.
   */
  lemma {:induction false} StuckUntilRestart(cs: seq<Cluster>, i: nat, j: nat, n: Node, id: Uuid)
    requires Run(cs) && i <= j < |cs| && Stuck(cs[i], n, id)
    requires forall a, b :: i <= a && b == a + 1 && b <= j ==> !RestartStep(cs[a], n, cs[b])
    ensures Stuck(cs[j], n, id)
    decreases j
  {
    if i < j {
      StuckUntilRestart(cs, i, j - 1, n, id);
      RunInv(cs, j - 1);
      assert Follows(cs[j - 1], cs[j]);
      var k :| Next(cs[j - 1], k, cs[j]);
      StuckStep(cs[j - 1], k, cs[j], n, id);
    }
  }
}
