/**
 The diskRpc object of pkg/diskrpc/diskrpc.go on one node: its pending and outgoing tables.  A round of
 Handle is a sequence of steps of the cluster model (`HandleIsRun`), so what DiskRpc proves about every
 run speaks about it.
 */
module RpcEndpoint {
  import opened Options
  import opened DiskRpc

  /** A response handed to the Invoke that waits for it. */
  datatype Answer = Answer(id: Uuid, res: Res)

  /** The handler of a request; None when no handler accepts it. */
  type Handler = Req -> Option<Res>

  /** The requests among the messages that a handler accepts, in order, executed by node n. */
  function Executions(n: Node, msgs: seq<In>, exec: Handler): seq<Execution> {
    if msgs == [] then []
    else
      var m, before := msgs[|msgs| - 1].msg, Executions(n, msgs[..|msgs| - 1], exec);
      if m.Request? && exec(m.req).Some? then before + [Execution(m.id, m.req, exec(m.req).value, n)] else before
  }

  /** The outgoing queue after replying to them. */
  function Replies(queue: seq<Out>, msgs: seq<In>, exec: Handler): seq<Out> {
    if msgs == [] then queue
    else
      var m, q := msgs[|msgs| - 1], Replies(queue, msgs[..|msgs| - 1], exec);
      if m.msg.Request? && exec(m.msg.req).Some? && |q| <= RESPONSE_LIMIT
      then q + [Out(m.sender, Response(m.msg.id, exec(m.msg.req).value))] else q
  }

  /** The identifiers still pending after the responses among the messages. */
  function StillPending(pending: set<Uuid>, msgs: seq<In>): set<Uuid> {
    if msgs == [] then pending
    else
      var m, p := msgs[|msgs| - 1].msg, StillPending(pending, msgs[..|msgs| - 1]);
      if m.Response? then p - {m.id} else p
  }

  /** The responses that found a pending identifier. */
  function Answers(pending: set<Uuid>, msgs: seq<In>): seq<Answer> {
    if msgs == [] then []
    else
      var front := msgs[..|msgs| - 1];
      var m, before := msgs[|msgs| - 1].msg, Answers(pending, front);
      if m.Response? && m.id in StillPending(pending, front) then before + [Answer(m.id, m.res)] else before
  }

  // The same four, said without the loop: what a round executes, forgets, answers and replies.

  /** Every accepted request is executed, in the order received, and nothing else. */
  lemma {:induction false} ExecutionsConcat(n: Node, a: seq<In>, b: seq<In>, exec: Handler)
    ensures Executions(n, a + b, exec) == Executions(n, a, exec) + Executions(n, b, exec)
    ensures |b| == 1 ==> Executions(n, b, exec) == (if b[0].msg.Request? && exec(b[0].msg.req).Some?
                                                    then [Execution(b[0].msg.id, b[0].msg.req, exec(b[0].msg.req).value, n)] else [])
    decreases |b|
  {
    if b == [] {
      assert a + b == a;
    } else {
      var k := |b| - 1;
      ExecutionsConcat(n, a, b[..k], exec);
      assert (a + b)[..|a + b| - 1] == a + b[..k];
      if |b| == 1 { assert b[..k] == []; }
    }
  }

  /** The identifiers that responses among the messages carry. */
  function Responded(msgs: seq<In>): set<Uuid> {
    set i | 0 <= i < |msgs| && msgs[i].msg.Response? :: msgs[i].msg.id
  }

  /** Exactly the identifiers with a response are no longer pending. */
  lemma {:induction false} PendingLeft(pending: set<Uuid>, msgs: seq<In>)
    ensures StillPending(pending, msgs) == pending - Responded(msgs)
    decreases |msgs|
  {
    if msgs != [] {
      var n := |msgs| - 1;
      PendingLeft(pending, msgs[..n]);
      assert forall i :: 0 <= i < n ==> msgs[..n][i] == msgs[i];
      forall id
        ensures id in Responded(msgs) <==> id in Responded(msgs[..n]) || (msgs[n].msg.Response? && msgs[n].msg.id == id)
      {
        if id in Responded(msgs) {
          var i :| 0 <= i < |msgs| && msgs[i].msg.Response? && msgs[i].msg.id == id;
          if i < n { assert msgs[..n][i].msg.id == id; }
        }
        if id in Responded(msgs[..n]) {
          var i :| 0 <= i < n && msgs[..n][i].msg.Response? && msgs[..n][i].msg.id == id;
          assert msgs[i].msg.id == id;
        }
      }
    }
  }

  /** The first response to a pending identifier is its answer. */
  lemma {:induction false} FirstAnswers(pending: set<Uuid>, msgs: seq<In>, i: nat)
    requires i < |msgs| && msgs[i].msg.Response? && msgs[i].msg.id in pending
    requires msgs[i].msg.id !in Responded(msgs[..i])
    ensures Answer(msgs[i].msg.id, msgs[i].msg.res) in Answers(pending, msgs)
    decreases |msgs|
  {
    var n := |msgs| - 1;
    if i < n {
      assert msgs[..n][..i] == msgs[..i];
      FirstAnswers(pending, msgs[..n], i);
    } else {
      PendingLeft(pending, msgs[..n]);
    }
  }

  /** The responses to the executions of a round, each to the sender of its request. */
  function Owed(msgs: seq<In>, exec: Handler): seq<Out> {
    if msgs == [] then []
    else
      var m, before := msgs[|msgs| - 1], Owed(msgs[..|msgs| - 1], exec);
      if m.msg.Request? && exec(m.msg.req).Some?
      then before + [Out(m.sender, Response(m.msg.id, exec(m.msg.req).value))] else before
  }

  function Least(a: int, b: int): int {
    if a < b then a else b
  }

  /** The queue gets the first of them, up to 257 messages in all. */
  lemma {:induction false} RepliesAre(queue: seq<Out>, msgs: seq<In>, exec: Handler)
    requires |queue| <= 257
    ensures Replies(queue, msgs, exec) == queue + Owed(msgs, exec)[..Least(|Owed(msgs, exec)|, 257 - |queue|)]
    decreases |msgs|
  {
    if msgs != [] {
      var front, all := Owed(msgs[..|msgs| - 1], exec), Owed(msgs, exec);
      RepliesAre(queue, msgs[..|msgs| - 1], exec);
      var room := 257 - |queue|;
      if |front| <= room {
        assert front[..Least(|front|, room)] == front;
      } else {
        assert all[..room] == front[..room];
      }
      if |all| <= room { assert all[..Least(|all|, room)] == all; }
    }
  }

  lemma {:induction false} RepliesBounded(queue: seq<Out>, msgs: seq<In>, exec: Handler)
    requires |queue| <= RESPONSE_LIMIT + 1
    ensures |Replies(queue, msgs, exec)| <= RESPONSE_LIMIT + 1
    ensures queue <= Replies(queue, msgs, exec)
    decreases |msgs|
  {
    if msgs != [] { RepliesBounded(queue, msgs[..|msgs| - 1], exec); }
  }

  /** Answers go to identifiers of `from` that are not in `left`, each at most once. */
  ghost predicate EachOnce(a: seq<Answer>, from: set<Uuid>, left: set<Uuid>) {
    && left <= from
    && (forall i :: 0 <= i < |a| ==> a[i].id in from && a[i].id !in left)
    && (forall i, j :: 0 <= i < j < |a| ==> a[i].id != a[j].id)
  }

  /** Duplicated responses change nothing: each pending identifier is answered at most once. */
  lemma {:induction false} AnsweredOnce(pending: set<Uuid>, msgs: seq<In>)
    ensures EachOnce(Answers(pending, msgs), pending, StillPending(pending, msgs))
    decreases |msgs|
  {
    if msgs != [] {
      var front, m := msgs[..|msgs| - 1], msgs[|msgs| - 1].msg;
      AnsweredOnce(pending, front);
      AnswerNext(Answers(pending, front), pending, StillPending(pending, front), m.id);
      if m.Response? && m.id in StillPending(pending, front) {
        AnswerAdd(Answers(pending, front), pending, StillPending(pending, front), Answer(m.id, m.res));
      }
    }
  }

  lemma AnswerNext(a: seq<Answer>, from: set<Uuid>, left: set<Uuid>, id: Uuid)
    requires EachOnce(a, from, left)
    ensures EachOnce(a, from, left - {id})
  {
  }

  lemma AnswerAdd(a: seq<Answer>, from: set<Uuid>, left: set<Uuid>, x: Answer)
    requires EachOnce(a, from, left) && x.id in left
    ensures EachOnce(a + [x], from, left - {x.id})
  {
    var b := a + [x];
    forall i, j | 0 <= i < j < |b|
      ensures b[i].id != b[j].id
    {
      assert b[i] == a[i];
      if j < |a| { assert b[j] == a[j]; }
    }
  }

  // ---------------------------------------------------------------------------------------
  // A round of Handle in the cluster
  // ---------------------------------------------------------------------------------------

  /** The messages before the first one that does not unmarshal. */
  function Decoded(received: seq<Option<In>>): (r: seq<In>)
    ensures |r| <= |received|
    ensures forall i :: 0 <= i < |r| ==> received[i] == Some(r[i])
    ensures |r| < |received| ==> received[|r|].None?
  {
    if received == [] || received[0].None? then [] else [received[0].value] + Decoded(received[1..])
  }

  /** Steps of node n, one after the other. */
  ghost predicate Path(cs: seq<Cluster>, n: Node) {
    |cs| > 0 && forall i, j :: 0 <= i && j == i + 1 && j < |cs| ==> Next(cs[i], n, cs[j])
  }

  function Receipts(n: Node, a: seq<Answer>): (r: seq<Receipt>)
    ensures |r| == |a|
  {
    seq(|a|, i requires 0 <= i < |a| => Receipt(n, a[i].id, a[i].res))
  }

  /** The Invokes after they received the answers. */
  function Marked(calls: map<Uuid, Call>, a: seq<Answer>): map<Uuid, Call> {
    if a == [] then calls else Marked(calls, a[..|a| - 1])[a[|a| - 1].id := Answered(a[|a| - 1].res)]
  }

  /** The tables, the Invokes and the history of node n after it dealt with msgs. */
  ghost predicate Dealt(c: Cluster, n: Node, msgs: seq<In>, exec: Handler, phase: Phase, outgoing: seq<Out>, c': Cluster)
    requires n in c.nodes
  {
    var l := c.nodes[n];
    && c'.nodes == c.nodes[n := Local(StillPending(l.pending, msgs), outgoing, phase, Marked(l.calls, Answers(l.pending, msgs)))]
    && c'.boxes == c.boxes[n := []]
    && c'.hist.issued == c.hist.issued
    && c'.hist.executed == c.hist.executed + Executions(n, msgs, exec)
    && c'.hist.receipts == c.hist.receipts + Receipts(n, Answers(l.pending, msgs))
  }

  lemma PathExtend(cs: seq<Cluster>, n: Node, c: Cluster) returns (ds: seq<Cluster>)
    requires Path(cs, n) && Next(cs[|cs| - 1], n, c)
    ensures Path(ds, n) && ds[0] == cs[0] && ds[|ds| - 1] == c
  {
    hide Next;
    ds := cs + [c];
    forall i, j | 0 <= i && j == i + 1 && j < |ds|
      ensures Next(ds[i], n, ds[j])
    {
      if j < |cs| { assert Next(cs[i], n, cs[j]); }
    }
  }

  lemma {:induction false} PathInv(cs: seq<Cluster>, n: Node, i: nat)
    requires Path(cs, n) && Inv(cs[0]) && i < |cs|
    ensures Inv(cs[i])
  {
    hide Inv;
    hide Next;
    if i > 0 {
      PathInv(cs, n, i - 1);
      NextInv(cs[i - 1], n, cs[i]);
    }
  }

  lemma Received(c: Cluster, n: Node, exec: Handler) returns (c': Cluster)
    requires n in c.nodes && c.nodes[n].phase.Ready?
    ensures Next(c, n, c') && Dealt(c, n, [], exec, Handling(Box(c, n)), c.nodes[n].outgoing, c')
  {
    c' := SetNode(c, n, c.nodes[n].(phase := Handling(Box(c, n)))).(boxes := c.boxes[n := []]);
    assert RecvStep(c, n, c');
    assert Receipts(n, []) == [];
  }

  lemma HandOver(d: Cluster, n: Node) returns (d': Cluster)
    requires n in d.nodes && d.nodes[n].phase.HandingOver?
    requires d.nodes[n].phase.id in d.nodes[n].calls && d.nodes[n].calls[d.nodes[n].phase.id].Waiting?
    ensures Next(d, n, d')
    ensures var l := d.nodes[n];
            && d'.nodes == d.nodes[n := l.(calls := l.calls[l.phase.id := Answered(l.phase.res)], phase := Handling(l.phase.inbox))]
            && d'.boxes == d.boxes && d'.hist.issued == d.hist.issued && d'.hist.executed == d.hist.executed
            && d'.hist.receipts == d.hist.receipts + [Receipt(n, l.phase.id, l.phase.res)]
  {
    var l, h := d.nodes[n], d.hist;
    var id, res := l.phase.id, l.phase.res;
    d' := SetNode(d, n, l.(calls := l.calls[id := Answered(res)], phase := Handling(l.phase.inbox)))
            .(hist := h.(receipts := h.receipts + [Receipt(n, id, res)], place := h.place[Key(false, id) := Gone]));
    assert HandOverStep(d, n, d');
  }

  lemma InvCalled(c: Cluster, n: Node)
    requires Inv(c) && n in c.nodes
    ensures forall id :: id in c.nodes[n].pending ==> id in c.nodes[n].calls && c.nodes[n].calls[id].Waiting?
  {
    PendingCalled(c, n);
  }

  /** What one more message does to the spec functions. */
  lemma OneMore(pending: set<Uuid>, queue: seq<Out>, calls: map<Uuid, Call>, n: Node, msgs: seq<In>, m: In, exec: Handler)
    ensures var p, more := StillPending(pending, msgs), msgs + [m];
            && StillPending(pending, more) == (if m.msg.Response? then p - {m.msg.id} else p)
            && Executions(n, more, exec) == Executions(n, msgs, exec)
                 + (if m.msg.Request? && exec(m.msg.req).Some? then [Execution(m.msg.id, m.msg.req, exec(m.msg.req).value, n)] else [])
            && Replies(queue, more, exec)
                 == (if m.msg.Request? && exec(m.msg.req).Some? && |Replies(queue, msgs, exec)| <= RESPONSE_LIMIT
                     then Replies(queue, msgs, exec) + [Out(m.sender, Response(m.msg.id, exec(m.msg.req).value))]
                     else Replies(queue, msgs, exec))
            && (var hit := m.msg.Response? && m.msg.id in p;
                && (hit ==> Receipts(n, Answers(pending, more)) == Receipts(n, Answers(pending, msgs)) + [Receipt(n, m.msg.id, m.msg.res)])
                && (hit ==> Marked(calls, Answers(pending, more)) == Marked(calls, Answers(pending, msgs))[m.msg.id := Answered(m.msg.res)])
                && (!hit ==> Answers(pending, more) == Answers(pending, msgs)))
  {
    var more := msgs + [m];
    assert more[..|more| - 1] == msgs && more[|more| - 1] == m;
    if m.msg.Response? && m.msg.id in StillPending(pending, msgs) {
      var a, b := Answers(pending, msgs), Answers(pending, more);
      assert b == a + [Answer(m.msg.id, m.msg.res)];
      assert b[..|b| - 1] == a;
      assert Receipts(n, b) == Receipts(n, a) + [Receipt(n, m.msg.id, m.msg.res)];
    }
  }

  /** The next message is a response: the identifier is taken and the answer handed over, or nothing. */
  lemma ResponseDealt(c: Cluster, n: Node, msgs: seq<In>, m: In, rest: seq<In>, exec: Handler, cs: seq<Cluster>) returns (ds: seq<Cluster>)
    requires n in c.nodes && Path(cs, n) && Inv(cs[|cs| - 1]) && m.msg.Response?
    requires Dealt(c, n, msgs, exec, Handling([m] + rest), Replies(c.nodes[n].outgoing, msgs, exec), cs[|cs| - 1])
    ensures Path(ds, n) && ds[0] == cs[0]
    ensures Dealt(c, n, msgs + [m], exec, Handling(rest), Replies(c.nodes[n].outgoing, msgs + [m], exec), ds[|ds| - 1])
  {
    hide Inv;
    hide StillPending;
    hide Replies;
    hide Answers;
    hide Marked;
    hide Executions;
    hide Receipts;
    var l, d := c.nodes[n], cs[|cs| - 1];
    var ld := d.nodes[n];
    OneMore(l.pending, l.outgoing, l.calls, n, msgs, m, exec);
    assert ([m] + rest)[0] == m && ([m] + rest)[1..] == rest;
    var d1 := SetNode(d, n, Offer(ld, m.msg.id, m.msg.res, rest))
                .(hist := if m.msg.id in ld.pending then d.hist.(place := d.hist.place[KeyOf(m.msg) := Handed(n)]) else d.hist);
    assert ResponseStep(d, n, d1);
    ds := PathExtend(cs, n, d1);
    if m.msg.id in ld.pending {
      InvCalled(d, n);
      var d2 := HandOver(d1, n);
      ds := PathExtend(ds, n, d2);
    } else {
      assert ld.pending - {m.msg.id} == ld.pending;
    }
  }

  /** The next message is a request: it is executed and answered, or refused. */
  lemma RequestDealt(c: Cluster, n: Node, msgs: seq<In>, m: In, rest: seq<In>, exec: Handler, cs: seq<Cluster>) returns (ds: seq<Cluster>)
    requires n in c.nodes && Path(cs, n) && m.msg.Request?
    requires Dealt(c, n, msgs, exec, Handling([m] + rest), Replies(c.nodes[n].outgoing, msgs, exec), cs[|cs| - 1])
    ensures Path(ds, n) && ds[0] == cs[0]
    ensures Dealt(c, n, msgs + [m], exec, Handling(rest), Replies(c.nodes[n].outgoing, msgs + [m], exec), ds[|ds| - 1])
  {
    hide StillPending;
    hide Replies;
    hide Answers;
    hide Marked;
    hide Executions;
    hide Receipts;
    var l, d := c.nodes[n], cs[|cs| - 1];
    var ld, h := d.nodes[n], d.hist;
    OneMore(l.pending, l.outgoing, l.calls, n, msgs, m, exec);
    assert ([m] + rest)[0] == m && ([m] + rest)[1..] == rest;
    var next, d1 := ld.(phase := Handling(rest)), d;
    if exec(m.msg.req).Some? {
      var res := exec(m.msg.req).value;
      d1 := SetNode(d, n, Reply(next, m.sender, m.msg.id, res))
              .(hist := h.(executed := h.executed + [Execution(m.msg.id, m.msg.req, res, n)],
                           place := h.place[KeyOf(m.msg) := Gone][Key(false, m.msg.id) := AtSender(n)]));
      assert ExecuteStep(d, n, d1, res);
    } else {
      d1 := SetNode(d, n, next);
      assert RefuseStep(d, n, d1);
    }
    ds := PathExtend(cs, n, d1);
  }

  lemma {:induction false} RoundPath(c: Cluster, n: Node, exec: Handler, k: nat) returns (cs: seq<Cluster>)
    requires Inv(c) && n in c.nodes && c.nodes[n].phase.Ready? && k <= |Box(c, n)|
    ensures Path(cs, n) && cs[0] == c
    ensures Dealt(c, n, Box(c, n)[..k], exec, Handling(Box(c, n)[k..]), Replies(c.nodes[n].outgoing, Box(c, n)[..k], exec), cs[|cs| - 1])
    decreases k
  {
    hide Inv;
    hide Next;
    hide Dealt;
    var all := Box(c, n);
    if k == 0 {
      var d := Received(c, n, exec);
      cs := PathExtend([c], n, d);
      assert all[..0] == [] && all[0..] == all;
    } else {
      cs := RoundPath(c, n, exec, k - 1);
      PathInv(cs, n, |cs| - 1);
      var m, rest := all[k - 1], all[k..];
      assert all[k - 1..] == [m] + rest && all[..k] == all[..k - 1] + [m];
      if m.msg.Response? {
        cs := ResponseDealt(c, n, all[..k - 1], m, rest, exec, cs);
      } else {
        cs := RequestDealt(c, n, all[..k - 1], m, rest, exec, cs);
      }
    }
  }

  /**
   A round of Handle over what the mailbox of node n held is a sequence of steps of n.  The history
   gains exactly the executions and the receipts that the round reports; every answer is received,
   because a pending identifier has a waiting Invoke.  `ok` is false when the message behind the first
   k does not unmarshal: the rest is dropped and the queue stays.
   */
  lemma HandleIsRun(c: Cluster, n: Node, exec: Handler, k: nat, ok: bool) returns (cs: seq<Cluster>)
    requires Inv(c) && n in c.nodes && c.nodes[n].phase.Ready? && k <= |Box(c, n)| && (ok ==> k == |Box(c, n)|)
    ensures Path(cs, n) && cs[0] == c && Inv(cs[|cs| - 1])
    ensures var msgs := Box(c, n)[..k];
            var queue := Replies(c.nodes[n].outgoing, msgs, exec);
            if ok then Dealt(c, n, msgs, exec, Sending(queue), [], cs[|cs| - 1]) else Dealt(c, n, msgs, exec, Ready, queue, cs[|cs| - 1])
  {
    hide Inv;
    hide Replies;
    hide StillPending;
    hide Answers;
    hide Marked;
    hide Executions;
    hide Receipts;
    cs := RoundPath(c, n, exec, k);
    var d := cs[|cs| - 1];
    var l := d.nodes[n];
    var d' := SetNode(d, n, if ok then l.(outgoing := [], phase := Sending(l.outgoing)) else l.(phase := Ready));
    assert TakeStep(d, n, d');
    cs := PathExtend(cs, n, d');
    PathInv(cs, n, |cs| - 1);
  }

  /**
   What a round does in any reachable cluster: it executes only requests that were issued and never
   executed before, each once, and answers Invokes of this node with results of their own requests.
   */
  lemma RoundOnce(c: Cluster, n: Node, exec: Handler, k: nat)
    requires Inv(c) && n in c.nodes && c.nodes[n].phase.Ready? && k <= |Box(c, n)|
    ensures var h, done := c.hist, Executions(n, Box(c, n)[..k], exec);
            && (forall i :: 0 <= i < |done| ==> done[i].id in h.issued && h.issued[done[i].id].req == done[i].req && done[i].at == Dest(h.issued[done[i].id]))
            && (forall i, e :: 0 <= i < |done| && e in h.executed ==> e.id != done[i].id)
            && (forall i, j :: 0 <= i < j < |done| ==> done[i].id != done[j].id)
    ensures var h, a := c.hist, Answers(c.nodes[n].pending, Box(c, n)[..k]);
            forall i :: 0 <= i < |a| ==>
              && a[i].id in h.issued && h.issued[a[i].id].from == n
              && (Execution(a[i].id, h.issued[a[i].id].req, a[i].res, Dest(h.issued[a[i].id])) in h.executed + Executions(n, Box(c, n)[..k], exec))
  {
    hide Inv;
    hide Executions;
    hide Answers;
    hide HistoryOk;
    var h' := RoundHistory(c, n, exec, k);
    var a := Answers(c.nodes[n].pending, Box(c, n)[..k]);
    ExecutedOnce(c.hist, h', Executions(n, Box(c, n)[..k], exec));
    ReceivedOwn(c.hist, h', n, a);
  }

  lemma RoundHistory(c: Cluster, n: Node, exec: Handler, k: nat) returns (h: History)
    requires Inv(c) && n in c.nodes && c.nodes[n].phase.Ready? && k <= |Box(c, n)|
    ensures HistoryOk(h) && h.issued == c.hist.issued
    ensures h.executed == c.hist.executed + Executions(n, Box(c, n)[..k], exec)
    ensures h.receipts == c.hist.receipts + Receipts(n, Answers(c.nodes[n].pending, Box(c, n)[..k]))
  {
    hide Inv;
    hide HistoryOk;
    hide Executions;
    hide Answers;
    hide Receipts;
    var cs := HandleIsRun(c, n, exec, k, false);
    ReachedHistory(cs[|cs| - 1]);
    h := cs[|cs| - 1].hist;
  }

  lemma ReachedHistory(c: Cluster)
    requires Inv(c)
    ensures HistoryOk(c.hist)
  {
  }

  /** Executions that a consistent history gained are of issued requests, new and distinct. */
  lemma ExecutedOnce(h: History, h': History, done: seq<Execution>)
    requires HistoryOk(h') && h'.issued == h.issued && h'.executed == h.executed + done
    ensures forall i :: 0 <= i < |done| ==> done[i].id in h.issued && h.issued[done[i].id].req == done[i].req && done[i].at == Dest(h.issued[done[i].id])
    ensures forall i, e :: 0 <= i < |done| && e in h.executed ==> e.id != done[i].id
    ensures forall i, j :: 0 <= i < j < |done| ==> done[i].id != done[j].id
  {
    forall i | 0 <= i < |done|
      ensures done[i].id in h.issued && h.issued[done[i].id].req == done[i].req && done[i].at == Dest(h.issued[done[i].id])
      ensures forall e :: e in h.executed ==> e.id != done[i].id
    {
      assert h'.executed[|h.executed| + i] == done[i] && done[i] in h'.executed;
      forall e | e in h.executed ensures e.id != done[i].id {
        var j :| 0 <= j < |h.executed| && h.executed[j] == e;
        assert h'.executed[j] == e;
      }
    }
    forall i, j | 0 <= i < j < |done|
      ensures done[i].id != done[j].id
    {
      assert h'.executed[|h.executed| + i] == done[i] && h'.executed[|h.executed| + j] == done[j];
    }
  }

  lemma ReceivedOwn(h: History, h': History, n: Node, a: seq<Answer>)
    requires HistoryOk(h') && h'.issued == h.issued && h'.receipts == h.receipts + Receipts(n, a)
    ensures forall i :: 0 <= i < |a| ==>
              && a[i].id in h.issued && h.issued[a[i].id].from == n
              && Execution(a[i].id, h.issued[a[i].id].req, a[i].res, Dest(h.issued[a[i].id])) in h'.executed
  {
    forall i | 0 <= i < |a|
      ensures a[i].id in h.issued && h.issued[a[i].id].from == n
      ensures Execution(a[i].id, h.issued[a[i].id].req, a[i].res, Dest(h.issued[a[i].id])) in h'.executed
    {
      var r := Receipt(n, a[i].id, a[i].res);
      assert h'.receipts[|h.receipts| + i] == r && r in h'.receipts;
      assert Genuine(h', Response(r.id, r.res));
    }
  }

  class Endpoint {
    const node: Node
    var pending: set<Uuid>
    var outgoing: seq<Out>

    constructor (node: Node)
      ensures this.node == node && pending == {} && outgoing == []
    {
      this.node := node;
      pending, outgoing := {}, [];
    }

    /** The scheduling part of Invoke. */
    method Enqueue(id: Uuid, to: Node, req: Req) returns (ok: bool)
      modifies this
      ensures ok <==> old(|outgoing|) <= 64
      ensures ok ==> pending == old(pending) + {id} && outgoing == old(outgoing) + [Out(to, Request(id, req))]
      ensures ok ==> forall phase, calls ::
                Local(pending, outgoing, phase, calls) == Schedule(Local(old(pending), old(outgoing), phase, calls), id, to, req)
      ensures !ok ==> pending == old(pending) && outgoing == old(outgoing)
    {
      if |outgoing| > INVOKE_LIMIT {
        return false;
      }
      pending := pending + {id};
      outgoing := outgoing + [Out(to, Request(id, req))];
      ok := true;
    }

    /** The deferred function of Invoke: what ReturnStep does to the tables. */
    method Forget(id: Uuid)
      modifies this`pending
      ensures forall phase, calls ::
                Local(pending, outgoing, phase, calls) == Forgotten(Local(old(pending), outgoing, phase, calls), id)
    {
      pending := pending - {id};
    }

    /** handleResponse: what ResponseStep does to the tables; an answer is to be handed over. */
    method HandleResponse(id: Uuid, res: Res) returns (a: Option<Answer>)
      modifies this`pending
      ensures a == if id in old(pending) then Some(Answer(id, res)) else None
      ensures pending == old(pending) - {id}
      ensures forall phase, rest, calls ::
                Offer(Local(old(pending), outgoing, phase, calls), id, res, rest)
                == Local(pending, outgoing, if a.Some? then HandingOver(id, res, rest) else Handling(rest), calls)
    {
      if id !in pending {
        return None;
      }
      pending := pending - {id};
      a := Some(Answer(id, res));
    }

    method HandleRequest(from: Node, id: Uuid, req: Req, exec: Handler) returns (e: Option<Execution>)
      modifies this`outgoing
      ensures e == if exec(req).Some? then Some(Execution(id, req, exec(req).value, node)) else None
      ensures exec(req).None? ==> outgoing == old(outgoing)
      ensures exec(req).Some? ==> forall phase, calls ::
                Local(pending, outgoing, phase, calls) == Reply(Local(pending, old(outgoing), phase, calls), from, id, exec(req).value)
    {
      var r := exec(req);
      if r.None? {
        return None;
      }
      e := Some(Execution(id, req, r.value, node));
      if |outgoing| > RESPONSE_LIMIT {
        return;
      }
      outgoing := outgoing + [Out(from, Response(id, r.value))];
    }

    /**
     One round of Handle: deal with the received messages, then take the queue for sending.  A message
     that does not unmarshal ends the round with an error.
     */
    method Handle(received: seq<Option<In>>, exec: Handler)
      returns (ok: bool, executed: seq<Execution>, answers: seq<Answer>, batch: seq<Out>)
      modifies this
      ensures ok <==> |Decoded(received)| == |received|
      ensures var msgs := Decoded(received);
              && executed == Executions(node, msgs, exec)
              && answers == Answers(old(pending), msgs)
              && pending == StillPending(old(pending), msgs)
              && batch == (if ok then Replies(old(outgoing), msgs, exec) else [])
              && outgoing == (if ok then [] else Replies(old(outgoing), msgs, exec))
    {
      ok, executed, answers, batch := true, [], [], [];
      ghost var msgs := Decoded(received);
      var i := 0;
      while i < |received|
        invariant 0 <= i <= |msgs|
        invariant ok && batch == []
        invariant executed == Executions(node, msgs[..i], exec)
        invariant answers == Answers(old(pending), msgs[..i])
        invariant pending == StillPending(old(pending), msgs[..i])
        invariant outgoing == Replies(old(outgoing), msgs[..i], exec)
      {
        if received[i].None? {
          assert i == |msgs| && msgs[..i] == msgs;
          return false, executed, answers, [];
        }
        assert i < |msgs|;
        assert msgs[..i + 1][..i] == msgs[..i] && msgs[..i + 1][i] == msgs[i];
        var from, m := received[i].value.sender, received[i].value.msg;
        if m.Response? {
          var a := HandleResponse(m.id, m.res);
          if a.Some? {
            answers := answers + [a.value];
          }
        } else {
          ghost var queue := outgoing;
          var e := HandleRequest(from, m.id, m.req, exec);
          if e.Some? {
            executed := executed + [e.value];
            assert Local(pending, outgoing, Ready, map[]) == Reply(Local(pending, queue, Ready, map[]), from, m.id, e.value.res);
          }
        }
        i := i + 1;
      }
      assert msgs[..|msgs|] == msgs;
      batch := outgoing;
      outgoing := [];
    }
  }
}
