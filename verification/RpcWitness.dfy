/**
 A run of one node that calls itself: the request is executed, and the Invoke times out while Handle
 offers it the response.  The node is 1, the request 7 with content 5 and result 9.
 */
module RpcWitness {
  import opened DiskRpc

  const ASK: RpcMsg := Request(7, 5)
  const TELL: RpcMsg := Response(7, 9)

  function Alone(box: seq<In>, l: Local, h: History): Cluster {
    Cluster(map[1 := box], map[1 := l], h)
  }

  function Calling(outgoing: seq<Out>, phase: Phase): Local {
    Local({7}, outgoing, phase, map[7 := Waiting])
  }

  function Before(request: Place): History {
    History(map[7 := Issue(1, 0, 5)], [], [], map[Key(true, 7) := request])
  }

  function After(response: Place): History {
    History(map[7 := Issue(1, 0, 5)], [Execution(7, 5, 9, 1)], [], map[Key(true, 7) := Gone, Key(false, 7) := response])
  }

  lemma Extend(cs: seq<Cluster>, n: Node, c: Cluster) returns (ds: seq<Cluster>)
    requires Run(cs) && Next(cs[|cs| - 1], n, c)
    ensures Run(ds) && |ds| > 0 && ds[|ds| - 1] == c
  {
    hide Next;
    assert Follows(cs[|cs| - 1], c);
    ds := cs + [c];
    forall i, j | 0 <= i && j == i + 1 && j < |ds|
      ensures Follows(ds[i], ds[j])
    {
      if j < |cs| { assert Follows(cs[i], cs[j]); }
    }
  }

  lemma Start() returns (cs: seq<Cluster>)
    ensures Run(cs) && cs[|cs| - 1] == Cluster(map[], map[1 := Calling([Out(0, ASK)], Ready)], Before(AtSender(1)))
  {
    var c0 := Cluster(map[], map[1 := FRESH], History(map[], [], [], map[]));
    var c1 := Cluster(map[], map[1 := Calling([Out(0, ASK)], Ready)], Before(AtSender(1)));
    assert {} + {7} == {7} && [] + [Out(0, ASK)] == [Out(0, ASK)];
    assert Schedule(FRESH, 7, 0, 5).(calls := map[7 := Waiting]) == Calling([Out(0, ASK)], Ready);
    assert map[1 := FRESH][1 := c1.nodes[1]] == c1.nodes;
    assert InvokeStep(c0, 1, c1, 7, 0, 5);
    cs := Extend([c0], 1, c1);
  }

  /** A message queued for the node itself is taken, sent and received. */
  lemma Delivered(m: RpcMsg, to: Node, h: History, h1: History)
    requires to == 0 || to == 1
    requires h1 == h.(place := h.place[KeyOf(m) := AtReceiver(1)])
    ensures Next(Alone([], Calling([Out(to, m)], Handling([])), h), 1, Alone([], Calling([], Sending([Out(to, m)])), h))
    ensures Next(Alone([], Calling([], Sending([Out(to, m)])), h), 1, Alone([In(1, m)], Calling([], Sending([])), h1))
    ensures Next(Alone([In(1, m)], Calling([], Sending([])), h1), 1, Alone([In(1, m)], Calling([], Ready), h1))
    ensures Next(Alone([In(1, m)], Calling([], Ready), h1), 1, Alone([], Calling([], Handling([In(1, m)])), h1))
  {
    Taken(m, to, h);
    Sent(m, to, h, h1);
    Received(m, h1);
  }

  lemma Taken(m: RpcMsg, to: Node, h: History)
    ensures Next(Alone([], Calling([Out(to, m)], Handling([])), h), 1, Alone([], Calling([], Sending([Out(to, m)])), h))
  {
    var c, c' := Alone([], Calling([Out(to, m)], Handling([])), h), Alone([], Calling([], Sending([Out(to, m)])), h);
    assert c.nodes[1 := c'.nodes[1]] == c'.nodes;
    assert TakeStep(c, 1, c');
  }

  lemma Sent(m: RpcMsg, to: Node, h: History, h1: History)
    requires to == 0 || to == 1
    requires h1 == h.(place := h.place[KeyOf(m) := AtReceiver(1)])
    ensures Next(Alone([], Calling([], Sending([Out(to, m)])), h), 1, Alone([In(1, m)], Calling([], Sending([])), h1))
  {
    var c, c' := Alone([], Calling([], Sending([Out(to, m)])), h), Alone([In(1, m)], Calling([], Sending([])), h1);
    assert [Out(to, m)][1..] == [] && [In(1, m)] + [] == [In(1, m)];
    assert c.nodes[1 := c'.nodes[1]] == c'.nodes;
    assert c.boxes[1 := [In(1, m)]] == c'.boxes;
    assert SendStep(c, 1, c');
  }

  lemma Received(m: RpcMsg, h: History)
    ensures Next(Alone([In(1, m)], Calling([], Sending([])), h), 1, Alone([In(1, m)], Calling([], Ready), h))
    ensures Next(Alone([In(1, m)], Calling([], Ready), h), 1, Alone([], Calling([], Handling([In(1, m)])), h))
  {
    var c0 := Alone([In(1, m)], Calling([], Sending([])), h);
    var c1 := Alone([In(1, m)], Calling([], Ready), h);
    var c2 := Alone([], Calling([], Handling([In(1, m)])), h);
    assert c0.nodes[1 := c1.nodes[1]] == c1.nodes;
    assert DoneStep(c0, 1, c1);
    assert c1.nodes[1 := c2.nodes[1]] == c2.nodes && c1.boxes[1 := []] == c2.boxes;
    assert RecvStep(c1, 1, c2);
  }

  lemma Deliver(cs: seq<Cluster>, m: RpcMsg, to: Node, h: History, h1: History) returns (ds: seq<Cluster>)
    requires to == 0 || to == 1
    requires h1 == h.(place := h.place[KeyOf(m) := AtReceiver(1)])
    requires Run(cs) && cs[|cs| - 1] == Alone([], Calling([Out(to, m)], Handling([])), h)
    ensures Run(ds) && |ds| > 0 && ds[|ds| - 1] == Alone([], Calling([], Handling([In(1, m)])), h1)
  {
    hide Next;
    Delivered(m, to, h, h1);
    ds := Extend(cs, 1, Alone([], Calling([], Sending([Out(to, m)])), h));
    ds := Extend(ds, 1, Alone([In(1, m)], Calling([], Sending([])), h1));
    ds := Extend(ds, 1, Alone([In(1, m)], Calling([], Ready), h1));
    ds := Extend(ds, 1, Alone([], Calling([], Handling([In(1, m)])), h1));
  }

  lemma FirstRecv(c: Cluster, c': Cluster)
    requires c == Cluster(map[], map[1 := Calling([Out(0, ASK)], Ready)], Before(AtSender(1)))
    requires c' == Alone([], Calling([Out(0, ASK)], Handling([])), Before(AtSender(1)))
    ensures Next(c, 1, c')
  {
    assert c.nodes[1 := c'.nodes[1]] == c'.nodes && c.boxes[1 := []] == c'.boxes;
    assert RecvStep(c, 1, c');
  }

  lemma Executed(c: Cluster, c': Cluster)
    requires c == Alone([], Calling([], Handling([In(1, ASK)])), Before(AtReceiver(1)))
    requires c' == Alone([], Calling([Out(1, TELL)], Handling([])), After(AtSender(1)))
    ensures Next(c, 1, c')
  {
    assert [In(1, ASK)][1..] == [] && [] + [Out(1, TELL)] == [Out(1, TELL)];
    assert [] + [Execution(7, 5, 9, 1)] == [Execution(7, 5, 9, 1)];
    assert Reply(Calling([], Handling([])), 1, 7, 9) == Calling([Out(1, TELL)], Handling([]));
    assert c.nodes[1 := c'.nodes[1]] == c'.nodes;
    assert c.hist.place[Key(true, 7) := Gone][Key(false, 7) := AtSender(1)] == c'.hist.place;
    assert ExecuteStep(c, 1, c', 9);
  }

  lemma Offered(c: Cluster, c': Cluster)
    requires c == Alone([], Calling([], Handling([In(1, TELL)])), After(AtReceiver(1)))
    requires c' == Alone([], Local({}, [], HandingOver(7, 9, []), map[7 := Waiting]), After(Handed(1)))
    ensures Next(c, 1, c')
  {
    assert [In(1, TELL)][1..] == [] && {7} - {7} == {};
    assert c.nodes[1 := c'.nodes[1]] == c'.nodes;
    assert c.hist.place[Key(false, 7) := Handed(1)] == c'.hist.place;
    assert ResponseStep(c, 1, c');
  }

  lemma TimedOut(c: Cluster, c': Cluster)
    requires c == Alone([], Local({}, [], HandingOver(7, 9, []), map[7 := Waiting]), After(Handed(1)))
    requires c' == Alone([], Local({}, [], HandingOver(7, 9, []), map[]), After(Handed(1)))
    ensures Next(c, 1, c')
  {
    assert {} - {7} == {} && map[7 := Waiting] - {7} == map[];
    assert c.nodes[1 := c'.nodes[1]] == c'.nodes;
    assert ReturnStep(c, 1, c', 7);
  }

  /** A run that ends with Handle stuck. */
  lemma StuckIsReachable() returns (cs: seq<Cluster>)
    ensures Run(cs) && Stuck(cs[|cs| - 1], 1, 7)
  {
    hide Run;
    hide Next;
    cs := Start();
    var c2 := Alone([], Calling([Out(0, ASK)], Handling([])), Before(AtSender(1)));
    FirstRecv(cs[|cs| - 1], c2);
    cs := Extend(cs, 1, c2);
    PlaceMoved();
    cs := Deliver(cs, ASK, 0, Before(AtSender(1)), Before(AtReceiver(1)));
    var c7 := Alone([], Calling([Out(1, TELL)], Handling([])), After(AtSender(1)));
    Executed(cs[|cs| - 1], c7);
    cs := Extend(cs, 1, c7);
    cs := Deliver(cs, TELL, 1, After(AtSender(1)), After(AtReceiver(1)));
    var c12 := Alone([], Local({}, [], HandingOver(7, 9, []), map[7 := Waiting]), After(Handed(1)));
    Offered(cs[|cs| - 1], c12);
    cs := Extend(cs, 1, c12);
    var c13 := Alone([], Local({}, [], HandingOver(7, 9, []), map[]), After(Handed(1)));
    TimedOut(c12, c13);
    cs := Extend(cs, 1, c13);
  }

  lemma PlaceMoved()
    ensures Before(AtSender(1)).place[Key(true, 7) := AtReceiver(1)] == Before(AtReceiver(1)).place
    ensures After(AtSender(1)).place[Key(false, 7) := AtReceiver(1)] == After(AtReceiver(1)).place
  {
  }
}
