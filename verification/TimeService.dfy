// Time masters on one bus: every node counts the seconds since it heard a better one and takes over
// after a while.
module TimeService {
  import opened Words

  datatype Node = Node(level: uint8, takeover: uint8, interval: uint8, received: uint8, sent: uint8)

  // One second of a node, and whether it sends its time.
  function Second(n: Node): (Node, bool) {
    var received := if n.received < 255 then n.received + 1 else n.received;
    if received >= n.takeover then
      if n.sent == n.interval then (n.(received := received, sent := 0), true)
      else (n.(received := received, sent := (n.sent + 1) % 0x100), false)
    else (n.(received := received), false)
  }

  // A time frame of some level is heard.
  function Hear(n: Node, level: uint8): Node {
    if level < n.level then n.(received := 0) else n
  }

  class Service {
    const level: uint8
    const takeover: uint8
    const interval: uint8
    var lastReceived: uint8
    var lastSent: uint8

    constructor (level: uint8, takeover: uint8, interval: uint8)
      ensures Snapshot() == Node(level, takeover, interval, 0, 0)
    {
      this.level, this.takeover, this.interval := level, takeover, interval;
      lastReceived, lastSent := 0, 0;
    }

    ghost function Snapshot(): Node
      reads this
    {
      Node(level, takeover, interval, lastReceived, lastSent)
    }

    method TimerHandler() returns (send: bool)
      modifies this
      ensures (Snapshot(), send) == Second(old(Snapshot()))
    {
      send := false;
      if lastReceived < 255 {
        lastReceived := lastReceived + 1;
      }
      if lastReceived >= takeover {
        var due := lastSent == interval;
        lastSent := (lastSent + 1) % 0x100;
        if due {
          lastSent := 0;
          send := true;
        }
      }
    }

    method CanCallback(frameLevel: uint8)
      modifies this
      ensures Snapshot() == Hear(old(Snapshot()), frameLevel)
    {
      if frameLevel < level {
        lastReceived := 0;
      }
    }
  }

  // ---------- All nodes ----------

  function HearAll(ns: seq<Node>, level: uint8): (hs: seq<Node>)
    ensures |hs| == |ns|
    ensures forall i :: 0 <= i < |ns| ==> hs[i] == Hear(ns[i], level)
  {
    seq(|ns|, i requires 0 <= i < |ns| => Hear(ns[i], level))
  }

  // The second of node i; a frame it sends is heard by all at once.
  function Turn(ns: seq<Node>, i: nat): (seq<Node>, bool)
    requires i < |ns|
  {
    var (n, send) := Second(ns[i]);
    var ticked := ns[i := n];
    (if send then HearAll(ticked, n.level) else ticked, send)
  }

  ghost predicate Order(order: seq<nat>, size: nat) {
    && (forall i <- order :: i < size)
    && (forall j, k :: 0 <= j < k < |order| ==> order[j] != order[k])
  }

  // The nodes take their turns in some order; the senders, in that order.
  function Round(ns: seq<Node>, order: seq<nat>): (r: (seq<Node>, seq<nat>))
    requires forall i <- order :: i < |ns|
    ensures |r.0| == |ns|
    decreases |order|
  {
    if order == [] then (ns, [])
    else
      assert order[0] in order && forall i <- order[1..] :: i in order;
      var (next, send) := Turn(ns, order[0]);
      var (last, senders) := Round(next, order[1..]);
      (last, (if send then [order[0]] else []) + senders)
  }

  // One order a second, each a permutation of the nodes.
  ghost predicate Schedule(orders: seq<seq<nat>>, size: nat) {
    forall order <- orders :: Order(order, size) && forall i :: 0 <= i < size ==> i in order
  }

  // The senders of each second.
  ghost function Senders(ns: seq<Node>, orders: seq<seq<nat>>): (ss: seq<seq<nat>>)
    requires Schedule(orders, |ns|)
    ensures |ss| == |orders|
    decreases |orders|
  {
    if orders == [] then []
    else
      assert orders[0] in orders;
      [Round(ns, orders[0]).1] + Senders(Round(ns, orders[0]).0, orders[1..])
  }

  function Concat(ss: seq<seq<nat>>): seq<nat> {
    if ss == [] then [] else ss[0] + Concat(ss[1..])
  }

  // ---------- The best node ----------

  // Node m has the lowest level of all.
  ghost predicate Best(ns: seq<Node>, m: nat) {
    m < |ns| && forall i :: 0 <= i < |ns| && i != m ==> ns[m].level < ns[i].level
  }

  predicate SameConfig(n: Node, p: Node) {
    n.level == p.level && n.takeover == p.takeover && n.interval == p.interval
  }

  lemma TurnKeepsConfig(ns: seq<Node>, i: nat, m: nat)
    requires i < |ns| && Best(ns, m)
    ensures var next := Turn(ns, i).0;
            && |next| == |ns| && Best(next, m)
            && (forall k :: 0 <= k < |ns| ==> SameConfig(next[k], ns[k]))
            && next[m] == (if i == m then Second(ns[m]).0 else ns[m])
  {
  }

  lemma OrderTail(order: seq<nat>, size: nat)
    requires Order(order, size) && order != []
    ensures order[0] < size && Order(order[1..], size) && order[0] !in order[1..]
    ensures forall i :: i in order <==> i == order[0] || i in order[1..]
  {
    assert order == [order[0]] + order[1..];
    assert order[0] in order;
    forall i <- order[1..] ensures i < size {
      assert i in order;
    }
  }

  // In a round the best node has its own second and nothing else happens to it.
  lemma {:induction false} RoundOfBest(ns: seq<Node>, order: seq<nat>, m: nat)
    requires Best(ns, m) && Order(order, |ns|)
    ensures var (last, senders) := Round(ns, order);
            && Best(last, m)
            && (forall k :: 0 <= k < |ns| ==> SameConfig(last[k], ns[k]))
            && last[m] == (if m in order then Second(ns[m]).0 else ns[m])
            && (m in senders <==> m in order && Second(ns[m]).1)
    decreases |order|
  {
    if order != [] {
      OrderTail(order, |ns|);
      TurnKeepsConfig(ns, order[0], m);
      RoundOfBest(Turn(ns, order[0]).0, order[1..], m);
    }
  }

  // ---------- When the best node sends ----------

  // The number of seconds after which a node that hears no better one sends next.
  function Due(n: Node): int {
    (if n.takeover > n.received then n.takeover - n.received else 1) + (n.interval - n.sent)
  }

  lemma SecondDue(n: Node)
    requires n.sent <= n.interval
    ensures var (p, send) := Second(n);
            && p.sent <= p.interval && SameConfig(p, n)
            && (send <==> Due(n) == 1)
            && Due(p) == (if send then n.interval + 1 else Due(n) - 1)
            && (send ==> p.received >= p.takeover)
  {
  }

  // A node that sends next in second d (from 1) and then every interval + 1 seconds sends in second k + 1.
  predicate SendsAt(d: nat, interval: nat, k: nat) {
    k + 1 == d || (k + 1 > d && k > interval && SendsAt(d, interval, k - interval - 1))
  }

  lemma {:induction false} SendsAtNext(d: nat, interval: nat, k: nat)
    requires d >= 1 && k >= 1
    ensures SendsAt(d, interval, k) <==> SendsAt(if d == 1 then interval + 1 else d - 1, interval, k - 1)
  {
    if k > interval + 1 {
      SendsAtNext(d, interval, k - interval - 1);
    }
  }

  lemma BestRound(ns: seq<Node>, order: seq<nat>, m: nat) returns (next: seq<Node>, d: nat, d': nat)
    requires Best(ns, m) && Order(order, |ns|) && m in order && ns[m].sent <= ns[m].interval
    ensures next == Round(ns, order).0 && |next| == |ns| && Best(next, m)
    ensures next[m].interval == ns[m].interval && next[m].sent <= next[m].interval
    ensures d == Due(ns[m]) >= 1 && d' == Due(next[m]) == if d == 1 then ns[m].interval + 1 else d - 1
    ensures m in Round(ns, order).1 <==> d == 1
  {
    RoundOfBest(ns, order, m);
    SecondDue(ns[m]);
    next := Round(ns, order).0;
    d, d' := Due(ns[m]), Due(next[m]);
  }

  lemma SendersLater(ns: seq<Node>, orders: seq<seq<nat>>, k: nat)
    requires Schedule(orders, |ns|) && k < |orders|
    ensures Order(orders[0], |ns|) && Schedule(orders[1..], |ns|)
    ensures Senders(ns, orders)[k] ==
            if k == 0 then Round(ns, orders[0]).1 else Senders(Round(ns, orders[0]).0, orders[1..])[k - 1]
  {
    assert orders[0] in orders;
    assert forall order <- orders[1..] :: order in orders;
  }

  lemma {:induction false} BestSendsIn(ns: seq<Node>, orders: seq<seq<nat>>, m: nat, k: nat)
    requires Best(ns, m) && Schedule(orders, |ns|) && ns[m].sent <= ns[m].interval && k < |orders|
    ensures m in Senders(ns, orders)[k] <==> SendsAt(Due(ns[m]), ns[m].interval, k)
    decreases k
  {
    SendersLater(ns, orders, k);
    assert orders[0] in orders;
    var next, d, d' := BestRound(ns, orders[0], m);
    if k > 0 {
      BestSendsIn(next, orders[1..], m, k - 1);
      SendsAtNext(d, ns[m].interval, k);
    }
  }

  lemma BestSends(ns: seq<Node>, orders: seq<seq<nat>>, m: nat)
    requires Best(ns, m) && Schedule(orders, |ns|) && ns[m].sent <= ns[m].interval
    ensures forall k :: 0 <= k < |orders| ==>
              (m in Senders(ns, orders)[k] <==> SendsAt(Due(ns[m]), ns[m].interval, k))
  {
    forall k | 0 <= k < |orders|
      ensures m in Senders(ns, orders)[k] <==> SendsAt(Due(ns[m]), ns[m].interval, k)
    {
      BestSendsIn(ns, orders, m, k);
    }
  }

  // The best node sends within takeover + interval + 1 seconds, and again every interval + 1 seconds.
  lemma BestTakesOver(ns: seq<Node>, orders: seq<seq<nat>>, m: nat)
    requires Best(ns, m) && Schedule(orders, |ns|) && ns[m].sent <= ns[m].interval
    requires |orders| >= ns[m].takeover + ns[m].interval + 1
    ensures 1 <= Due(ns[m]) <= ns[m].takeover + ns[m].interval + 1
    ensures m in Senders(ns, orders)[Due(ns[m]) - 1]
    ensures forall k :: 0 <= k < Due(ns[m]) - 1 ==> m !in Senders(ns, orders)[k]
    ensures forall k :: 0 <= k < |orders| - ns[m].interval - 1 && m in Senders(ns, orders)[k] ==>
              m in Senders(ns, orders)[k + ns[m].interval + 1]
  {
    BestSends(ns, orders, m);
  }

  // ---------- Nobody else sends any more ----------

  // Every other node has heard a frame at most b seconds ago.
  ghost predicate HeardWithin(ns: seq<Node>, m: nat, b: nat) {
    forall i :: 0 <= i < |ns| && i != m ==> ns[i].received <= b
  }

  // In the middle of a second: nodes still to have their turn may be one second behind.
  ghost predicate HeardInTurn(ns: seq<Node>, m: nat, order: seq<nat>, b: nat) {
    forall i :: 0 <= i < |ns| && i != m ==> ns[i].received <= if i in order then b else b + 1
  }

  ghost predicate Patient(ns: seq<Node>, m: nat, b: nat) {
    forall i :: 0 <= i < |ns| && i != m ==> ns[i].takeover > b
  }

  lemma {:induction false} QuietRound(ns: seq<Node>, order: seq<nat>, m: nat, b: nat)
    requires Best(ns, m) && Order(order, |ns|)
    requires HeardInTurn(ns, m, order, b) && Patient(ns, m, b + 1)
    ensures var (last, senders) := Round(ns, order);
            && (forall i <- senders :: i == m)
            && HeardWithin(last, m, b + 1)
            && (m in order && Second(ns[m]).1 ==> HeardWithin(last, m, 1))
    decreases |order|
  {
    if order != [] {
      OrderTail(order, |ns|);
      var i, rest := order[0], order[1..];
      var (next, send) := Turn(ns, i);
      TurnKeepsConfig(ns, i, m);
      if send {
        assert i == m;
        QuietRound(next, rest, m, 0);
      } else {
        QuietRound(next, rest, m, b);
      }
    }
  }

  // After the first frame of m there are only frames of m.
  ghost predicate OnlyAfter(senders: seq<nat>, m: nat) {
    forall j, k :: 0 <= j < k < |senders| && senders[j] == m ==> senders[k] == m
  }

  lemma OnlyOne(senders: seq<nat>, m: nat)
    requires forall i <- senders :: i == m
    ensures OnlyAfter(senders, m)
  {
    forall k | 0 <= k < |senders| ensures senders[k] == m {
      assert senders[k] in senders;
    }
  }

  lemma OnlyAfterConcat(a: seq<nat>, b: seq<nat>, m: nat)
    requires OnlyAfter(a, m) && OnlyAfter(b, m) && (m in a ==> forall i <- b :: i == m)
    ensures OnlyAfter(a + b, m)
  {
    forall j, k | 0 <= j < k < |a + b| && (a + b)[j] == m ensures (a + b)[k] == m {
      if j < |a| <= k {
        assert a[j] in a && b[k - |a|] in b;
      }
    }
  }

  // The round with the first frame of m.
  lemma {:induction false} FirstFrame(ns: seq<Node>, order: seq<nat>, m: nat)
    requires Best(ns, m) && Order(order, |ns|) && m in order && Second(ns[m]).1 && Patient(ns, m, 1)
    ensures var (last, senders) := Round(ns, order);
            HeardWithin(last, m, 1) && OnlyAfter(senders, m)
    decreases |order|
  {
    OrderTail(order, |ns|);
    var i, rest := order[0], order[1..];
    var (next, send) := Turn(ns, i);
    TurnKeepsConfig(ns, i, m);
    if i == m {
      QuietRound(next, rest, m, 0);
      OnlyOne(Round(next, rest).1, m);
    } else {
      FirstFrame(next, rest, m);
    }
    OnlyAfterConcat(if send then [i] else [], Round(next, rest).1, m);
  }

  lemma {:induction false} QuietRun(ns: seq<Node>, orders: seq<seq<nat>>, m: nat)
    requires Best(ns, m) && Schedule(orders, |ns|) && ns[m].sent <= ns[m].interval
    requires 1 <= Due(ns[m]) <= ns[m].interval + 1
    requires HeardWithin(ns, m, ns[m].interval + 2 - Due(ns[m])) && Patient(ns, m, ns[m].interval + 2)
    ensures forall i <- Concat(Senders(ns, orders)) :: i == m
    decreases |orders|
  {
    if orders != [] {
      assert orders[0] in orders;
      assert forall order <- orders[1..] :: order in orders;
      RoundOfBest(ns, orders[0], m);
      SecondDue(ns[m]);
      QuietRound(ns, orders[0], m, ns[m].interval + 2 - Due(ns[m]));
      QuietRun(Round(ns, orders[0]).0, orders[1..], m);
    }
  }

  // If every other node waits longer than the best node's interval and two more seconds, nobody else
  // sends after the first frame of the best node.
  lemma {:induction false} NobodyElse(ns: seq<Node>, orders: seq<seq<nat>>, m: nat)
    requires Best(ns, m) && Schedule(orders, |ns|) && ns[m].sent <= ns[m].interval
    requires Patient(ns, m, ns[m].interval + 2)
    ensures OnlyAfter(Concat(Senders(ns, orders)), m)
    decreases |orders|
  {
    if orders != [] {
      assert orders[0] in orders;
      assert forall order <- orders[1..] :: order in orders;
      RoundOfBest(ns, orders[0], m);
      SecondDue(ns[m]);
      var (next, senders) := Round(ns, orders[0]);
      if Second(ns[m]).1 {
        FirstFrame(ns, orders[0], m);
        QuietRun(next, orders[1..], m);
        OnlyOne(Concat(Senders(next, orders[1..])), m);
      } else {
        NobodyElse(next, orders[1..], m);
      }
      OnlyAfterConcat(senders, Concat(Senders(next, orders[1..])), m);
    }
  }
}
