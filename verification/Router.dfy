/**
 * The routing loop of main.cpp: packets from the network and from the servers' rings go to the
 * incoming queue of every local subscriber.
 */
module Routers {
  import opened Prelude
  import opened TimeBuffers
  import opened FreeQueues
  import opened Networks
  import opened ReadFilter
  import opened Servers

  /** A delivered packet and the local server whose ring it came from; None: from the network. */
  datatype Item = Item(from: Option<nat>, packet: Packet)

  /**
   * `outQs[i]` is server i's ring, `inQs[s]` all that was ever pushed to server s; `accepted[i]` is
   * all that server i's ring ever accepted.
   */
  datatype Routing = Routing(outQs: seq<seq<Packet>>, inQs: seq<seq<Item>>, accepted: seq<seq<Packet>>)

  ghost predicate InRange(targets: seq<nat>, n: nat) {
    forall i | 0 <= i < |targets| :: targets[i] < n
  }

  ghost predicate TargetsOk(index: Index, n: nat) {
    forall remote :: InRange(Targets(index, remote), n)
  }

  function PushAll(inQs: seq<seq<Item>>, targets: seq<nat>, item: Item): (r: seq<seq<Item>>)
    requires InRange(targets, |inQs|)
    ensures |r| == |inQs|
    decreases |targets|
  {
    if targets == [] then inQs
    else
      var rest := PushAll(inQs, targets[..|targets| - 1], item);
      var s := targets[|targets| - 1];
      rest[s := rest[s] + [item]]
  }

  /** One source of the inner loop: pop at most one packet, hand it to every target. */
  function RouteOne(r: Routing, index: Index, src: nat): Routing
    requires src < |r.outQs| && TargetsOk(index, |r.inQs|)
  {
    if r.outQs[src] == [] then r
    else
      var data := r.outQs[src][0];
      r.(outQs := r.outQs[src := r.outQs[src][1..]],
         inQs := PushAll(r.inQs, Targets(index, data.srcId), Item(Some(src), data)))
  }

  function RouteUpTo(r: Routing, index: Index, n: nat): (q: Routing)
    requires n <= |r.outQs| && TargetsOk(index, |r.inQs|)
    ensures |q.outQs| == |r.outQs| && |q.inQs| == |r.inQs|
  {
    if n == 0 then r else RouteOne(RouteUpTo(r, index, n - 1), index, n - 1)
  }

  function Arrive(r: Routing, index: Index, p: Packet): Routing
    requires TargetsOk(index, |r.inQs|)
  {
    r.(inQs := PushAll(r.inQs, Targets(index, p.srcId), Item(None, p)))
  }

  class Router {
    const network: Network
    var subscribers: Index
    var outQs: seq<seq<Packet>>
    var inQs: seq<seq<Item>>
    ghost var accepted: seq<seq<Packet>>

    ghost function View(): Routing
      reads this
    {
      Routing(outQs, inQs, accepted)
    }

    ghost predicate Valid()
      reads this, network
    {
      && |outQs| == |inQs| == |network.servers|
      && ListsOk(network.subscriptions)
      && TargetsOk(subscribers, |inQs|)
    }

    constructor (network: Network)
      requires ListsOk(network.subscriptions)
      ensures Valid() && this.network == network && subscribers == map[]
      ensures View() == Routing(seq(|network.servers|, _ => []), seq(|network.servers|, _ => []),
                                seq(|network.servers|, _ => []))
    {
      this.network, subscribers := network, map[];
      outQs := seq(|network.servers|, _ => []);
      inQs := seq(|network.servers|, _ => []);
      accepted := seq(|network.servers|, _ => []);
    }

    /** Pushes `item` to each of `targets`. */
    method Hand(targets: seq<nat>, item: Item)
      requires InRange(targets, |inQs|)
      modifies this`inQs
      ensures inQs == PushAll(old(inQs), targets, item)
    {
      for k := 0 to |targets|
        invariant inQs == PushAll(old(inQs), targets[..k], item)
      {
        assert targets[..k + 1][..k] == targets[..k];
        var s := targets[k];
        inQs := inQs[s := inQs[s] + [item]];
      }
      assert targets[..|targets|] == targets;
    }

    /** The inner loop over the servers' rings. */
    method RouteLocal()
      requires |outQs| == |inQs| && TargetsOk(subscribers, |inQs|)
      modifies this`inQs, this`outQs
      ensures View() == RouteUpTo(old(View()), subscribers, |old(outQs)|)
    {
      ghost var start := View();
      for src := 0 to |outQs|
        invariant |outQs| == |start.outQs| && |inQs| == |start.inQs|
        invariant View() == RouteUpTo(start, subscribers, src)
      {
        if outQs[src] != [] {
          var data := outQs[src][0];
          outQs := outQs[src := outQs[src][1..]];
          Hand(Targets(subscribers, data.srcId), Item(Some(src), data));
        }
      }
    }

    /** One read from the network: what the filter lets through goes to its subscribers. */
    method Listen(bb: TimeBuffer, ret: int, now: Time, delta: int)
      requires bb.Valid() && TargetsOk(subscribers, |inQs|)
      modifies this`inQs, network`sequences, bb`time
      ensures bb.Valid()
      ensures var (sequences, size) := Verify(old(network.sequences), Heard(ret, old(bb.View()), now, delta));
              && network.sequences == sequences
              && View() == if size > 0 then Arrive(old(View()), subscribers, bb.View()) else old(View())
    {
      var size := network.ReadVerify(bb, ret, now, delta);
      if size > 0 {
        var packet := bb.Snapshot();
        Hand(Targets(subscribers, packet.srcId), Item(None, packet));
      }
    }

    /** The i-th turn of the endless loop; `ret` and `bb` are what the socket delivers. */
    method Turn(i: nat, bb: TimeBuffer, ret: int, now: Time, delta: int)
      requires Valid() && bb.Valid()
      modifies this`subscribers, this`inQs, this`outQs, network`dirty, network`sequences, bb`time
      ensures Valid() && bb.Valid()
      ensures if i % 1000 == 0 && old(network.dirty)
              then IsInverse(subscribers, network.subscriptions, network.servers)
              else subscribers == old(subscribers)
      ensures var (sequences, size) := Verify(old(network.sequences), Heard(ret, old(bb.View()), now, delta));
              && network.sequences == sequences
              && View() == RouteUpTo(if size > 0 then Arrive(old(View()), subscribers, bb.View()) else old(View()),
                                     subscribers, |old(outQs)|)
    {
      if i % 1000 == 0 {
        subscribers := network.GetSubscriptions(subscribers);
        InverseInRange(subscribers, network.subscriptions, network.servers);
      }
      Listen(bb, ret, now, delta);
      RouteLocal();
    }
  }

  lemma InverseInRange(index: Index, subs: Subscriptions, ids: seq<ClusterID>)
    ensures IsInverse(index, subs, ids) ==> TargetsOk(index, |ids|)
  {
    if IsInverse(index, subs, ids) {
      forall remote ensures InRange(Targets(index, remote), |ids|) {
        assert InverseAt(Targets(index, remote), subs, ids, remote);
        assert forall i | 0 <= i < |Targets(index, remote)| :: Targets(index, remote)[i] in Targets(index, remote);
      }
    }
  }

  /** A packet let through reaches each subscriber of its source, at the end of its queue, and nobody else. */
  lemma ArriveMeans(r: Routing, index: Index, subs: Subscriptions, ids: seq<ClusterID>, packet: Packet, s: nat)
    requires |r.outQs| == |r.inQs| == |ids| && IsInverse(index, subs, ids) && TargetsOk(index, |ids|) && s < |ids|
    ensures var n := Arrive(r, index, packet);
            && n.outQs == r.outQs && n.accepted == r.accepted
            && n.inQs[s] == r.inQs[s] + if Subscribed(subs, ids[s], packet.srcId) then [Item(None, packet)] else []
  {
    assert InverseAt(Targets(index, packet.srcId), subs, ids, packet.srcId);
    PushAllAt(r.inQs, Targets(index, packet.srcId), Item(None, packet), s);
  }

  /**
   * A visit to a ring that holds something takes its head, and only that, to each subscriber of its
   * source, at the end of its queue, and to nobody else; a visit to an empty ring does nothing.
   */
  lemma VisitMeans(r: Routing, index: Index, subs: Subscriptions, ids: seq<ClusterID>, src: nat, s: nat)
    requires |r.outQs| == |r.inQs| == |ids| && IsInverse(index, subs, ids) && TargetsOk(index, |ids|)
    requires src < |ids| && s < |ids|
    ensures var n := RouteOne(r, index, src);
            && n.accepted == r.accepted
            && (forall other | 0 <= other < |ids| && other != src :: n.outQs[other] == r.outQs[other])
            && if r.outQs[src] == [] then n == r
               else
                 var data := r.outQs[src][0];
                 && r.outQs[src] == [data] + n.outQs[src]
                 && n.inQs[s] == r.inQs[s] +
                      if Subscribed(subs, ids[s], data.srcId) then [Item(Some(src), data)] else []
  {
    if r.outQs[src] != [] {
      var data := r.outQs[src][0];
      assert InverseAt(Targets(index, data.srcId), subs, ids, data.srcId);
      PushAllAt(r.inQs, Targets(index, data.srcId), Item(Some(src), data), s);
    }
  }

  // ----- every interleaving of the loop with the servers -----

  datatype Act =
    | Flush(src: nat, packet: Packet)  // server src's outQ.push
    | Route(src: nat)                  // the loop's visit to server src
    | Receive(packet: Packet)          // a packet that readVerify let through

  /** `ids` are the servers' IDs; a server stamps its own on what it flushes. Anything else is skipped. */
  function Step(r: Routing, index: Index, ids: seq<ClusterID>, a: Act): Routing
    requires |r.outQs| == |r.inQs| == |r.accepted| == |ids| && TargetsOk(index, |ids|)
  {
    match a
    case Flush(src, packet) =>
      if src < |ids| && packet.srcId == ids[src] && |r.outQs[src]| < MAX_MSG_Q_SIZE - 1 then
        r.(outQs := r.outQs[src := Offer(r.outQs[src], packet, MAX_MSG_Q_SIZE)],
           accepted := r.accepted[src := r.accepted[src] + [packet]])
      else r
    case Route(src) => if src < |ids| then RouteOne(r, index, src) else r
    case Receive(packet) => Arrive(r, index, packet)
  }

  function Run(ids: seq<ClusterID>, index: Index, acts: seq<Act>): (r: Routing)
    requires TargetsOk(index, |ids|)
    ensures |r.outQs| == |r.inQs| == |r.accepted| == |ids|
  {
    if acts == [] then
      Routing(seq(|ids|, _ => []), seq(|ids|, _ => []), seq(|ids|, _ => []))
    else Step(Run(ids, index, acts[..|acts| - 1]), index, ids, acts[|acts| - 1])
  }

  function Visits(n: nat): seq<Act> {
    if n == 0 then [] else Visits(n - 1) + [Act.Route(n - 1)]
  }

  /** One visit to every server, in turn. */
  lemma {:induction false} VisitsEachOnce(n: nat)
    ensures |Visits(n)| == n && forall src | 0 <= src < n :: Visits(n)[src] == Act.Route(src)
  {
    if n > 0 {
      VisitsEachOnce(n - 1);
    }
  }

  lemma {:induction false} VisitsAreRouteUpTo(ids: seq<ClusterID>, index: Index, acts: seq<Act>, n: nat)
    requires TargetsOk(index, |ids|) && n <= |ids|
    ensures Run(ids, index, acts + Visits(n)) == RouteUpTo(Run(ids, index, acts), index, n)
  {
    if n == 0 {
      assert acts + Visits(0) == acts;
    } else {
      VisitsAreRouteUpTo(ids, index, acts, n - 1);
      assert (acts + Visits(n))[..|acts + Visits(n)| - 1] == acts + Visits(n - 1);
    }
  }

  /**
   * A turn of the loop, as `Router.Turn` states it, is a stretch of a run: the packet from the network
   * if one was let through, then a visit to every server in turn.
   */
  lemma TurnIsRun(ids: seq<ClusterID>, index: Index, acts: seq<Act>, received: Option<Packet>)
    requires TargetsOk(index, |ids|)
    ensures var r := Run(ids, index, acts);
            var arrival := match received case Some(p) => [Receive(p)] case None => [];
            Run(ids, index, acts + arrival + Visits(|ids|))
            == RouteUpTo(match received case Some(p) => Arrive(r, index, p) case None => r, index, |ids|)
  {
    match received
    case Some(p) =>
      assert (acts + [Receive(p)])[..|acts|] == acts;
      VisitsAreRouteUpTo(ids, index, acts + [Receive(p)], |ids|);
    case None =>
      assert acts + [] == acts;
      VisitsAreRouteUpTo(ids, index, acts, |ids|);
  }

  /** A flush is accepted exactly while the ring holds fewer than 255 packets, and goes to its end. */
  lemma FlushMeans(r: Routing, index: Index, ids: seq<ClusterID>, src: nat, packet: Packet, other: nat)
    requires |r.outQs| == |r.inQs| == |r.accepted| == |ids| && TargetsOk(index, |ids|)
    requires src < |ids| && other < |ids| && packet.srcId == ids[src]
    ensures var n := Step(r, index, ids, Flush(src, packet));
            var more := if other == src && |r.outQs[src]| < 255 then [packet] else [];
            && n.outQs[other] == r.outQs[other] + more && n.accepted[other] == r.accepted[other] + more
            && n.inQs == r.inQs
  {
    assert r.outQs[other] + [] == r.outQs[other] && r.accepted[other] + [] == r.accepted[other];
  }

  /** What came from the network. */
  function FromNet(items: seq<Item>): seq<Packet> {
    if items == [] then []
    else
      var last := items[|items| - 1];
      FromNet(items[..|items| - 1]) + if last.from == None then [last.packet] else []
  }

  /** The received packets, in order, whose source the cluster `local` subscribes to. */
  function ReceivedFor(acts: seq<Act>, subs: Subscriptions, local: ClusterID): seq<Packet> {
    if acts == [] then []
    else
      var a := acts[|acts| - 1];
      ReceivedFor(acts[..|acts| - 1], subs, local)
      + if a.Receive? && Subscribed(subs, local, a.packet.srcId) then [a.packet] else []
  }

  lemma FromNetSnoc(items: seq<Item>, item: Item)
    ensures FromNet(items + [item]) == FromNet(items) + if item.from == None then [item.packet] else []
  {
    SplitConcat(items, [item]);
    assert (items + [item])[|items|] == item;
  }

  /**
   * In every interleaving each server has got from the network exactly what it subscribes to, in order
   * and once each.
   */
  lemma {:induction false} ReceivedInOrderOnce(ids: seq<ClusterID>, index: Index, subs: Subscriptions, acts: seq<Act>,
                                               s: nat)
    requires IsInverse(index, subs, ids) && TargetsOk(index, |ids|) && s < |ids|
    ensures FromNet(Run(ids, index, acts).inQs[s]) == ReceivedFor(acts, subs, ids[s])
  {
    if acts != [] {
      var before, a := acts[..|acts| - 1], acts[|acts| - 1];
      ReceivedInOrderOnce(ids, index, subs, before, s);
      StepReceives(Run(ids, index, before), index, subs, ids, a, s);
    }
  }

  lemma StepReceives(r: Routing, index: Index, subs: Subscriptions, ids: seq<ClusterID>, a: Act, s: nat)
    requires |r.outQs| == |r.inQs| == |r.accepted| == |ids| && TargetsOk(index, |ids|)
    requires IsInverse(index, subs, ids) && s < |ids|
    ensures FromNet(Step(r, index, ids, a).inQs[s]) == FromNet(r.inQs[s]) +
              if a.Receive? && Subscribed(subs, ids[s], a.packet.srcId) then [a.packet] else []
  {
    var got := r.inQs[s];
    assert got + [] == got && FromNet(got) + [] == FromNet(got);
    match a
    case Flush(_, _) =>
    case Receive(packet) =>
      ArriveMeans(r, index, subs, ids, packet, s);
      FromNetSnoc(got, Item(None, packet));
    case Route(src) =>
      if src < |ids| && r.outQs[src] != [] {
        VisitMeans(r, index, subs, ids, src, s);
        FromNetSnoc(got, Item(Some(src), r.outQs[src][0]));
      }
  }

  /** What was delivered from the ring of local server `src`. */
  function From(items: seq<Item>, src: nat): seq<Packet> {
    if items == [] then []
    else
      var last := items[|items| - 1];
      From(items[..|items| - 1], src) + if last.from == Some(src) then [last.packet] else []
  }

  lemma {:induction false} PushAllAt(inQs: seq<seq<Item>>, targets: seq<nat>, item: Item, s: nat)
    requires InRange(targets, |inQs|)
    requires NoDuplicates(targets) && s < |inQs|
    ensures PushAll(inQs, targets, item)[s] == if s in targets then inQs[s] + [item] else inQs[s]
    decreases |targets|
  {
    if targets != [] {
      var n := |targets| - 1;
      PushAllAt(inQs, targets[..n], item, s);
      assert targets == targets[..n] + [targets[n]];
      assert targets[n] !in targets[..n];
    }
  }

  /** For subscriber s and source src: delivered, then queued, is what the ring accepted. */
  ghost predicate InOrderOnce(r: Routing, subs: Subscriptions, ids: seq<ClusterID>, s: nat, src: nat)
    requires |r.outQs| == |r.inQs| == |r.accepted| == |ids| && s < |ids| && src < |ids|
  {
    if Subscribed(subs, ids[s], ids[src])
    then From(r.inQs[s], src) + r.outQs[src] == r.accepted[src]
    else From(r.inQs[s], src) == []
  }

  /** A ring holds fewer than its size, and only packets of its own server. */
  ghost predicate QueueOk(r: Routing, ids: seq<ClusterID>, src: nat)
    requires |r.outQs| == |ids| && src < |ids|
  {
    |r.outQs[src]| < MAX_MSG_Q_SIZE && forall i | 0 <= i < |r.outQs[src]| :: r.outQs[src][i].srcId == ids[src]
  }

  lemma DeliveryKeeps(inQs: seq<seq<Item>>, index: Index, subs: Subscriptions, ids: seq<ClusterID>,
                      item: Item, s: nat, src: nat)
    requires |inQs| == |ids| && IsInverse(index, subs, ids) && TargetsOk(index, |ids|) && s < |ids|
    ensures From(PushAll(inQs, Targets(index, item.packet.srcId), item)[s], src)
         == From(inQs[s], src) + if item.from == Some(src) && Subscribed(subs, ids[s], item.packet.srcId)
                                 then [item.packet] else []
  {
    var targets := Targets(index, item.packet.srcId);
    assert InverseAt(targets, subs, ids, item.packet.srcId);
    PushAllAt(inQs, targets, item, s);
    assert (inQs[s] + [item])[..|inQs[s]|] == inQs[s];
  }

  lemma RouteKeepsOrder(r: Routing, index: Index, subs: Subscriptions, ids: seq<ClusterID>, from: nat, s: nat, src: nat)
    requires |r.outQs| == |r.inQs| == |r.accepted| == |ids| && TargetsOk(index, |ids|)
    requires IsInverse(index, subs, ids) && s < |ids| && src < |ids| && from < |ids|
    requires InOrderOnce(r, subs, ids, s, src)
    requires r.outQs[from] != [] ==> r.outQs[from][0].srcId == ids[from]
    ensures InOrderOnce(RouteOne(r, index, from), subs, ids, s, src)
  {
    if r.outQs[from] != [] {
      var data, n := r.outQs[from][0], RouteOne(r, index, from);
      DeliveryKeeps(r.inQs, index, subs, ids, Item(Some(from), data), s, src);
      assert n.accepted == r.accepted;
      if from == src {
        assert n.outQs[src] == r.outQs[src][1..];
        HeadMoves(From(r.inQs[s], src), r.outQs[src]);
      } else {
        assert n.outQs[src] == r.outQs[src] && From(n.inQs[s], src) == From(r.inQs[s], src);
      }
    }
  }

  lemma HeadMoves<T>(done: seq<T>, queued: seq<T>)
    requires queued != []
    ensures (done + [queued[0]]) + queued[1..] == done + queued
  {
  }

  lemma FlushKeepsOrder(r: Routing, index: Index, subs: Subscriptions, ids: seq<ClusterID>, from: nat, packet: Packet,
                        s: nat, src: nat)
    requires |r.outQs| == |r.inQs| == |r.accepted| == |ids| && TargetsOk(index, |ids|)
    requires s < |ids| && src < |ids| && InOrderOnce(r, subs, ids, s, src)
    ensures InOrderOnce(Step(r, index, ids, Flush(from, packet)), subs, ids, s, src)
  {
    Assoc(From(r.inQs[s], src), r.outQs[src], [packet]);
  }

  lemma StepKeepsOrder(r: Routing, index: Index, subs: Subscriptions, ids: seq<ClusterID>, a: Act, s: nat, src: nat)
    requires |r.outQs| == |r.inQs| == |r.accepted| == |ids| && TargetsOk(index, |ids|)
    requires IsInverse(index, subs, ids) && s < |ids| && src < |ids|
    requires InOrderOnce(r, subs, ids, s, src)
    requires a.Route? && a.src < |ids| && r.outQs[a.src] != [] ==> r.outQs[a.src][0].srcId == ids[a.src]
    ensures InOrderOnce(Step(r, index, ids, a), subs, ids, s, src)
  {
    match a
    case Flush(from, packet) =>
      FlushKeepsOrder(r, index, subs, ids, from, packet, s, src);
    case Receive(packet) =>
      DeliveryKeeps(r.inQs, index, subs, ids, Item(None, packet), s, src);
    case Route(from) =>
      if from < |ids| {
        RouteKeepsOrder(r, index, subs, ids, from, s, src);
      }
  }

  /**
   * With fixed routing, in every interleaving: what a ring accepted is, for each local subscriber of
   * its server, exactly what that subscriber got from it, in order and once each, followed by what
   * is still queued; other servers got nothing from it.
   */
  lemma {:induction false} DeliveredInOrderOnce(ids: seq<ClusterID>, index: Index, subs: Subscriptions, acts: seq<Act>)
    requires IsInverse(index, subs, ids) && TargetsOk(index, |ids|)
    ensures forall src | 0 <= src < |ids| :: QueueOk(Run(ids, index, acts), ids, src)
    ensures forall s, src | 0 <= s < |ids| && 0 <= src < |ids| ::
              InOrderOnce(Run(ids, index, acts), subs, ids, s, src)
  {
    if acts != [] {
      var before, a := acts[..|acts| - 1], acts[|acts| - 1];
      DeliveredInOrderOnce(ids, index, subs, before);
      var r := Run(ids, index, before);
      forall src | 0 <= src < |ids| ensures QueueOk(Step(r, index, ids, a), ids, src) {
        assert QueueOk(r, ids, src);
      }
      forall s, src | 0 <= s < |ids| && 0 <= src < |ids|
        ensures InOrderOnce(Step(r, index, ids, a), subs, ids, s, src)
      {
        if a.Route? && a.src < |ids| {
          assert QueueOk(r, ids, a.src);
        }
        StepKeepsOrder(r, index, subs, ids, a, s, src);
      }
    }
  }
}
