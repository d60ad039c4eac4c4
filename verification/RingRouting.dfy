/**
 * The routing of main.cpp over the rings themselves: every atomic step of every server's `push` and of
 * the loop's `pop`, and every single hand-over to a subscriber, interleaved in any way.
 */
module RingRouting {
  import opened Prelude
  import opened TimeBuffers
  import opened Networks
  import F = FreeQueues
  import R = Routers

  /** What the loop has popped or received, and the servers it still has to hand it to. */
  datatype Hand = Empty | Holding(item: R.Item, targets: seq<nat>)

  /** `rings[i]` is server i's ring, `inQs[t]` all that was ever pushed to server t. */
  datatype State = State(rings: seq<F.Ring<Packet>>, inQs: seq<seq<R.Item>>, hand: Hand)

  datatype Act =
    | OnRing(src: nat, a: F.Action<Packet>)  // a step of server src, or of the loop at its ring
    | HandOn                                 // the loop's next push
    | Receive(packet: Packet)                // a packet that readVerify let through

  predicate ByLoop(a: F.Action<Packet>) {
    a.CallPop? || a.CheckEmpty? || a.ReadSlot? || a.StoreOut?
  }

  ghost predicate Shape(s: State, n: nat) {
    && |s.rings| == |s.inQs| == n
    && (forall src | 0 <= src < n :: F.IndicesOk(s.rings[src]))
    && (s.hand.Holding? ==> R.InRange(s.hand.targets, n))
  }

  /** The loop pops only with an empty hand; a server pushes what bears its ID. Anything else is skipped. */
  ghost function Step(s: State, index: Index, ids: seq<ClusterID>, act: Act): (n: State)
    requires Shape(s, |ids|) && R.TargetsOk(index, |ids|)
    ensures Shape(n, |ids|)
  {
    match act
    case OnRing(src, a) =>
      if src >= |ids| || (ByLoop(a) && s.hand.Holding?) || (a.CallPush? && a.v.srcId != ids[src]) then s
      else
        var ring := s.rings[src];
        s.(rings := s.rings[src := F.Step(ring, a)],
           hand := if a.StoreOut? && ring.popper.PopRead?
                   then Holding(R.Item(Some(src), ring.popper.got), Targets(index, ring.popper.got.srcId))
                   else s.hand)
    case HandOn =>
      if s.hand.Empty? then s
      else if s.hand.targets == [] then s.(hand := Empty)
      else
        var t := s.hand.targets[0];
        s.(inQs := s.inQs[t := s.inQs[t] + [s.hand.item]], hand := Holding(s.hand.item, s.hand.targets[1..]))
    case Receive(packet) =>
      if s.hand.Holding? then s
      else s.(hand := Holding(R.Item(None, packet), Targets(index, packet.srcId)))
  }

  /** The rings start empty, on whatever is in their memory. */
  function Initial(memory: seq<seq<Packet>>): State
    requires forall i | 0 <= i < |memory| :: memory[i] != []
  {
    State(seq(|memory|, i requires 0 <= i < |memory| => F.Initial(memory[i])), seq(|memory|, _ => []), Empty)
  }

  ghost function Run(memory: seq<seq<Packet>>, index: Index, ids: seq<ClusterID>, acts: seq<Act>): (s: State)
    requires |memory| == |ids| && R.TargetsOk(index, |ids|)
    requires forall i | 0 <= i < |memory| :: memory[i] != []
    ensures Shape(s, |ids|)
  {
    if acts == [] then Initial(memory)
    else Step(Run(memory, index, ids, acts[..|acts| - 1]), index, ids, acts[|acts| - 1])
  }

  // ----- what every interleaving keeps -----

  /** A ring holds only packets of its own server. */
  ghost predicate RingOk(ring: F.Ring<Packet>, id: ClusterID) {
    && F.Inv(ring)
    && (forall i | 0 <= i < |ring.pushed| :: ring.pushed[i].srcId == id)
    && (!ring.pusher.PushIdle? ==> ring.pusher.val.srcId == id)
  }

  ghost predicate HandOk(hand: Hand, index: Index, ids: seq<ClusterID>) {
    hand.Holding? ==>
      && NoDuplicates(hand.targets)
      && (hand.item.from.Some? ==> hand.item.from.value < |ids| && hand.item.packet.srcId == ids[hand.item.from.value])
  }

  /** What the loop holds from server `src` and has yet to hand to server `t`. */
  function InHand(hand: Hand, t: nat, src: nat): seq<Packet> {
    if hand.Holding? && hand.item.from == Some(src) && t in hand.targets then [hand.item.packet] else []
  }

  ghost predicate Delivered(s: State, subs: Subscriptions, ids: seq<ClusterID>, t: nat, src: nat)
    requires Shape(s, |ids|) && t < |ids| && src < |ids|
  {
    R.From(s.inQs[t], src) + InHand(s.hand, t, src)
    == if Subscribed(subs, ids[t], ids[src]) then s.rings[src].popped else []
  }

  ghost predicate AllDelivered(s: State, subs: Subscriptions, ids: seq<ClusterID>)
    requires Shape(s, |ids|)
  {
    forall t, src | 0 <= t < |ids| && 0 <= src < |ids| :: Delivered(s, subs, ids, t, src)
  }

  ghost predicate Inv(s: State, index: Index, subs: Subscriptions, ids: seq<ClusterID>) {
    && Shape(s, |ids|)
    && (forall src | 0 <= src < |ids| :: RingOk(s.rings[src], ids[src]))
    && HandOk(s.hand, index, ids)
    && AllDelivered(s, subs, ids)
  }

  lemma RingStepOk(ring: F.Ring<Packet>, id: ClusterID, a: F.Action<Packet>)
    requires RingOk(ring, id) && (a.CallPush? ==> a.v.srcId == id)
    ensures RingOk(F.Step(ring, a), id)
    ensures a.StoreOut? && ring.popper.PopRead? ==> ring.popper.got.srcId == id
    ensures F.Step(ring, a).popped ==
            if a.StoreOut? && ring.popper.PopRead? then ring.popped + [ring.popper.got] else ring.popped
  {
    F.StepKeepsInv(ring, a);
  }

  /** What is popped is in hand for exactly the subscribers of its server. */
  lemma PoppedInHand(packet: Packet, targets: seq<nat>, subs: Subscriptions, ids: seq<ClusterID>,
                     src: nat, t: nat, other: nat)
    requires src < |ids| && t < |ids| && InverseAt(targets, subs, ids, ids[src])
    ensures InHand(Holding(R.Item(Some(src), packet), targets), t, other) ==
              if other == src && Subscribed(subs, ids[t], ids[src]) then [packet] else []
  {
  }

  predicate Pops(ring: F.Ring<Packet>, a: F.Action<Packet>) {
    a.StoreOut? && ring.popper.PopRead?
  }

  /** What a step at a ring means to the deliveries: nothing, unless it pops. */
  lemma {:induction false} OnRingDelivers(s: State, n: State, targets: seq<nat>, subs: Subscriptions,
                                          ids: seq<ClusterID>, src: nat, a: F.Action<Packet>)
    requires Shape(s, |ids|) && Shape(n, |ids|) && AllDelivered(s, subs, ids)
    requires src < |ids| && InverseAt(targets, subs, ids, ids[src])
    requires n.inQs == s.inQs && forall i | 0 <= i < |ids| && i != src :: n.rings[i] == s.rings[i]
    requires if Pops(s.rings[src], a) then
               && s.hand.Empty?
               && n.rings[src].popped == s.rings[src].popped + [s.rings[src].popper.got]
               && n.hand == Holding(R.Item(Some(src), s.rings[src].popper.got), targets)
             else n.rings[src].popped == s.rings[src].popped && n.hand == s.hand
    ensures AllDelivered(n, subs, ids)
  {
    forall t, other | 0 <= t < |ids| && 0 <= other < |ids| ensures Delivered(n, subs, ids, t, other) {
      assert Delivered(s, subs, ids, t, other);
      if Pops(s.rings[src], a) {
        PoppedInHand(s.rings[src].popper.got, targets, subs, ids, src, t, other);
      }
    }
  }

  lemma {:induction false} OnRingKeepsInv(s: State, index: Index, subs: Subscriptions, ids: seq<ClusterID>,
                                          src: nat, a: F.Action<Packet>)
    requires Inv(s, index, subs, ids) && IsInverse(index, subs, ids) && R.TargetsOk(index, |ids|)
    requires src < |ids| && (ByLoop(a) ==> s.hand.Empty?) && (a.CallPush? ==> a.v.srcId == ids[src])
    ensures Inv(Step(s, index, ids, OnRing(src, a)), index, subs, ids)
  {
    var n, targets := Step(s, index, ids, OnRing(src, a)), Targets(index, ids[src]);
    RingStepOk(s.rings[src], ids[src], a);
    assert InverseAt(targets, subs, ids, ids[src]);
    OnRingDelivers(s, n, targets, subs, ids, src, a);
  }

  lemma {:induction false} FromSnoc(items: seq<R.Item>, item: R.Item, src: nat)
    ensures R.From(items + [item], src) == R.From(items, src) + if item.from == Some(src) then [item.packet] else []
  {
    assert (items + [item])[..|items|] == items;
  }

  /** A push to the first target moves the packet from the hand to that target, and to no other. */
  lemma {:induction false} PushMoves(items: seq<R.Item>, item: R.Item, targets: seq<nat>, t: nat, src: nat)
    requires targets != [] && NoDuplicates(targets)
    ensures R.From(if t == targets[0] then items + [item] else items, src) + InHand(Holding(item, targets[1..]), t, src)
         == R.From(items, src) + InHand(Holding(item, targets), t, src)
  {
    assert t in targets <==> t == targets[0] || t in targets[1..];
    if t == targets[0] {
      assert t !in targets[1..];
      FromSnoc(items, item, src);
    }
  }

  lemma {:induction false} HandOnDelivers(s: State, n: State, subs: Subscriptions, ids: seq<ClusterID>)
    requires Shape(s, |ids|) && Shape(n, |ids|) && AllDelivered(s, subs, ids)
    requires s.hand.Holding? && s.hand.targets != [] && NoDuplicates(s.hand.targets) && n.rings == s.rings
    requires n.hand == Holding(s.hand.item, s.hand.targets[1..])
    requires n.inQs == s.inQs[s.hand.targets[0] := s.inQs[s.hand.targets[0]] + [s.hand.item]]
    ensures AllDelivered(n, subs, ids)
  {
    forall t, src | 0 <= t < |ids| && 0 <= src < |ids| ensures Delivered(n, subs, ids, t, src) {
      assert Delivered(s, subs, ids, t, src);
      PushMoves(s.inQs[t], s.hand.item, s.hand.targets, t, src);
    }
  }

  lemma {:induction false} HandOnKeepsInv(s: State, index: Index, subs: Subscriptions, ids: seq<ClusterID>)
    requires Inv(s, index, subs, ids) && R.TargetsOk(index, |ids|) && s.hand.Holding?
    ensures Inv(Step(s, index, ids, HandOn), index, subs, ids)
  {
    var n := Step(s, index, ids, HandOn);
    if s.hand.targets != [] {
      HandOnDelivers(s, n, subs, ids);
    } else {
      forall t, src | 0 <= t < |ids| && 0 <= src < |ids| ensures Delivered(n, subs, ids, t, src) {
        assert Delivered(s, subs, ids, t, src);
      }
    }
  }

  lemma {:induction false} ReceiveKeepsInv(s: State, index: Index, subs: Subscriptions, ids: seq<ClusterID>,
                                           packet: Packet)
    requires Inv(s, index, subs, ids) && IsInverse(index, subs, ids) && R.TargetsOk(index, |ids|) && s.hand.Empty?
    ensures Inv(Step(s, index, ids, Receive(packet)), index, subs, ids)
  {
    var n := Step(s, index, ids, Receive(packet));
    assert InverseAt(Targets(index, packet.srcId), subs, ids, packet.srcId);
    forall t, src | 0 <= t < |ids| && 0 <= src < |ids| ensures Delivered(n, subs, ids, t, src) {
      assert Delivered(s, subs, ids, t, src);
    }
  }

  lemma {:induction false} RunKeepsInv(memory: seq<seq<Packet>>, index: Index, subs: Subscriptions, ids: seq<ClusterID>,
                                       acts: seq<Act>)
    requires |memory| == |ids| && R.TargetsOk(index, |ids|) && IsInverse(index, subs, ids)
    requires forall i | 0 <= i < |memory| :: memory[i] != []
    ensures Inv(Run(memory, index, ids, acts), index, subs, ids)
  {
    if acts != [] {
      var before, act := acts[..|acts| - 1], acts[|acts| - 1];
      RunKeepsInv(memory, index, subs, ids, before);
      var s := Run(memory, index, ids, before);
      match act {
        case OnRing(src, a) =>
          if !(src >= |ids| || (ByLoop(a) && s.hand.Holding?) || (a.CallPush? && a.v.srcId != ids[src])) {
            OnRingKeepsInv(s, index, subs, ids, src, a);
          }
        case HandOn =>
          if s.hand.Holding? {
            HandOnKeepsInv(s, index, subs, ids);
          }
        case Receive(packet) =>
          if s.hand.Empty? {
            ReceiveKeepsInv(s, index, subs, ids, packet);
          }
      }
    }
  }

  /**
   * Under every interleaving of the servers' and the loop's atomic steps, with fixed routing: what a
   * ring ever accepted is, for each subscriber of its server, exactly what that subscriber got from it,
   * in order and once each, then what the loop is about to hand to it, then what is queued in the ring.
   * Other servers get nothing from it.  A ring refuses exactly as `FreeQueues.RefusalsExact` says.
   */
  lemma {:induction false} DeliveredUnderEveryInterleaving(
      memory: seq<seq<Packet>>, index: Index, subs: Subscriptions, ids: seq<ClusterID>, acts: seq<Act>,
      t: nat, src: nat)
    requires |memory| == |ids| && R.TargetsOk(index, |ids|) && IsInverse(index, subs, ids)
    requires forall i | 0 <= i < |memory| :: memory[i] != []
    requires t < |ids| && src < |ids|
    ensures var s := Run(memory, index, ids, acts);
            var ring := s.rings[src];
            && F.Inv(ring)
            && if Subscribed(subs, ids[t], ids[src])
               then R.From(s.inQs[t], src) + InHand(s.hand, t, src) + F.Queue(ring) == ring.pushed
               else R.From(s.inQs[t], src) == [] && InHand(s.hand, t, src) == []
  {
    RunKeepsInv(memory, index, subs, ids, acts);
    DeliveredThenQueued(Run(memory, index, ids, acts), index, subs, ids, t, src);
  }

  lemma {:induction false} DeliveredThenQueued(s: State, index: Index, subs: Subscriptions, ids: seq<ClusterID>,
                                               t: nat, src: nat)
    requires Inv(s, index, subs, ids) && t < |ids| && src < |ids|
    ensures var ring := s.rings[src];
            && F.Inv(ring)
            && if Subscribed(subs, ids[t], ids[src])
               then R.From(s.inQs[t], src) + InHand(s.hand, t, src) + F.Queue(ring) == ring.pushed
               else R.From(s.inQs[t], src) == [] && InHand(s.hand, t, src) == []
  {
    assert Delivered(s, subs, ids, t, src) && RingOk(s.rings[src], ids[src]);
    PoppedThenQueued(s.rings[src]);
  }

  lemma PoppedThenQueued(ring: F.Ring<Packet>)
    requires ring.popped <= ring.pushed
    ensures ring.popped + F.Queue(ring) == ring.pushed
  {
  }

  // ----- packets from the network -----

  /** What the loop holds from the network and has yet to hand to server `t`. */
  function NetInHand(hand: Hand, t: nat): seq<Packet> {
    if hand.Holding? && hand.item.from == None && t in hand.targets then [hand.item.packet] else []
  }

  /** The packets, in order, that the loop read with an empty hand and whose source `local` subscribes to. */
  ghost function ReceivedFor(memory: seq<seq<Packet>>, index: Index, subs: Subscriptions, ids: seq<ClusterID>,
                             acts: seq<Act>, local: ClusterID): seq<Packet>
    requires |memory| == |ids| && R.TargetsOk(index, |ids|)
    requires forall i | 0 <= i < |memory| :: memory[i] != []
  {
    if acts == [] then []
    else
      var before, act := acts[..|acts| - 1], acts[|acts| - 1];
      ReceivedFor(memory, index, subs, ids, before, local) +
      if act.Receive? && Run(memory, index, ids, before).hand.Empty? && Subscribed(subs, local, act.packet.srcId)
      then [act.packet] else []
  }

  /** A push to the first target moves a packet from the network from the hand to that target, and to no other. */
  lemma {:induction false} NetPushMoves(items: seq<R.Item>, item: R.Item, targets: seq<nat>, t: nat)
    requires targets != [] && NoDuplicates(targets)
    ensures R.FromNet(if t == targets[0] then items + [item] else items) + NetInHand(Holding(item, targets[1..]), t)
         == R.FromNet(items) + NetInHand(Holding(item, targets), t)
  {
    assert t in targets <==> t == targets[0] || t in targets[1..];
    if t == targets[0] {
      assert t !in targets[1..];
      R.FromNetSnoc(items, item);
    }
  }

  lemma {:induction false} StepReceives(s: State, index: Index, subs: Subscriptions, ids: seq<ClusterID>,
                                        act: Act, t: nat)
    requires Shape(s, |ids|) && HandOk(s.hand, index, ids) && t < |ids|
    requires IsInverse(index, subs, ids) && R.TargetsOk(index, |ids|)
    ensures var n := Step(s, index, ids, act);
            R.FromNet(n.inQs[t]) + NetInHand(n.hand, t) == R.FromNet(s.inQs[t]) + NetInHand(s.hand, t) +
              if act.Receive? && s.hand.Empty? && Subscribed(subs, ids[t], act.packet.srcId) then [act.packet] else []
  {
    var got := R.FromNet(s.inQs[t]);
    assert (got + NetInHand(s.hand, t)) + [] == got + NetInHand(s.hand, t);
    match act
    case OnRing(src, a) =>
    case HandOn =>
      if s.hand.Holding? && s.hand.targets != [] {
        NetPushMoves(s.inQs[t], s.hand.item, s.hand.targets, t);
      }
    case Receive(packet) =>
      if s.hand.Empty? {
        assert InverseAt(Targets(index, packet.srcId), subs, ids, packet.srcId);
        assert (got + []) + [packet] == got + [packet];
      }
  }

  /**
   * Under every interleaving each server gets from the network exactly what it subscribes to, in order
   * and once each.
   */
  lemma {:induction false} ReceivedUnderEveryInterleaving(
      memory: seq<seq<Packet>>, index: Index, subs: Subscriptions, ids: seq<ClusterID>, acts: seq<Act>, t: nat)
    requires |memory| == |ids| && R.TargetsOk(index, |ids|) && IsInverse(index, subs, ids) && t < |ids|
    requires forall i | 0 <= i < |memory| :: memory[i] != []
    ensures var s := Run(memory, index, ids, acts);
            R.FromNet(s.inQs[t]) + NetInHand(s.hand, t) == ReceivedFor(memory, index, subs, ids, acts, ids[t])
  {
    if acts != [] {
      var before := acts[..|acts| - 1];
      ReceivedUnderEveryInterleaving(memory, index, subs, ids, before, t);
      RunKeepsInv(memory, index, subs, ids, before);
      StepReceives(Run(memory, index, ids, before), index, subs, ids, acts[|acts| - 1], t);
    }
  }

  // ----- an undisturbed visit -----

  /** The rings as the queues that they implement. */
  ghost function View(s: State): R.Routing
    requires forall i | 0 <= i < |s.rings| :: |s.rings[i].popped| <= |s.rings[i].pushed|
  {
    R.Routing(seq(|s.rings|, i requires 0 <= i < |s.rings| => F.Queue(s.rings[i])), s.inQs,
              seq(|s.rings|, i requires 0 <= i < |s.rings| => s.rings[i].pushed))
  }

  ghost function HandOnTimes(s: State, index: Index, ids: seq<ClusterID>, k: nat): State
    requires Shape(s, |ids|) && R.TargetsOk(index, |ids|)
    decreases k
  {
    if k == 0 then s else HandOnTimes(Step(s, index, ids, HandOn), index, ids, k - 1)
  }

  lemma {:induction false} PushAllCons(inQs: seq<seq<R.Item>>, targets: seq<nat>, item: R.Item)
    requires targets != [] && R.InRange(targets, |inQs|)
    ensures R.PushAll(inQs, targets, item) ==
              R.PushAll(inQs[targets[0] := inQs[targets[0]] + [item]], targets[1..], item)
    decreases |targets|
  {
    var n := |targets| - 1;
    if n > 0 {
      PushAllCons(inQs, targets[..n], item);
      assert targets[..n][1..] == targets[1..][..n - 1] && targets[1..][n - 1] == targets[n];
    }
  }

  /** One push per target, and the hand is empty again. */
  lemma {:induction false} HandedOn(s: State, index: Index, ids: seq<ClusterID>)
    requires Shape(s, |ids|) && R.TargetsOk(index, |ids|) && s.hand.Holding?
    ensures HandOnTimes(s, index, ids, |s.hand.targets| + 1) ==
              State(s.rings, R.PushAll(s.inQs, s.hand.targets, s.hand.item), Empty)
    decreases |s.hand.targets|
  {
    var n := Step(s, index, ids, HandOn);
    if s.hand.targets != [] {
      PushAllCons(s.inQs, s.hand.targets, s.hand.item);
      HandedOn(n, index, ids);
    } else {
      assert HandOnTimes(n, index, ids, 0) == n;
    }
  }

  ghost function FourOnRing(s: State, index: Index, ids: seq<ClusterID>, src: nat): (n: State)
    requires Shape(s, |ids|) && R.TargetsOk(index, |ids|)
    ensures Shape(n, |ids|)
  {
    Step(Step(Step(Step(s, index, ids, OnRing(src, F.CallPop)), index, ids, OnRing(src, F.CheckEmpty)),
              index, ids, OnRing(src, F.ReadSlot)), index, ids, OnRing(src, F.StoreOut))
  }

  lemma {:induction false} FourOnRingPops(s: State, index: Index, ids: seq<ClusterID>, src: nat)
    requires Shape(s, |ids|) && R.TargetsOk(index, |ids|) && src < |ids| && s.hand.Empty?
    requires s.rings[src].popper.PopIdle?
    ensures var ring := s.rings[src];
            FourOnRing(s, index, ids, src) == State(s.rings[src := F.Popped(ring)], s.inQs,
              if ring.ain == ring.aout then Empty
              else Holding(R.Item(Some(src), ring.buff[ring.aout]), Targets(index, ring.buff[ring.aout].srcId)))
  {
    F.UndisturbedPop(s.rings[src]);
  }

  /** The four steps of `pop`, and then one push per target if there is something in hand. */
  ghost function Visited(s: State, index: Index, ids: seq<ClusterID>, src: nat): State
    requires Shape(s, |ids|) && R.TargetsOk(index, |ids|)
  {
    var popped := FourOnRing(s, index, ids, src);
    if popped.hand.Empty? then popped else HandOnTimes(popped, index, ids, |popped.hand.targets| + 1)
  }

  ghost predicate Quiet(s: State) {
    && |s.rings| == |s.inQs| && s.hand.Empty?
    && forall i | 0 <= i < |s.rings| :: F.Inv(s.rings[i])
  }

  lemma {:induction false} VisitedRing(s: State, index: Index, ids: seq<ClusterID>, src: nat)
    requires Shape(s, |ids|) && Quiet(s) && R.TargetsOk(index, |ids|) && src < |ids|
    requires s.rings[src].popper.PopIdle? && s.rings[src].pusher.PushIdle?
    ensures var (ring, n) := (s.rings[src], Visited(s, index, ids, src));
            && Quiet(n) && n.rings == s.rings[src := F.Popped(ring)]
            && F.Popped(ring).pushed == ring.pushed
            && if F.Queue(ring) == [] then n.inQs == s.inQs && F.Popped(ring) == ring
               else
                 var data := F.Queue(ring)[0];
                 && F.Queue(F.Popped(ring)) == F.Queue(ring)[1..]
                 && n.inQs == R.PushAll(s.inQs, Targets(index, data.srcId), R.Item(Some(src), data))
  {
    var ring, popped := s.rings[src], FourOnRing(s, index, ids, src);
    FourOnRingPops(s, index, ids, src);
    F.PoppedTakesHead(ring);
    if popped.hand.Holding? {
      HandedOn(popped, index, ids);
    }
  }

  /**
   * Undisturbed, the four steps of `pop` and one push per target are a visit of the routing loop:
   * `Routers.RouteOne` on the queues that the rings implement.
   */
  lemma {:induction false} VisitIsRouteOne(s: State, index: Index, ids: seq<ClusterID>, src: nat)
    requires Shape(s, |ids|) && Quiet(s) && R.TargetsOk(index, |ids|) && src < |ids|
    requires s.rings[src].popper.PopIdle? && s.rings[src].pusher.PushIdle?
    ensures Quiet(Visited(s, index, ids, src)) && View(s).inQs == s.inQs && |View(s).outQs| == |ids|
    ensures View(Visited(s, index, ids, src)) == R.RouteOne(View(s), index, src)
  {
    var n, ring := Visited(s, index, ids, src), s.rings[src];
    VisitedRing(s, index, ids, src);
    assert View(n).accepted == View(s).accepted;
    assert View(n).outQs == View(s).outQs[src := F.Queue(F.Popped(ring))];
    if F.Queue(ring) == [] {
      assert View(n).outQs == View(s).outQs;
    }
  }
}
