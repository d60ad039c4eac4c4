/**
 * What a series of `Server::write` calls does to the impulses handed to it.
 *
 * `Sends` is the code's behaviour on packet values.  `Batched` is an independent description:
 * it groups whole calls, with no buffer, offset array or time conversion in sight.
 */
module Packetiser {
  import opened Prelude
  import opened TimeBuffers
  import TimeSync

  /** One call: the impulse, and the delta and cluster ID in force while the call runs. */
  datatype Call = Call(node: int, t: Time, delta: int, id: ClusterID)

  /** The current buffer and all packets flushed so far. */
  datatype Sender = Sender(buf: Packet, sent: seq<Packet>)

  /** The conversion of an `int` argument to `write`'s `uint16_t` parameter. */
  function NodeIndex(node: int): uint16 {
    node % 0x1_0000
  }

  /** One `Server::write`: on refusal the converted packet goes out and a new buffer is tried. */
  function Send(s: Sender, c: Call): Sender {
    var (p, r) := Written(s.buf, NodeIndex(c.node), c.t, c.delta);
    if r >= 0 then Sender(p, s.sent)
    else Sender(Written(EMPTY, NodeIndex(c.node), c.t, c.delta).0, s.sent + [p.(srcId := c.id)])
  }

  function SendMore(s: Sender, cs: seq<Call>): Sender {
    if cs == [] then s
    else Send(SendMore(s, cs[..|cs| - 1]), cs[|cs| - 1])
  }

  /** All calls of a server's life. */
  function Sends(cs: seq<Call>): Sender {
    SendMore(Sender(EMPTY, []), cs)
  }

  lemma {:induction false} SendMoreConcat(s: Sender, xs: seq<Call>, ys: seq<Call>)
    ensures SendMore(SendMore(s, xs), ys) == SendMore(s, xs + ys)
  {
    if ys == [] {
      assert xs + ys == xs;
    } else {
      assert (xs + ys)[..|xs + ys| - 1] == xs + ys[..|ys| - 1];
      SendMoreConcat(s, xs, ys[..|ys| - 1]);
    }
  }

  lemma SendMoreSnoc(s: Sender, cs: seq<Call>, k: nat)
    requires k < |cs|
    ensures SendMore(s, cs[..k + 1]) == Send(SendMore(s, cs[..k]), cs[k])
  {
    assert cs[..k + 1][..k] == cs[..k];
  }

  /** Every flushed packet holds 1 to 356 impulses, whatever the calls were. */
  lemma {:induction false} SentSizes(cs: seq<Call>)
    ensures var s := Sends(cs);
            && |s.buf.idx| <= MAX_OUTPUT_NODES && (s.buf.idx == [] ==> s.buf.time == TIME_MIN)
            && forall k | 0 <= k < |s.sent| :: 0 < |s.sent[k].idx| <= MAX_OUTPUT_NODES
  {
    if cs != [] {
      SentSizes(cs[..|cs| - 1]);
    }
  }

  // ----- the independent description -----

  datatype Batches = Batches(closed: seq<seq<Call>>, open: seq<Call>)

  /** `c` lies too far behind the first call of the open batch. */
  predicate Stale(open: seq<Call>, c: Call) {
    open != [] && Offset(open[0].t, c.t) < OLDEST
  }

  /** `c` does not fit the open batch, by number or by distance to its first call. */
  predicate Full(open: seq<Call>, c: Call) {
    open != [] && (|open| == MAX_OUTPUT_NODES || Offset(open[0].t, c.t) > NEWEST)
  }

  function Place(b: Batches, c: Call): Batches {
    if Stale(b.open, c) then b
    else if Full(b.open, c) then Batches(b.closed + [b.open], [c])
    else Batches(b.closed, b.open + [c])
  }

  function Batched(cs: seq<Call>): Batches {
    if cs == [] then Batches([], [])
    else Place(Batched(cs[..|cs| - 1]), cs[|cs| - 1])
  }

  /** The calls that are not stale when they are made. */
  function Kept(cs: seq<Call>): seq<Call> {
    if cs == [] then []
    else
      var before, c := cs[..|cs| - 1], cs[|cs| - 1];
      Kept(before) + if Stale(Batched(before).open, c) then [] else [c]
  }

  /** Batches lose, repeat and reorder nothing of what is kept. */
  lemma {:induction false} BatchesHoldKept(cs: seq<Call>)
    ensures Flatten(Batched(cs).closed) + Batched(cs).open == Kept(cs)
  {
    if cs != [] {
      var before, c := cs[..|cs| - 1], cs[|cs| - 1];
      BatchesHoldKept(before);
      var b := Batched(before);
      if !Stale(b.open, c) && Full(b.open, c) {
        assert (b.closed + [b.open])[..|b.closed|] == b.closed;
      } else {
        assert (Flatten(b.closed) + b.open) + [c] == Flatten(b.closed) + (b.open + [c]);
      }
    }
  }

  ghost predicate BatchOk(g: seq<Call>) {
    0 < |g| <= MAX_OUTPUT_NODES && forall i | 0 <= i < |g| :: OLDEST <= Offset(g[0].t, g[i].t) <= NEWEST
  }

  lemma {:induction false} BatchesOk(cs: seq<Call>)
    ensures var b := Batched(cs);
            (forall k | 0 <= k < |b.closed| :: BatchOk(b.closed[k])) && (b.open != [] ==> BatchOk(b.open))
    ensures cs != [] ==> Batched(cs).open != []
  {
    if cs != [] {
      BatchesOk(cs[..|cs| - 1]);
      assert Offset(cs[|cs| - 1].t, cs[|cs| - 1].t) == 0;
    }
  }

  /** The packet, in local time, that carries a batch. */
  function Carrier(g: seq<Call>): Packet {
    if g == [] then EMPTY
    else Packet(0, g[0].t,
                seq(|g|, i requires 0 <= i < |g| => NodeIndex(g[i].node)),
                seq(|g|, i requires 0 <= i < |g| => Offset(g[0].t, g[i].t)))
  }

  /** The call that closes batch `k` is the one that opens the next batch. */
  function Closer(b: Batches, k: nat): Call
    requires k < |b.closed| && b.open != [] && forall j | 0 <= j < |b.closed| :: b.closed[j] != []
  {
    if k + 1 < |b.closed| then b.closed[k + 1][0] else b.open[0]
  }

  /** A closed batch as it leaves: stamped with the closing call's ID, converted with its delta once. */
  function Shipped(g: seq<Call>, closer: Call): Packet
    requires g != []
  {
    Carrier(g).(srcId := closer.id, time := TimeSync.ToNetwork(g[0].t, closer.delta))
  }

  ghost predicate NoSentinel(cs: seq<Call>) {
    forall i | 0 <= i < |cs| :: cs[i].t != TIME_MIN
  }

  ghost predicate Carries(s: Sender, b: Batches) {
    && s.buf == Carrier(b.open)
    && |s.sent| == |b.closed|
    && (forall k | 0 <= k < |b.closed| :: b.closed[k] != [])
    && (b.closed != [] ==> b.open != [])
    && forall k | 0 <= k < |b.closed| :: s.sent[k] == Shipped(b.closed[k], Closer(b, k))
  }

  lemma SendCarries(s: Sender, b: Batches, c: Call)
    requires Carries(s, b) && c.t != TIME_MIN
    requires b.open != [] ==> b.open[0].t != TIME_MIN && |b.open| <= MAX_OUTPUT_NODES
    ensures Carries(Send(s, c), Place(b, c))
  {
    assert Offset(c.t, c.t) == 0;
    assert Written(EMPTY, NodeIndex(c.node), c.t, c.delta).0 == Carrier([c]);
    if b.open != [] && !Stale(b.open, c) {
      var n := Place(b, c);
      if Full(b.open, c) {
        assert Closer(n, |b.closed|) == c;
        forall k | 0 <= k < |b.closed| ensures Closer(n, k) == Closer(b, k) {
        }
      } else {
        assert Carrier(n.open).idx == s.buf.idx + [NodeIndex(c.node)];
        assert Carrier(n.open).dt == s.buf.dt + [Offset(b.open[0].t, c.t)];
        forall k | 0 <= k < |b.closed| ensures Closer(n, k) == Closer(b, k) {
        }
      }
    }
  }

  /** The code's packets are exactly the carriers of the batches, after every series of calls. */
  lemma {:induction false} SendsCarryBatches(cs: seq<Call>)
    requires NoSentinel(cs)
    ensures Carries(Sends(cs), Batched(cs))
    ensures Batched(cs).open != [] ==> Batched(cs).open[0].t != TIME_MIN
  {
    if cs != [] {
      var before := cs[..|cs| - 1];
      SendsCarryBatches(before);
      BatchesOk(before);
      SendCarries(Sends(before), Batched(before), cs[|cs| - 1]);
    }
  }

  // ----- what a reader gets back -----

  /** Every entry of `p` reads back as the call at the same place in `g`. */
  ghost predicate ReadsAs(p: Packet, g: seq<Call>) {
    && |p.idx| == |p.dt| == |g|
    && forall i | 0 <= i < |g| ::
         && p.idx[i] == NodeIndex(g[i].node)
         && OLDEST <= p.dt[i] <= NEWEST
         && Abs(ReadTime(p, i) - g[i].t) < 1000
         && Between(g[0].t, ReadTime(p, i), g[i].t)
  }

  /** The distance of `c` to the first call of the open batch, in whole microseconds. */
  function Distance(open: seq<Call>, c: Call): int
    requires open != []
  {
    Micros(c.t - open[0].t)
  }

  /** `c` lies more than 32768 whole microseconds behind the first call of the open batch. */
  predicate Late(open: seq<Call>, c: Call) {
    open != [] && open[0].t - c.t >= 32769 * 1000
  }

  /**
   * The narrowing of the distance to 32 bits does not mislead `write`: a late impulse does not pass for
   * one that is not, nor one that is not late for late, and no wrapped distance gets stored.
   */
  predicate Judged(open: seq<Call>, c: Call) {
    open == [] ||
    var narrowed := ToInt32(Distance(open, c));
    if Late(open, c) then narrowed < OLDEST
    else narrowed == Distance(open, c) || narrowed > NEWEST || (narrowed >= OLDEST && |open| == MAX_OUTPUT_NODES)
  }

  predicate DropsIfLate(open: seq<Call>, c: Call) {
    Stale(open, c) <==> Late(open, c)
  }

  /** `c` is less than 2^31 microseconds (35 minutes) away from the first call of the open batch. */
  predicate Near(open: seq<Call>, c: Call) {
    open != [] ==> Abs(c.t - open[0].t) < 0x8000_0000 * 1000
  }

  /** Every call has the property, with the batch that is open when it is made. */
  ghost predicate AtEveryCall(cs: seq<Call>, holds: (seq<Call>, Call) -> bool) {
    cs == [] ||
    var before := cs[..|cs| - 1];
    AtEveryCall(before, holds) && holds(Batched(before).open, cs[|cs| - 1])
  }

  /** No offset within the batch was wrapped. */
  ghost predicate Exact(g: seq<Call>) {
    forall i | 0 <= i < |g| :: Offset(g[0].t, g[i].t) == Micros(g[i].t - g[0].t)
  }

  ghost predicate AllExact(b: Batches) {
    (forall k | 0 <= k < |b.closed| :: Exact(b.closed[k])) && Exact(b.open)
  }

  /** What is judged rightly is dropped only if late, and stored with its true distance. */
  lemma JudgedIff(open: seq<Call>, c: Call)
    requires |open| <= MAX_OUTPUT_NODES
    ensures Judged(open, c) <==>
              && DropsIfLate(open, c)
              && (open == [] || Stale(open, c) || Full(open, c) || Offset(open[0].t, c.t) == Distance(open, c))
  {
    assert open != [] ==> (Late(open, c) <==> Distance(open, c) < OLDEST);
  }

  lemma PlaceExactIff(b: Batches, c: Call)
    ensures AllExact(Place(b, c)) <==>
              && AllExact(b)
              && (b.open == [] || Stale(b.open, c) || Full(b.open, c)
                  || Offset(b.open[0].t, c.t) == Distance(b.open, c))
  {
    var n := Place(b, c);
    if b.open != [] && !Stale(b.open, c) {
      if Full(b.open, c) {
        assert n.closed[..|b.closed|] == b.closed && n.closed[|b.closed|] == b.open;
      } else {
        assert n.open[..|b.open|] == b.open && n.open[|b.open|] == c;
      }
    }
  }

  lemma {:induction false} ExactIff(cs: seq<Call>)
    ensures AllExact(Batched(cs)) && AtEveryCall(cs, DropsIfLate) <==> AtEveryCall(cs, Judged)
  {
    if cs != [] {
      var before, c := cs[..|cs| - 1], cs[|cs| - 1];
      ExactIff(before);
      BatchesOk(before);
      JudgedIff(Batched(before).open, c);
      PlaceExactIff(Batched(before), c);
    }
  }

  lemma CarrierReadsAsIff(g: seq<Call>)
    requires BatchOk(g)
    ensures ReadsAs(Carrier(g), g) <==> Exact(g)
  {
    forall i | 0 <= i < |g|
      ensures ReadTime(Carrier(g), i) == g[0].t + 1000 * Offset(g[0].t, g[i].t)
      ensures Abs(ReadTime(Carrier(g), i) - g[i].t) < 1000 <==> Offset(g[0].t, g[i].t) == Micros(g[i].t - g[0].t)
      ensures Abs(ReadTime(Carrier(g), i) - g[i].t) < 1000 ==> Between(g[0].t, ReadTime(Carrier(g), i), g[i].t)
    {
      OffsetAccuracy(g[0].t, g[i].t);
    }
  }

  /**
   * Packet `p` bears the closing call's ID, holds 1 to 356 impulses, and one conversion to local
   * time, with the closing call's delta, makes it read as batch `g`.
   */
  ghost predicate FlushedAs(p: Packet, g: seq<Call>, closer: Call) {
    && p.srcId == closer.id
    && 0 < |g| <= MAX_OUTPUT_NODES
    && ReadsAs(p.(time := TimeSync.ToLocal(p.time, closer.delta)), g)
  }

  lemma ShippedReadsBackIff(g: seq<Call>, closer: Call)
    requires BatchOk(g)
    ensures FlushedAs(Shipped(g, closer), g, closer) <==> Exact(g)
  {
    var p := Shipped(g, closer);
    var q := p.(time := TimeSync.ToLocal(p.time, closer.delta));
    CarrierReadsAsIff(g);
    assert q == Carrier(g).(srcId := closer.id);
    forall i | 0 <= i < |g| ensures ReadTime(q, i) == ReadTime(Carrier(g), i) {
    }
  }

  /**
   * Exactly the late impulses are dropped; the flushed packets and the current buffer read back as
   * their batches, within a microsecond, each packet after exactly one conversion.
   */
  ghost predicate Conserved(s: Sender, cs: seq<Call>) {
    var b := Batched(cs);
    && AtEveryCall(cs, DropsIfLate)
    && Carries(s, b)
    && ReadsAs(s.buf, b.open)
    && forall k | 0 <= k < |s.sent| :: FlushedAs(s.sent[k], b.closed[k], Closer(b, k))
  }

  /**
   * Conservation.  After any calls the batches hold the kept impulses, each exactly once and in order;
   * and impulses are conserved exactly when the narrowing to 32 bits misled none of the calls.
   */
  lemma {:induction false} ImpulsesConservedIff(cs: seq<Call>)
    requires NoSentinel(cs)
    ensures Flatten(Batched(cs).closed) + Batched(cs).open == Kept(cs)
    ensures Conserved(Sends(cs), cs) <==> AtEveryCall(cs, Judged)
  {
    var s, b := Sends(cs), Batched(cs);
    BatchesHoldKept(cs);
    BatchesOk(cs);
    SendsCarryBatches(cs);
    ExactIff(cs);
    if b.open != [] {
      CarrierReadsAsIff(b.open);
    }
    forall k | 0 <= k < |s.sent| ensures FlushedAs(s.sent[k], b.closed[k], Closer(b, k)) <==> Exact(b.closed[k]) {
      ShippedReadsBackIff(b.closed[k], Closer(b, k));
    }
  }

  /** However long a server emits: near their bases impulses are conserved, and just the late ones dropped. */
  lemma {:induction false} ImpulsesConserved(cs: seq<Call>)
    requires NoSentinel(cs) && AtEveryCall(cs, Near)
    ensures Flatten(Batched(cs).closed) + Batched(cs).open == Kept(cs)
    ensures Conserved(Sends(cs), cs)
  {
    ImpulsesConservedIff(cs);
    NearIsJudged(cs);
  }

  lemma {:induction false} NearIsJudged(cs: seq<Call>)
    requires AtEveryCall(cs, Near)
    ensures AtEveryCall(cs, Judged)
  {
    if cs != [] {
      var before := cs[..|cs| - 1];
      NearIsJudged(before);
      StaleMeans(Batched(before).open, cs[|cs| - 1]);
    }
  }

  /** What is dropped: impulses more than 32768 whole microseconds behind the base of their time. */
  lemma StaleMeans(open: seq<Call>, c: Call)
    requires Near(open, c)
    ensures Stale(open, c) <==> open != [] && open[0].t - c.t >= 32769 * 1000
    ensures Judged(open, c)
  {
  }

  /**
   * Which packet an impulse goes to: near the base and not late, it joins the open batch exactly when
   * that holds fewer than 356 impulses and the impulse lies less than 32768 whole microseconds ahead of
   * its base; otherwise it closes the batch and opens the next one.
   */
  lemma PlaceMeans(b: Batches, c: Call)
    requires Near(b.open, c) && |b.open| <= 356
    ensures Place(b, c) ==
              if b.open == [] then Batches(b.closed, [c])
              else if b.open[0].t - c.t >= 32769 * 1000 then b
              else if |b.open| < 356 && c.t - b.open[0].t < 32768 * 1000 then Batches(b.closed, b.open + [c])
              else Batches(b.closed + [b.open], [c])
  {
  }

  /** The node index of an impulse survives exactly when it fits 16 bits: no call is refused for it. */
  lemma NodeSurvivesIff(node: int)
    ensures NodeIndex(node) == node <==> 0 <= node <= 0xFFFF
  {
  }

  /**
   * A subscriber in the sending process gets the flushed packet as it is, in network time: it
   * reads the local times back exactly when the delta is 0.
   */
  lemma LocalSubscriberReadsNetworkTime(cs: seq<Call>, k: nat, i: nat)
    requires NoSentinel(cs) && k < |Sends(cs).sent| && i < |Sends(cs).sent[k].dt|
    ensures Carries(Sends(cs), Batched(cs)) && Batched(cs).open != []
    ensures var (b, p) := (Batched(cs), Sends(cs).sent[k]);
            && i < |b.closed[k]|
            && (ReadTime(p, i) == ReadTime(Carrier(b.closed[k]), i) <==> Closer(b, k).delta == 0)
  {
    SendsCarryBatches(cs);
  }
}
