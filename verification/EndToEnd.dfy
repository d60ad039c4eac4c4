/**
 * From the cluster that emits an impulse to the one that reads it on another host: the packetiser,
 * the bytes of the datagram, both clock translations and the age filter together.
 */
module EndToEnd {
  import opened Prelude
  import opened TimeBuffers
  import opened Packetiser
  import opened ReadFilter
  import T = TimeSync

  /** The memory that the packet is sent from: its entries in front, anything behind them. */
  ghost predicate HeldIn(p: Packet, m: Memory) {
    && m.Valid() && |p.idx| == |p.dt| <= MAX_OUTPUT_NODES
    && m.idx[..|p.idx|] == p.idx && m.dt[..|p.dt|] == p.dt
  }

  /** Entry `i` as the receiving host reads it from the buffer `r` that the datagram was read into. */
  function ReadOnHost(p: Packet, m: Memory, r: Memory, i: nat, delta: int): (int, Time)
    requires m.Valid() && r.Valid() && i < |p.idx| <= MAX_OUTPUT_NODES
  {
    var words := Received(m, |p.idx|, r);
    (words[i], T.ToLocal(p.time, delta) + 1000 * words[MAX_OUTPUT_NODES + i])
  }

  /** Whatever the receiver's buffer held: its node index, and within a microsecond its translated time. */
  ghost predicate ArrivesTranslated(p: Packet, m: Memory, i: nat, c: Call, deltaA: int, deltaB: int)
    requires m.Valid() && i < |p.idx| <= MAX_OUTPUT_NODES
  {
    forall r: Memory | r.Valid() ::
      var (node, t) := ReadOnHost(p, m, r, i, deltaB);
      node == NodeIndex(c.node) && Abs(t - T.Translate(c.t, deltaA, deltaB)) < 1000
  }

  lemma EntryArrives(p: Packet, g: seq<Call>, closer: Call, m: Memory, r: Memory, i: nat, deltaB: int)
    requires FlushedAs(p, g, closer) && HeldIn(p, m) && r.Valid() && i < |g|
    ensures ReadOnHost(p, m, r, i, deltaB).0 == NodeIndex(g[i].node)
    ensures MAX_OUTPUT_NODES + i < 2 * |g| ==>
              Abs(ReadOnHost(p, m, r, i, deltaB).1 - T.Translate(g[i].t, closer.delta, deltaB)) < 1000
  {
    var q := p.(time := T.ToLocal(p.time, closer.delta));
    assert m.idx[i] == m.idx[..|g|][i] == p.idx[i] && m.dt[i] == m.dt[..|g|][i] == p.dt[i];
    assert ReadTime(q, i) == T.ToLocal(p.time, closer.delta) + 1000 * p.dt[i];
  }

  lemma EntryArrivesIff(p: Packet, g: seq<Call>, closer: Call, m: Memory, i: nat, deltaB: int)
    requires FlushedAs(p, g, closer) && HeldIn(p, m) && i < |g|
    ensures ArrivesTranslated(p, m, i, g[i], closer.delta, deltaB) <==> MAX_OUTPUT_NODES + i < 2 * |g|
  {
    forall r: Memory | r.Valid()
      ensures ReadOnHost(p, m, r, i, deltaB).0 == NodeIndex(g[i].node)
      ensures MAX_OUTPUT_NODES + i < 2 * |g| ==>
                Abs(ReadOnHost(p, m, r, i, deltaB).1 - T.Translate(g[i].t, closer.delta, deltaB)) < 1000
    {
      EntryArrives(p, g, closer, m, r, i, deltaB);
    }
    if 2 * |g| <= MAX_OUTPUT_NODES + i {
      var far: int16 := if p.dt[i] > 0 then p.dt[i] - 2 else p.dt[i] + 2;
      var r := Memory(m.idx, seq(MAX_OUTPUT_NODES, _ => far));
      assert Received(m, |g|, r)[MAX_OUTPUT_NODES + i] == r.dt[i] == far;
      var q := p.(time := T.ToLocal(p.time, closer.delta));
      assert ReadTime(q, i) == T.ToLocal(p.time, closer.delta) + 1000 * p.dt[i];
      assert Abs(ReadOnHost(p, m, r, i, deltaB).1 - T.Translate(g[i].t, closer.delta, deltaB)) > 1000;
    }
  }

  /**
   * From any sender's memory into any receiver's buffer, entry i of the n that the packet holds reads
   * translated exactly when its offset lies among the bytes that are sent, 356 + i < 2n; so all of
   * them do exactly when the packet is full.
   */
  ghost predicate ReadsAcrossTheWire(p: Packet, g: seq<Call>, closer: Call, deltaB: int) {
    && 0 < |g| == |p.idx| <= MAX_OUTPUT_NODES
    && (exists m :: HeldIn(p, m))
    && forall m | HeldIn(p, m) ::
         && (forall i | 0 <= i < |g| ::
               ArrivesTranslated(p, m, i, g[i], closer.delta, deltaB) <==> MAX_OUTPUT_NODES + i < 2 * |g|)
         && ((forall i | 0 <= i < |g| :: ArrivesTranslated(p, m, i, g[i], closer.delta, deltaB)) <==>
               |g| == MAX_OUTPUT_NODES)
  }

  lemma FlushedReadsAcrossTheWire(p: Packet, g: seq<Call>, closer: Call, deltaB: int)
    requires FlushedAs(p, g, closer)
    ensures ReadsAcrossTheWire(p, g, closer, deltaB)
  {
    var held := Memory(seq(MAX_OUTPUT_NODES, i requires 0 <= i => if i < |g| then NodeIndex(g[i].node) else 0),
                       seq(MAX_OUTPUT_NODES, i requires 0 <= i => if i < |g| then p.dt[i] as int16 else 0));
    assert HeldIn(p, held);
    forall m | HeldIn(p, m)
      ensures forall i | 0 <= i < |g| ::
                ArrivesTranslated(p, m, i, g[i], closer.delta, deltaB) <==> MAX_OUTPUT_NODES + i < 2 * |g|
      ensures (forall i | 0 <= i < |g| :: ArrivesTranslated(p, m, i, g[i], closer.delta, deltaB)) <==>
                |g| == MAX_OUTPUT_NODES
    {
      forall i | 0 <= i < |g|
        ensures ArrivesTranslated(p, m, i, g[i], closer.delta, deltaB) <==> MAX_OUTPUT_NODES + i < 2 * |g|
      {
        EntryArrivesIff(p, g, closer, m, i, deltaB);
      }
      assert ArrivesTranslated(p, m, |g| - 1, g[|g| - 1], closer.delta, deltaB) <==> |g| == MAX_OUTPUT_NODES;
    }
  }

  /** Whatever was written on the sending host, every flushed packet reads so on any other host. */
  lemma {:induction false} FlushedPacketsReadTranslated(cs: seq<Call>, deltaB: int)
    requires NoSentinel(cs) && AtEveryCall(cs, Judged)
    ensures Carries(Sends(cs), Batched(cs))
    ensures forall k | 0 <= k < |Sends(cs).sent| ::
              ReadsAcrossTheWire(Sends(cs).sent[k], Batched(cs).closed[k], Closer(Batched(cs), k), deltaB)
  {
    ImpulsesConservedIff(cs);
    forall k | 0 <= k < |Sends(cs).sent|
      ensures ReadsAcrossTheWire(Sends(cs).sent[k], Batched(cs).closed[k], Closer(Batched(cs), k), deltaB)
    {
      FlushedReadsAcrossTheWire(Sends(cs).sent[k], Batched(cs).closed[k], Closer(Batched(cs), k), deltaB);
    }
  }

  /** Packet `p`, carrying batch `g`, is the k-th that the calls `cs` flush; `closer` is the call that did. */
  ghost predicate IsFlush(cs: seq<Call>, k: nat, p: Packet, g: seq<Call>, closer: Call) {
    var (s, b) := (Sends(cs), Batched(cs));
    && Carries(s, b) && k < |s.sent|
    && p == s.sent[k] && g == b.closed[k] && closer == Closer(b, k)
  }

  lemma EntryMisread(p: Packet, g: seq<Call>, closer: Call, m: Memory, r: Memory, i: nat,
                     s: Time, offA: int, offB: int, deltaB: int, err: nat)
    requires FlushedAs(p, g, closer) && HeldIn(p, m) && r.Valid()
    requires i < |g| && MAX_OUTPUT_NODES + i < 2 * |g| && g[i].t == s - offA
    requires Abs(1000 * closer.delta - offA) <= 1000 * err && Abs(1000 * deltaB - offB) <= 1000 * err
    ensures Abs((ReadOnHost(p, m, r, i, deltaB).1 - (s - offB)) - 2 * (offB - offA)) <= 2000 * err + 1000
  {
    EntryArrives(p, g, closer, m, r, i, deltaB);
    T.CodedSignsMiss(s, offA, offB, closer.delta, deltaB, err);
  }

  /**
   * Host A and host B have synchronised long enough.  An impulse that A's cluster emits at the
   * instant `s` of the server's clock, and whose offset is sent, is read on B off by twice the
   * difference of the two offsets, up to the band of both filters and a microsecond.
   */
  lemma {:induction false} SynchronisedHostsMisread(
      cs: seq<Call>, k: nat, p: Packet, g: seq<Call>, closer: Call, m: Memory, r: Memory, i: nat,
      s: Time, offA: int, offB: int, startA: int, startB: int,
      esA: seq<T.Exchange>, esB: seq<T.Exchange>, maxTripUs: nat, deltaB: int)
    requires NoSentinel(cs) && AtEveryCall(cs, Judged)
    requires IsFlush(cs, k, p, g, closer) && HeldIn(p, m) && r.Valid()
    requires T.Synced(closer.delta, startA, esA, offA, maxTripUs) && T.Synced(deltaB, startB, esB, offB, maxTripUs)
    requires i < |g| && MAX_OUTPUT_NODES + i < 2 * |g| && g[i].t == s - offA
    ensures |g| == |p.idx|
    ensures Abs((ReadOnHost(p, m, r, i, deltaB).1 - (s - offB)) - 2 * (offB - offA))
              <= 2000 * (T.ErrorBound(maxTripUs) + 3) + 1000
  {
    assert FlushedAs(p, g, closer) by {
      ImpulsesConservedIff(cs);
    }
    T.SyncedWithin(closer.delta, startA, esA, offA, maxTripUs);
    T.SyncedWithin(deltaB, startB, esB, offB, maxTripUs);
    EntryMisread(p, g, closer, m, r, i, s, offA, offB, deltaB, T.ErrorBound(maxTripUs) + 3);
  }

  /**
   * The age that B's filter sees.  A packet whose base is the server-clock instant `based` arrives at
   * `arrived`; the deltas are within `err` microseconds of the offsets.  The filter judges the true
   * age plus twice the lead of A's offset over B's.
   */
  lemma AgeSeenAcrossHosts(h: Heard, based: Time, arrived: Time, offA: int, offB: int, deltaA: int, err: nat)
    requires Abs(1000 * deltaA - offA) <= 1000 * err && Abs(1000 * h.delta - offB) <= 1000 * err
    requires h.p.time == T.ToNetwork(based - offA, deltaA) && h.now == arrived - offB
    ensures (arrived - based) + 2 * (offA - offB) > PACKET_LIFE_TIME + 2000 * err ==> TooOld(h)
    ensures (arrived - based) + 2 * (offA - offB) <= PACKET_LIFE_TIME - 2000 * err ==> !TooOld(h)
  {
  }

  /** When a packet's base was, when it arrived, both by the server's clock, and the sender's delta. */
  datatype Origin = Origin(based: Time, arrived: Time, delta: int)

  /** `h` comes from a host with offset `offA` to one with `offB`, and both deltas are in their bands. */
  ghost predicate ComesFrom(h: Heard, o: Origin, offA: int, offB: int, err: nat) {
    && o.based <= o.arrived
    && h.p.time == T.ToNetwork(o.based - offA, o.delta) && h.now == o.arrived - offB
    && Abs(1000 * o.delta - offA) <= 1000 * err && Abs(1000 * h.delta - offB) <= 1000 * err
  }

  /**
   * So when a host's offset leads by more than half the packet lifetime nothing of it gets through,
   * however young, however the filters' deltas move within their bands, and whatever other sources'
   * packets are interleaved: B accepts nothing from A's cluster `id`, and keeps no time for it.
   */
  lemma {:induction false} LeadingHostIsNeverHeard(
      hs: seq<Heard>, origins: seq<Origin>, sequences: Sequences, id: ClusterID, offA: int, offB: int, err: nat)
    requires |origins| == |hs|
    requires forall i | 0 <= i < |hs| && hs[i].p.srcId == id :: ComesFrom(hs[i], origins[i], offA, offB, err)
    requires 2 * (offA - offB) > PACKET_LIFE_TIME + 2000 * err
    ensures Only(id, Accepted(sequences, hs)) == []
    ensures Last(After(sequences, hs), id) == Last(sequences, id)
    decreases |hs|
  {
    if hs != [] {
      var (next, count) := Verify(sequences, hs[0]);
      var first := if count > 0 then [hs[0]] else [];
      if hs[0].p.srcId == id {
        AgeSeenAcrossHosts(hs[0], origins[0].based, origins[0].arrived, offA, offB, origins[0].delta, err);
      }
      LeadingHostIsNeverHeard(hs[1..], origins[1..], next, id, offA, offB, err);
      OnlyConcat(id, first, Accepted(next, hs[1..]));
    }
  }
}
