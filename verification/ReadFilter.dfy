/** The age and order filter that `Network::readVerify` applies to arriving packets. */
module ReadFilter {
  import opened Prelude
  import opened TimeBuffers
  import TimeSync

  const PACKET_LIFE_TIME: Time := 20 * 1_000_000

  /** One call: what the socket returned and left in the buffer, the clock and the delta. */
  datatype Heard = Heard(ret: int, p: Packet, now: Time, delta: int) {
    function Local(): Time {
      TimeSync.ToLocal(p.time, delta)
    }
  }

  type Sequences = map<ClusterID, Time>

  function Last(sequences: Sequences, id: ClusterID): Time {
    if id in sequences then sequences[id] else TIME_MIN
  }

  predicate TooOld(h: Heard) {
    h.Local() + PACKET_LIFE_TIME < h.now
  }

  /** What the call makes of the sequences, and the number of impulses it returns. */
  function Verify(sequences: Sequences, h: Heard): (Sequences, nat) {
    if h.ret == 0 || |h.p.idx| == 0 || TooOld(h) then (sequences, 0)
    else
      var t := Last(sequences, h.p.srcId);
      if t > h.Local() then (sequences[h.p.srcId := t], 0)
      else (sequences[h.p.srcId := h.Local()], |h.p.idx|)
  }

  function After(sequences: Sequences, hs: seq<Heard>): Sequences
    decreases |hs|
  {
    if hs == [] then sequences else After(Verify(sequences, hs[0]).0, hs[1..])
  }

  /** The packets of a stream that are let through. */
  function Accepted(sequences: Sequences, hs: seq<Heard>): seq<Heard>
    decreases |hs|
  {
    if hs == [] then []
    else
      var (next, count) := Verify(sequences, hs[0]);
      (if count > 0 then [hs[0]] else []) + Accepted(next, hs[1..])
  }

  function Only(id: ClusterID, hs: seq<Heard>): seq<Heard>
    decreases |hs|
  {
    if hs == [] then [] else (if hs[0].p.srcId == id then [hs[0]] else []) + Only(id, hs[1..])
  }

  lemma {:induction false} OnlyConcat(id: ClusterID, xs: seq<Heard>, ys: seq<Heard>)
    ensures Only(id, xs + ys) == Only(id, xs) + Only(id, ys)
    decreases |xs|
  {
    if xs == [] {
      assert xs + ys == ys;
    } else {
      TailOfConcat(xs, ys);
      OnlyConcat(id, xs[1..], ys);
      Assoc(if xs[0].p.srcId == id then [xs[0]] else [], Only(id, xs[1..]), Only(id, ys));
    }
  }

  /**
   * Sources do not influence each other: filtering an interleaved stream and projecting to one
   * source is projecting to the source and filtering, from any sequences that agree on it.
   */
  lemma {:induction false} FilterCommutesWithProjection(
      sequences: Sequences, alone: Sequences, id: ClusterID, hs: seq<Heard>)
    requires Last(sequences, id) == Last(alone, id)
    ensures Only(id, Accepted(sequences, hs)) == Accepted(alone, Only(id, hs))
    ensures Last(After(sequences, hs), id) == Last(After(alone, Only(id, hs)), id)
    decreases |hs|
  {
    if hs != [] {
      var (next, count) := Verify(sequences, hs[0]);
      var first := if count > 0 then [hs[0]] else [];
      OnlyConcat(id, first, Accepted(next, hs[1..]));
      if hs[0].p.srcId == id {
        var nextAlone := Verify(alone, hs[0]).0;
        FilterCommutesWithProjection(next, nextAlone, id, hs[1..]);
        assert Only(id, hs)[0] == hs[0] && Only(id, hs)[1..] == Only(id, hs[1..]);
      } else {
        FilterCommutesWithProjection(next, alone, id, hs[1..]);
        assert Only(id, hs) == Only(id, hs[1..]);
      }
    }
  }

  /**
   * Packets in non-decreasing order of local time, from `from` on and up to `last`, none of them
   * empty or more than 20 ms old when it arrived.
   */
  ghost predicate Clean(from: Time, hs: seq<Heard>, last: Time) {
    && (forall i | 0 <= i < |hs| :: from <= hs[i].Local() && !TooOld(hs[i]) && hs[i].ret != 0 && hs[i].p.idx != [])
    && (forall i, j | 0 <= i < j < |hs| :: hs[i].Local() <= hs[j].Local())
    && last == if hs == [] then from else hs[|hs| - 1].Local()
  }

  lemma CleanCons(from: Time, h: Heard, rest: seq<Heard>, last: Time)
    requires Clean(h.Local(), rest, last)
    requires from <= h.Local() && !TooOld(h) && h.ret != 0 && h.p.idx != []
    ensures Clean(from, [h] + rest, last)
  {
  }

  lemma VerifyOne(sequences: Sequences, h: Heard)
    ensures var (next, count) := Verify(sequences, h);
            if count > 0 then
              && Last(sequences, h.p.srcId) <= h.Local() == Last(next, h.p.srcId)
              && !TooOld(h) && h.ret != 0 && h.p.idx != []
            else Last(next, h.p.srcId) == Last(sequences, h.p.srcId)
  {
  }

  /** What one source's packets look like behind the filter; its sequence is the last one's time. */
  lemma {:induction false} SourceIsClean(sequences: Sequences, id: ClusterID, hs: seq<Heard>)
    requires forall i | 0 <= i < |hs| :: hs[i].p.srcId == id
    ensures Clean(Last(sequences, id), Accepted(sequences, hs), Last(After(sequences, hs), id))
    decreases |hs|
  {
    if hs != [] {
      var (next, count) := Verify(sequences, hs[0]);
      VerifyOne(sequences, hs[0]);
      assert hs[0].p.srcId == id;
      SourceIsClean(next, id, hs[1..]);
      var rest, last := Accepted(next, hs[1..]), Last(After(next, hs[1..]), id);
      assert Last(After(sequences, hs), id) == last;
      if count > 0 {
        assert Accepted(sequences, hs) == [hs[0]] + rest;
        CleanCons(Last(sequences, id), hs[0], rest, last);
      } else {
        assert Accepted(sequences, hs) == rest;
      }
    }
  }

  /** In any interleaving of sources, from a new network, each source's accepted packets are clean. */
  lemma StreamIsClean(hs: seq<Heard>, id: ClusterID)
    ensures Clean(TIME_MIN, Only(id, Accepted(map[], hs)), Last(After(map[], hs), id))
  {
    FilterCommutesWithProjection(map[], map[], id, hs);
    OnlyIsOnly(id, hs);
    SourceIsClean(map[], id, Only(id, hs));
  }

  lemma {:induction false} OnlyIsOnly(id: ClusterID, hs: seq<Heard>)
    ensures forall i | 0 <= i < |Only(id, hs)| :: Only(id, hs)[i].p.srcId == id
    decreases |hs|
  {
    if hs != [] {
      OnlyIsOnly(id, hs[1..]);
    }
  }

  /** In clean packets the last one is the latest. */
  lemma LastIsLatest(from: Time, hs: seq<Heard>, last: Time, t: Time)
    requires Clean(from, hs, last) && from <= t
    ensures last <= t <==> forall i | 0 <= i < |hs| :: hs[i].Local() <= t
  {
    if hs != [] {
      assert forall i | 0 <= i < |hs| - 1 :: hs[i].Local() <= hs[|hs| - 1].Local();
    }
  }

  /**
   * Nothing else is dropped: a packet is let through, with the number of its impulses, exactly when it
   * is non-empty, at most 20 ms old and not before any packet already let through from its source.
   */
  lemma LetThroughIff(hs: seq<Heard>, h: Heard)
    requires h.Local() >= TIME_MIN
    ensures var got := Only(h.p.srcId, Accepted(map[], hs));
            Verify(After(map[], hs), h).1 ==
              if h.ret != 0 && h.p.idx != [] && h.now - h.Local() <= 20_000_000
                 && forall i | 0 <= i < |got| :: got[i].Local() <= h.Local()
              then |h.p.idx| else 0
  {
    var sequences, id := After(map[], hs), h.p.srcId;
    StreamIsClean(hs, id);
    LastIsLatest(TIME_MIN, Only(id, Accepted(map[], hs)), Last(sequences, id), h.Local());
  }
}
