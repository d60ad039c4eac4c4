/**
 * The clock filter of lib/timesync.cpp and the two translations of lib/timesync.h.
 *
 * `delta` is meant to follow the offset (server clock minus local clock).  Each exchange with
 * the time server produces one noisy measurement of the offset and moves `delta` a third of
 * the way, in integer microseconds with truncating division.
 */
module TimeSync {
  import opened Prelude

  /** One measurement: the remote stamp against the midpoint of the request's trip. */
  function Diff(lastLocal: Time, t0: Time, remoteUs: int): int {
    (remoteUs - Micros(lastLocal)) - TruncDiv(Micros(t0 - lastLocal), 2)
  }

  /** One feedback step of the filter. */
  function Approach(delta: int, diff: int): int {
    delta + TruncDiv(diff - delta, 3)
  }

  /** The filter after a series of measurements. */
  function Approaches(delta: int, diffs: seq<int>): int
    decreases |diffs|
  {
    if diffs == [] then delta else Approaches(Approach(delta, diffs[0]), diffs[1..])
  }

  class TimeSync {
    var delta: int
    var lastLocal: Time

    constructor (now: Time)
      ensures delta == 0 && lastLocal == now
    {
      delta, lastLocal := 0, now;
    }

    method Calculate(t0: Time, remoteUs: int)
      modifies this`delta
      ensures delta == Approach(old(delta), Diff(lastLocal, t0, remoteUs))
    {
      var sent := Micros(lastLocal);
      var trip := Micros(t0 - lastLocal);
      var diff := (remoteUs - sent) - TruncDiv(trip, 2);
      var deltat := delta;
      deltat := deltat + TruncDiv(diff - deltat, 3);
      delta := deltat;
    }
  }

  // ----- how good one measurement is -----

  /**
   * With clocks that tick in whole microseconds, a measurement errs by at most half the trip
   * exactly when the server read its clock between the request and the reply that it is
   * paired with.  `served` is that instant on the local clock.  Nothing in the code pairs a
   * reply with its own request, so a late reply to an earlier request falls outside.
   */
  lemma MeasurementBoundExact(sent: nat, served: int, received: int, offset: int)
    requires sent <= received
    ensures var diff := Diff(1000 * sent, 1000 * received, served + offset);
            var trip := received - sent;
            -(trip / 2) <= diff - offset <= (trip + 1) / 2 <==> sent <= served <= received
  {
    assert Micros(1000 * sent) == sent;
    assert 1000 * received - 1000 * sent == 1000 * (received - sent);
    assert Micros(1000 * (received - sent)) == received - sent;
  }

  /** A request/reply pair: local-clock instants, in nanoseconds, of its three events. */
  datatype Exchange = Exchange(sent: Time, served: Time, received: Time)

  ghost predicate Sound(e: Exchange, offset: int, maxTripUs: nat) {
    0 <= e.sent <= e.served <= e.received && 0 <= e.served + offset &&
    e.received - e.sent <= 1000 * maxTripUs
  }

  /** What `Calculate` measures in an exchange with a server whose clock is `offset` ahead. */
  function Measured(e: Exchange, offset: int): int {
    Diff(e.sent, e.received, Micros(e.served + offset))
  }

  /** The measurement error of nanosecond clocks: half the trip plus the three truncations. */
  function ErrorBound(maxTripUs: nat): nat {
    (maxTripUs + 1) / 2 + 2
  }

  lemma MeasurementBound(e: Exchange, offset: int, maxTripUs: nat)
    requires Sound(e, offset, maxTripUs)
    ensures Abs(Measured(e, offset) - offset / 1000) <= ErrorBound(maxTripUs)
  {
    var trip := Micros(e.received - e.sent);
    var half := TruncDiv(trip, 2);
    assert trip <= maxTripUs;
    assert 2000 * half <= e.received - e.sent < 2000 * half + 2000;
    assert e.served - e.sent <= e.received - e.sent;
  }

  // ----- how the filter converges -----

  /** How far outside the band of half-width `err + 2` around `target` the filter is. */
  function Excess(delta: int, target: int, err: nat): nat {
    var far := Abs(delta - target);
    if far <= err + 2 then 0 else far - err - 2
  }

  ghost predicate AllNear(diffs: seq<int>, target: int, err: nat) {
    forall i | 0 <= i < |diffs| :: Abs(diffs[i] - target) <= err
  }

  /** One step removes at least a third of the excess; so excess 0 stays 0. */
  lemma ApproachContracts(delta: int, diff: int, target: int, err: nat)
    requires Abs(diff - target) <= err
    ensures 3 * Excess(Approach(delta, diff), target, err) <= 2 * Excess(delta, target, err)
  {
    var gap := diff - delta;
    var move := TruncDiv(gap, 3);
    assert gap >= 0 ==> 0 <= 3 * move <= gap < 3 * move + 3;
    assert gap < 0 ==> 0 >= 3 * move >= gap > 3 * move - 3;
  }

  /** One step moves the delta a third of its distance to the measurement, rounded toward the delta. */
  lemma StepIsAThird(delta: int, diff: int)
    ensures var (gap, move) := (diff - delta, Approach(delta, diff) - delta);
            && (gap >= 0 ==> 0 <= 3 * move <= gap < 3 * move + 3)
            && (gap <= 0 ==> 3 * move - 3 < gap <= 3 * move <= 0)
  {
  }

  /** The number of binary digits of `x`. */
  function Bits(x: nat): nat {
    if x == 0 then 0 else 1 + Bits(x / 2)
  }

  lemma {:induction false} BandAbsorbs(delta: int, diffs: seq<int>, target: int, err: nat)
    requires AllNear(diffs, target, err)
    requires Excess(delta, target, err) == 0
    ensures Excess(Approaches(delta, diffs), target, err) == 0
    decreases |diffs|
  {
    if diffs != [] {
      ApproachContracts(delta, diffs[0], target, err);
      BandAbsorbs(Approach(delta, diffs[0]), diffs[1..], target, err);
    }
  }

  /**
   * From any start, twice as many measurements as the excess has binary digits bring the
   * filter into the band, and every later measurement keeps it there.
   */
  lemma {:induction false} Converges(delta: int, diffs: seq<int>, target: int, err: nat)
    requires AllNear(diffs, target, err)
    requires |diffs| >= 2 * Bits(Excess(delta, target, err))
    ensures Excess(Approaches(delta, diffs), target, err) == 0
    decreases |diffs|
  {
    var excess := Excess(delta, target, err);
    if excess == 0 {
      BandAbsorbs(delta, diffs, target, err);
    } else {
      var once := Approach(delta, diffs[0]);
      var twice := Approach(once, diffs[1]);
      ApproachContracts(delta, diffs[0], target, err);
      ApproachContracts(once, diffs[1], target, err);
      assert Approaches(delta, diffs) == Approaches(once, diffs[1..]);
      assert diffs[1..][0] == diffs[1] && diffs[1..][1..] == diffs[2..];
      assert Excess(twice, target, err) <= excess / 2;
      BitsMonotone(Excess(twice, target, err), excess / 2);
      Converges(twice, diffs[2..], target, err);
    }
  }

  lemma {:induction false} BitsMonotone(x: nat, y: nat)
    requires x <= y
    ensures Bits(x) <= Bits(y)
  {
    if x != 0 {
      BitsMonotone(x / 2, y / 2);
    }
  }

  /** The band cannot be narrowed: at `err + 2` on either side the truncated division leaves the filter stuck. */
  lemma {:induction false} BandIsTight(diffs: seq<int>, target: int, err: nat, above: bool)
    requires forall i | 0 <= i < |diffs| :: diffs[i] == if above then target + err else target - err
    ensures AllNear(diffs, target, err)
    ensures var edge := if above then target + err + 2 else target - err - 2;
            Approaches(edge, diffs) == edge
  {
    if diffs != [] {
      BandIsTight(diffs[1..], target, err, above);
    }
  }

  function Measurements(es: seq<Exchange>, offset: int): seq<int> {
    seq(|es|, i requires 0 <= i < |es| => Measured(es[i], offset))
  }

  /** Sound exchanges, at least twice as many as the excess of `delta` has binary digits. */
  ghost predicate LongSync(delta: int, es: seq<Exchange>, offset: int, maxTripUs: nat) {
    && (forall i | 0 <= i < |es| :: Sound(es[i], offset, maxTripUs))
    && |es| >= 2 * Bits(Excess(delta, offset / 1000, ErrorBound(maxTripUs)))
  }

  /** Any sufficiently long series of sound exchanges ends within the band, whatever `delta` was. */
  lemma SyncedAfter(delta: int, es: seq<Exchange>, offset: int, maxTripUs: nat)
    requires LongSync(delta, es, offset, maxTripUs)
    ensures Abs(Approaches(delta, Measurements(es, offset)) - offset / 1000)
         <= ErrorBound(maxTripUs) + 2
  {
    var diffs := Measurements(es, offset);
    forall i | 0 <= i < |diffs| ensures Abs(diffs[i] - offset / 1000) <= ErrorBound(maxTripUs) {
      MeasurementBound(es[i], offset, maxTripUs);
    }
    Converges(delta, diffs, offset / 1000, ErrorBound(maxTripUs));
  }

  // ----- translating stamps between hosts -----

  function ToNetwork(localTime: Time, delta: int): Time {
    localTime - 1000 * delta
  }

  function ToLocal(networkTime: Time, delta: int): Time {
    networkTime + 1000 * delta
  }

  /** A stamp of host A as host B reads it. */
  function Translate(t: Time, deltaA: int, deltaB: int): Time {
    ToLocal(ToNetwork(t, deltaA), deltaB)
  }

  /** The same translation with the opposite sign in both directions. */
  function TranslateOpposite(t: Time, deltaA: int, deltaB: int): Time {
    ToNetwork(ToLocal(t, deltaA), deltaB)
  }

  /**
   * Let the offsets of hosts A and B (server minus local, nanoseconds) be `offA` and `offB`,
   * and let each host's delta be within `err` microseconds of its own offset.  An instant that
   * the server's clock calls `s` is `s - offA` on A and `s - offB` on B.  The coded signs miss
   * B's reading by twice the difference of the offsets, the opposite signs by at most `2 * err`.
   */
  lemma CodedSignsMiss(s: Time, offA: int, offB: int, deltaA: int, deltaB: int, err: nat)
    requires Abs(1000 * deltaA - offA) <= 1000 * err
    requires Abs(1000 * deltaB - offB) <= 1000 * err
    ensures Abs((Translate(s - offA, deltaA, deltaB) - (s - offB)) - 2 * (offB - offA)) <= 2000 * err
    ensures Abs(TranslateOpposite(s - offA, deltaA, deltaB) - (s - offB)) <= 2000 * err
  {
  }

  /** With perfectly synchronised deltas the coded translation is right only between equal offsets. */
  lemma CodedSignsRightIff(s: Time, offA: int, offB: int, deltaA: int, deltaB: int)
    requires offA == 1000 * deltaA && offB == 1000 * deltaB
    ensures Translate(s - offA, deltaA, deltaB) == s - offB <==> offA == offB
  {
  }

  /** Where a long enough series of sound exchanges leaves the delta of a host. */
  ghost predicate Synced(delta: int, start: int, es: seq<Exchange>, off: int, maxTripUs: nat) {
    LongSync(start, es, off, maxTripUs) && delta == Approaches(start, Measurements(es, off))
  }

  lemma SyncedWithin(delta: int, start: int, es: seq<Exchange>, off: int, maxTripUs: nat)
    requires Synced(delta, start, es, off, maxTripUs)
    ensures Abs(1000 * delta - off) <= 1000 * (ErrorBound(maxTripUs) + 3)
  {
    SyncedAfter(start, es, off, maxTripUs);
  }

  /**
   * Two hosts that synchronised long enough, from any start: the coded translation between them
   * is wrong by twice their offset difference, up to the band of both filters.
   */
  lemma SyncedHostsMiss(s: Time, offA: int, offB: int, deltaA: int, deltaB: int,
                        startA: int, startB: int, esA: seq<Exchange>, esB: seq<Exchange>, maxTripUs: nat)
    requires Synced(deltaA, startA, esA, offA, maxTripUs) && Synced(deltaB, startB, esB, offB, maxTripUs)
    ensures var err := ErrorBound(maxTripUs) + 3;
            && Abs((Translate(s - offA, deltaA, deltaB) - (s - offB)) - 2 * (offB - offA)) <= 2000 * err
            && Abs(TranslateOpposite(s - offA, deltaA, deltaB) - (s - offB)) <= 2000 * err
  {
    SyncedWithin(deltaA, startA, esA, offA, maxTripUs);
    SyncedWithin(deltaB, startB, esB, offB, maxTripUs);
    CodedSignsMiss(s, offA, offB, deltaA, deltaB, ErrorBound(maxTripUs) + 3);
  }
}
