/** The packet of impulses of lib/timebuff.h. */
module TimeBuffers {
  import opened Prelude
  import TimeSync

  const MAX_OUTPUT_NODES: nat := (1456 - 4 * 8) / 4

  const OLDEST := -0x8000  // numeric_limits<int16_t>::min()
  const NEWEST := 0x7FFF   // numeric_limits<int16_t>::max()

  /** The contents of a buffer: its base time and, per impulse, a node index and an offset. */
  datatype Packet = Packet(srcId: ClusterID, time: Time, idx: seq<int>, dt: seq<int>)

  const EMPTY := Packet(0, TIME_MIN, [], [])

  /** The offset that `write` computes: whole microseconds, narrowed to a 32-bit int. */
  function Offset(base: Time, t: Time): int {
    ToInt32(Micros(t - base))
  }

  /** What `write` does to the buffer and what it returns; `delta` is the clock's current delta. */
  function Written(p: Packet, index: uint16, t: Time, delta: int): (Packet, int) {
    var unset := p.time == TIME_MIN;
    var base := if unset then t else p.time;
    var offset := if unset then 0 else Offset(base, t);
    if offset < OLDEST then (p, 0)
    else if |p.idx| >= MAX_OUTPUT_NODES || offset > NEWEST then
      (p.(time := TimeSync.ToNetwork(base, delta)), -1)
    else
      (p.(time := base, idx := p.idx + [index], dt := p.dt + [offset]), |p.idx| + 1)
  }

  /** The time at which entry `i` is read back. */
  function ReadTime(p: Packet, i: nat): Time
    requires i < |p.dt|
  {
    p.time + 1000 * p.dt[i]
  }

  class TimeBuffer {
    var srcId: ClusterID
    var time: Time
    var count: nat
    const idx: array<uint16>
    const dt: array<int16>

    ghost predicate Valid()
      reads this
    {
      idx.Length == dt.Length == MAX_OUTPUT_NODES && count <= MAX_OUTPUT_NODES
    }

    ghost function View(): Packet
      requires Valid()
      reads this, idx, dt
    {
      Packet(srcId, time, idx[..count], dt[..count])
    }

    constructor ()
      ensures Valid() && View() == EMPTY
      ensures fresh(idx) && fresh(dt)
    {
      srcId, time, count := 0, TIME_MIN, 0;
      idx, dt := new uint16[MAX_OUTPUT_NODES], new int16[MAX_OUTPUT_NODES];
    }

    method SetSrcClusterId(id: ClusterID)
      requires Valid()
      modifies this`srcId
      ensures Valid() && View() == old(View()).(srcId := id)
    {
      srcId := id;
    }

    method PrepareRead(delta: int)
      requires Valid()
      modifies this`time
      ensures Valid() && View() == old(View()).(time := TimeSync.ToLocal(old(time), delta))
    {
      time := TimeSync.ToLocal(time, delta);
    }

    method Read(index: nat) returns (node: uint16, t: Time)
      requires Valid() && index < count
      ensures node == View().idx[index] && t == ReadTime(View(), index)
    {
      var dtime: int := dt[index];
      node, t := idx[index], time + 1000 * dtime;
    }

    /** The value that a reader of this buffer sees from now on: nobody writes to a flushed buffer. */
    method Snapshot() returns (p: Packet)
      requires Valid()
      ensures p == View()
    {
      p := Packet(srcId, time, idx[..count], dt[..count]);
    }

    /** Every offset that reaches the array fits its 16 bits: the assignment is checked. */
    method Write(index: uint16, t: Time, delta: int) returns (r: int)
      requires Valid()
      modifies this, idx, dt
      ensures Valid() && (View(), r) == Written(old(View()), index, t, delta)
    {
      var deltaTus := 0;
      if time == TIME_MIN {
        time := t;
      } else {
        deltaTus := ToInt32(Micros(t - time));
        if deltaTus < OLDEST {
          return 0;
        }
      }
      if count >= MAX_OUTPUT_NODES || deltaTus > NEWEST {
        time := TimeSync.ToNetwork(time, delta);
        return -1;
      }
      idx[count] := index;
      dt[count] := deltaTus;
      count := count + 1;
      assert idx[..count] == old(idx[..count]) + [index];
      assert dt[..count] == old(dt[..count]) + [deltaTus];
      return count;
    }
  }

  // ----- accuracy of one entry -----

  /** The base that `write` measures from: a buffer without one takes the impulse's own time. */
  function Base(p: Packet, t: Time): Time {
    if p.time == TIME_MIN then t else p.time
  }

  /**
   * An impulse that `write` stores reads back under its own node index; its time is within one
   * microsecond, between the base and the original, exactly when the distance to the base fits
   * a 32-bit count of microseconds.  In any case the stored offset differs from that
   * distance by a multiple of 2^32 microseconds.
   */
  lemma StoredReadsBack(p: Packet, index: uint16, t: Time, delta: int)
    requires |p.idx| == |p.dt|
    requires Written(p, index, t, delta).1 > 0
    ensures var q := Written(p, index, t, delta).0;
            var i := |p.idx|;
            && |q.idx| == |q.dt| == i + 1 && q.idx == p.idx + [index] && OLDEST <= q.dt[i] <= NEWEST
            && (Abs(ReadTime(q, i) - t) < 1000 <==> -0x8000_0000 <= Micros(t - Base(p, t)) < 0x8000_0000)
            && (Abs(ReadTime(q, i) - t) < 1000 ==> Between(Base(p, t), ReadTime(q, i), t))
            && (Micros(t - Base(p, t)) - q.dt[i]) % 0x1_0000_0000 == 0
  {
    OffsetAccuracy(Base(p, t), t);
  }

  ghost predicate Between(base: Time, x: Time, t: Time) {
    base <= x <= t || t <= x <= base
  }

  lemma ToInt32Iff(x: int)
    ensures ToInt32(x) == x <==> -0x8000_0000 <= x < 0x8000_0000
    ensures ToInt32(x) != x ==> Abs(ToInt32(x) - x) >= 0x1_0000_0000
    ensures (x - ToInt32(x)) % 0x1_0000_0000 == 0
  {
    var q := (x + 0x8000_0000) / 0x1_0000_0000;
    assert x - ToInt32(x) == 0x1_0000_0000 * q;
  }

  lemma MicrosBound(ns: int)
    ensures Abs(1000 * Micros(ns) - ns) < 1000
    ensures ns >= 0 ==> 0 <= 1000 * Micros(ns) <= ns
    ensures ns <= 0 ==> ns <= 1000 * Micros(ns) <= 0
  {
  }

  lemma OffsetAccuracy(base: Time, t: Time)
    ensures var x := base + 1000 * Offset(base, t);
            && (Abs(x - t) < 1000 <==> -0x8000_0000 <= Micros(t - base) < 0x8000_0000)
            && (Abs(x - t) < 1000 ==> Between(base, x, t))
    ensures (Micros(t - base) - Offset(base, t)) % 0x1_0000_0000 == 0
  {
    ToInt32Iff(Micros(t - base));
    MicrosBound(t - base);
  }

  /**
   * The impulses stored earlier keep their times exactly when the base is not the sentinel that
   * stands for "no base", or the new impulse lies at the sentinel too: else the next write moves them.
   */
  lemma SentinelImpulseMoves(p: Packet, index: uint16, t: Time, delta: int)
    requires |p.idx| == |p.dt| && p.idx != []
    requires Written(p, index, t, delta).1 > 0
    ensures var q := Written(p, index, t, delta).0;
            (forall i | 0 <= i < |p.idx| :: q.idx[i] == p.idx[i] && ReadTime(q, i) == ReadTime(p, i)) <==>
              p.time != TIME_MIN || t == TIME_MIN
  {
    var q := Written(p, index, t, delta).0;
    assert q.dt[0] == p.dt[0] && q.time == Base(p, t);
    assert ReadTime(q, 0) == ReadTime(p, 0) <==> q.time == p.time;
  }

  /**
   * What `write` does with an impulse within 2^31 microseconds of the base: it drops one that lies 32769
   * whole microseconds or more behind it; it refuses one when it holds 356 already or the impulse lies
   * 32768 or more ahead, and then converts its time for the network; otherwise it stores it last.
   */
  lemma WriteMeans(p: Packet, index: uint16, t: Time, delta: int)
    requires Abs(t - Base(p, t)) < 0x8000_0000 * 1000
    ensures var ((q, r), base) := (Written(p, index, t, delta), Base(p, t));
            if base - t >= 32769 * 1000 then q == p && r == 0
            else if |p.idx| >= 356 || t - base >= 32768 * 1000 then
              q == p.(time := base - 1000 * delta) && r == -1
            else
              && q.time == base && q.srcId == p.srcId && r == |p.idx| + 1
              && q.idx == p.idx + [index] && |q.dt| == |p.dt| + 1 && q.dt[..|p.dt|] == p.dt
              && Abs(1000 * q.dt[|p.dt|] - (t - base)) < 1000
  {
    MicrosBound(t - Base(p, t));
    ToInt32Iff(Micros(t - Base(p, t)));
  }

  // ----- the bytes of a datagram -----

  /** The array part of a buffer's memory: all of `idx` and behind it all of `dt`. */
  datatype Memory = Memory(idx: seq<uint16>, dt: seq<int16>) {
    ghost predicate Valid() {
      |idx| == |dt| == MAX_OUTPUT_NODES
    }

    function Image(): seq<int> {
      idx + dt
    }
  }

  const HEADER: nat := 4 + 8 + 2

  /** `size()`, in bytes. */
  function Size(count: nat): nat {
    HEADER + 2 * 2 * count
  }

  /** What a datagram of `size()` bytes, counted from the start of the buffer, leaves in a receiver. */
  function Received(sender: Memory, count: nat, receiver: Memory): seq<int>
    requires sender.Valid() && receiver.Valid() && count <= MAX_OUTPUT_NODES
  {
    var words := (Size(count) - HEADER) / 2;
    sender.Image()[..words] + receiver.Image()[words..]
  }

  /**
   * All node indices arrive.  Offset `i` arrives whatever the receiver's memory held exactly
   * when it lies among the first `2 * count` words; so all offsets of a non-empty packet
   * arrive exactly when the packet is full.
   */
  lemma WireCarries(sender: Memory, count: nat)
    requires sender.Valid() && 0 < count <= MAX_OUTPUT_NODES
    ensures forall r: Memory, i | r.Valid() && 0 <= i < count :: Received(sender, count, r)[i] == sender.idx[i]
    ensures forall i | 0 <= i < count :: OffsetArrives(sender, count, i) <==> MAX_OUTPUT_NODES + i < 2 * count
    ensures (forall i | 0 <= i < count :: OffsetArrives(sender, count, i)) <==> count == MAX_OUTPUT_NODES
  {
    forall i | 0 <= i < count
      ensures OffsetArrives(sender, count, i) <==> MAX_OUTPUT_NODES + i < 2 * count
    {
      OffsetArrivesIff(sender, count, i);
    }
    assert OffsetArrives(sender, count, count - 1) <==> count == MAX_OUTPUT_NODES;
  }

  ghost predicate OffsetArrives(sender: Memory, count: nat, i: nat)
    requires sender.Valid() && i < count <= MAX_OUTPUT_NODES
  {
    forall r: Memory | r.Valid() :: Received(sender, count, r)[MAX_OUTPUT_NODES + i] == sender.dt[i]
  }

  lemma OffsetArrivesIff(sender: Memory, count: nat, i: nat)
    requires sender.Valid() && i < count <= MAX_OUTPUT_NODES
    ensures OffsetArrives(sender, count, i) <==> MAX_OUTPUT_NODES + i < 2 * count
  {
    if 2 * count <= MAX_OUTPUT_NODES + i {
      var other: int16 := if sender.dt[i] == 0 then 1 else 0;
      var r := Memory(sender.idx, seq(MAX_OUTPUT_NODES, _ => other));
      assert Received(sender, count, r)[MAX_OUTPUT_NODES + i] == r.dt[i] == other;
    }
  }
}
