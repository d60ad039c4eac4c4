/** The server of server.cpp: commands, input, output, and the packets that it puts on the network. */
module Servers {
  import opened Prelude
  import opened TimeBuffers
  import opened Packetiser
  import opened FreeQueues
  import opened BlockingQueues
  import opened CommandText
  import opened Networks
  import Decimal
  import Multicast
  import Tracker

  const MAX_MSG_Q_SIZE: nat := 256

  /** A packet written to the network, and the group that it was written to. */
  datatype Datagram = Datagram(group: uint32, packet: Packet)

  function Packets(ds: seq<Datagram>): seq<Packet> {
    seq(|ds|, i requires 0 <= i < |ds| => ds[i].packet)
  }

  /** The packet has a nonzero source, and went to that source's group. */
  ghost predicate DatagramOk(d: Datagram) {
    d.packet.srcId != 0 && d.group == Multicast.IdToMulticast(d.packet.srcId)
  }

  class Server {
    /** The process's network, and the place of this server in its list. */
    const network: Network
    const position: nat
    const inQ: BlockingQueue<Packet>
    var id: ClusterID
    var mCastGrp: uint32
    var timeBuff: TimeBuffer
    /** The queue that the ring of size MAX_MSG_Q_SIZE implements (`FreeQueues.RefinesFifo`). */
    var outQ: seq<Packet>
    /** Everything that went out so far, and every call of `Write` so far. */
    ghost var wire: seq<Datagram>
    ghost var calls: seq<Call>

    /** The buffer and all packets that went out, as the packetiser sees them. */
    ghost function Out(): Sender
      requires timeBuff.Valid()
      reads this, timeBuff, timeBuff.idx, timeBuff.dt
    {
      Sender(timeBuff.View(), Packets(wire))
    }

    /** What holds inside `PerformIO` as well. */
    ghost predicate Ready()
      reads this, network, timeBuff, timeBuff.idx, timeBuff.dt
    {
      && position < |network.servers| && network.servers[position] == id
      && timeBuff.Valid()
      && mCastGrp == Multicast.IdToMulticast(id)
      && forall d | d in wire :: DatagramOk(d)
    }

    ghost predicate Valid()
      reads this, network, timeBuff, timeBuff.idx, timeBuff.dt
    {
      Ready() && Out() == Sends(calls)
    }

    constructor (network: Network, position: nat, id: ClusterID)
      requires position < |network.servers|
      modifies network`servers
      ensures Valid() && this.id == id && this.network == network && this.position == position
      ensures network.View() == Renumber(old(network.View()), position, id)
      ensures calls == [] && wire == [] && outQ == [] && inQ.q == []
      ensures fresh(inQ) && fresh(timeBuff) && fresh(timeBuff.idx) && fresh(timeBuff.dt)
    {
      this.network, this.position, this.id := network, position, id;
      mCastGrp := Multicast.IdToMulticast(id);
      timeBuff := new TimeBuffer();
      inQ := new BlockingQueue();
      outQ := [];
      wire, calls := [], [];
      new;
      network.SetId(position, id);
    }

    /** The datagram to the tracker: the tracker reads it as an announcement of the current ID. */
    method RequestIdFromTracker() returns (cmd: string)
      ensures TrackerReads(cmd) == Some(Tracker.Id(id))
    {
      cmd := "ID " + Decimal.Itoa(id);
      assert "ID" + " " == "ID ";
      assert cmd == TrackerText(Tracker.Id(id));
      TrackerReadsBack(Tracker.Id(id));
    }

    /**
     * CONNECT and DROP act for the current ID; RUN moves ID and multicast group together, and the ID
     * that the network sees for this server, but no subscription and no joined group.  What the
     * code does without a number, or to drop what is not subscribed, is undefined; then nothing is
     * promised.
     */
    method ParseCommand(text: string) returns (defined: bool)
      requires Valid()
      modifies this`id, this`mCastGrp, network
      ensures defined <==> match ServerReads(text)
                           case Undefined => false
                           case Disconnect(remote) => Subscribed(old(network.subscriptions), old(id), remote)
                           case _ => true
      ensures defined ==> Valid()
      ensures defined ==> id == if ServerReads(text).RunAs? then ServerReads(text).id else old(id)
      ensures defined ==>
                network.View() == match ServerReads(text)
                                  case Connect(remote) => Networks.Subscribe(old(network.View()), old(id), remote)
                                  case Disconnect(remote) => Networks.Unsubscribe(old(network.View()), old(id), remote)
                                  case RunAs(newId) => Renumber(old(network.View()), position, newId)
                                  case _ => old(network.View())
    {
      defined := true;
      match ServerReads(text) {
        case Connect(remote) => network.SubscribeTo(id, remote);
        case Disconnect(remote) =>
          defined := Subscribed(network.subscriptions, id, remote);
          if defined {
            network.UnsubscribeFrom(id, remote);
          }
        case RunAs(newId) =>
          if id != newId {
            id := newId;
            network.SetId(position, newId);
            mCastGrp := Multicast.IdToMulticast(newId);
          }
        case Undefined => defined := false;
        case ForCluster(_) =>
        case Exit =>
      }
    }

    /** The body of the retry loop: the refused buffer goes out and a new one takes its place. */
    method Flush()
      requires timeBuff.Valid()
      modifies this`timeBuff, this`outQ, this`wire, timeBuff`srcId
      ensures fresh(timeBuff) && fresh(timeBuff.idx) && fresh(timeBuff.dt)
      ensures timeBuff.Valid() && timeBuff.View() == EMPTY
      ensures wire == old(wire) + [Datagram(mCastGrp, old(timeBuff.View()).(srcId := id))]
      ensures outQ == Offer(old(outQ), old(timeBuff.View()).(srcId := id), MAX_MSG_Q_SIZE)
    {
      timeBuff.SetSrcClusterId(id);
      var packet := timeBuff.Snapshot();
      outQ := Offer(outQ, packet, MAX_MSG_Q_SIZE);
      wire := wire + [Datagram(mCastGrp, packet)];
      timeBuff := new TimeBuffer();
    }

    /** The callback through which the cluster emits one impulse; `delta` is the clock's. */
    method Write(nodeIndex: int, t: Time, delta: int)
      requires Ready() && id > 0
      modifies this`timeBuff, this`outQ, this`wire, timeBuff, timeBuff.idx, timeBuff.dt
      ensures Ready()
      ensures timeBuff == old(timeBuff) || (fresh(timeBuff) && fresh(timeBuff.idx) && fresh(timeBuff.dt))
      ensures Out() == Send(old(Out()), Call(nodeIndex, t, delta, id))
      ensures old(wire) <= wire
      ensures outQ == if |wire| == |old(wire)| then old(outQ)
                      else Offer(old(outQ), wire[|old(wire)|].packet, MAX_MSG_Q_SIZE)
      ensures |wire| <= |old(wire)| + 1
    {
      ghost var sender := Out();
      ghost var flushed: seq<Datagram> := [];
      var r := timeBuff.Write(NodeIndex(nodeIndex), t, delta);
      while r < 0
        invariant timeBuff.Valid()
        invariant r < 0 ==> flushed == [] && (timeBuff.View(), r) == Written(sender.buf, NodeIndex(nodeIndex), t, delta)
        invariant if flushed == [] then timeBuff == old(timeBuff)
                  else fresh(timeBuff) && fresh(timeBuff.idx) && fresh(timeBuff.dt)
        invariant r >= 0 ==> Send(sender, Call(nodeIndex, t, delta, id))
                             == Sender(timeBuff.View(), sender.sent + Packets(flushed))
        invariant wire == old(wire) + flushed && forall d | d in flushed :: DatagramOk(d)
        invariant |flushed| <= 1
        invariant outQ == if flushed == [] then old(outQ) else Offer(old(outQ), flushed[0].packet, MAX_MSG_Q_SIZE)
        decreases -r
      {
        Flush();
        flushed := [wire[|wire| - 1]];
        assert Packets(flushed) == [flushed[0].packet];
        r := timeBuff.Write(NodeIndex(nodeIndex), t, delta);
      }
      assert Packets(wire) == Packets(old(wire)) + Packets(flushed);
    }

    /**
     * One round.  Input: at most one packet is taken for the cluster; a cluster that waits for input
     * blocks in `Pop`, and is let go no further while that has nothing.  Output happens only under a
     * nonzero ID: each impulse that the cluster emits, with the delta in force then, is one `Write`.
     */
    method PerformIO(waits: bool, wakeups: seq<seq<Packet>>, impulses: seq<Impulse>)
      returns (input: Option<Packet>, waited: nat)
      requires Valid()
      modifies this`timeBuff, this`outQ, this`wire, this`calls, timeBuff, timeBuff.idx, timeBuff.dt, inQ
      ensures Valid()
      ensures id == old(id) && old(wire) <= wire
      ensures waited <= |wakeups| && (!waits ==> waited == 0)
      ensures old(inQ.q) + Flatten(wakeups[..waited]) == (match input case Some(p) => [p] case None => []) + inQ.q
      ensures input.None? ==> inQ.q == [] && (waits ==> waited == |wakeups|)
      ensures calls == old(calls) + if id > 0 && (input.Some? || !waits) then EmittedCalls(impulses, id) else []
    {
      waited := 0;
      if waits {
        input, waited := inQ.Pop(wakeups);
      } else {
        input := inQ.PopNoBlock();
      }
      if input.Some? || !waits {
        Emit(impulses);
      }
    }

    /** What the cluster emits in one round. */
    method Emit(impulses: seq<Impulse>)
      requires Valid()
      modifies this`timeBuff, this`outQ, this`wire, this`calls, timeBuff, timeBuff.idx, timeBuff.dt
      ensures Valid()
      ensures id == old(id) && old(wire) <= wire
      ensures calls == old(calls) + if id > 0 then EmittedCalls(impulses, id) else []
    {
      if id > 0 {
        ghost var emitted := EmittedCalls(impulses, id);
        ghost var start := Out();
        for k := 0 to |impulses|
          invariant Ready()
          invariant timeBuff == old(timeBuff) || (fresh(timeBuff) && fresh(timeBuff.idx) && fresh(timeBuff.dt))
          invariant old(wire) <= wire && calls == old(calls)
          invariant Out() == SendMore(start, emitted[..k])
        {
          Write(impulses[k].node, impulses[k].t, impulses[k].delta);
          SendMoreSnoc(start, emitted, k);
        }
        assert emitted[..|impulses|] == emitted;
        SendMoreConcat(Sender(EMPTY, []), calls, emitted);
        calls := calls + emitted;
      }
    }
  }

  /** An impulse that a cluster emits, and the delta that the clock filter has at that moment. */
  datatype Impulse = Impulse(node: int, t: Time, delta: int)

  /** Every impulse becomes a call of its own, in order, under the ID that the server has. */
  lemma EveryImpulseIsACall(impulses: seq<Impulse>, id: ClusterID)
    ensures |EmittedCalls(impulses, id)| == |impulses|
    ensures forall i | 0 <= i < |impulses| ::
              var c := EmittedCalls(impulses, id)[i];
              c.node == impulses[i].node && c.t == impulses[i].t && c.delta == impulses[i].delta && c.id == id
  {
  }

  function EmittedCalls(impulses: seq<Impulse>, id: ClusterID): seq<Call> {
    seq(|impulses|, i requires 0 <= i < |impulses| => Call(impulses[i].node, impulses[i].t, impulses[i].delta, id))
  }
}
