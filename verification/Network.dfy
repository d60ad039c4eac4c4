/** Multicast group addresses of network.h, in host byte order. */
module Multicast {
  import opened Prelude

  const BASE: uint32 := 0xE000_0100

  function IdToMulticast(id: ClusterID): uint32 {
    (BASE + id) % 0x1_0000_0000
  }

  function MulticastToId(group: uint32): ClusterID {
    (group - BASE) % 0x1_0000_0000
  }

  /**
   * IDs and groups correspond one to one, so no two clusters share a group; and a group lies in
   * the multicast range 224.0.0.0 to 239.255.255.255 exactly for these IDs.
   */
  lemma GroupsOneToOne(id: ClusterID, group: uint32)
    ensures MulticastToId(IdToMulticast(id)) == id
    ensures IdToMulticast(MulticastToId(group)) == group
    ensures 0xE000_0000 <= IdToMulticast(id) < 0xF000_0000 <==> id < 0x0FFF_FF00 || id >= 0xFFFF_FF00
  {
  }
}

/**
 * Subscriptions of network.cpp: the relation, the multicast groups that are joined for it, and the
 * inverse index that the router reads.
 */
module Networks {
  import opened Prelude
  import opened TimeBuffers
  import opened ReadFilter
  import TimeSync

  type Subscriptions = map<ClusterID, seq<ClusterID>>

  /** For each remote cluster the local servers to deliver to, by their position. */
  type Index = map<ClusterID, seq<nat>>

  function Listed(subs: Subscriptions, local: ClusterID): seq<ClusterID> {
    if local in subs then subs[local] else []
  }

  predicate Subscribed(subs: Subscriptions, local: ClusterID, remote: ClusterID) {
    remote in Listed(subs, local)
  }

  ghost predicate Wanted(subs: Subscriptions, remote: ClusterID) {
    exists local :: Subscribed(subs, local, remote)
  }

  function Targets(index: Index, remote: ClusterID): seq<nat> {
    if remote in index then index[remote] else []
  }

  ghost predicate NoDuplicates<T>(s: seq<T>) {
    forall i, j | 0 <= i < j < |s| :: s[i] != s[j]
  }

  ghost predicate ListsOk(subs: Subscriptions) {
    forall local | local in subs :: NoDuplicates(subs[local])
  }

  /** `index` holds each server exactly once under each cluster that the server's cluster subscribes to. */
  ghost predicate IsInverse(index: Index, subs: Subscriptions, ids: seq<ClusterID>) {
    forall remote :: InverseAt(Targets(index, remote), subs, ids, remote)
  }

  ghost predicate InverseAt(targets: seq<nat>, subs: Subscriptions, ids: seq<ClusterID>, remote: ClusterID) {
    && NoDuplicates(targets)
    && forall s: nat :: s in targets <==> s < |ids| && Subscribed(subs, ids[s], remote)
  }

  function Without(s: seq<ClusterID>, x: ClusterID): seq<ClusterID>
    requires x in s
  {
    if s[0] == x then s[1..] else [s[0]] + Without(s[1..], x)
  }

  lemma {:induction false} WithoutElement(s: seq<ClusterID>, x: ClusterID, y: ClusterID)
    requires x in s && NoDuplicates(s)
    ensures y in Without(s, x) <==> y in s && y != x
  {
    assert s == [s[0]] + s[1..];
    if s[0] == x {
      assert s[0] !in s[1..];
    } else {
      WithoutElement(s[1..], x, y);
    }
  }

  lemma {:induction false} WithoutDuplicates(s: seq<ClusterID>, x: ClusterID)
    requires x in s && NoDuplicates(s)
    ensures NoDuplicates(Without(s, x))
  {
    if s[0] != x {
      WithoutDuplicates(s[1..], x);
      WithoutElement(s[1..], x, s[0]);
      ConsNoDuplicates(s[0], Without(s[1..], x));
    }
  }

  lemma ConsNoDuplicates(y: ClusterID, rest: seq<ClusterID>)
    requires NoDuplicates(rest) && y !in rest
    ensures NoDuplicates([y] + rest)
  {
  }

  lemma WithoutRemoves(s: seq<ClusterID>, x: ClusterID)
    requires x in s && NoDuplicates(s)
    ensures NoDuplicates(Without(s, x))
    ensures forall y :: y in Without(s, x) <==> y in s && y != x
  {
    WithoutDuplicates(s, x);
    forall y ensures y in Without(s, x) <==> y in s && y != x {
      WithoutElement(s, x, y);
    }
  }

  // ----- the operations on values -----

  /** `ids[i]` is the cluster ID of local server i; `joined` is what the operating system keeps. */
  datatype Net = Net(ids: seq<ClusterID>, subs: Subscriptions, joined: set<ClusterID>, dirty: bool)

  function Subscribe(n: Net, local: ClusterID, remote: ClusterID): Net {
    var list := Listed(n.subs, local);
    if remote in list then n.(dirty := true, subs := n.subs[local := list])
    else n.(dirty := true, subs := n.subs[local := list + [remote]],
            joined := if remote in n.ids then n.joined else n.joined + {remote})
  }

  /** RUN: the cluster of server `s` changes its ID, and nothing else is touched. */
  function Renumber(n: Net, s: nat, id: ClusterID): Net
    requires s < |n.ids|
  {
    n.(ids := n.ids[s := id])
  }

  /** Erasing a subscription that does not exist is undefined in the code. */
  ghost function Unsubscribe(n: Net, local: ClusterID, remote: ClusterID): Net
    requires Subscribed(n.subs, local, remote)
  {
    var subs := n.subs[local := Without(n.subs[local], remote)];
    n.(dirty := true, subs := subs,
       joined := if Wanted(subs, remote) || remote in n.ids then n.joined else n.joined - {remote})
  }

  /**
   * CONNECT adds the pair to the relation and nothing else, at the end of the list and no second time;
   * a new pair joins the remote's group unless the remote is hosted here.
   */
  lemma SubscribeMeans(n: Net, local: ClusterID, remote: ClusterID)
    ensures var m := Subscribe(n, local, remote);
            && m.dirty && m.ids == n.ids
            && (forall l, x :: Subscribed(m.subs, l, x) <==> Subscribed(n.subs, l, x) || (l == local && x == remote))
            && (forall l | l != local :: Listed(m.subs, l) == Listed(n.subs, l))
            && Listed(n.subs, local) <= Listed(m.subs, local)
            && |Listed(m.subs, local)| == |Listed(n.subs, local)| + (if Subscribed(n.subs, local, remote) then 0 else 1)
            && forall x :: x in m.joined <==>
                 x in n.joined || (x == remote && !Subscribed(n.subs, local, remote) && remote !in n.ids)
  {
  }

  /**
   * DROP takes a live pair out of the relation and nothing else; the remote's group is left when that was
   * its last subscriber here, unless the remote is hosted here.
   */
  lemma UnsubscribeMeans(n: Net, local: ClusterID, remote: ClusterID)
    requires ListsOk(n.subs) && Subscribed(n.subs, local, remote)
    ensures var m := Unsubscribe(n, local, remote);
            && m.dirty && m.ids == n.ids
            && (forall l, x :: Subscribed(m.subs, l, x) <==> Subscribed(n.subs, l, x) && !(l == local && x == remote))
            && (forall l | l != local :: Listed(m.subs, l) == Listed(n.subs, l))
            && forall x :: x in m.joined <==>
                 x in n.joined && !(x == remote && remote !in n.ids
                                    && forall l | l != local :: !Subscribed(n.subs, l, remote))
  {
    WithoutRemoves(n.subs[local], remote);
    var m := Unsubscribe(n, local, remote);
    if Wanted(m.subs, remote) {
      var l :| Subscribed(m.subs, l, remote);
      assert l != local && Subscribed(n.subs, l, remote);
    } else {
      forall l | l != local ensures !Subscribed(n.subs, l, remote) {
        assert Subscribed(n.subs, l, remote) ==> Subscribed(m.subs, l, remote);
      }
    }
  }

  class Network {
    /** The IDs that the local servers' clusters have now. */
    var servers: seq<ClusterID>
    var subscriptions: Subscriptions
    var dirty: bool
    var joined: set<ClusterID>
    var sequences: Sequences

    ghost function View(): Net
      reads this
    {
      Net(servers, subscriptions, joined, dirty)
    }

    constructor (servers: seq<ClusterID>)
      ensures View() == Net(servers, map[], {}, false) && sequences == map[]
    {
      this.servers, subscriptions, dirty, joined, sequences := servers, map[], false, {}, map[];
    }

    /** What `setId` of the cluster of the server at `position` means to the network. */
    method SetId(position: nat, id: ClusterID)
      requires position < |servers|
      modifies this`servers
      ensures View() == Renumber(old(View()), position, id)
    {
      servers := servers[position := id];
    }

    method IsHosted(remote: ClusterID) returns (r: bool)
      ensures r <==> remote in servers
    {
      for i := 0 to |servers|
        invariant remote !in servers[..i]
      {
        if remote == servers[i] {
          return true;
        }
      }
      return false;
    }

    method SubscribeTo(local: ClusterID, remote: ClusterID)
      modifies this`subscriptions, this`dirty, this`joined
      ensures View() == Subscribe(old(View()), local, remote)
    {
      dirty := true;
      if local !in subscriptions {
        subscriptions := subscriptions[local := []];
      }
      var list := subscriptions[local];
      for i := 0 to |list|
        invariant remote !in list[..i]
      {
        if remote == list[i] {
          return;
        }
      }
      subscriptions := subscriptions[local := list + [remote]];
      var hosted := IsHosted(remote);
      if !hosted {
        joined := joined + {remote};
      }
    }

    method UnsubscribeFrom(local: ClusterID, remote: ClusterID)
      requires Subscribed(subscriptions, local, remote)
      modifies this`subscriptions, this`dirty, this`joined
      ensures View() == Unsubscribe(old(View()), local, remote)
    {
      dirty := true;
      subscriptions := subscriptions[local := Without(subscriptions[local], remote)];
      var rest := subscriptions.Keys;
      while rest != {}
        invariant rest <= subscriptions.Keys
        invariant forall l | l in subscriptions.Keys - rest :: !Subscribed(subscriptions, l, remote)
        decreases rest
      {
        var l :| l in rest;
        if remote in subscriptions[l] {
          assert Subscribed(subscriptions, l, remote);
          return;
        }
        rest := rest - {l};
      }
      assert !Wanted(subscriptions, remote);
      var hosted := IsHosted(remote);
      if !hosted {
        joined := joined - {remote};
      }
    }

    /** When something changed, the caller's map is cleared and filled in; otherwise it is left alone. */
    method GetSubscriptions(subscribers: Index) returns (result: Index)
      requires ListsOk(subscriptions)
      modifies this`dirty
      ensures !dirty
      ensures if old(dirty) then IsInverse(result, subscriptions, servers) else result == subscribers
    {
      if !dirty {
        return subscribers;
      }
      dirty := false;
      result := map[];
      var rest := subscriptions.Keys;
      ghost var done: Subscriptions := map[];
      while rest != {}
        invariant !dirty
        invariant rest <= subscriptions.Keys
        invariant done == subscriptions - rest
        invariant IsInverse(result, done, servers)
        decreases rest
      {
        var local :| local in rest;
        rest := rest - {local};
        var list := subscriptions[local];
        for j := 0 to |list|
          invariant !dirty
          invariant IsInverse(result, done[local := list[..j]], servers)
        {
          result := Deliver(result, local, list[j], done[local := list[..j]]);
          assert list[..j + 1] == list[..j] + [list[j]];
          assert done[local := list[..j]][local := list[..j] + [list[j]]] == done[local := list[..j + 1]];
        }
        assert list[..|list|] == list;
        done := done[local := list];
      }
      assert done == subscriptions;
    }

    /** Appends every server whose cluster is `local` to the targets of `remote`. */
    method Deliver(index: Index, local: ClusterID, remote: ClusterID, ghost subs: Subscriptions)
      returns (result: Index)
      requires IsInverse(index, subs, servers)
      requires local in subs && remote !in subs[local]
      ensures IsInverse(result, subs[local := subs[local] + [remote]], servers)
    {
      result := index;
      for s := 0 to |servers|
        invariant forall r | r != remote :: Targets(result, r) == Targets(index, r)
        invariant NoDuplicates(Targets(result, remote))
        invariant forall t: nat :: t in Targets(result, remote) <==>
                    t in Targets(index, remote) || (t < s && servers[t] == local)
      {
        if local == servers[s] {
          ghost var before := Targets(result, remote);
          assert s !in before by {
            assert InverseAt(Targets(index, remote), subs, servers, remote);
          }
          result := result[remote := Targets(result, remote) + [s]];
          assert Targets(result, remote) == before + [s];
        }
      }
      DeliveredInverse(index, result, local, remote, subs);
    }

    lemma DeliveredInverse(index: Index, result: Index, local: ClusterID, remote: ClusterID, subs: Subscriptions)
      requires IsInverse(index, subs, servers) && local in subs
      requires forall r | r != remote :: Targets(result, r) == Targets(index, r)
      requires NoDuplicates(Targets(result, remote))
      requires forall t: nat :: t in Targets(result, remote) <==>
                 t in Targets(index, remote) || (t < |servers| && servers[t] == local)
      ensures IsInverse(result, subs[local := subs[local] + [remote]], servers)
    {
      var next := subs[local := subs[local] + [remote]];
      forall r ensures InverseAt(Targets(result, r), next, servers, r) {
        assert InverseAt(Targets(index, r), subs, servers, r);
        assert forall l :: Subscribed(next, l, r) <==> Subscribed(subs, l, r) || (l == local && r == remote);
      }
    }

    method ReadVerify(bb: TimeBuffer, ret: int, now: Time, delta: int) returns (size: nat)
      requires bb.Valid()
      modifies this`sequences, bb`time
      ensures bb.Valid()
      ensures (sequences, size) == Verify(old(sequences), Heard(ret, old(bb.View()), now, delta))
      ensures bb.View() == if ret == 0 then old(bb.View())
                           else old(bb.View()).(time := TimeSync.ToLocal(old(bb.time), delta))
    {
      if ret == 0 {
        return 0;
      }
      bb.PrepareRead(delta);
      if bb.count <= 0 {
        return 0;
      }
      var time := bb.time;
      if time + PACKET_LIFE_TIME < now {
        return 0;
      }
      var id := bb.srcId;
      if id !in sequences {
        sequences := sequences[id := TIME_MIN];
      }
      if sequences[id] > time {
        assert sequences == old(sequences)[id := sequences[id]];
        return 0;
      }
      sequences := sequences[id := time];
      assert sequences == old(sequences)[id := time];
      return bb.count;
    }
  }

  // ----- every series of operations -----

  /** A network together with the map that the router keeps and what it showed when last refreshed. */
  datatype Routed = Routed(net: Net, index: Index, seen: Subscriptions, seenIds: seq<ClusterID>)

  datatype Op =
    | DoSubscribe(local: ClusterID, remote: ClusterID)
    | DoUnsubscribe(local: ClusterID, remote: ClusterID)
    | DoRun(s: nat, id: ClusterID)
    | Refresh(result: Index)     // getSubscriptions
    | Lookup(remote: ClusterID)  // operator[] on the router's map

  /** Unsubscribe needs a live pair; what a refresh may leave is `GetSubscriptions`' contract. */
  ghost predicate Allowed(r: Routed, op: Op) {
    match op
    case DoSubscribe(_, _) => true
    case DoUnsubscribe(local, remote) => Subscribed(r.net.subs, local, remote)
    case DoRun(s, _) => s < |r.net.ids|
    case Refresh(result) =>
      if r.net.dirty then IsInverse(result, r.net.subs, r.net.ids) else result == r.index
    case Lookup(_) => true
  }

  /** A refresh of a clean network looks at nothing. */
  ghost function Do(r: Routed, op: Op): Routed
    requires Allowed(r, op)
  {
    match op
    case DoSubscribe(local, remote) => r.(net := Subscribe(r.net, local, remote))
    case DoUnsubscribe(local, remote) => r.(net := Unsubscribe(r.net, local, remote))
    case DoRun(s, id) => r.(net := Renumber(r.net, s, id))
    case Refresh(result) =>
      if r.net.dirty then Routed(r.net.(dirty := false), result, r.net.subs, r.net.ids) else r
    case Lookup(remote) => r.(index := r.index[remote := Targets(r.index, remote)])
  }

  /** Any series of operations; one that is not allowed is skipped. */
  ghost function DoAll(r: Routed, ops: seq<Op>): Routed
    decreases |ops|
  {
    if ops == [] then r
    else if Allowed(r, ops[0]) then DoAll(Do(r, ops[0]), ops[1..])
    else DoAll(r, ops[1..])
  }

  function Initial(ids: seq<ClusterID>): Routed {
    Routed(Net(ids, map[], {}, false), map[], map[], ids)
  }

  /** The joined groups are exactly the subscribed clusters that are not hosted here. */
  ghost predicate GroupsExact(n: Net) {
    forall remote :: GroupExactAt(n.joined, n.subs, n.ids, remote)
  }

  ghost predicate GroupExactAt(joined: set<ClusterID>, subs: Subscriptions, ids: seq<ClusterID>, remote: ClusterID) {
    remote in joined <==> Wanted(subs, remote) && remote !in ids
  }

  ghost predicate SameRelation(a: Subscriptions, b: Subscriptions) {
    forall local, remote :: Subscribed(a, local, remote) <==> Subscribed(b, local, remote)
  }

  ghost predicate SameSubscriptions(subs: Subscriptions, a: ClusterID, b: ClusterID) {
    forall remote :: SameAt(subs, a, b, remote)
  }

  predicate SameAt(subs: Subscriptions, a: ClusterID, b: ClusterID, remote: ClusterID) {
    Subscribed(subs, a, remote) <==> Subscribed(subs, b, remote)
  }

  ghost predicate Inv(r: Routed) {
    && ListsOk(r.net.subs)
    && |r.seenIds| == |r.net.ids|
    && IsInverse(r.index, r.seen, r.seenIds)
    && (!r.net.dirty ==> SameRelation(r.seen, r.net.subs))
  }

  lemma SubscribeKeepsGroups(n: Net, local: ClusterID, remote: ClusterID)
    requires GroupsExact(n)
    ensures GroupsExact(Subscribe(n, local, remote))
  {
    var m := Subscribe(n, local, remote);
    assert forall l, x :: Subscribed(m.subs, l, x) <==> Subscribed(n.subs, l, x) || (l == local && x == remote);
    assert Subscribed(m.subs, local, remote);
    forall x ensures GroupExactAt(m.joined, m.subs, m.ids, x) {
      assert GroupExactAt(n.joined, n.subs, n.ids, x);
      if Wanted(n.subs, x) {
        var l :| Subscribed(n.subs, l, x);
        assert Subscribed(m.subs, l, x);
      }
    }
  }

  lemma UnsubscribeKeepsGroups(n: Net, local: ClusterID, remote: ClusterID)
    requires GroupsExact(n) && ListsOk(n.subs) && Subscribed(n.subs, local, remote)
    ensures GroupsExact(Unsubscribe(n, local, remote))
  {
    var m := Unsubscribe(n, local, remote);
    WithoutRemoves(n.subs[local], remote);
    assert forall l, x :: Subscribed(m.subs, l, x) <==> Subscribed(n.subs, l, x) && !(l == local && x == remote);
    forall x ensures GroupExactAt(m.joined, m.subs, m.ids, x) {
      assert GroupExactAt(n.joined, n.subs, n.ids, x);
      if x != remote && Wanted(n.subs, x) {
        var l :| Subscribed(n.subs, l, x);
        assert Subscribed(m.subs, l, x);
      }
      assert Subscribed(n.subs, local, remote);
    }
  }

  lemma OpKeepsInv(r: Routed, op: Op)
    requires Inv(r) && Allowed(r, op)
    ensures Inv(Do(r, op))
  {
    match op {
      case DoSubscribe(_, _) =>
      case DoUnsubscribe(local, remote) => WithoutRemoves(r.net.subs[local], remote);
      case DoRun(_, _) =>
      case Refresh(_) =>
      case Lookup(remote) => LookupKeepsInverse(r.index, remote, r.seen, r.seenIds);
    }
  }

  lemma LookupKeepsInverse(index: Index, remote: ClusterID, subs: Subscriptions, ids: seq<ClusterID>)
    requires IsInverse(index, subs, ids)
    ensures IsInverse(index[remote := Targets(index, remote)], subs, ids)
  {
    var next := index[remote := Targets(index, remote)];
    forall x ensures InverseAt(Targets(next, x), subs, ids, x) {
      assert InverseAt(Targets(index, x), subs, ids, x);
    }
  }

  /** The groups stay exact as long as no server changes its ID. */
  ghost predicate NoRuns(ops: seq<Op>) {
    forall i | 0 <= i < |ops| :: !ops[i].DoRun?
  }

  lemma {:induction false} AllKeepInv(r: Routed, ops: seq<Op>)
    requires Inv(r)
    ensures Inv(DoAll(r, ops))
    ensures NoRuns(ops) && GroupsExact(r.net) && (r.net.dirty || r.seenIds == r.net.ids) ==>
              var n := DoAll(r, ops);
              GroupsExact(n.net) && n.net.ids == r.net.ids && (n.net.dirty || n.seenIds == n.net.ids)
    decreases |ops|
  {
    if ops != [] {
      if Allowed(r, ops[0]) {
        OpKeepsInv(r, ops[0]);
        if GroupsExact(r.net) {
          match ops[0] {
            case DoSubscribe(local, remote) => SubscribeKeepsGroups(r.net, local, remote);
            case DoUnsubscribe(local, remote) => UnsubscribeKeepsGroups(r.net, local, remote);
            case _ =>
          }
        }
        AllKeepInv(Do(r, ops[0]), ops[1..]);
      } else {
        AllKeepInv(r, ops[1..]);
      }
    }
  }

  lemma SameInverse(index: Index, a: Subscriptions, b: Subscriptions, ids: seq<ClusterID>)
    requires IsInverse(index, a, ids) && SameRelation(a, b)
    ensures IsInverse(index, b, ids)
  {
    forall r ensures InverseAt(Targets(index, r), b, ids, r) {
      assert InverseAt(Targets(index, r), a, ids, r);
    }
  }

  /**
   * After every series of operations, RUN among them: no list holds a cluster twice, the router's index
   * is the inverse of what it last saw, and while `dirty` is false that is the relation as it stands.
   * Then the index is right exactly when each server's ID subscribes to what the ID did that it had
   * when the index was made.
   */
  lemma EverySeriesKeepsIndex(ids: seq<ClusterID>, ops: seq<Op>)
    ensures var r := DoAll(Initial(ids), ops);
            && ListsOk(r.net.subs)
            && IsInverse(r.index, r.seen, r.seenIds)
            && |r.seenIds| == |r.net.ids|
            && (!r.net.dirty ==>
                  && SameRelation(r.seen, r.net.subs)
                  && (IsInverse(r.index, r.net.subs, r.net.ids) <==>
                        forall s | 0 <= s < |r.seenIds| :: SameSubscriptions(r.net.subs, r.seenIds[s], r.net.ids[s])))
  {
    AllKeepInv(Initial(ids), ops);
    var r := DoAll(Initial(ids), ops);
    if !r.net.dirty {
      SameInverse(r.index, r.seen, r.net.subs, r.seenIds);
      IndexRightIff(r.index, r.net.subs, r.seenIds, r.net.ids);
    }
  }

  /**
   * With the server IDs fixed, the joined groups are moreover exactly the subscribed remote clusters,
   * and while `dirty` is false the index is the inverse of the relation as it stands.
   */
  lemma EverySeriesKeepsIndexAndGroups(ids: seq<ClusterID>, ops: seq<Op>)
    requires NoRuns(ops)
    ensures var r := DoAll(Initial(ids), ops);
            && GroupsExact(r.net)
            && r.net.ids == ids
            && (!r.net.dirty ==> IsInverse(r.index, r.net.subs, ids))
  {
    AllKeepInv(Initial(ids), ops);
    var r := DoAll(Initial(ids), ops);
    if !r.net.dirty {
      SameInverse(r.index, r.seen, r.net.subs, r.seenIds);
    }
  }

  /** Whether the last operation on the pair was a subscribe; `before` if there was none. */
  function LastWasSubscribe(before: bool, ops: seq<Op>, local: ClusterID, remote: ClusterID): bool
    decreases |ops|
  {
    if ops == [] then before
    else
      var now := if ops[0] == DoSubscribe(local, remote) then true
                 else if ops[0] == DoUnsubscribe(local, remote) then false else before;
      LastWasSubscribe(now, ops[1..], local, remote)
  }

  /** After any operations a pair is subscribed exactly when the last of them on it was a subscribe. */
  lemma {:induction false} SubscribedAfter(r: Routed, ops: seq<Op>, local: ClusterID, remote: ClusterID)
    requires Inv(r)
    ensures Subscribed(DoAll(r, ops).net.subs, local, remote) <==>
            LastWasSubscribe(Subscribed(r.net.subs, local, remote), ops, local, remote)
    decreases |ops|
  {
    if ops != [] {
      if Allowed(r, ops[0]) {
        OpKeepsInv(r, ops[0]);
        match ops[0] {
          case DoSubscribe(l, x) => SubscribeMeans(r.net, l, x);
          case DoUnsubscribe(l, x) => UnsubscribeMeans(r.net, l, x);
          case _ =>
        }
        SubscribedAfter(Do(r, ops[0]), ops[1..], local, remote);
      } else {
        SubscribedAfter(r, ops[1..], local, remote);
      }
    }
  }

  // ----- when a server's ID changes (RUN), which does not set `dirty` -----

  /** An index made for some IDs is right for others exactly when these subscribe to the same, server by server. */
  lemma IndexRightIff(index: Index, subs: Subscriptions, was: seq<ClusterID>, ids: seq<ClusterID>)
    requires IsInverse(index, subs, was) && |was| == |ids|
    ensures IsInverse(index, subs, ids) <==> forall s | 0 <= s < |was| :: SameSubscriptions(subs, was[s], ids[s])
  {
    forall remote
      ensures InverseAt(Targets(index, remote), subs, ids, remote) <==>
              forall s | 0 <= s < |was| :: SameAt(subs, was[s], ids[s], remote)
    {
      IndexRightAtIff(Targets(index, remote), subs, was, ids, remote);
    }
    if IsInverse(index, subs, ids) {
      forall s, remote | 0 <= s < |was| ensures SameAt(subs, was[s], ids[s], remote) {
        assert InverseAt(Targets(index, remote), subs, ids, remote);
      }
    }
  }

  lemma IndexRightAtIff(targets: seq<nat>, subs: Subscriptions, was: seq<ClusterID>, ids: seq<ClusterID>,
                        remote: ClusterID)
    requires InverseAt(targets, subs, was, remote) && |was| == |ids|
    ensures InverseAt(targets, subs, ids, remote) <==>
            forall s | 0 <= s < |was| :: SameAt(subs, was[s], ids[s], remote)
  {
    assert forall s: nat | s < |was| :: s in targets <==> Subscribed(subs, was[s], remote);
  }

  /** One RUN leaves a right index right exactly when the old and the new ID have the same subscriptions. */
  lemma IndexAfterRunIff(index: Index, n: Net, s: nat, id: ClusterID)
    requires IsInverse(index, n.subs, n.ids) && s < |n.ids|
    ensures IsInverse(index, n.subs, Renumber(n, s, id).ids) <==> SameSubscriptions(n.subs, n.ids[s], id)
  {
    var ids := Renumber(n, s, id).ids;
    IndexRightIff(index, n.subs, n.ids, ids);
    assert ids[s] == id && forall t | 0 <= t < |ids| && t != s :: ids[t] == n.ids[t];
  }

  /** Some server other than `s` runs as cluster `id`. */
  predicate HostedBesides(ids: seq<ClusterID>, s: nat, id: ClusterID) {
    exists t :: 0 <= t < |ids| && t != s && ids[t] == id
  }

  /**
   * The groups stay right exactly when the ID does not change; or the new ID, if anybody subscribes to
   * it, was hosted here already, and the old one, if anybody does, still is by another server.
   */
  lemma GroupsAfterRunIff(n: Net, s: nat, id: ClusterID)
    requires GroupsExact(n) && s < |n.ids|
    ensures GroupsExact(Renumber(n, s, id)) <==>
              || n.ids[s] == id
              || ((Wanted(n.subs, id) ==> id in n.ids)
                  && (Wanted(n.subs, n.ids[s]) ==> HostedBesides(n.ids, s, n.ids[s])))
  {
    var was, ids := n.ids[s], n.ids[s := id];
    if was == id {
      assert ids == n.ids;
    } else {
      assert ids[s] == id && n.ids[s] == was;
      assert forall t | 0 <= t < |ids| && t != s :: ids[t] == n.ids[t];
      assert HostedBesides(n.ids, s, was) <==> was in ids;
      forall x
        ensures GroupExactAt(n.joined, n.subs, ids, x) <==>
                  if x == was then !Wanted(n.subs, was) || was in ids
                  else if x == id then !Wanted(n.subs, id) || id in n.ids
                  else true
      {
        assert GroupExactAt(n.joined, n.subs, n.ids, x);
      }
      assert GroupsExact(Renumber(n, s, id)) ==>
               GroupExactAt(n.joined, n.subs, ids, was) && GroupExactAt(n.joined, n.subs, ids, id);
    }
  }
}
