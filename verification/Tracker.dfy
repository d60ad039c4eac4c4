/** The registry that utils/tracker.cpp keeps and how each command changes it. */
module Tracker {
  import opened Prelude

  const RESERVED_CLUSTER_ID: ClusterID := 1024
  const ENV_UPDATE_TIME: Time := 600 * 1_000_000_000

  datatype Addr = Addr(ip: uint32, port: uint16)

  datatype Command = Id(newId: ClusterID) | Get(what: ClusterID) | List | Other

  datatype Reply = NoReply | Run(id: ClusterID) | Drop(id: ClusterID) | Point(id: ClusterID, addr: Addr)
                 | Listing(ids: set<ClusterID>)

  datatype Registry = Registry(clusters: map<ClusterID, Addr>, updateTime: map<ClusterID, Time>, next: ClusterID)

  /** What `findByValue` may return: some key of `addr`, or 0 when there is none. */
  ghost predicate IsHolder(clusters: map<ClusterID, Addr>, addr: Addr, holder: ClusterID) {
    if holder in clusters && clusters[holder] == addr then true
    else holder == 0 && addr !in clusters.Values
  }

  predicate IsOld(r: Registry, id: ClusterID, now: Time)
    requires id in r.updateTime
  {
    r.updateTime[id] < now - ENV_UPDATE_TIME
  }

  /** Every registered ID has an update time, so `updateTime[id]` never inserts one for it. */
  ghost predicate Stamped(r: Registry) {
    r.clusters.Keys <= r.updateTime.Keys
  }

  /** The IDs that `LIST` names. */
  function Live(r: Registry, now: Time): set<ClusterID>
    requires Stamped(r)
  {
    set id | id in r.clusters && !IsOld(r, id, now)
  }

  function Register(r: Registry, id: ClusterID, from: Addr, now: Time): Registry {
    r.(clusters := r.clusters[id := from], updateTime := r.updateTime[id := now])
  }

  /** The command asks for an ID and its sender has none. */
  predicate Issues(holder: ClusterID, cmd: Command) {
    cmd == Id(0) && holder == 0
  }

  /** One round of `run`: the new registry and the reply to `from`. */
  function Handle(r: Registry, holder: ClusterID, from: Addr, cmd: Command, now: Time): (Registry, Reply)
    requires Stamped(r)
  {
    match cmd
    case Id(newId) =>
      if newId != 0 then
        var kept := if newId != holder then r.clusters - {holder} else r.clusters;
        (Register(r.(clusters := kept), newId, from, now), NoReply)
      else if holder == 0 then
        (Register(r, r.next, from, now).(next := (r.next + 1) % 0x1_0000_0000), Run(r.next))
      else
        (r.(updateTime := r.updateTime[holder := now]), Run(holder))
    case Get(what) =>
      if what !in r.clusters then (r, Drop(what))
      else if IsOld(r, what, now) then
        if what > RESERVED_CLUSTER_ID then (r.(clusters := r.clusters - {what}), Drop(what)) else (r, NoReply)
      else (r, Point(what, r.clusters[what]))
    case List => (r, if Live(r, now) == {} then NoReply else Listing(Live(r, now)))
    case Other => (r, NoReply)
  }

  class Tracker {
    var clusters: map<ClusterID, Addr>
    var updateTime: map<ClusterID, Time>
    var next: ClusterID

    ghost function View(): Registry
      reads this
    {
      Registry(clusters, updateTime, next)
    }

    constructor ()
      ensures View() == Registry(map[], map[], RESERVED_CLUSTER_ID + 1)
    {
      clusters, updateTime, next := map[], map[], RESERVED_CLUSTER_ID + 1;
    }

    method FindByValue(value: Addr) returns (holder: ClusterID)
      ensures IsHolder(clusters, value, holder)
    {
      var rest := clusters.Keys;
      while rest != {}
        invariant rest <= clusters.Keys
        invariant forall id | id in clusters.Keys - rest :: clusters[id] != value
        decreases rest
      {
        var id :| id in rest;
        if clusters[id] == value {
          return id;
        }
        rest := rest - {id};
      }
      return 0;
    }

    method GetNextClusterId() returns (id: ClusterID)
      modifies this`next
      ensures id == old(next) && next == (old(next) + 1) % 0x1_0000_0000
    {
      id := next;
      next := (next + 1) % 0x1_0000_0000;
    }

    method ListLive(now: Time) returns (ids: set<ClusterID>)
      requires Stamped(View())
      ensures ids == Live(View(), now)
    {
      var rest := clusters.Keys;
      ids := {};
      while rest != {}
        invariant rest <= clusters.Keys
        invariant ids == set id | id in clusters.Keys - rest && !IsOld(View(), id, now)
        decreases rest
      {
        var id :| id in rest;
        if !(updateTime[id] < now - ENV_UPDATE_TIME) {
          ids := ids + {id};
        }
        rest := rest - {id};
      }
    }

    method Serve(from: Addr, cmd: Command, now: Time) returns (reply: Reply, ghost holder: ClusterID)
      requires Stamped(View())
      modifies this
      ensures IsHolder(old(clusters), from, holder)
      ensures (View(), reply) == Handle(old(View()), holder, from, cmd, now) && Stamped(View())
    {
      reply := NoReply;
      var cluster := FindByValue(from);
      holder := cluster;
      match cmd {
        case Id(_) =>
          var newId := cmd.newId;
          if newId != 0 {
            if newId != cluster {
              clusters := clusters - {cluster};
            }
            clusters := clusters[newId := from];
            updateTime := updateTime[newId := now];
          } else {
            if cluster == 0 {
              newId := GetNextClusterId();
              clusters := clusters[newId := from];
            } else {
              newId := cluster;
            }
            updateTime := updateTime[newId := now];
            reply := Run(newId);
          }
        case Get(what) =>
          if what !in clusters {
            reply := Drop(what);
          } else if updateTime[what] < now - ENV_UPDATE_TIME {
            if what > RESERVED_CLUSTER_ID {
              clusters := clusters - {what};
              reply := Drop(what);
            }
          } else {
            reply := Point(what, clusters[what]);
          }
        case List =>
          var ids := ListLive(now);
          if ids != {} {
            reply := Listing(ids);
          }
        case Other =>
      }
    }
  }

  // ----- the invariant of the registry -----

  ghost predicate Injective(m: map<ClusterID, Addr>) {
    forall i, j | i in m && j in m && m[i] == m[j] :: i == j
  }

  ghost predicate Sound(r: Registry) {
    Injective(r.clusters) && 0 !in r.clusters && Stamped(r)
  }

  /** Every command keeps the registry sound, except the one that issues ID 0 after a wrap. */
  lemma SoundnessKeptIff(r: Registry, holder: ClusterID, from: Addr, cmd: Command, now: Time)
    requires Sound(r) && IsHolder(r.clusters, from, holder)
    ensures Sound(Handle(r, holder, from, cmd, now).0) <==> !(Issues(holder, cmd) && r.next == 0)
  {
    var n := Handle(r, holder, from, cmd, now).0;
    if Issues(holder, cmd) && r.next == 0 {
      assert 0 in n.clusters;
    } else {
      assert 0 !in n.clusters;
      forall i, j | i in n.clusters && j in n.clusters && n.clusters[i] == n.clusters[j] ensures i == j {
        assert i in r.clusters && r.clusters[i] == from ==> i == holder;
        assert j in r.clusters && r.clusters[j] == from ==> j == holder;
      }
    }
  }

  /** In a sound registry `findByValue` inverts the map, whatever order it iterates in. */
  lemma FindInverts(r: Registry, id: ClusterID, holder: ClusterID)
    requires Sound(r) && id in r.clusters && IsHolder(r.clusters, r.clusters[id], holder)
    ensures holder == id
  {
  }

  /**
   * An address that is told `RUN n` is registered under n, and asking again, at any time while it
   * is registered, yields the same n and moves no entry.
   */
  lemma RepeatedRequestSameId(r: Registry, holder: ClusterID, from: Addr, now: Time, holder2: ClusterID, later: Time)
    requires Sound(r) && IsHolder(r.clusters, from, holder) && r.next != 0
    ensures Handle(r, holder, from, Id(0), now).1.Run?
    ensures var (n, reply) := Handle(r, holder, from, Id(0), now);
            && Stamped(n) && reply.id in n.clusters && n.clusters[reply.id] == from
            && (IsHolder(n.clusters, from, holder2) ==>
                  Handle(n, holder2, from, Id(0), later).1 == reply
                  && Handle(n, holder2, from, Id(0), later).0.clusters == n.clusters)
  {
    SoundnessKeptIff(r, holder, from, Id(0), now);
    var n := Handle(r, holder, from, Id(0), now).0;
    if IsHolder(n.clusters, from, holder2) {
      FindInverts(n, Handle(r, holder, from, Id(0), now).1.id, holder2);
    }
  }

  /**
   * At a fixed clock, LIST names exactly the IDs for which GET answers POINT, each nonzero and with
   * its registered address; and no GET, though it may delete, changes what LIST names.
   */
  lemma ListAgreesWithGet(r: Registry, holder: ClusterID, from: Addr, id: ClusterID, now: Time)
    requires Sound(r)
    ensures id in Live(r, now) <==> Handle(r, holder, from, Get(id), now).1.Point?
    ensures id in Live(r, now) ==> id != 0 && Handle(r, holder, from, Get(id), now).1 == Point(id, r.clusters[id])
    ensures Stamped(Handle(r, holder, from, Get(id), now).0)
    ensures Live(Handle(r, holder, from, Get(id), now).0, now) == Live(r, now)
  {
  }

  // ----- what each command does, in the terms of a client -----

  /** Entries of other addresses, and when they were updated, are as before. */
  ghost predicate OthersUntouched(r: Registry, n: Registry, from: Addr) {
    && (forall id :: id in r.clusters && r.clusters[id] != from <==> id in n.clusters && n.clusters[id] != from)
    && forall id | id in r.clusters && r.clusters[id] != from ::
         n.clusters[id] == r.clusters[id] && id in r.updateTime && id in n.updateTime
         && n.updateTime[id] == r.updateTime[id]
  }

  /**
   * A server that announces an ID, new or its own, is registered under it and under no other from then
   * on: for ten minutes GET answers with its address, later it does not.  Others' entries stay, unless
   * the ID was another's.
   */
  lemma AnnouncementMeans(r: Registry, holder: ClusterID, from: Addr, id: ClusterID, now: Time,
                          h2: ClusterID, asker: Addr, later: Time)
    requires Sound(r) && IsHolder(r.clusters, from, holder) && id != 0
    ensures var (n, reply) := Handle(r, holder, from, Id(id), now);
            && Sound(n) && reply == NoReply && n.next == r.next
            && (forall x :: x in n.clusters && n.clusters[x] == from <==> x == id)
            && (Handle(n, h2, asker, Get(id), later).1 == Point(id, from) <==> later <= now + 600_000_000_000)
            && ((id in r.clusters ==> r.clusters[id] == from) ==> OthersUntouched(r, n, from))
  {
    SoundnessKeptIff(r, holder, from, Id(id), now);
  }

  /**
   * A server that asks is told an ID: its own if it is registered, else the next of the counter; it is
   * registered under that and under no other from then on, and GET answers with its address for ten
   * minutes.  Others' entries stay, unless the counter's ID was another's.
   */
  lemma RequestMeans(r: Registry, holder: ClusterID, from: Addr, now: Time, h2: ClusterID, asker: Addr, later: Time)
    requires Sound(r) && IsHolder(r.clusters, from, holder) && r.next != 0
    ensures var (n, reply) := Handle(r, holder, from, Id(0), now);
            && Sound(n) && reply.Run?
            && (if from in r.clusters.Values
                then reply.id in r.clusters && r.clusters[reply.id] == from && n.next == r.next
                else reply.id == r.next && n.next == if r.next == 0xFFFF_FFFF then 0 else r.next + 1)
            && (forall x :: x in n.clusters && n.clusters[x] == from <==> x == reply.id)
            && ((reply.id in r.clusters ==> r.clusters[reply.id] == from) ==> OthersUntouched(r, n, from))
            && (Handle(n, h2, asker, Get(reply.id), later).1 == Point(reply.id, from) <==>
                  later <= now + 600_000_000_000)
  {
    SoundnessKeptIff(r, holder, from, Id(0), now);
  }

  /**
   * GET: an unregistered ID is answered DROP.  A registered one is answered POINT and its address until
   * its last update is more than ten minutes past; then DROP, and it is deleted, if it is greater than
   * 1024, and nothing if it is not.  No other entry changes.
   */
  lemma GetMeans(r: Registry, holder: ClusterID, from: Addr, what: ClusterID, now: Time)
    requires Sound(r)
    ensures var (n, reply) := Handle(r, holder, from, Get(what), now);
            && n.next == r.next && n.updateTime == r.updateTime
            && (forall x | x != what :: x in n.clusters <==> x in r.clusters)
            && (forall x | x in n.clusters :: x in r.clusters && n.clusters[x] == r.clusters[x])
            && if what !in r.clusters then reply == Drop(what) && what !in n.clusters
               else if now - r.updateTime[what] <= 600_000_000_000 then
                 reply == Point(what, r.clusters[what]) && what in n.clusters
               else if what > 1024 then reply == Drop(what) && what !in n.clusters
               else reply == NoReply && what in n.clusters
  {
  }

  /** LIST names the IDs updated within ten minutes, and says nothing if there are none; it changes nothing. */
  lemma ListMeans(r: Registry, holder: ClusterID, from: Addr, now: Time)
    requires Sound(r)
    ensures var (n, reply) := Handle(r, holder, from, List, now);
            var live := set id | id in r.clusters && now - r.updateTime[id] <= 600_000_000_000;
            n == r && reply == if live == {} then NoReply else Listing(live)
    ensures Handle(r, holder, from, Other, now) == (r, NoReply)
  {
    assert Live(r, now) == set id | id in r.clusters && now - r.updateTime[id] <= 600_000_000_000;
  }
}
