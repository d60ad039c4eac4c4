/**
 * Tracker and servers over a network that may lose, duplicate, delay and reorder datagrams.
 *
 * `net` only grows: a datagram in it may be delivered never, once or again and again, at any time.
 * The time server takes part as a server that is configured with its own ID.  Clients may send any
 * GET or LIST, and RUN with an ID that no other server was ever given and the tracker does not issue.
 */
module IdProtocol {
  import opened Prelude
  import opened Tracker

  /** The ID that the first server to ask is issued. */
  const FIRST_ID: ClusterID := RESERVED_CLUSTER_ID + 1

  datatype Msg = ToTracker(from: Addr, cmd: Command) | ToServer(addr: Addr, id: ClusterID)

  /**
   * `owner` records, for every ID ever configured or issued, the address it was given to; `clock` is
   * what the tracker's clock showed last, which runs forward.
   */
  datatype State = State(reg: Registry, servers: map<Addr, ClusterID>, net: set<Msg>, owner: map<ClusterID, Addr>,
                         clock: Time)

  datatype Action =
    | Announce(addr: Addr)                                        // Server::requestIdFromTracker
    | ClientAsks(addr: Addr, cmd: Command)
    | ClientRuns(addr: Addr, id: ClusterID)                       // Commander::createNetwork
    | TrackerReceives(m: Msg, holder: ClusterID, now: Time)       // one round of Tracker::run
    | ServerReceives(m: Msg)                                      // RUN in Server::parseCommand

  ghost predicate Enabled(s: State, a: Action) {
    match a
    case Announce(addr) => addr in s.servers
    case ClientAsks(_, cmd) => !cmd.Id?
    case ClientRuns(addr, id) =>
      (0 < id <= RESERVED_CLUSTER_ID || id == TIME_SERVER_ID) && (id in s.owner ==> s.owner[id] == addr)
    case TrackerReceives(m, holder, now) =>
      m in s.net && m.ToTracker? && IsHolder(s.reg.clusters, m.from, holder) && s.clock <= now
    case ServerReceives(m) => m in s.net && m.ToServer? && m.addr in s.servers
  }

  ghost function Next(s: State, a: Action): State
    requires Stamped(s.reg) && Enabled(s, a)
  {
    match a
    case Announce(addr) => s.(net := s.net + {ToTracker(addr, Id(s.servers[addr]))})
    case ClientAsks(addr, cmd) => s.(net := s.net + {ToTracker(addr, cmd)})
    case ClientRuns(addr, id) => s.(net := s.net + {ToServer(addr, id)}, owner := s.owner[id := addr])
    case TrackerReceives(m, holder, now) =>
      var (reg, reply) := Handle(s.reg, holder, m.from, m.cmd, now);
      var s' := s.(reg := reg, clock := now,
                   net := if reply.Run? then s.net + {ToServer(m.from, reply.id)} else s.net);
      if Issues(holder, m.cmd) then s'.(owner := s.owner[s.reg.next := m.from]) else s'
    case ServerReceives(m) => s.(servers := s.servers[m.addr := m.id])
  }

  lemma StampedKept(s: State, a: Action)
    requires Stamped(s.reg) && Enabled(s, a)
    ensures Stamped(Next(s, a).reg)
  {
  }

  /** The configured IDs are pairwise different; 0 means that a server has none. */
  ghost predicate Distinct(config: map<Addr, ClusterID>) {
    forall x, y | x in config && y in config && config[x] == config[y] :: x == y || config[x] == 0
  }

  ghost function ConfiguredAt(config: map<Addr, ClusterID>, id: ClusterID): Addr
    requires id in config.Values
  {
    var addr :| addr in config && config[addr] == id; addr
  }

  /** A tracker that has just started, and servers with the IDs they were started with. */
  ghost function Start(config: map<Addr, ClusterID>): State {
    State(Registry(map[], map[], FIRST_ID), config, {},
          map id | id in config.Values && id != 0 :: ConfiguredAt(config, id), 0)
  }

  /** Any series of actions; one that is not enabled is skipped. */
  ghost function Run(s: State, actions: seq<Action>): (r: State)
    requires Stamped(s.reg)
    ensures Stamped(r.reg)
    decreases |actions|
  {
    if actions == [] then s
    else if Enabled(s, actions[0]) then
      StampedKept(s, actions[0]);
      Run(Next(s, actions[0]), actions[1..])
    else Run(s, actions[1..])
  }

  /** The action makes the tracker issue the time server's ID, the last one before a wrap. */
  ghost predicate Exhausts(s: State, a: Action) {
    a.TrackerReceives? && a.m.ToTracker? && Issues(a.holder, a.m.cmd) && s.reg.next == TIME_SERVER_ID
  }

  ghost predicate NeverExhausts(s: State, actions: seq<Action>)
    requires Stamped(s.reg)
    decreases |actions|
  {
    actions == [] ||
    if Enabled(s, actions[0]) then
      StampedKept(s, actions[0]);
      !Exhausts(s, actions[0]) && NeverExhausts(Next(s, actions[0]), actions[1..])
    else NeverExhausts(s, actions[1..])
  }

  ghost predicate UniqueIds(s: State) {
    forall x, y | x in s.servers && y in s.servers && s.servers[x] == s.servers[y] :: x == y || s.servers[x] == 0
  }

  // ----- ownership -----

  ghost predicate OwnedBy(s: State, id: ClusterID, addr: Addr) {
    id in s.owner && s.owner[id] == addr
  }

  /** Registry entries, datagrams in flight and servers agree on who owns an ID. */
  ghost predicate Agreed(s: State) {
    && Sound(s.reg) && 0 !in s.owner && RESERVED_CLUSTER_ID < s.reg.next
    && (forall id | id in s.reg.clusters :: OwnedBy(s, id, s.reg.clusters[id]))
    && (forall m | m in s.net :: MsgAgreed(s, m))
    && (forall addr | addr in s.servers :: s.servers[addr] == 0 || OwnedBy(s, s.servers[addr], addr))
  }

  ghost predicate MsgAgreed(s: State, m: Msg) {
    match m
    case ToServer(addr, id) => OwnedBy(s, id, addr)
    case ToTracker(from, cmd) => cmd.Id? && cmd.newId != 0 ==> OwnedBy(s, cmd.newId, from)
  }

  /** No server asks for an ID any more. */
  ghost predicate Settled(s: State) {
    && (forall addr | addr in s.servers :: s.servers[addr] != 0)
    && (forall m | m in s.net :: m.ToTracker? ==> m.cmd != Id(0))
  }

  /** The next ID to be issued is not owned, as long as there is one to issue. */
  ghost predicate NextIsFree(s: State) {
    Settled(s) || forall id | id in s.owner :: id < s.reg.next || id == TIME_SERVER_ID
  }

  ghost predicate Inv(s: State) {
    Agreed(s) && NextIsFree(s)
  }

  /** What the tracker issues was nobody's; what it is told was the sender's already. */
  lemma TrackerKeepsOwners(s: State, m: Msg, holder: ClusterID, now: Time)
    requires Inv(s) && Enabled(s, TrackerReceives(m, holder, now))
    requires !Exhausts(s, TrackerReceives(m, holder, now))
    ensures var n := Next(s, TrackerReceives(m, holder, now));
            && s.owner.Keys <= n.owner.Keys && 0 !in n.owner
            && (forall id | id in s.owner :: OwnedBy(n, id, s.owner[id]))
            && (forall id | id in n.reg.clusters :: OwnedBy(n, id, n.reg.clusters[id]))
            && (n.reg.next > RESERVED_CLUSTER_ID)
            && (n.reg.next == s.reg.next || (n.reg.next == s.reg.next + 1 && n.owner == s.owner[s.reg.next := m.from]))
  {
    assert MsgAgreed(s, m);
    if Issues(holder, m.cmd) {
      assert !Settled(s);
      assert s.reg.next !in s.owner;
    }
    var n := Next(s, TrackerReceives(m, holder, now));
    forall id | id in n.reg.clusters ensures OwnedBy(n, id, n.reg.clusters[id]) {
      assert id in s.reg.clusters ==> OwnedBy(s, id, s.reg.clusters[id]);
    }
  }

  /** A reply tells the sender an ID that it owns. */
  lemma ReplyAgreed(s: State, m: Msg, holder: ClusterID, now: Time)
    requires Inv(s) && Enabled(s, TrackerReceives(m, holder, now))
    ensures var n := Next(s, TrackerReceives(m, holder, now));
            forall x | x in n.net && x !in s.net :: x.ToServer? && x.addr == m.from && OwnedBy(n, x.id, m.from)
  {
    if !Issues(holder, m.cmd) && m.cmd == Id(0) {
      assert OwnedBy(s, holder, m.from);
    }
  }

  lemma TrackerKeepsInv(s: State, m: Msg, holder: ClusterID, now: Time)
    requires Inv(s) && Enabled(s, TrackerReceives(m, holder, now))
    requires !Exhausts(s, TrackerReceives(m, holder, now))
    ensures Inv(Next(s, TrackerReceives(m, holder, now)))
    ensures s.owner.Keys <= Next(s, TrackerReceives(m, holder, now)).owner.Keys
    ensures forall id | id in s.owner :: OwnedBy(Next(s, TrackerReceives(m, holder, now)), id, s.owner[id])
  {
    var n := Next(s, TrackerReceives(m, holder, now));
    SoundnessKeptIff(s.reg, holder, m.from, m.cmd, now);
    TrackerKeepsOwners(s, m, holder, now);
    ReplyAgreed(s, m, holder, now);
    forall x | x in n.net ensures MsgAgreed(n, x) {
      assert x in s.net ==> MsgAgreed(s, x);
    }
    assert n.servers == s.servers;
    assert Agreed(n);
    if Settled(s) {
      assert Settled(n);
    }
  }

  lemma NextKeepsInv(s: State, a: Action)
    requires Inv(s) && Enabled(s, a) && !Exhausts(s, a)
    ensures Inv(Next(s, a))
    ensures forall id | id in s.owner :: OwnedBy(Next(s, a), id, s.owner[id])
  {
    var n := Next(s, a);
    if a.TrackerReceives? {
      TrackerKeepsInv(s, a.m, a.holder, a.now);
    } else {
      assert n.reg == s.reg;
      forall id | id in s.owner ensures OwnedBy(n, id, s.owner[id]) {
      }
      if a.ServerReceives? {
        assert MsgAgreed(s, a.m);
      }
      forall x | x in n.net ensures MsgAgreed(n, x) {
        assert x in s.net ==> MsgAgreed(s, x);
      }
      forall addr | addr in n.servers ensures n.servers[addr] == 0 || OwnedBy(n, n.servers[addr], addr) {
        assert s.servers[addr] == 0 || OwnedBy(s, s.servers[addr], addr);
      }
    }
  }

  lemma {:induction false} RunKeepsInv(s: State, actions: seq<Action>)
    requires Inv(s) && NeverExhausts(s, actions)
    ensures Inv(Run(s, actions))
    ensures forall id | id in s.owner :: OwnedBy(Run(s, actions), id, s.owner[id])
    decreases |actions|
  {
    if actions != [] {
      if Enabled(s, actions[0]) {
        var n := Next(s, actions[0]);
        NextKeepsInv(s, actions[0]);
        RunKeepsInv(n, actions[1..]);
        forall id | id in s.owner ensures OwnedBy(Run(n, actions[1..]), id, s.owner[id]) {
          assert OwnedBy(n, id, s.owner[id]);
        }
      } else {
        RunKeepsInv(s, actions[1..]);
      }
    }
  }

  // ----- for which configurations IDs are unique in every run -----

  /**
   * No two servers are started with the same ID; and unless every server is started with one, the
   * IDs given are reserved ones or the time server's.
   */
  ghost predicate GoodConfig(config: map<Addr, ClusterID>) {
    && Distinct(config)
    && ((forall addr | addr in config :: config[addr] != 0)
        || forall addr | addr in config :: config[addr] <= RESERVED_CLUSTER_ID || config[addr] == TIME_SERVER_ID)
  }

  lemma StartInv(config: map<Addr, ClusterID>)
    requires GoodConfig(config)
    ensures Inv(Start(config))
  {
    var s := Start(config);
    forall addr | addr in s.servers ensures s.servers[addr] == 0 || OwnedBy(s, s.servers[addr], addr) {
      if config[addr] != 0 {
        assert config[addr] in config.Values;
        assert config[ConfiguredAt(config, config[addr])] == config[addr];
      }
    }
    assert Agreed(s);
    if addr :| addr in config && config[addr] == 0 {
      forall id | id in s.owner ensures id < s.reg.next || id == TIME_SERVER_ID {
        assert config[ConfiguredAt(config, id)] == id;
      }
    }
  }

  /**
   * Ownership is for ever: in every run whatever is owned stays with its owner, and the registry,
   * every datagram in flight and every server agree with it, through expiry and re-registration.
   */
  lemma OwnersAgreeInEveryRun(config: map<Addr, ClusterID>, actions: seq<Action>, more: seq<Action>)
    requires GoodConfig(config) && NeverExhausts(Start(config), actions)
    requires NeverExhausts(Run(Start(config), actions), more)
    ensures Agreed(Run(Start(config), actions))
    ensures var (before, after) := (Run(Start(config), actions), Run(Run(Start(config), actions), more));
            Agreed(after) && forall id | id in before.owner :: OwnedBy(after, id, before.owner[id])
  {
    StartInv(config);
    RunKeepsInv(Start(config), actions);
    RunKeepsInv(Run(Start(config), actions), more);
  }

  ghost predicate UniqueInEveryRun(config: map<Addr, ClusterID>) {
    forall actions | NeverExhausts(Start(config), actions) :: UniqueIds(Run(Start(config), actions))
  }

  /** The exact condition for IDs to be unique over all runs that do not exhaust the counter. */
  lemma UniqueInEveryRunIff(config: map<Addr, ClusterID>)
    ensures UniqueInEveryRun(config) <==> GoodConfig(config)
  {
    if GoodConfig(config) {
      StartInv(config);
      forall actions | NeverExhausts(Start(config), actions) ensures UniqueIds(Run(Start(config), actions)) {
        RunKeepsInv(Start(config), actions);
      }
    } else if !Distinct(config) {
      assert NeverExhausts(Start(config), []);
      assert !UniqueIds(Run(Start(config), []));
    } else {
      var z :| z in config && config[z] == 0;
      var h :| h in config && RESERVED_CLUSTER_ID < config[h] < TIME_SERVER_ID;
      var actions := Collision(config, z, h);
    }
  }

  /** Each issue takes one action, so short enough runs never exhaust the IDs. */
  lemma {:induction false} ShortRunsNeverExhaust(s: State, actions: seq<Action>)
    requires Inv(s) && s.reg.next + |actions| <= TIME_SERVER_ID
    ensures NeverExhausts(s, actions)
    decreases |actions|
  {
    if actions != [] {
      if Enabled(s, actions[0]) {
        NextKeepsInv(s, actions[0]);
        ShortRunsNeverExhaust(Next(s, actions[0]), actions[1..]);
      } else {
        ShortRunsNeverExhaust(s, actions[1..]);
      }
    }
  }

  // ----- how fast the counter can run -----

  /** No entry was updated later than the clock shows. */
  ghost predicate Timely(s: State) {
    && Stamped(s.reg) && 0 <= s.clock
    && forall id | id in s.reg.clusters :: s.reg.updateTime[id] <= s.clock
  }

  /** The address is not issued another ID before this time: its entry has to expire first. */
  ghost function FreeAt(s: State, addr: Addr): Time
    requires Stamped(s.reg)
  {
    if addr in s.reg.clusters.Values then
      var id :| id in s.reg.clusters && s.reg.clusters[id] == addr;
      s.reg.updateTime[id] + ENV_UPDATE_TIME
    else s.clock
  }

  predicate IssuesTo(a: Action, addr: Addr) {
    a.TrackerReceives? && a.m.ToTracker? && Issues(a.holder, a.m.cmd) && a.m.from == addr
  }

  /** In a sound registry the choice in `FreeAt` is none. */
  lemma FreeAtEntry(s: State, addr: Addr, id: ClusterID)
    requires Sound(s.reg) && id in s.reg.clusters && s.reg.clusters[id] == addr
    ensures FreeAt(s, addr) == s.reg.updateTime[id] + ENV_UPDATE_TIME
  {
    assert addr in s.reg.clusters.Values;
  }

  /** An entry stays, or its address moves to another that was updated later, or it had expired. */
  lemma {:induction false} EntryStep(s: State, m: Msg, holder: ClusterID, now: Time, id: ClusterID)
    requires Inv(s) && Timely(s) && Enabled(s, TrackerReceives(m, holder, now)) && id in s.reg.clusters
    requires !Exhausts(s, TrackerReceives(m, holder, now))
    ensures var reg := Next(s, TrackerReceives(m, holder, now)).reg;
            || (exists j :: j in reg.clusters && reg.clusters[j] == s.reg.clusters[id]
                  && j in reg.updateTime && reg.updateTime[j] >= s.reg.updateTime[id])
            || (s.reg.clusters[id] !in reg.clusters.Values && now > s.reg.updateTime[id] + ENV_UPDATE_TIME)
  {
    var reg := Next(s, TrackerReceives(m, holder, now)).reg;
    assert OwnedBy(s, id, s.reg.clusters[id]) && MsgAgreed(s, m);
    match m.cmd {
      case Id(newId) =>
        if newId != 0 && s.reg.clusters[id] == m.from {
          assert newId in reg.clusters;
        } else if newId != 0 {
          assert id != newId && id != holder;
          assert id in reg.clusters;
        } else if holder == 0 {
          assert s.reg.clusters[id] != m.from;
          assert !Settled(s);
          assert s.reg.next !in s.owner;
          assert id in reg.clusters;
        } else {
          assert id in reg.clusters;
        }
      case Get(what) =>
        if id !in reg.clusters {
          assert id == what;
          assert forall j | j in reg.clusters :: j != id && j in s.reg.clusters;
        }
      case List =>
        assert id in reg.clusters;
      case Other =>
        assert id in reg.clusters;
    }
  }

  lemma {:induction false} TimelyKept(s: State, a: Action)
    requires Timely(s) && Enabled(s, a)
    ensures Timely(Next(s, a)) && s.clock <= Next(s, a).clock
  {
  }

  lemma {:induction false} FreeAtOfEntry(s: State, a: Action, id: ClusterID)
    requires Inv(s) && Timely(s) && Enabled(s, a) && !Exhausts(s, a) && id in s.reg.clusters
    requires Stamped(Next(s, a).reg) && Sound(Next(s, a).reg)
    ensures FreeAt(Next(s, a), s.reg.clusters[id]) >= FreeAt(s, s.reg.clusters[id])
  {
    var n, addr := Next(s, a), s.reg.clusters[id];
    FreeAtEntry(s, addr, id);
    if a.TrackerReceives? {
      EntryStep(s, a.m, a.holder, a.now, id);
      if addr in n.reg.clusters.Values {
        var j :| j in n.reg.clusters && n.reg.clusters[j] == addr && n.reg.updateTime[j] >= s.reg.updateTime[id];
        FreeAtEntry(n, addr, j);
      }
    } else {
      FreeAtEntry(n, addr, id);
    }
  }

  lemma {:induction false} NewEntryIsFresh(s: State, a: Action, id: ClusterID)
    requires Stamped(s.reg) && Enabled(s, a)
    requires id in Next(s, a).reg.clusters && Next(s, a).reg.clusters[id] !in s.reg.clusters.Values
    ensures id in Next(s, a).reg.updateTime && Next(s, a).reg.updateTime[id] == Next(s, a).clock
    ensures s.clock <= Next(s, a).clock
  {
  }

  lemma {:induction false} FreeAtOfStranger(s: State, a: Action, addr: Addr)
    requires Inv(s) && Timely(s) && Enabled(s, a) && !Exhausts(s, a) && addr !in s.reg.clusters.Values
    requires Stamped(Next(s, a).reg) && Sound(Next(s, a).reg)
    ensures FreeAt(Next(s, a), addr) >= s.clock + if IssuesTo(a, addr) then ENV_UPDATE_TIME else 0
  {
    var n := Next(s, a);
    if IssuesTo(a, addr) {
      NewEntryIsFresh(s, a, s.reg.next);
      FreeAtEntry(n, addr, s.reg.next);
    } else if addr in n.reg.clusters.Values {
      var id :| id in n.reg.clusters && n.reg.clusters[id] == addr;
      NewEntryIsFresh(s, a, id);
      FreeAtEntry(n, addr, id);
    }
  }

  /** That time never moves back, and an issue moves it ten minutes on. */
  lemma {:induction false} FreeAtGrows(s: State, a: Action, addr: Addr)
    requires Inv(s) && Timely(s) && Enabled(s, a) && !Exhausts(s, a)
    ensures Inv(Next(s, a)) && Timely(Next(s, a)) && s.clock <= Next(s, a).clock
    ensures FreeAt(Next(s, a), addr) >= FreeAt(s, addr) + if IssuesTo(a, addr) then ENV_UPDATE_TIME else 0
  {
    NextKeepsInv(s, a);
    TimelyKept(s, a);
    if addr in s.reg.clusters.Values {
      var id :| id in s.reg.clusters && s.reg.clusters[id] == addr;
      FreeAtOfEntry(s, a, id);
      assert !IssuesTo(a, addr);
    } else {
      FreeAtOfStranger(s, a, addr);
    }
  }

  ghost function FreeSum(s: State, addrs: seq<Addr>): Time
    requires Stamped(s.reg)
    decreases |addrs|
  {
    if addrs == [] then 0 else FreeAt(s, addrs[0]) + FreeSum(s, addrs[1..])
  }

  lemma {:induction false} FreeSumGrows(s: State, a: Action, addrs: seq<Addr>)
    requires Inv(s) && Timely(s) && Enabled(s, a) && !Exhausts(s, a)
    ensures Stamped(Next(s, a).reg)
    ensures FreeSum(Next(s, a), addrs) >=
              FreeSum(s, addrs) + if exists addr :: addr in addrs && IssuesTo(a, addr) then ENV_UPDATE_TIME else 0
    decreases |addrs|
  {
    StampedKept(s, a);
    if addrs != [] {
      FreeAtGrows(s, a, addrs[0]);
      FreeSumGrows(s, a, addrs[1..]);
      if addr :| addr in addrs && IssuesTo(a, addr) {
        assert addr == addrs[0] || addr in addrs[1..];
      }
    }
  }

  lemma {:induction false} FreeSumBelow(s: State, addrs: seq<Addr>, time: Time)
    requires Timely(s) && s.clock <= time
    ensures FreeSum(s, addrs) <= |addrs| * (time + ENV_UPDATE_TIME)
    decreases |addrs|
  {
    if addrs != [] {
      FreeSumBelow(s, addrs[1..], time);
    }
  }

  /** Only `addrs` ever ask for an ID. */
  ghost predicate AskersIn(s: State, addrs: seq<Addr>) {
    && (forall addr | addr in s.servers :: addr in addrs)
    && forall m | m in s.net && m.ToTracker? && m.cmd == Id(0) :: m.from in addrs
  }

  lemma {:induction false} ClockRunsForward(s: State, actions: seq<Action>)
    requires Stamped(s.reg)
    ensures s.clock <= Run(s, actions).clock
    decreases |actions|
  {
    if actions != [] {
      if Enabled(s, actions[0]) {
        StampedKept(s, actions[0]);
        ClockRunsForward(Next(s, actions[0]), actions[1..]);
      } else {
        ClockRunsForward(s, actions[1..]);
      }
    }
  }

  /** What every issue costs is paid for by the time that passes. */
  ghost predicate Paid(s: State, addrs: seq<Addr>)
    requires Stamped(s.reg)
  {
    ENV_UPDATE_TIME * (s.reg.next - FIRST_ID) <= FreeSum(s, addrs)
  }

  /** In `time`, servers at `addrs` cannot ask for as many IDs as there are. */
  ghost predicate TooShort(addrs: seq<Addr>, time: Time) {
    |addrs| * (time + ENV_UPDATE_TIME) < ENV_UPDATE_TIME * (TIME_SERVER_ID - FIRST_ID)
  }

  lemma {:induction false} PaidKept(s: State, a: Action, addrs: seq<Addr>)
    requires Inv(s) && Timely(s) && Paid(s, addrs) && AskersIn(s, addrs)
    requires Enabled(s, a) && !Exhausts(s, a)
    ensures Stamped(Next(s, a).reg) && Paid(Next(s, a), addrs) && AskersIn(Next(s, a), addrs)
  {
    StampedKept(s, a);
    FreeSumGrows(s, a, addrs);
    if a.TrackerReceives? && Issues(a.holder, a.m.cmd) {
      assert a.m.from in addrs && IssuesTo(a, a.m.from);
    } else {
      assert Next(s, a).reg.next == s.reg.next;
    }
  }

  lemma {:induction false} ShortTimesNeverExhaust(s: State, actions: seq<Action>, addrs: seq<Addr>)
    requires Inv(s) && Timely(s) && Paid(s, addrs) && AskersIn(s, addrs)
    requires TooShort(addrs, Run(s, actions).clock)
    ensures NeverExhausts(s, actions)
    decreases |actions|
  {
    if actions != [] {
      if Enabled(s, actions[0]) {
        ClockRunsForward(s, actions);
        FreeSumBelow(s, addrs, Run(s, actions).clock);
        assert s.reg.next < TIME_SERVER_ID;
        NextKeepsInv(s, actions[0]);
        TimelyKept(s, actions[0]);
        PaidKept(s, actions[0], addrs);
        ShortTimesNeverExhaust(Next(s, actions[0]), actions[1..], addrs);
      } else {
        ShortTimesNeverExhaust(s, actions[1..], addrs);
      }
    }
  }

  /**
   * An address is issued at most one ID per ten minutes.  So what exhausts the counter is time: in a
   * good configuration IDs are unique in every run that is too short for that, however many actions it has.
   */
  lemma UniqueInShortTimes(config: map<Addr, ClusterID>, addrs: seq<Addr>, actions: seq<Action>)
    requires GoodConfig(config) && forall addr | addr in config :: addr in addrs
    requires TooShort(addrs, Run(Start(config), actions).clock)
    ensures NeverExhausts(Start(config), actions) && UniqueIds(Run(Start(config), actions))
  {
    var s := Start(config);
    StartInv(config);
    FreeSumAtStart(config, addrs);
    ShortTimesNeverExhaust(s, actions, addrs);
    RunKeepsInv(s, actions);
  }

  lemma {:induction false} FreeSumAtStart(config: map<Addr, ClusterID>, addrs: seq<Addr>)
    ensures FreeSum(Start(config), addrs) == 0
    decreases |addrs|
  {
    if addrs != [] {
      FreeSumAtStart(config, addrs[1..]);
    }
  }

  lemma CounterOutlastsClock(addrs: seq<Addr>, time: Time)
    requires |addrs| <= 279 && 0 <= time < 0x8000_0000_0000_0000
    ensures TooShort(addrs, time)
  {
    assert |addrs| * (time + ENV_UPDATE_TIME) <= 279 * (0x8000_0000_0000_0000 + ENV_UPDATE_TIME);
  }

  /** With up to 279 servers that is every run that a 64-bit clock of nanoseconds can show. */
  lemma UniqueOnRealClocks(config: map<Addr, ClusterID>, addrs: seq<Addr>, actions: seq<Action>)
    requires GoodConfig(config) && forall addr | addr in config :: addr in addrs
    requires |addrs| <= 279 && Run(Start(config), actions).clock < 0x8000_0000_0000_0000
    ensures NeverExhausts(Start(config), actions) && UniqueIds(Run(Start(config), actions))
  {
    ClockRunsForward(Start(config), actions);
    CounterOutlastsClock(addrs, Run(Start(config), actions).clock);
    UniqueInShortTimes(config, addrs, actions);
  }

  // ----- a collision, when the configuration is not good -----

  lemma {:induction false} RunConcat(s: State, xs: seq<Action>, ys: seq<Action>)
    requires Stamped(s.reg)
    ensures Run(s, xs + ys) == Run(Run(s, xs), ys)
    ensures NeverExhausts(s, xs) && NeverExhausts(Run(s, xs), ys) ==> NeverExhausts(s, xs + ys)
    decreases |xs|
  {
    if xs == [] {
      assert xs + ys == ys;
    } else {
      assert (xs + ys)[1..] == xs[1..] + ys;
      if Enabled(s, xs[0]) {
        StampedKept(s, xs[0]);
        RunConcat(Next(s, xs[0]), xs[1..], ys);
      } else {
        RunConcat(s, xs[1..], ys);
      }
    }
  }

  lemma RunOne(s: State, a: Action)
    requires Stamped(s.reg) && Enabled(s, a)
    ensures Run(s, [a]) == Next(s, a)
    ensures !Exhausts(s, a) ==> NeverExhausts(s, [a])
  {
    StampedKept(s, a);
    assert [a][1..] == [];
  }

  /** The request of server `z` is in flight and nobody is registered. */
  ghost predicate Asking(s: State, z: Addr, next: int) {
    s.reg.clusters == map[] && s.reg.next == next && ToTracker(z, Id(0)) in s.net
  }

  /** `z` has once held and announced `FIRST_ID`. */
  ghost predicate Announced(s: State, z: Addr) {
    ToTracker(z, Id(FIRST_ID)) in s.net
  }

  /** An entry with an ID that is not reserved expires when a client asks for it. */
  lemma Expire(s: State, z: Addr, id: ClusterID) returns (actions: seq<Action>)
    requires Stamped(s.reg) && id > RESERVED_CLUSTER_ID
    requires s.reg.clusters == map[id := z] && s.reg.updateTime[id] <= s.clock
    ensures NeverExhausts(s, actions)
    ensures var n := Run(s, actions);
            && n.reg.clusters == map[] && n.reg.next == s.reg.next && n.servers == s.servers && s.net <= n.net
            && n.clock == s.clock + ENV_UPDATE_TIME + 1
  {
    var ask := ClientAsks(z, Get(id));
    var expire := TrackerReceives(ToTracker(z, Get(id)), id, s.clock + ENV_UPDATE_TIME + 1);
    RunOne(s, ask);
    RunOne(Next(s, ask), expire);
    RunConcat(s, [ask], [expire]);
    actions := [ask] + [expire];
  }

  /**
   * A duplicate request is answered and the entry expires.  A reserved ID does not expire; an old
   * announcement of `z` replaces it by one that does.
   */
  lemma IssueAndExpire(s: State, z: Addr) returns (actions: seq<Action>)
    requires Stamped(s.reg) && Asking(s, z, s.reg.next)
    requires s.reg.next > RESERVED_CLUSTER_ID || Announced(s, z)
    ensures s.reg.next < TIME_SERVER_ID ==> NeverExhausts(s, actions)
    ensures var n := Run(s, actions);
            && Asking(n, z, (s.reg.next + 1) % 0x1_0000_0000) && n.servers == s.servers && s.net <= n.net
            && n.clock == s.clock + ENV_UPDATE_TIME + 1
  {
    var id := s.reg.next;
    var issue := TrackerReceives(ToTracker(z, Id(0)), 0, s.clock);
    RunOne(s, issue);
    var s1 := Next(s, issue);
    assert s1.reg.clusters == map[id := z];
    if id > RESERVED_CLUSTER_ID {
      var expire := Expire(s1, z, id);
      RunConcat(s, [issue], expire);
      actions := [issue] + expire;
    } else {
      var again := TrackerReceives(ToTracker(z, Id(FIRST_ID)), id, s.clock);
      RunOne(s1, again);
      var s2 := Next(s1, again);
      assert s2.reg.clusters == map[FIRST_ID := z];
      var expire := Expire(s2, z, FIRST_ID);
      RunConcat(s1, [again], expire);
      RunConcat(s, [issue], [again] + expire);
      actions := [issue] + ([again] + expire);
    }
  }

  /** How many issues bring the counter from `next` to `id`, through its wrap if need be. */
  function IssuesUntil(next: ClusterID, id: ClusterID): nat {
    (id - next) % 0x1_0000_0000
  }

  lemma OneIssueCloser(next: ClusterID, id: ClusterID)
    requires id != next
    ensures IssuesUntil(next, id) == IssuesUntil((next + 1) % 0x1_0000_0000, id) + 1
    ensures next < id ==> IssuesUntil(next, id) == id - next
  {
  }

  /** The counter can be driven to any ID; beyond its wrap, where reserved IDs are issued, if `z` has announced. */
  lemma {:induction false} DriveNext(s: State, z: Addr, id: ClusterID) returns (actions: seq<Action>)
    requires Stamped(s.reg) && Asking(s, z, s.reg.next)
    requires RESERVED_CLUSTER_ID < s.reg.next <= id || Announced(s, z)
    ensures s.reg.next <= id ==> NeverExhausts(s, actions)
    ensures var n := Run(s, actions);
            && Asking(n, z, id) && n.servers == s.servers && s.net <= n.net
            && n.clock == s.clock + IssuesUntil(s.reg.next, id) * (ENV_UPDATE_TIME + 1)
    decreases IssuesUntil(s.reg.next, id)
  {
    if s.reg.next == id {
      actions := [];
    } else {
      OneIssueCloser(s.reg.next, id);
      var first := IssueAndExpire(s, z);
      var rest := DriveNext(Run(s, first), z, id);
      RunConcat(s, first, rest);
      actions := first + rest;
    }
  }

  /** With the counter at `id`, a server whose request is in flight is issued `id` and adopts it. */
  lemma IssueAndAdopt(s: State, z: Addr, id: ClusterID) returns (actions: seq<Action>)
    requires Stamped(s.reg) && s.reg.clusters == map[] && s.reg.next == id
    requires ToTracker(z, Id(0)) in s.net && z in s.servers
    ensures id != TIME_SERVER_ID ==> NeverExhausts(s, actions)
    ensures var n := Run(s, actions);
            && n.servers == s.servers[z := id] && s.net <= n.net
            && n.reg.clusters == map[id := z] && n.reg.updateTime[id] <= n.clock == s.clock
            && n.reg.next == (id + 1) % 0x1_0000_0000
  {
    var issue := TrackerReceives(ToTracker(z, Id(0)), 0, s.clock);
    var adopt := ServerReceives(ToServer(z, id));
    RunOne(s, issue);
    RunOne(Next(s, issue), adopt);
    RunConcat(s, [issue], [adopt]);
    actions := [issue] + [adopt];
  }

  /**
   * A server without an ID can be issued the ID that another one was started with: after ten minutes
   * for each ID that comes before.
   */
  lemma Collision(config: map<Addr, ClusterID>, z: Addr, h: Addr) returns (actions: seq<Action>)
    requires z in config && config[z] == 0
    requires h in config && RESERVED_CLUSTER_ID < config[h] < TIME_SERVER_ID
    ensures NeverExhausts(Start(config), actions) && !UniqueIds(Run(Start(config), actions))
    ensures Run(Start(config), actions).clock == (config[h] - FIRST_ID) * (ENV_UPDATE_TIME + 1)
  {
    var s := Start(config);
    RunOne(s, Announce(z));
    var s1 := Next(s, Announce(z));
    var drive := DriveNext(s1, z, config[h]);
    var s2 := Run(s1, drive);
    var adopt := IssueAndAdopt(s2, z, config[h]);
    RunConcat(s1, drive, adopt);
    RunConcat(s, [Announce(z)], drive + adopt);
    actions := [Announce(z)] + (drive + adopt);
    var last := Run(s, actions);
    assert last.servers[z] == last.servers[h] == config[h];
  }

  // ----- what the messages do when they arrive -----

  /** An announcement that arrives registers its sender under its ID at that time, and GET then answers so. */
  lemma AnnouncementArrives(s: State, addr: Addr, holder: ClusterID, now: Time)
    requires Inv(s) && addr in s.servers && s.servers[addr] != 0 && s.clock <= now
    requires IsHolder(s.reg.clusters, addr, holder)
    ensures Stamped(s.reg)
    ensures var n := Run(s, [Announce(addr), TrackerReceives(ToTracker(addr, Id(s.servers[addr])), holder, now)]);
            && n.servers == s.servers && n.clock == now
            && (forall id :: id in n.reg.clusters && n.reg.clusters[id] == addr <==> id == s.servers[addr])
            && n.reg.updateTime[s.servers[addr]] == now
  {
    var a1, a2 := Announce(addr), TrackerReceives(ToTracker(addr, Id(s.servers[addr])), holder, now);
    RunOne(s, a1);
    RunOne(Next(s, a1), a2);
    RunConcat(s, [a1], [a2]);
    assert [a1] + [a2] == [a1, a2];
    AnnouncementMeans(s.reg, holder, addr, s.servers[addr], now, 0, addr, now);
  }

  /** A RUN that a client sends and that arrives gives the server that ID, and no other server any. */
  lemma ClientRunArrives(s: State, addr: Addr, id: ClusterID)
    requires Stamped(s.reg) && addr in s.servers && Enabled(s, ClientRuns(addr, id))
    ensures var n := Run(s, [ClientRuns(addr, id), ServerReceives(ToServer(addr, id))]);
            n.servers == s.servers[addr := id] && n.reg == s.reg && n.clock == s.clock
  {
    var a1, a2 := ClientRuns(addr, id), ServerReceives(ToServer(addr, id));
    RunOne(s, a1);
    RunOne(Next(s, a1), a2);
    RunConcat(s, [a1], [a2]);
    assert [a1] + [a2] == [a1, a2];
  }

  // ----- all runs, those that exhaust the counter too -----

  ghost predicate UniqueInAllRuns(config: map<Addr, ClusterID>) {
    forall actions :: UniqueIds(Run(Start(config), actions))
  }

  /** While no server asks for an ID, none is issued. */
  lemma {:induction false} SettledNeverExhausts(s: State, actions: seq<Action>)
    requires Inv(s) && Settled(s)
    ensures NeverExhausts(s, actions)
    decreases |actions|
  {
    if actions != [] {
      if Enabled(s, actions[0]) {
        NextKeepsInv(s, actions[0]);
        SettledNeverExhausts(Next(s, actions[0]), actions[1..]);
      } else {
        SettledNeverExhausts(s, actions[1..]);
      }
    }
  }

  lemma {:induction false} SameServers(s: State, actions: seq<Action>)
    requires Stamped(s.reg)
    ensures Run(s, actions).servers.Keys == s.servers.Keys
    decreases |actions|
  {
    if actions != [] {
      if Enabled(s, actions[0]) {
        StampedKept(s, actions[0]);
        SameServers(Next(s, actions[0]), actions[1..]);
      } else {
        SameServers(s, actions[1..]);
      }
    }
  }

  /** `z` is issued `FIRST_ID`, adopts and announces it, and its entry expires; it still asks. */
  lemma AskAndAnnounce(config: map<Addr, ClusterID>, z: Addr) returns (actions: seq<Action>)
    requires z in config && config[z] == 0
    ensures var n := Run(Start(config), actions);
            && Asking(n, z, FIRST_ID + 1) && Announced(n, z) && n.servers == config[z := FIRST_ID]
  {
    var s := Start(config);
    RunOne(s, Announce(z));
    var s1 := Next(s, Announce(z));
    var adopt := IssueAndAdopt(s1, z, FIRST_ID);
    var s2 := Run(s1, adopt);
    RunOne(s2, Announce(z));
    var s3 := Next(s2, Announce(z));
    var expire := Expire(s3, z, FIRST_ID);
    RunConcat(s2, [Announce(z)], expire);
    RunConcat(s1, adopt, [Announce(z)] + expire);
    RunConcat(s, [Announce(z)], adopt + ([Announce(z)] + expire));
    actions := [Announce(z)] + (adopt + ([Announce(z)] + expire));
  }

  /**
   * A server that asks collides with any other: the counter comes round to the other's ID; or, if
   * the other asks too, to the ID that the first was issued.  So the time server is not safe either.
   */
  lemma ExhaustionCollides(config: map<Addr, ClusterID>, z: Addr, h: Addr)
    requires z in config && config[z] == 0 && h in config && h != z
    ensures !UniqueInAllRuns(config)
  {
    var s := Start(config);
    var ask := AskAndAnnounce(config, z);
    var s1 := Run(s, ask);
    var (id, taker) := if config[h] != 0 then (config[h], z) else (FIRST_ID, h);
    RunOne(s1, Announce(h));
    var s2 := Next(s1, Announce(h));
    var drive := DriveNext(s2, z, id);
    var s3 := Run(s2, drive);
    var adopt := IssueAndAdopt(s3, taker, id);
    RunConcat(s2, drive, adopt);
    RunConcat(s1, [Announce(h)], drive + adopt);
    RunConcat(s, ask, [Announce(h)] + (drive + adopt));
    var last := Run(s, ask + ([Announce(h)] + (drive + adopt)));
    assert last.servers[z] == last.servers[h] == id;
    assert !UniqueIds(last);
  }

  /**
   * The exact condition over all runs without exception: no server asks the tracker for an ID, or
   * there is no other.
   */
  lemma UniqueInAllRunsIff(config: map<Addr, ClusterID>)
    ensures UniqueInAllRuns(config) <==>
              && Distinct(config)
              && ((forall addr | addr in config :: config[addr] != 0)
                  || forall x, y | x in config && y in config :: x == y)
  {
    var s := Start(config);
    if !Distinct(config) {
      assert !UniqueIds(Run(s, []));
    } else if forall addr | addr in config :: config[addr] != 0 {
      StartInv(config);
      forall actions ensures UniqueIds(Run(s, actions)) {
        SettledNeverExhausts(s, actions);
        RunKeepsInv(s, actions);
      }
    } else if forall x, y | x in config && y in config :: x == y {
      forall actions ensures UniqueIds(Run(s, actions)) {
        SameServers(s, actions);
      }
    } else {
      var z :| z in config && config[z] == 0;
      var h :| h in config && h != z;
      ExhaustionCollides(config, z, h);
    }
  }
}
