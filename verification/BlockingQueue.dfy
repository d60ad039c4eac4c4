/**
 * The mutex and condition-variable queue of lib/blockq.h with one pusher and one consumer.
 * `Step` is one action of either thread, or a spurious wakeup; a run is any sequence of them.
 */
module BlockingQueues {
  import opened Prelude

  datatype Lock = Free | ByPusher | ByConsumer

  datatype Pusher<T> = Idle | Wants(val: T) | Holds(val: T) | Queued | Notified

  /** `block` tells `pop` from `popNoBlock`. */
  datatype Consumer<T> = Away | Asks(block: bool) | Tests(block: bool) | Parked | Woken | Leaves

  datatype State<T> = State(q: seq<T>, lock: Lock, pusher: Pusher<T>, consumer: Consumer<T>,
                            pushed: seq<T>, consumed: seq<T>)

  datatype Action<T> =
    | CallPush(v: T) | PusherLocks | Enqueue | Notify | PusherUnlocks
    | CallPop(block: bool) | ConsumerLocks | TestAndTake | ConsumerUnlocks | SpuriousWakeup

  /** An action that is not enabled changes nothing. */
  function Step<T>(s: State<T>, a: Action<T>): State<T> {
    match a
    case CallPush(v) => if s.pusher.Idle? then s.(pusher := Wants(v)) else s
    case PusherLocks =>
      if s.pusher.Wants? && s.lock.Free? then s.(pusher := Holds(s.pusher.val), lock := ByPusher) else s
    case Enqueue =>
      if s.pusher.Holds? then
        s.(q := s.q + [s.pusher.val], pushed := s.pushed + [s.pusher.val], pusher := Queued)
      else s
    case Notify =>
      if s.pusher.Queued? then
        s.(pusher := Notified, consumer := if s.consumer.Parked? then Woken else s.consumer)
      else s
    case PusherUnlocks => if s.pusher.Notified? then s.(pusher := Idle, lock := Free) else s
    case CallPop(block) => if s.consumer.Away? then s.(consumer := Asks(block)) else s
    case ConsumerLocks =>
      if s.lock.Free? && s.consumer.Asks? then s.(consumer := Tests(s.consumer.block), lock := ByConsumer)
      else if s.lock.Free? && s.consumer.Woken? then s.(consumer := Tests(true), lock := ByConsumer)
      else s
    case TestAndTake =>
      if s.consumer.Tests? then
        if s.q != [] then s.(q := s.q[1..], consumed := s.consumed + [s.q[0]], consumer := Leaves)
        else if s.consumer.block then s.(consumer := Parked, lock := Free)
        else s.(consumer := Leaves)
      else s
    case ConsumerUnlocks => if s.consumer.Leaves? then s.(consumer := Away, lock := Free) else s
    case SpuriousWakeup => if s.consumer.Parked? then s.(consumer := Woken) else s
  }

  function Run<T>(s: State<T>, actions: seq<Action<T>>): State<T>
    decreases |actions|
  {
    if actions == [] then s else Run(Step(s, actions[0]), actions[1..])
  }

  function Initial<T>(): State<T> {
    State([], Free, Idle, Away, [], [])
  }

  ghost predicate Inv<T>(s: State<T>) {
    && s.consumed + s.q == s.pushed
    && (s.lock.ByPusher? <==> s.pusher.Holds? || s.pusher.Queued? || s.pusher.Notified?)
    && (s.lock.ByConsumer? <==> s.consumer.Tests? || s.consumer.Leaves?)
    && (s.consumer.Parked? && s.q != [] ==> s.pusher.Queued?)
  }

  lemma {:induction false} RunKeepsInv<T>(s: State<T>, actions: seq<Action<T>>)
    requires Inv(s)
    ensures Inv(Run(s, actions))
    decreases |actions|
  {
    if actions != [] {
      var n := Step(s, actions[0]);
      if actions[0].Enqueue? && s.pusher.Holds? {
        assert n.consumed + n.q == s.consumed + s.q + [s.pusher.val];
      }
      assert Inv(n);
      RunKeepsInv(n, actions[1..]);
    }
  }

  /** Consumed values are a prefix of the pushed ones, and what is missing is what is queued. */
  lemma ConsumedIsPrefix<T>(actions: seq<Action<T>>)
    ensures var s := Run(Initial<T>(), actions);
            s.consumed <= s.pushed && s.pushed[|s.consumed|..] == s.q
  {
    RunKeepsInv(Initial<T>(), actions);
  }

  /** No wakeup is lost: whenever nobody is inside `push`, a parked consumer has nothing to consume. */
  lemma NoLostWakeup<T>(actions: seq<Action<T>>)
    ensures var s := Run(Initial<T>(), actions);
            s.consumer.Parked? && s.q != [] ==> s.pusher.Queued? && Step(s, Notify).consumer.Woken?
  {
    RunKeepsInv(Initial<T>(), actions);
  }

  /** Finish a `push` in progress, lock, and test. */
  function Finish<T>(): seq<Action<T>> {
    [Enqueue, Notify, PusherUnlocks, ConsumerLocks, TestAndTake]
  }

  ghost predicate BlockedOnWork<T>(s: State<T>) {
    && s.q != []
    && (s.consumer == Asks(true) || s.consumer == Tests(true) || s.consumer.Parked? || s.consumer.Woken?)
  }

  lemma FinishDelivers<T>(s: State<T>)
    requires Inv(s) && BlockedOnWork(s)
    ensures Step(Step(Step(Step(Step(s, Enqueue), Notify), PusherUnlocks), ConsumerLocks), TestAndTake).consumed
            == s.consumed + [s.q[0]]
  {
  }

  /**
   * From every reachable state in which a blocking `pop` is under way and the queue is not empty,
   * finishing a `push` in progress, locking and testing delivers the head.
   */
  lemma BlockedPopDelivers<T>(actions: seq<Action<T>>)
    ensures var s := Run(Initial<T>(), actions);
            BlockedOnWork(s) ==> Run(s, Finish()).consumed == s.consumed + [s.q[0]]
  {
    RunKeepsInv(Initial<T>(), actions);
    var s := Run(Initial<T>(), actions);
    if BlockedOnWork(s) {
      RunFive<T>(s, Enqueue, Notify, PusherUnlocks, ConsumerLocks, TestAndTake);
      FinishDelivers(s);
    }
  }

  // ----- undisturbed calls -----

  function Pushing<T>(v: T): seq<Action<T>> {
    [CallPush(v), PusherLocks, Enqueue, Notify, PusherUnlocks]
  }

  function Popping<T>(block: bool): seq<Action<T>> {
    [CallPop(block), ConsumerLocks, TestAndTake, ConsumerUnlocks]
  }

  lemma {:induction false} RunCons<T>(s: State<T>, a: Action<T>, rest: seq<Action<T>>)
    ensures Run(s, [a] + rest) == Run(Step(s, a), rest)
  {
    assert ([a] + rest)[1..] == rest;
  }

  lemma {:induction false} RunFive<T>(s: State<T>, a: Action<T>, b: Action<T>, c: Action<T>, d: Action<T>, e: Action<T>)
    ensures Run(s, [a, b, c, d, e]) == Step(Step(Step(Step(Step(s, a), b), c), d), e)
  {
    RunFour(Step(s, a), b, c, d, e);
    RunCons(s, a, [b, c, d, e]);
    assert [a, b, c, d, e] == [a] + [b, c, d, e];
  }

  lemma {:induction false} RunFour<T>(s: State<T>, a: Action<T>, b: Action<T>, c: Action<T>, d: Action<T>)
    ensures Run(s, [a, b, c, d]) == Step(Step(Step(Step(s, a), b), c), d)
  {
    RunCons(s, a, [b, c, d]);
    RunCons(Step(s, a), b, [c, d]);
    RunCons(Step(Step(s, a), b), c, [d]);
    RunCons(Step(Step(Step(s, a), b), c), d, []);
    assert [a, b, c, d] == [a] + [b, c, d] && [b, c, d] == [b] + [c, d];
    assert [c, d] == [c] + [d] && [d] == [d] + [];
  }

  /** An undisturbed `push` appends its value, and wakes a consumer that is parked. */
  lemma {:induction false} UndisturbedPush<T>(s: State<T>, v: T)
    requires s.pusher.Idle? && s.lock.Free?
    ensures Run(s, Pushing(v)) ==
              s.(q := s.q + [v], pushed := s.pushed + [v], consumer := if s.consumer.Parked? then Woken else s.consumer)
  {
    RunFive(s, CallPush(v), PusherLocks, Enqueue, Notify, PusherUnlocks);
  }

  /**
   * An undisturbed `pop` or `popNoBlock` takes the head of a queue that holds something.  On an empty
   * queue `popNoBlock` leaves everything as it was, and `pop` parks and lets go of the lock.
   */
  lemma {:induction false} UndisturbedPop<T>(s: State<T>, block: bool)
    requires s.consumer.Away? && s.lock.Free?
    ensures Run(s, Popping(block)) ==
              if s.q != [] then s.(q := s.q[1..], consumed := s.consumed + [s.q[0]])
              else if block then s.(consumer := Parked)
              else s
  {
    RunFour<T>(s, CallPop(block), ConsumerLocks, TestAndTake, ConsumerUnlocks);
  }

  /** A parked consumer stays parked, and takes nothing, until it is notified or wakes up spuriously. */
  lemma ParkedStays<T>(s: State<T>, a: Action<T>)
    requires s.consumer.Parked?
    ensures Step(s, a).consumed == s.consumed
    ensures Step(s, a).consumer == if a.SpuriousWakeup? || (a.Notify? && s.pusher.Queued?) then Woken else Parked
  {
  }

  /** A consumer that woke up tests again, once it has the lock: it takes the head, or parks again. */
  lemma {:induction false} WokenTestsAgain<T>(s: State<T>)
    requires s.consumer.Woken? && s.lock.Free?
    ensures Step(Step(Step(s, ConsumerLocks), TestAndTake), ConsumerUnlocks) ==
              if s.q != [] then s.(q := s.q[1..], consumed := s.consumed + [s.q[0]], consumer := Away)
              else s.(consumer := Parked)
  {
  }

  class BlockingQueue<T> {
    var q: seq<T>

    constructor ()
      ensures q == []
    {
      q := [];
    }

    method Push(val: T)
      modifies this
      ensures q == old(q) + [val]
    {
      q := q + [val];
    }

    method PopNoBlock() returns (r: Option<T>)
      modifies this
      ensures old(q) == (match r case Some(v) => [v] case None => []) + q
      ensures r.None? <==> old(q) == []
    {
      if q == [] {
        return None;
      }
      r := Some(q[0]);
      q := q[1..];
    }

    /**
     * `wakeups[i]` is what is pushed while the i-th wait has the mutex released; it is empty for a
     * spurious wakeup.  None means that the call is still waiting when the wakeups are over.
     */
    method Pop(wakeups: seq<seq<T>>) returns (r: Option<T>, waits: nat)
      modifies this
      ensures waits <= |wakeups|
      ensures old(q) + Flatten(wakeups[..waits]) == (match r case Some(v) => [v] case None => []) + q
      ensures r.None? ==> waits == |wakeups| && q == []
      ensures r.Some? && waits > 0 ==> old(q) + Flatten(wakeups[..waits - 1]) == []
    {
      waits := 0;
      while q == []
        invariant waits <= |wakeups|
        invariant q == old(q) + Flatten(wakeups[..waits])
        invariant waits > 0 ==> old(q) + Flatten(wakeups[..waits - 1]) == []
        decreases |wakeups| - waits
      {
        if waits == |wakeups| {
          return None, waits;
        }
        FlattenSnoc(wakeups, waits);
        Assoc(old(q), Flatten(wakeups[..waits]), wakeups[waits]);
        q := q + wakeups[waits];
        waits := waits + 1;
      }
      r := Some(q[0]);
      q := q[1..];
    }
  }
}
