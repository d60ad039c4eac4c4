/**
 * The lock-free ring of lib/queue.h with one pusher and one popper.
 *
 * `Step` is one atomic action of either thread: a load of an index together with the local
 * computation that follows it, one slot access, or one store.  A run is any sequence of actions.
 */
module FreeQueues {

  // ----- one atomic step at a time -----

  /** Where the pusher stands inside `push`. */
  datatype Pusher<T> =
    | PushIdle
    | PushLoaded(val: T, at: nat)    // has loaded `ain`
    | PushAllowed(val: T, at: nat)   // has compared against `aout`; the slot is being written
    | PushWritten(val: T, at: nat)   // has written the slot; `ain` not stored yet

  /** Where the popper stands inside `pop`. */
  datatype Popper<T> =
    | PopIdle
    | PopLoaded(from: nat)           // has loaded `aout`
    | PopAllowed(from: nat)          // has compared against `ain`; the slot is being read
    | PopRead(from: nat, got: T)     // has read the slot; `aout` not stored yet

  /** The shared ring, both threads, and the values completely pushed and popped so far. */
  datatype Ring<T> = Ring(ain: nat, aout: nat, buff: seq<T>, pusher: Pusher<T>, popper: Popper<T>,
                          pushed: seq<T>, popped: seq<T>)

  datatype Action<T> = CallPush(v: T) | CheckFull | WriteSlot | StoreIn | CallPop | CheckEmpty | ReadSlot | StoreOut

  /** The index after `at`, which the code computes as `(at + 1) % SIZE`. */
  function NextSlot(at: nat, size: nat): (r: nat)
    requires at < size
    ensures r < size
  {
    if at + 1 == size then 0 else at + 1
  }

  lemma NextSlotIsMod(at: nat, size: nat)
    requires at < size
    ensures NextSlot(at, size) == (at + 1) % size
  {
  }

  /** One action; an action that its thread is not about to take changes nothing. */
  function Step<T>(r: Ring<T>, a: Action<T>): (n: Ring<T>)
    requires IndicesOk(r)
    ensures IndicesOk(n) && |n.buff| == |r.buff|
  {
    match a
    case CallPush(v) =>
      if r.pusher.PushIdle? then r.(pusher := PushLoaded(v, r.ain)) else r
    case CheckFull =>
      if r.pusher.PushLoaded? then
        var nextIn := NextSlot(r.pusher.at, |r.buff|);
        if nextIn == r.aout then r.(pusher := PushIdle) else r.(pusher := PushAllowed(r.pusher.val, r.pusher.at))
      else r
    case WriteSlot =>
      if r.pusher.PushAllowed? then
        r.(buff := r.buff[r.pusher.at := r.pusher.val], pusher := PushWritten(r.pusher.val, r.pusher.at))
      else r
    case StoreIn =>
      if r.pusher.PushWritten? then
        r.(ain := NextSlot(r.pusher.at, |r.buff|), pushed := r.pushed + [r.pusher.val], pusher := PushIdle)
      else r
    case CallPop =>
      if r.popper.PopIdle? then r.(popper := PopLoaded(r.aout)) else r
    case CheckEmpty =>
      if r.popper.PopLoaded? then
        if r.ain == r.popper.from then r.(popper := PopIdle) else r.(popper := PopAllowed(r.popper.from))
      else r
    case ReadSlot =>
      if r.popper.PopAllowed? then r.(popper := PopRead(r.popper.from, r.buff[r.popper.from])) else r
    case StoreOut =>
      if r.popper.PopRead? then
        r.(aout := NextSlot(r.popper.from, |r.buff|), popped := r.popped + [r.popper.got], popper := PopIdle)
      else r
  }

  ghost predicate IndicesOk<T>(r: Ring<T>) {
    && r.ain < |r.buff| && r.aout < |r.buff|
    && (!r.pusher.PushIdle? ==> r.pusher.at < |r.buff|)
    && (!r.popper.PopIdle? ==> r.popper.from < |r.buff|)
  }

  function Initial<T>(memory: seq<T>): Ring<T> {
    Ring(0, 0, memory, PushIdle, PopIdle, [], [])
  }

  /** The state after any interleaving of the two threads' actions. */
  ghost function Run<T>(memory: seq<T>, actions: seq<Action<T>>): (r: Ring<T>)
    requires memory != []
    ensures Inv(r) && |r.buff| == |memory|
  {
    if actions == [] then Initial(memory)
    else
      var before := Run(memory, actions[..|actions| - 1]);
      StepKeepsInv(before, actions[|actions| - 1]);
      Step(before, actions[|actions| - 1])
  }

  /** The abstract queue: what is pushed but not popped. */
  function Queue<T>(r: Ring<T>): seq<T>
    requires |r.popped| <= |r.pushed|
  {
    r.pushed[|r.popped|..]
  }

  function Capacity<T>(r: Ring<T>): int {
    |r.buff| - 1
  }

  /** The slot of the i-th value: the index after i steps from 0. */
  function Slot(i: nat, size: nat): (r: nat)
    requires size > 0
    ensures r < size
  {
    if i == 0 then 0 else NextSlot(Slot(i - 1, size), size)
  }

  ghost predicate Inv<T>(r: Ring<T>) {
    && IndicesOk(r) && QueueInv(r) && PusherInv(r) && PopperInv(r)
  }

  ghost predicate QueueInv<T>(r: Ring<T>) {
    && 0 < |r.buff|
    && r.popped <= r.pushed
    && |r.pushed| - |r.popped| <= Capacity(r)
    && r.ain == Slot(|r.pushed|, |r.buff|)
    && r.aout == Slot(|r.popped|, |r.buff|)
    && forall i {:trigger Slot(i, |r.buff|)} | |r.popped| <= i < |r.pushed| :: r.buff[Slot(i, |r.buff|)] == r.pushed[i]
  }

  ghost predicate PusherInv<T>(r: Ring<T>)
    requires IndicesOk(r)
  {
    !r.pusher.PushIdle? ==>
      && r.pusher.at == r.ain
      && (!r.pusher.PushLoaded? ==> |r.pushed| - |r.popped| < Capacity(r))
      && (r.pusher.PushWritten? ==> r.buff[r.ain] == r.pusher.val)
  }

  ghost predicate PopperInv<T>(r: Ring<T>)
    requires IndicesOk(r)
  {
    !r.popper.PopIdle? ==>
      && r.popper.from == r.aout
      && (!r.popper.PopLoaded? ==> |r.popped| < |r.pushed|)
      && (r.popper.PopRead? ==> |r.popped| < |r.pushed| && r.popper.got == r.pushed[|r.popped|])
  }

  /** Walking fewer than `size` steps never returns to the same slot, walking `size` steps does. */
  lemma {:induction false} SlotWalk(i: nat, steps: nat, size: nat)
    requires 0 < size && steps <= size
    ensures var (from, to) := (Slot(i, size), Slot(i + steps, size));
            to == if from + steps < size then from + steps else from + steps - size
    decreases steps
  {
    if steps > 0 {
      SlotWalk(i, steps - 1, size);
    }
  }

  /** The index test for "full" is exact. */
  lemma FullTest(pushed: nat, popped: nat, size: nat)
    requires popped <= pushed < popped + size
    ensures NextSlot(Slot(pushed, size), size) == Slot(popped, size) <==> pushed - popped == size - 1
  {
    SlotWalk(popped, pushed - popped, size);
  }

  lemma EmptyTest(pushed: nat, popped: nat, size: nat)
    requires popped <= pushed < popped + size
    ensures Slot(pushed, size) == Slot(popped, size) <==> pushed == popped
  {
    SlotWalk(popped, pushed - popped, size);
  }

  lemma PusherKeepsInv<T>(r: Ring<T>, a: Action<T>)
    requires Inv(r) && (a.CallPush? || a.CheckFull? || a.WriteSlot? || a.StoreIn?)
    ensures Inv(Step(r, a))
  {
    var size, pushed, popped := |r.buff|, |r.pushed|, |r.popped|;
    var n := Step(r, a);
    match a
    case CallPush(_) =>
    case CheckFull =>
      FullTest(pushed, popped, size);
    case WriteSlot =>
      if r.pusher.PushAllowed? {
        forall i | popped <= i < pushed ensures n.buff[Slot(i, size)] == n.pushed[i] {
          EmptyTest(pushed, i, size);
        }
      }
    case StoreIn =>
      assert r.pusher.PushWritten? ==> n.ain == Slot(pushed + 1, size);
  }

  lemma PopperKeepsInv<T>(r: Ring<T>, a: Action<T>)
    requires Inv(r) && (a.CallPop? || a.CheckEmpty? || a.ReadSlot? || a.StoreOut?)
    ensures Inv(Step(r, a))
  {
    var size, pushed, popped := |r.buff|, |r.pushed|, |r.popped|;
    var n := Step(r, a);
    match a
    case CallPop =>
    case CheckEmpty =>
      EmptyTest(pushed, popped, size);
    case ReadSlot =>
    case StoreOut =>
      assert r.popper.PopRead? ==> n.aout == Slot(popped + 1, size);
  }

  lemma StepKeepsInv<T>(r: Ring<T>, a: Action<T>)
    requires Inv(r)
    ensures Inv(Step(r, a))
  {
    if a.CallPush? || a.CheckFull? || a.WriteSlot? || a.StoreIn? {
      PusherKeepsInv(r, a);
    } else {
      PopperKeepsInv(r, a);
    }
  }

  // ----- what every interleaving guarantees -----

  /** Popped values are a prefix of the pushed ones, at most SIZE-1 behind. */
  lemma PoppedIsPrefix<T>(memory: seq<T>, actions: seq<Action<T>>)
    requires memory != []
    ensures var r := Run(memory, actions);
            r.popped <= r.pushed && |r.pushed| - |r.popped| <= |memory| - 1
  {
  }

  /** The slot being written is never the slot being read. */
  lemma NoSlotRace<T>(memory: seq<T>, actions: seq<Action<T>>)
    requires memory != []
    ensures var r := Run(memory, actions);
            r.pusher.PushAllowed? && r.popper.PopAllowed? ==> r.pusher.at != r.popper.from
  {
    var r := Run(memory, actions);
    if r.pusher.PushAllowed? && r.popper.PopAllowed? {
      EmptyTest(|r.pushed|, |r.popped|, |r.buff|);
    }
  }

  /** On the abstract queue an action enqueues the pusher's value, dequeues the head for the popper, or does nothing. */
  ghost predicate FifoStep<T>(r: Ring<T>, a: Action<T>, n: Ring<T>)
    requires |r.popped| <= |r.pushed| && |n.popped| <= |n.pushed|
  {
    if a.StoreIn? && r.pusher.PushWritten? then
      Queue(n) == Queue(r) + [r.pusher.val] && |Queue(n)| <= Capacity(r) && n.popped == r.popped
    else if a.StoreOut? && r.popper.PopRead? then
      Queue(r) == [r.popper.got] + Queue(n) && n.popped == r.popped + [r.popper.got]
    else Queue(n) == Queue(r) && n.popped == r.popped
  }

  lemma StepIsFifoStep<T>(r: Ring<T>, a: Action<T>)
    requires Inv(r)
    ensures Inv(Step(r, a)) && FifoStep(r, a, Step(r, a))
  {
    StepKeepsInv(r, a);
    var n := Step(r, a);
    if a.StoreIn? && r.pusher.PushWritten? {
      assert n.pushed == r.pushed + [r.pusher.val] && n.popped == r.popped;
    } else if a.StoreOut? && r.popper.PopRead? {
      assert n.pushed == r.pushed && n.popped == r.popped + [r.popper.got];
      assert Queue(r)[0] == r.popper.got;
    } else {
      assert n.pushed == r.pushed && n.popped == r.popped;
    }
  }

  /** Under every interleaving each action is one of a FIFO of capacity SIZE-1. */
  lemma RefinesFifo<T>(memory: seq<T>, actions: seq<Action<T>>, a: Action<T>)
    requires memory != []
    ensures FifoStep(Run(memory, actions), a, Run(memory, actions + [a]))
  {
    assert (actions + [a])[..|actions|] == actions;
    StepIsFifoStep(Run(memory, actions), a);
  }

  /** `push` returns false exactly when the queue is full at its load of `aout`, and dually for `pop`. */
  lemma RefusalsExact<T>(memory: seq<T>, actions: seq<Action<T>>)
    requires memory != []
    ensures var r := Run(memory, actions);
            IndicesOk(r)
            && (r.pusher.PushLoaded? ==> (Step(r, CheckFull).pusher.PushIdle? <==> |Queue(r)| == |memory| - 1))
            && (r.popper.PopLoaded? ==> (Step(r, CheckEmpty).popper.PopIdle? <==> Queue(r) == []))
  {
    var r := Run(memory, actions);
    FullTest(|r.pushed|, |r.popped|, |r.buff|);
    EmptyTest(|r.pushed|, |r.popped|, |r.buff|);
  }

  // ----- the class -----

  /** A push on the abstract queue of a ring of `size` slots. */
  function Offer<T>(q: seq<T>, val: T, size: nat): seq<T> {
    if |q| < size - 1 then q + [val] else q
  }

  /** What an undisturbed push does: nothing when the queue is full, one value more otherwise. */
  function Pushed<T>(r: Ring<T>, val: T): Ring<T>
    requires IndicesOk(r)
  {
    var nextIn := NextSlot(r.ain, |r.buff|);
    if nextIn == r.aout then r else r.(buff := r.buff[r.ain := val], ain := nextIn, pushed := r.pushed + [val])
  }

  function Popped<T>(r: Ring<T>): Ring<T>
    requires IndicesOk(r)
  {
    if r.ain == r.aout then r
    else r.(aout := NextSlot(r.aout, |r.buff|), popped := r.popped + [r.buff[r.aout]])
  }

  function FourSteps<T>(r: Ring<T>, a: Action<T>, b: Action<T>, c: Action<T>, d: Action<T>): Ring<T>
    requires IndicesOk(r)
  {
    Step(Step(Step(Step(r, a), b), c), d)
  }

  lemma UndisturbedPush<T>(r: Ring<T>, val: T)
    requires IndicesOk(r) && r.pusher.PushIdle?
    ensures FourSteps(r, CallPush(val), CheckFull, WriteSlot, StoreIn) == Pushed(r, val)
  {
  }

  lemma UndisturbedPop<T>(r: Ring<T>)
    requires IndicesOk(r) && r.popper.PopIdle?
    ensures FourSteps(r, CallPop, CheckEmpty, ReadSlot, StoreOut) == Popped(r)
  {
  }

  /** Undisturbed, a call is the four steps of its thread. */
  lemma UndisturbedSteps<T>(r: Ring<T>, val: T)
    requires IndicesOk(r) && r.pusher.PushIdle? && r.popper.PopIdle?
    ensures FourSteps(r, CallPush(val), CheckFull, WriteSlot, StoreIn) == Pushed(r, val)
    ensures FourSteps(r, CallPop, CheckEmpty, ReadSlot, StoreOut) == Popped(r)
  {
    UndisturbedPush(r, val);
    UndisturbedPop(r);
  }

  lemma PushedAppends<T>(r: Ring<T>, val: T)
    requires Inv(r) && r.pusher.PushIdle? && r.popper.PopIdle?
    ensures Inv(Pushed(r, val))
    ensures NextSlot(r.ain, |r.buff|) == r.aout <==> |Queue(r)| == Capacity(r)
    ensures Queue(Pushed(r, val)) == Offer(Queue(r), val, |r.buff|)
  {
    FullTest(|r.pushed|, |r.popped|, |r.buff|);
    if Pushed(r, val) != r {
      PushedKeepsQueueInv(r, val);
    }
  }

  lemma PushedKeepsQueueInv<T>(r: Ring<T>, val: T)
    requires IndicesOk(r) && QueueInv(r) && |r.pushed| - |r.popped| < Capacity(r)
    ensures QueueInv(Pushed(r, val)) && Pushed(r, val).pushed == r.pushed + [val]
  {
    var size := |r.buff|;
    var n := Pushed(r, val);
    FullTest(|r.pushed|, |r.popped|, size);
    assert n.ain == Slot(|r.pushed| + 1, size);
    forall i | |r.popped| <= i < |r.pushed| ensures n.buff[Slot(i, size)] == r.pushed[i] {
      EmptyTest(|r.pushed|, i, size);
    }
  }

  lemma PoppedTakesHead<T>(r: Ring<T>)
    requires Inv(r) && r.pusher.PushIdle? && r.popper.PopIdle?
    ensures Inv(Popped(r))
    ensures r.ain == r.aout <==> Queue(r) == []
    ensures Queue(r) == if Queue(r) == [] then Queue(Popped(r)) else [r.buff[r.aout]] + Queue(Popped(r))
  {
    EmptyTest(|r.pushed|, |r.popped|, |r.buff|);
    assert r.aout == Slot(|r.popped|, |r.buff|);
  }

  class FreeQueue<T> {
    var ain: nat
    var aout: nat
    const buff: array<T>
    ghost var pushed: seq<T>
    ghost var popped: seq<T>

    /** The ring while no call is in progress. */
    ghost function View(): Ring<T>
      reads this, buff
    {
      Ring(ain, aout, buff[..], PushIdle, PopIdle, pushed, popped)
    }

    ghost predicate Valid()
      reads this, buff
    {
      Inv(View())
    }

    ghost function Contents(): seq<T>
      requires Valid()
      reads this, buff
    {
      Queue(View())
    }

    constructor (memory: array<T>)
      requires 0 < memory.Length < 0x1_0000
      ensures Valid() && buff == memory && Contents() == []
    {
      ain, aout, buff, pushed, popped := 0, 0, memory, [], [];
    }

    method Push(val: T) returns (ok: bool)
      requires Valid()
      modifies this, buff
      ensures Valid() && ok == (|old(Contents())| < buff.Length - 1)
      ensures Contents() == Offer(old(Contents()), val, buff.Length)
      ensures View() == FourSteps(old(View()), CallPush(val), CheckFull, WriteSlot, StoreIn)
    {
      ghost var start := View();
      UndisturbedPush(start, val);
      PushedAppends(start, val);
      var at := ain;
      var nextIn := (at + 1) % buff.Length;
      NextSlotIsMod(at, buff.Length);
      var out := aout;
      if nextIn == out {
        return false;
      }
      buff[at] := val;
      ain := nextIn;
      pushed := pushed + [val];
      assert buff[..] == start.buff[at := val];
      assert View() == Pushed(start, val);
      return true;
    }

    /** The popped value, or nothing. */
    method Pop() returns (r: seq<T>)
      requires Valid()
      modifies this
      ensures Valid() && |r| <= 1 && old(Contents()) == r + Contents()
      ensures r == [] <==> old(Contents()) == []
      ensures View() == FourSteps(old(View()), CallPop, CheckEmpty, ReadSlot, StoreOut)
    {
      ghost var start := View();
      PoppedTakesHead(start);
      UndisturbedPop(start);
      var out := aout;
      var at := ain;
      if at == out {
        return [];
      }
      var val := buff[out];
      aout := (out + 1) % buff.Length;
      NextSlotIsMod(out, buff.Length);
      popped := popped + [val];
      assert View() == Popped(start);
      return [val];
    }
  }
}
