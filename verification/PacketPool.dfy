/**
 The packet pool: a counter of the buffers that exist and a bounded queue of idle ones, used by any
 number of threads. Each atomic access is one step; buffers are told apart by number.
 */
module PacketPool {

  const RETAINED_MAX: nat := 2048

  datatype State = State(
    limit: nat,
    idle: seq<nat>,            // the retained queue
    counter: int,              // buffers that exist, by the shared counter
    live: set<nat>,            // buffers owned by a packet
    returning: set<nat>,       // dropped packets' buffers on their way back to the queue
    freeing: nat,              // buffers given up whose count is not taken off yet
    missed: nat,               // acquirers that found the queue empty
    failures: nat,             // acquires that failed
    created: nat)              // buffers ever made, which is the number of the next

  datatype Step =
    | TryPop                   // an acquirer looks into the queue
    | TryAllocate              // one that missed tries to raise the counter
    | Release(buffer: nat)     // a packet is dropped
    | Discard(buffer: nat)     // a packet whose buffer was resized is dropped
    | Push(buffer: nat)        // a returning buffer is pushed
    | Uncount                  // a given-up buffer is taken off the counter

  function Capacity(buffers: nat): (n: nat)
    ensures n > 0
  {
    if buffers == 0 then 1 else buffers
  }

  function RetainedLimit(s: State): nat
  {
    if s.limit < RETAINED_MAX then s.limit else RETAINED_MAX
  }

  function Init(buffers: nat): State
  {
    State(Capacity(buffers), [], 0, {}, {}, 0, 0, 0, 0)
  }

  function Next(s: State, step: Step): State
  {
    match step
    case TryPop =>
      if |s.idle| > 0 then s.(idle := s.idle[1..], live := s.live + {s.idle[0]})
      else s.(missed := s.missed + 1)
    case TryAllocate =>
      if s.missed == 0 then s
      else if s.counter < s.limit then
        s.(missed := s.missed - 1, counter := s.counter + 1, live := s.live + {s.created}, created := s.created + 1)
      else s.(missed := s.missed - 1, failures := s.failures + 1)
    case Release(b) =>
      if b in s.live then s.(live := s.live - {b}, returning := s.returning + {b}) else s
    case Discard(b) =>
      if b in s.live then s.(live := s.live - {b}, freeing := s.freeing + 1) else s
    case Push(b) =>
      if b !in s.returning then s
      else if |s.idle| < RetainedLimit(s) then s.(returning := s.returning - {b}, idle := s.idle + [b])
      else s.(returning := s.returning - {b}, freeing := s.freeing + 1)
    case Uncount =>
      if s.freeing > 0 then s.(freeing := s.freeing - 1, counter := s.counter - 1) else s
  }

  function Run(buffers: nat, steps: seq<Step>): State
  {
    if steps == [] then Init(buffers) else Next(Run(buffers, steps[..|steps| - 1]), steps[|steps| - 1])
  }

  /** The counter counts every buffer once and respects the limit. */
  ghost predicate Counted(s: State)
  {
    && s.counter == |s.live| + |s.idle| + |s.returning| + s.freeing
    && s.counter <= s.limit && |s.idle| <= RetainedLimit(s)
  }

  /** No buffer has two owners. */
  ghost predicate Exclusive(s: State)
  {
    && s.live !! s.returning
    && (forall i :: 0 <= i < |s.idle| ==> s.idle[i] !in s.live && s.idle[i] !in s.returning)
    && (forall i, j :: 0 <= i < j < |s.idle| ==> s.idle[i] != s.idle[j])
    && (forall b :: b in s.live + s.returning ==> b < s.created)
    && (forall i :: 0 <= i < |s.idle| ==> s.idle[i] < s.created)
  }

  lemma CountedStep(s: State, step: Step)
    requires Counted(s) && s.live !! s.returning
    requires (|s.idle| > 0 ==> s.idle[0] !in s.live) && s.created !in s.live
    ensures Counted(Next(s, step)) && Next(s, step).limit == s.limit
  {
  }

  /** Which buffers are owned after a step, and in what way. */
  lemma ExclusiveStep(s: State, step: Step)
    requires Exclusive(s)
    ensures Exclusive(Next(s, step))
  {
  }

  lemma {:induction false} InvHolds(buffers: nat, steps: seq<Step>)
    ensures Counted(Run(buffers, steps)) && Exclusive(Run(buffers, steps))
    ensures Run(buffers, steps).limit == if buffers > 0 then buffers else 1
  {
    if steps != [] {
      InvHolds(buffers, steps[..|steps| - 1]);
      var s := Run(buffers, steps[..|steps| - 1]);
      assert s.created !in s.live + s.returning;
      hide Exclusive, Counted, Next;
      CountedStep(s, steps[|steps| - 1]);
      ExclusiveStep(s, steps[|steps| - 1]);
    }
  }

  /** In every interleaving the counter is the live, retained and in-transit buffers, at most the
      limit; the queue keeps its own bound; and no buffer has two owners. */
  lemma EveryBufferCounted(buffers: nat, steps: seq<Step>)
    ensures var s := Run(buffers, steps);
            && 0 <= s.counter == |s.live| + |s.idle| + |s.returning| + s.freeing <= (if buffers > 0 then buffers else 1)
            && |s.idle| <= RetainedLimit(s)
            && Exclusive(s)
  {
    InvHolds(buffers, steps);
  }

  /** One undisturbed acquire. */
  function Acquire(s: State): State
  {
    var looked := Next(s, TryPop);
    if looked.missed > s.missed then Next(looked, TryAllocate) else looked
  }

  /** In every reachable state an acquire fails if and only if no buffer is retained and the live ones
      and those in transit make up the limit; otherwise it makes one more buffer live. */
  lemma AcquireFailsExactly(buffers: nat, steps: seq<Step>)
    ensures var s := Run(buffers, steps);
            && (Acquire(s).failures > s.failures
                <==> s.idle == [] && |s.live| + |s.returning| + s.freeing == if buffers > 0 then buffers else 1)
            && (Acquire(s).failures == s.failures ==> |Acquire(s).live| == |s.live| + 1)
  {
    InvHolds(buffers, steps);
    var s := Run(buffers, steps);
    if |s.idle| > 0 {
      assert s.idle[0] !in s.live;
    }
  }

  /** Nothing is in transit. */
  predicate Quiescent(s: State) { s.returning == {} && s.freeing == 0 && s.missed == 0 }

  /** So on a quiescent pool it fails exactly when every buffer the limit allows is live. */
  lemma AcquireFailsWhenFull(buffers: nat, steps: seq<Step>)
    requires Quiescent(Run(buffers, steps))
    ensures var s := Run(buffers, steps);
            Acquire(s).failures > s.failures <==> |s.live| == if buffers > 0 then buffers else 1
  {
    AcquireFailsExactly(buffers, steps);
    InvHolds(buffers, steps);
  }

  /** And otherwise it can fail with a buffer to spare: here the only one is on its way back. */
  lemma InTransitAcquireFails()
    ensures var s := Run(1, [TryPop, TryAllocate, Release(0)]);
            s.live == {} && s.limit == 1 && Acquire(s).failures > s.failures
  {
    var steps := [TryPop, TryAllocate, Release(0)];
    assert steps[..2] == [TryPop, TryAllocate] && steps[..2][..1] == [TryPop];
    assert Run(1, steps[..2][..1]) == Next(Init(1), TryPop);
    assert Run(1, steps[..2]) == State(1, [], 1, {0}, {}, 0, 0, 0, 1);
    assert Run(1, steps) == State(1, [], 1, {}, {0}, 0, 0, 0, 1);
  }

  /** A buffer that is released without interruption is retained as long as there is room, and given up
      otherwise; either way it is no longer live. */
  lemma ReleaseUndisturbed(buffers: nat, steps: seq<Step>, b: nat)
    requires b in Run(buffers, steps).live
    ensures var s := Run(buffers, steps);
            var s' := Next(Next(s, Release(b)), Push(b));
            && b !in s'.live && s'.live == s.live - {b} && s'.returning == s.returning
            && if |s.idle| < 2048 && (|s.idle| == 0 || |s.idle| < buffers) then s'.idle == s.idle + [b] && s'.counter == s.counter && s'.freeing == s.freeing
               else
                 && s'.idle == s.idle && s'.freeing == s.freeing + 1
                 && (s.freeing == 0 ==> Next(s', Uncount).counter == s.counter - 1 && Next(s', Uncount).freeing == 0)
  {
    InvHolds(buffers, steps);
  }

  /** A retained buffer is used again before a new one is made. */
  lemma AcquireReuses(buffers: nat, steps: seq<Step>)
    requires |Run(buffers, steps).idle| > 0
    ensures var s := Run(buffers, steps);
            var s' := Acquire(s);
            s'.live == s.live + {s.idle[0]} && s'.idle == s.idle[1..] && s'.created == s.created && s'.counter == s.counter
  {
  }

  /** A buffer whose storage was resized is never used again. */
  lemma DiscardUndisturbed(buffers: nat, steps: seq<Step>, b: nat)
    requires b in Run(buffers, steps).live && Run(buffers, steps).freeing == 0
    ensures var s := Run(buffers, steps);
            var s' := Next(Next(s, Discard(b)), Uncount);
            s'.live == s.live - {b} && s'.idle == s.idle && s'.returning == s.returning && s'.counter == s.counter - 1
  {
    InvHolds(buffers, steps);
  }
}
