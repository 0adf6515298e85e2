/**
 Placing one packet: first fit over the selected worker and its neighbours, else spilling into the
 emptiest healthy queue, whose oldest packet makes room. Queues are taken active and open.
 */
module Dispatch {
  import opened Wrappers
  import opened Scheduler

  datatype Queue<P> = Queue(capacity: nat, packets: seq<P>)

  datatype Worker<P> = Worker(healthy: bool, latency: Queue<P>, priority: Queue<P>, bulk: Queue<P>)

  function QueueFor<P>(w: Worker<P>, class_: PacketClass): Queue<P>
  {
    match class_
    case Small => w.latency
    case Medium => w.priority
    case Bulk => w.bulk
  }

  function WithPackets<P>(w: Worker<P>, class_: PacketClass, packets: seq<P>): (w': Worker<P>)
    ensures w'.healthy == w.healthy
    ensures forall c ::
      QueueFor(w', c) == if c == class_ then QueueFor(w, c).(packets := packets) else QueueFor(w, c)
  {
    match class_
    case Small => w.(latency := w.latency.(packets := packets))
    case Medium => w.(priority := w.priority.(packets := packets))
    case Bulk => w.(bulk := w.bulk.(packets := packets))
  }

  /** The packets of one class that wait for one worker. */
  function Waiting<P>(w: Worker<P>, class_: PacketClass): seq<P> { QueueFor(w, class_).packets }

  predicate IsCongested<P>(q: Queue<P>) { q.capacity > 0 && |q.packets| * 2 >= q.capacity }

  predicate IsFull<P>(q: Queue<P>) { |q.packets| >= q.capacity }

  /** A healthy worker whose queue has room; a clear one is not congested either. */
  predicate HasRoom<P>(w: Worker<P>, class_: PacketClass) { w.healthy && !IsFull(QueueFor(w, class_)) }

  predicate IsClear<P>(w: Worker<P>, class_: PacketClass)
  {
    HasRoom(w, class_) && !IsCongested(QueueFor(w, class_))
  }

  predicate Suits<P>(w: Worker<P>, class_: PacketClass, preferClear: bool)
  {
    if preferClear then IsClear(w, class_) else HasRoom(w, class_)
  }

  /** How many slots are searched: three from a healthy primary on, all of them from any other. */
  function SearchWidth<P>(workers: seq<Worker<P>>, slot: nat): (width: nat)
    ensures width <= |workers|
  {
    if slot < |workers| && workers[slot].healthy
    then 1 + (if |workers| - 1 < 2 then |workers| - 1 else 2)
    else |workers|
  }

  function Probe(n: nat, slot: nat, offset: nat): (i: nat)
    requires n > 0
    ensures i < n
  {
    (slot + offset) % n
  }

  /** Nothing among the first `width` probes suits. */
  ghost predicate NoneSuits<P>(workers: seq<Worker<P>>, slot: nat, class_: PacketClass, preferClear: bool, width: nat)
  {
    |workers| > 0 ==> forall o: nat :: o < width ==> !Suits(workers[Probe(|workers|, slot, o)], class_, preferClear)
  }

  /** `at` is the first probe that suits. */
  ghost predicate FirstSuits<P>(workers: seq<Worker<P>>, slot: nat, class_: PacketClass, preferClear: bool, width: nat, at: nat)
  {
    exists o: nat ::
      && o < width && |workers| > 0 && at == Probe(|workers|, slot, o)
      && Suits(workers[at], class_, preferClear) && NoneSuits(workers, slot, class_, preferClear, o)
  }

  /** What the search selects: the first clear queue it comes to, else the first with room. */
  ghost predicate Selected<P>(workers: seq<Worker<P>>, slot: nat, class_: PacketClass, at: nat)
  {
    var width := SearchWidth(workers, slot);
    || FirstSuits(workers, slot, class_, true, width, at)
    || (NoneSuits(workers, slot, class_, true, width) && FirstSuits(workers, slot, class_, false, width, at))
  }

  ghost predicate NoneSelected<P>(workers: seq<Worker<P>>, slot: nat, class_: PacketClass)
  {
    NoneSuits(workers, slot, class_, false, SearchWidth(workers, slot))
  }

  /** Nothing is selected from a healthy worker on only if it and its next two have no room, and from any
      other only if nobody has. */
  lemma NoneSelectedMeans<P>(workers: seq<Worker<P>>, slot: nat, class_: PacketClass)
    requires NoneSelected(workers, slot, class_)
    ensures if slot < |workers| && workers[slot].healthy then
              forall o: nat :: o < 3 ==> !HasRoom(workers[Probe(|workers|, slot, o)], class_)
            else forall j :: 0 <= j < |workers| ==> !HasRoom(workers[j], class_)
  {
    hide HasRoom, Probe;
    if slot < |workers| && workers[slot].healthy {
      forall o: nat | o < 3
        ensures !HasRoom(workers[Probe(|workers|, slot, o)], class_)
      {
        NearHasNoRoom(workers, slot, class_, o);
      }
    } else {
      forall j | 0 <= j < |workers|
        ensures !HasRoom(workers[j], class_)
      {
        var o := ProbeFor(|workers|, slot, j);
        assert !Suits(workers[Probe(|workers|, slot, o)], class_, false);
      }
    }
  }

  lemma NearHasNoRoom<P>(workers: seq<Worker<P>>, slot: nat, class_: PacketClass, o: nat)
    requires NoneSelected(workers, slot, class_) && slot < |workers| && workers[slot].healthy && o < 3
    ensures !HasRoom(workers[Probe(|workers|, slot, o)], class_)
  {
    hide HasRoom;
    var n := |workers|;
    ModShift(o, slot, n);
    assert o % n < SearchWidth(workers, slot);
    assert !Suits(workers[Probe(n, slot, o % n)], class_, false);
  }

  /** Every slot is probed. */
  lemma ProbeFor(n: nat, slot: nat, j: nat) returns (o: nat)
    requires j < n
    ensures o < n && Probe(n, slot, o) == j
  {
    var r := slot % n;
    ModShift(slot, if j >= r then j - r else j + n - r, n);
    if j >= r {
      Quotient(j, n, 0, j);
      return j - r;
    }
    Quotient(j + n, n, 1, j);
    return j + n - r;
  }

  lemma ModShift(a: nat, b: nat, n: nat)
    requires n > 0
    ensures (a + b) % n == (a % n + b) % n
  {
    ShiftBy(a, b, n, a / n, (a % n + b) / n, a % n, (a % n + b) % n);
  }

  lemma ShiftBy(a: nat, b: nat, n: nat, q: nat, k: nat, s: nat, r: nat)
    requires a == q * n + s && s + b == k * n + r && r < n
    ensures (a + b) % n == r
  {
    Distribute(q, k, n);
    Quotient(a + b, n, q + k, r);
  }

  lemma Distribute(q: nat, k: nat, n: nat)
    ensures (q + k) * n == q * n + k * n
  {
  }

  /** What is selected is a healthy worker's queue with room. It is less than half full, unless every
      queue with room that was looked at is at least half full; and it is the first such queue. */
  lemma SelectedMeans<P>(workers: seq<Worker<P>>, slot: nat, class_: PacketClass, at: nat) returns (o: nat)
    requires Selected(workers, slot, class_, at)
    ensures |workers| > 0 && at == (slot + o) % |workers| && workers[at].healthy
    ensures slot < |workers| && workers[slot].healthy ==> o < 3
    ensures var mine := QueueFor(workers[at], class_);
            && |mine.packets| < mine.capacity
            && (forall b: nat :: b < SearchWidth(workers, slot) && |mine.packets| * 2 >= mine.capacity ==>
                  var queue := QueueFor(workers[Probe(|workers|, slot, b)], class_);
                  workers[Probe(|workers|, slot, b)].healthy && |queue.packets| < queue.capacity ==>
                    |queue.packets| * 2 >= queue.capacity)
            && forall b: nat :: b < o && workers[Probe(|workers|, slot, b)].healthy ==>
                 var queue := QueueFor(workers[Probe(|workers|, slot, b)], class_);
                 |queue.packets| >= queue.capacity || (|queue.packets| * 2 >= queue.capacity && |mine.packets| * 2 < mine.capacity)
  {
    var width := SearchWidth(workers, slot);
    var clear := FirstSuits(workers, slot, class_, true, width, at);
    o :| o < width && at == Probe(|workers|, slot, o)
         && Suits(workers[at], class_, clear) && NoneSuits(workers, slot, class_, clear, o);
    assert !clear ==> !Suits(workers[Probe(|workers|, slot, o)], class_, true);
  }

  lemma SelectedHasRoom<P>(workers: seq<Worker<P>>, slot: nat, class_: PacketClass, at: nat)
    requires Selected(workers, slot, class_, at)
    ensures at < |workers| && HasRoom(workers[at], class_)
  {
  }

  /** A search that starts at a clear queue ends there. */
  lemma ClearStart<P>(workers: seq<Worker<P>>, slot: nat, class_: PacketClass, at: Option<nat>)
    requires slot < |workers| && IsClear(workers[slot], class_)
    requires if at.Some? then Selected(workers, slot, class_, at.value) else NoneSelected(workers, slot, class_)
    ensures at == Some(slot)
  {
    assert Probe(|workers|, slot, 0) == slot;
    assert Suits(workers[Probe(|workers|, slot, 0)], class_, true) && Suits(workers[Probe(|workers|, slot, 0)], class_, false);
  }

  /** The workers after the packet was put at the end of one queue, whose oldest packet may go. */
  function Placed<P>(workers: seq<Worker<P>>, at: nat, class_: PacketClass, evict: bool, packet: P): seq<Worker<P>>
    requires at < |workers|
  {
    var before := Waiting(workers[at], class_);
    workers[at := WithPackets(workers[at], class_, (if evict && before != [] then before[1..] else before) + [packet])]
  }

  /** The queue keeps its order: the packet is behind all the others, of which the oldest may be gone. */
  lemma PlacedLast<P>(workers: seq<Worker<P>>, at: nat, class_: PacketClass, evict: bool, packet: P)
    requires at < |workers|
    ensures var all := Waiting(workers[at], class_) + [packet];
            Waiting(Placed(workers, at, class_, evict, packet)[at], class_) == if evict && |all| > 1 then all[1..] else all
  {
  }

  /** The first of the healthy workers with the fewest packets of the class. */
  ghost predicate Emptiest<P>(workers: seq<Worker<P>>, class_: PacketClass, at: nat)
  {
    && at < |workers| && workers[at].healthy
    && (forall j :: 0 <= j < |workers| && workers[j].healthy ==> |Waiting(workers[at], class_)| <= |Waiting(workers[j], class_)|)
    && (forall j :: 0 <= j < at && workers[j].healthy ==> |Waiting(workers[at], class_)| < |Waiting(workers[j], class_)|)
  }

  class WorkerSet<P> {
    var workers: seq<Worker<P>>

    constructor (workers: seq<Worker<P>>)
      ensures this.workers == workers
    {
      this.workers := workers;
    }

    /** First fit in probe order: a clear queue if the search finds one, else one with room. */
    method EnqueueSelected(slot: nat, class_: PacketClass, packet: P) returns (at: Option<nat>)
      modifies this
      ensures match at
              case Some(i) => Selected(old(workers), slot, class_, i) && i < |old(workers)|
                && workers == Placed(old(workers), i, class_, false, packet)
              case None => workers == old(workers) && NoneSelected(workers, slot, class_)
      ensures at == None ==>
        if slot < |workers| && workers[slot].healthy then
          forall o: nat :: o < 3 ==> !HasRoom(workers[Probe(|workers|, slot, o)], class_)
        else forall j :: 0 <= j < |workers| ==> !HasRoom(workers[j], class_)
    {
      var n := |workers|;
      if n == 0 {
        return None;
      }
      var width := SearchWidth(workers, slot);
      for pass := 0 to 2
        invariant workers == old(workers)
        invariant pass >= 1 ==> NoneSuits(workers, slot, class_, true, width)
        invariant pass >= 2 ==> NoneSuits(workers, slot, class_, false, width)
      {
        var preferClear := pass == 0;
        for offset := 0 to width
          invariant workers == old(workers)
          invariant NoneSuits(workers, slot, class_, preferClear, offset)
        {
          var i := Probe(n, slot, offset);
          var queue := QueueFor(workers[i], class_);
          if workers[i].healthy && !(preferClear && IsCongested(queue)) && !IsFull(queue) {
            assert FirstSuits(workers, slot, class_, preferClear, width, i);
            workers := Placed(workers, i, class_, false, packet);
            return Some(i);
          }
        }
      }
      NoneSelectedMeans(workers, slot, class_);
      return None;
    }

    /** Spilling: the first healthy queue with the fewest packets takes it, and loses its oldest
        packet if it is full. Without a healthy worker nothing changes. */
    method ReplaceOldest(class_: PacketClass, packet: P) returns (at: Option<nat>)
      modifies this
      ensures match at
              case Some(i) =>
                && i < |old(workers)| && old(workers)[i].healthy
                && Emptiest(old(workers), class_, i)
                && workers == Placed(old(workers), i, class_, IsFull(QueueFor(old(workers)[i], class_)), packet)
              case None => workers == old(workers) && forall j :: 0 <= j < |workers| ==> !workers[j].healthy
    {
      at := None;
      for i := 0 to |workers|
        invariant workers == old(workers)
        invariant at == None ==> forall j :: 0 <= j < i ==> !workers[j].healthy
        invariant at.Some? ==> at.value < i && workers[at.value].healthy
        invariant at.Some? ==> forall j :: 0 <= j < i && workers[j].healthy ==>
          |Waiting(workers[at.value], class_)| <= |Waiting(workers[j], class_)|
        invariant at.Some? ==> forall j :: 0 <= j < at.value && workers[j].healthy ==>
          |Waiting(workers[at.value], class_)| < |Waiting(workers[j], class_)|
      {
        if workers[i].healthy
           && (at == None || |Waiting(workers[i], class_)| < |Waiting(workers[at.value], class_)|) {
          at := Some(i);
        }
      }
      if at.Some? {
        workers := Placed(workers, at.value, class_, IsFull(QueueFor(workers[at.value], class_)), packet);
      }
    }

    /** The packet lands in exactly one healthy worker's queue of its class. With equal capacities a
        queued packet is evicted only when no healthy worker has room in that class, although the first
        search may look at three slots only. Without a healthy worker the packet is the only thing lost. */
    method DispatchPacket(slot: nat, class_: PacketClass, packet: P) returns (at: Option<nat>)
      modifies this
      ensures match at
              case Some(i) =>
                var crowded := forall j :: 0 <= j < |old(workers)| ==> !HasRoom(old(workers)[j], class_);
                && i < |old(workers)| && old(workers)[i].healthy
                && workers == Placed(old(workers), i, class_, IsFull(QueueFor(old(workers)[i], class_)), packet)
                && (Selected(old(workers), slot, class_, i) || (NoneSelected(old(workers), slot, class_) && Emptiest(old(workers), class_, i)))
                && (EqualCapacities(old(workers), class_) ==> (IsFull(QueueFor(old(workers)[i], class_)) <==> crowded))
                && (slot < |old(workers)| && IsClear(old(workers)[slot], class_) ==> i == slot)
              case None => workers == old(workers) && forall j :: 0 <= j < |workers| ==> !workers[j].healthy
    {
      hide Selected, NoneSelected, IsClear, HasRoom, EqualCapacities, IsFull;
      ghost var before := workers;
      at := EnqueueSelected(slot, class_, packet);
      if slot < |before| && IsClear(before[slot], class_) {
        ClearStart(before, slot, class_, at);
      }
      if at.Some? {
        SelectedHasRoom(before, slot, class_, at.value);
        RoomIsNotFull(before, class_, at.value);
      } else {
        at := ReplaceOldest(class_, packet);
        if at.Some? && EqualCapacities(before, class_) {
          SpillIsLastResort(before, class_, at.value);
        }
      }
    }

    /** One packet and, for some, a spare copy that starts half the workers away. The spare never
        evicts anything, and if both starting workers are clear the two go to different workers. */
    method DispatchNow(slot: nat, class_: PacketClass, packet: P, spare: Option<P>)
      returns (at: Option<nat>, second: Option<nat>, ghost between: seq<Worker<P>>)
      requires slot < |workers|
      modifies this
      ensures match at
              case Some(i) =>
                && i < |old(workers)| && old(workers)[i].healthy
                && between == Placed(old(workers), i, class_, IsFull(QueueFor(old(workers)[i], class_)), packet)
                && (EqualCapacities(old(workers), class_) && IsFull(QueueFor(old(workers)[i], class_)) ==>
                      forall j :: 0 <= j < |old(workers)| ==> !HasRoom(old(workers)[j], class_))
              case None => between == old(workers) && forall j :: 0 <= j < |between| ==> !between[j].healthy
      ensures match second
              case Some(j) =>
                && spare.Some? && j < |between| && HasRoom(between[j], class_)
                && workers == Placed(between, j, class_, false, spare.value)
              case None =>
                workers == between
      ensures var n := |old(workers)|;
              if spare.None? || n <= 1 then second == None
              else if second.Some? then Selected(between, (slot + n / 2) % n, class_, second.value)
              else NoneSelected(between, (slot + n / 2) % n, class_)
      ensures var n := |old(workers)|;
              var alt := (slot + n / 2) % n;
              spare.Some? && n > 1 && IsClear(old(workers)[slot], class_) && IsClear(old(workers)[alt], class_) ==>
                at == Some(slot) && second == Some(alt) && alt != slot
    {
      hide Selected, NoneSelected, HasRoom, EqualCapacities, IsFull, IsCongested;
      at := DispatchPacket(slot, class_, packet);
      between := workers;
      second := None;
      var n := |workers|;
      if spare.Some? && n > 1 {
        var alt := (slot + n / 2) % n;
        OtherHalf(n, slot);
        second := EnqueueSelected(alt, class_, spare.value);
        if second.Some? {
          SelectedHasRoom(between, alt, class_, second.value);
        }
        if IsClear(between[alt], class_) {
          ClearStart(between, alt, class_, second);
        }
      }
    }
  }

  lemma RoomIsNotFull<P>(workers: seq<Worker<P>>, class_: PacketClass, at: nat)
    requires at < |workers| && HasRoom(workers[at], class_)
    ensures workers[at].healthy && !IsFull(QueueFor(workers[at], class_))
    ensures !forall j :: 0 <= j < |workers| ==> !HasRoom(workers[j], class_)
  {
  }

  lemma OtherHalf(n: nat, slot: nat)
    requires slot < n && 1 < n
    ensures (slot + n / 2) % n != slot
  {
    if slot + n / 2 >= n {
      assert (slot + n / 2) % n == slot + n / 2 - n;
    }
  }

  /** What the engine builds: every worker's queues of a class have the same constant capacity
      (session.rs:862-864). */
  ghost predicate EqualCapacities<P>(workers: seq<Worker<P>>, class_: PacketClass)
  {
    forall i, j :: 0 <= i < |workers| && 0 <= j < |workers| ==>
      QueueFor(workers[i], class_).capacity == QueueFor(workers[j], class_).capacity
  }

  /** With equal capacities the emptiest healthy queue is full only if every healthy one is. */
  lemma SpillIsLastResort<P>(workers: seq<Worker<P>>, class_: PacketClass, at: nat)
    requires EqualCapacities(workers, class_) && at < |workers| && workers[at].healthy
    requires forall j :: 0 <= j < |workers| && workers[j].healthy ==>
      |Waiting(workers[at], class_)| <= |Waiting(workers[j], class_)|
    ensures IsFull(QueueFor(workers[at], class_)) <==> forall j :: 0 <= j < |workers| ==> !HasRoom(workers[j], class_)
  {
  }

  /** Placing a packet keeps that. */
  lemma CapacitiesKept<P>(workers: seq<Worker<P>>, at: nat, class_: PacketClass, evict: bool, packet: P, other: PacketClass)
    requires at < |workers| && EqualCapacities(workers, other)
    ensures EqualCapacities(Placed(workers, at, class_, evict, packet), other)
  {
  }

  /** A note on that condition, for a worker set the engine does not build: the three slots searched are
      full, so the packet would spill, and evict one of theirs although the fourth queue has room. */
  lemma UnequalCapacitiesEvictEarly<P>(p: P)
    ensures var small := Worker(true, Queue(1, [p]), Queue(1, []), Queue(1, []));
            var large := Worker(true, Queue(4, [p, p]), Queue(1, []), Queue(1, []));
            var workers := [small, small, small, large];
            && NoneSuits(workers, 0, Small, false, SearchWidth(workers, 0)) && HasRoom(large, Small)
            && IsFull(QueueFor(small, Small)) && |Waiting(small, Small)| < |Waiting(large, Small)|
  {
  }
}
