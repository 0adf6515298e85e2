/** The chunked round-robin scheduler: each packet class walks the workers with its own cursor. */
module Scheduler {
  import opened Wrappers

  datatype PacketClass = Small | Medium | Bulk

  /** Packets of a class that go to one worker before the next has its turn; never zero. */
  type Chunk = n: nat | 0 < n witness 1

  datatype Chunks = Chunks(small: Chunk, medium: Chunk, bulk: Chunk)

  function ChunkOf(chunks: Chunks, class_: PacketClass): Chunk
  {
    match class_
    case Small => chunks.small
    case Medium => chunks.medium
    case Bulk => chunks.bulk
  }

  function Index(class_: PacketClass): (i: nat)
    ensures i < 3
  {
    match class_
    case Small => 0
    case Medium => 1
    case Bulk => 2
  }

  datatype Cursor = Cursor(current: nat, remaining: nat)

  datatype Ticket = Ticket(slot: nat, class_: PacketClass)

  /** Where a class stands after k tickets: the slot whose turn it is, how much of its chunk is used
      up, and what every slot has received in the full cycles before. */
  datatype Place = Place(slot: nat, part: nat, served: nat)

  function PlaceAfter(k: nat, chunk: Chunk, workers: nat): (place: Place)
    requires workers > 0
    ensures place.slot < workers && place.part < chunk
  {
    if k == 0 then Place(0, 0, 0)
    else
      var p := PlaceAfter(k - 1, chunk, workers);
      if p.part + 1 < chunk then p.(part := p.part + 1)
      else if p.slot + 1 < workers then Place(p.slot + 1, 0, p.served)
      else Place(0, 0, p.served + chunk)
  }

  /** The slot of ticket number k of a class. */
  function SlotOf(k: nat, chunk: Chunk, workers: nat): (slot: nat)
    requires workers > 0
    ensures slot < workers
  {
    PlaceAfter(k, chunk, workers).slot
  }

  ghost predicate CursorAfter(cursor: Cursor, k: nat, chunk: Chunk, workers: nat)
    requires workers > 0
  {
    var p := PlaceAfter(k, chunk, workers);
    cursor.current == p.slot && cursor.remaining == (if p.part == 0 then 0 else chunk - p.part)
  }

  class FastPathScheduler<W> {
    const chunks: Chunks
    var workers: seq<W>
    var workerCount: nat
    const cursors: array<Cursor>
    ghost var issued: seq<nat>         // tickets of each class since the cursors were last reset

    ghost predicate Valid()
      reads this, cursors
    {
      && cursors.Length == 3 && |issued| == 3
      && workerCount == |workers|
      && (workerCount == 0 ==> issued == [0, 0, 0] && forall i :: 0 <= i < 3 ==> cursors[i] == Cursor(0, 0))
      && (workerCount > 0 ==>
            && CursorAfter(cursors[0], issued[0], chunks.small, workerCount)
            && CursorAfter(cursors[1], issued[1], chunks.medium, workerCount)
            && CursorAfter(cursors[2], issued[2], chunks.bulk, workerCount))
    }

    constructor (chunks: Chunks)
      ensures Valid() && fresh(cursors) && this.chunks == chunks && workers == [] && issued == [0, 0, 0]
    {
      this.chunks := chunks;
      workers, workerCount := [], 0;
      cursors := new Cursor[3](_ => Cursor(0, 0));
      issued := [0, 0, 0];
    }

    method SyncWorkerCount(count: nat)
      requires cursors.Length == 3
      modifies this`workerCount, this`issued, cursors
      ensures workerCount == count
      ensures if count == old(workerCount) then issued == old(issued) && cursors[..] == old(cursors[..])
              else issued == [0, 0, 0] && forall i :: 0 <= i < 3 ==> cursors[i] == Cursor(0, 0)
    {
      if workerCount != count {
        workerCount := count;
        forall i | 0 <= i < 3 {
          cursors[i] := Cursor(0, 0);
        }
        issued := [0, 0, 0];
      }
    }

    method BeginForClass(class_: PacketClass) returns (ticket: Option<Ticket>)
      requires Valid()
      modifies this`issued, cursors
      ensures Valid()
      ensures var k := old(issued)[Index(class_)];
              if workerCount == 0 then ticket == None && issued == old(issued)
              else
                && ticket == Some(Ticket(SlotOf(k, ChunkOf(chunks, class_), workerCount), class_))
                && issued == old(issued)[Index(class_) := k + 1]
    {
      if workerCount == 0 {
        return None;
      }
      var i, chunk := Index(class_), ChunkOf(chunks, class_);
      CursorSteps(cursors[i], issued[i], chunk, workerCount);
      hide PlaceAfter, SlotOf, CursorAfter;
      var Cursor(current, remaining) := cursors[i];
      if remaining == 0 {
        remaining := chunk;
      }
      var slot := current;
      remaining := remaining - 1;
      if remaining == 0 {
        current := current + 1;
        if current == workerCount {
          current := 0;
        }
      }
      cursors[i] := Cursor(current, remaining);
      issued := issued[i := issued[i] + 1];
      return Some(Ticket(slot, class_));
    }

    /** The next ticket of a class. The worker set is looked up again only between chunks, and its
        slots stay below the length of the set that is held. */
    method Begin(source: seq<W>, class_: PacketClass) returns (ticket: Option<Ticket>)
      requires Valid()
      modifies this, cursors
      ensures Valid()
      ensures workers == (if old(cursors[Index(class_)].remaining) == 0 then source else old(workers))
      ensures var before := if |workers| == |old(workers)| then old(issued) else [0, 0, 0];
              var k := before[Index(class_)];
              if |workers| == 0 then ticket == None && issued == before
              else
                && ticket == Some(Ticket(SlotOf(k, ChunkOf(chunks, class_), |workers|), class_))
                && ticket.value.slot < |workers|
                && issued == before[Index(class_) := k + 1]
    {
      if cursors[Index(class_)].remaining == 0 {
        workers := source;
        SyncWorkerCount(|workers|);
      }
      ticket := BeginForClass(class_);
    }
  }

  /** One ticket's change to a cursor. */
  function StepCursor(c: Cursor, chunk: Chunk, workers: nat): Cursor
    requires workers > 0 && c.remaining <= chunk
  {
    var remaining := (if c.remaining == 0 then chunk else c.remaining) - 1;
    var next := if c.current + 1 == workers then 0 else c.current + 1;
    Cursor(if remaining == 0 then next else c.current, remaining)
  }

  lemma CursorSteps(c: Cursor, k: nat, chunk: Chunk, workers: nat)
    requires workers > 0 && CursorAfter(c, k, chunk, workers)
    ensures c.remaining <= chunk && c.current == SlotOf(k, chunk, workers)
    ensures CursorAfter(StepCursor(c, chunk, workers), k + 1, chunk, workers)
  {
  }

  lemma MultipleGrows(x: nat, y: nat, b: nat)
    requires x < y
    ensures x * b + b <= y * b
  {
    assert (y - x - 1) * b >= 0;
    assert y * b == x * b + b + (y - x - 1) * b;
  }

  lemma Quotient(a: nat, b: nat, q: nat, r: nat)
    requires b > 0 && a == q * b + r && r < b
    ensures a / b == q && a % b == r
  {
    var q', r' := a / b, a % b;
    assert a == q' * b + r' && r' < b;
    if q' > q {
      MultipleGrows(q, q', b);
    } else if q' < q {
      MultipleGrows(q', q, b);
    }
  }

  lemma Successor(a: nat, b: nat)
    requires b > 0
    ensures if a % b == b - 1 then (a + 1) / b == a / b + 1 && (a + 1) % b == 0
            else (a + 1) / b == a / b && (a + 1) % b == a % b + 1
  {
    var q, r := a / b, a % b;
    assert a == q * b + r;
    if r == b - 1 {
      assert (q + 1) * b == q * b + b;
      Quotient(a + 1, b, q + 1, 0);
    } else {
      Quotient(a + 1, b, q, r + 1);
    }
  }

  /** The slot of ticket k is (k / chunk) mod n. */
  lemma {:induction false} SlotFormula(k: nat, chunk: Chunk, workers: nat)
    requires workers > 0
    ensures SlotOf(k, chunk, workers) == k / chunk % workers && PlaceAfter(k, chunk, workers).part == k % chunk
  {
    if k == 0 {
      Quotient(0, chunk, 0, 0);
      Quotient(0, workers, 0, 0);
    } else {
      SlotFormula(k - 1, chunk, workers);
      Successor(k - 1, chunk);
      Successor((k - 1) / chunk, workers);
    }
  }

  // ----- A run of tickets

  function CountClass(classes: seq<PacketClass>, class_: PacketClass): nat
  {
    if classes == [] then 0
    else CountClass(classes[..|classes| - 1], class_) + if classes[|classes| - 1] == class_ then 1 else 0
  }

  lemma EmptyCount()
    ensures forall c :: CountClass([], c) == 0
  {
  }

  lemma CountGrows(classes: seq<PacketClass>, i: nat, class_: PacketClass)
    requires i < |classes|
    ensures CountClass(classes[..i + 1], class_) == CountClass(classes[..i], class_) + if classes[i] == class_ then 1 else 0
  {
    assert classes[..i + 1][..i] == classes[..i];
  }

  /** With a fixed number of workers, the k-th ticket of a class has slot (k / chunk) mod n, whatever
      the other classes interleave. */
  method Tickets<W>(chunks: Chunks, workers: seq<W>, classes: seq<PacketClass>) returns (slots: seq<nat>)
    requires |workers| > 0
    ensures |slots| == |classes|
    ensures forall i :: 0 <= i < |classes| ==>
      slots[i] == CountClass(classes[..i], classes[i]) / ChunkOf(chunks, classes[i]) % |workers|
  {
    hide PlaceAfter, SlotOf, CursorAfter, CountClass;
    var scheduler := new FastPathScheduler<W>(chunks);
    slots := [];
    EmptyCount();
    for i := 0 to |classes|
      invariant scheduler.Valid() && fresh(scheduler) && fresh(scheduler.cursors) && scheduler.chunks == chunks
      invariant |slots| == i
      invariant scheduler.workers == [] || |scheduler.workers| == |workers|
      invariant scheduler.workers == [] ==> i == 0
      invariant scheduler.issued[0] == CountClass(classes[..i], Small)
      invariant scheduler.issued[1] == CountClass(classes[..i], Medium)
      invariant scheduler.issued[2] == CountClass(classes[..i], Bulk)
      invariant forall j :: 0 <= j < i ==>
        slots[j] == CountClass(classes[..j], classes[j]) / ChunkOf(chunks, classes[j]) % |workers|
    {
      SlotFormula(CountClass(classes[..i], classes[i]), ChunkOf(chunks, classes[i]), |workers|);
      var ticket := scheduler.Begin(workers, classes[i]);
      slots := slots + [ticket.value.slot];
      CountGrows(classes, i, Small);
      CountGrows(classes, i, Medium);
      CountGrows(classes, i, Bulk);
    }
  }

  // ----- Balance

  /** How many of the first k tickets have the slot. */
  function Share(slot: nat, k: nat, chunk: Chunk, workers: nat): nat
    requires workers > 0
  {
    if k == 0 then 0
    else Share(slot, k - 1, chunk, workers) + if SlotOf(k - 1, chunk, workers) == slot then 1 else 0
  }

  /** Full cycles give each slot one chunk; the cycle under way has served the slots before the
      current one fully, the current one partly, and no other. */
  lemma {:induction false} ShareExact(slot: nat, k: nat, chunk: Chunk, workers: nat)
    requires slot < workers
    ensures var p := PlaceAfter(k, chunk, workers);
            Share(slot, k, chunk, workers)
            == p.served + if slot < p.slot then chunk else if slot == p.slot then p.part else 0
  {
    if k > 0 {
      ShareExact(slot, k - 1, chunk, workers);
    }
  }

  /** In every prefix of a class's tickets the shares of two workers differ by at most one chunk, and
      after full cycles they are equal. */
  lemma Balanced(a: nat, b: nat, k: nat, chunk: Chunk, workers: nat)
    requires a < workers && b < workers
    ensures Share(a, k, chunk, workers) <= Share(b, k, chunk, workers) + chunk
    ensures k % chunk == 0 && k / chunk % workers == 0 ==> Share(a, k, chunk, workers) == Share(b, k, chunk, workers)
  {
    ShareExact(a, k, chunk, workers);
    ShareExact(b, k, chunk, workers);
    SlotFormula(k, chunk, workers);
  }
}
