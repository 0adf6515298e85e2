/**
 The log pipeline: any number of producers push lines into two lossy bounded queues, one writer
 empties them. Every atomic access is one step and a run is an arbitrary list of steps.
 */
module Logging {
  import opened Wrappers
  import opened Sums

  const PROTOCOL_BURST: nat := 32
  const COALESCE_BATCH: nat := 64
  const ATTEMPTS: nat := 4

  datatype Kind = Protocol | Diagnostic

  /** A queued line; `ticket` numbers the pushes of its queue. */
  datatype Entry = Entry(value: string, ticket: nat)

  /** One queue with its counters. `pushed` and `accepted` record what reached it, for the claims. */
  datatype Channel = Channel(
    capacity: nat, queue: seq<Entry>, outstanding: int, dropped: nat, pushed: seq<string>, accepted: nat)

  /** Where a producer stands inside `replace_oldest`. */
  datatype Phase = Counting | Pushing | Popping | Uncounting | Tallying | GivingUp | TallyingOwn | Queued | GaveUp

  /** A call that logs a line; `found` counts how often it found the queue full. */
  datatype Producer = Producer(kind: Kind, value: string, tries: nat, phase: Phase, found: nat)

  predicate Finished(p: Producer) { p.phase.Queued? || p.phase.GaveUp? }

  /** Where the writer stands inside its loop. */
  datatype At =
    | Top
    | HoldingProtocol(line: Entry, burst: nat)
    | UncountingProtocol
    | TakingDiagnostic
    | Coalescing(taken: seq<Entry>)
    | UncountingRepeat(taken: seq<Entry>)
    | Writing(taken: seq<Entry>)
    | UncountingDiagnostic
    | TakingProtocol

  datatype Writer = Writer(at: At, burst: nat, pending: Option<Entry>)

  /** A protocol line written, or a diagnostic printed with its count of repetitions; `taken` records
      the lines it stands for, for the claims. */
  datatype Event = WroteProtocol(line: Entry) | WroteDiagnostic(printed: string, count: nat, taken: seq<Entry>)

  datatype State = State(
    protocol: Channel, diagnostic: Channel, producers: seq<Producer>, writer: Writer, log: seq<Event>)

  datatype Step = Log(kind: Kind, value: string) | Produce(producer: nat) | Write

  function NewChannel(capacity: nat): Channel
  {
    Channel(if capacity == 0 then 1 else capacity, [], 0, 0, [], 0)
  }

  function Init(protocolCapacity: nat, diagnosticCapacity: nat): State
  {
    State(NewChannel(protocolCapacity), NewChannel(diagnosticCapacity), [], Writer(Top, 0, None), [])
  }

  function Chan(s: State, kind: Kind): Channel
  {
    if kind.Protocol? then s.protocol else s.diagnostic
  }

  function PutChan(s: State, kind: Kind, c: Channel): State
  {
    if kind.Protocol? then s.(protocol := c) else s.(diagnostic := c)
  }

  function PutProducer(s: State, i: nat, p: Producer): State
    requires i < |s.producers|
  {
    s.(producers := s.producers[i := p])
  }

  function Count(c: Channel): Channel { c.(outstanding := c.outstanding + 1) }

  function Uncount(c: Channel): Channel { c.(outstanding := c.outstanding - 1) }

  function Drop(c: Channel): Channel { c.(dropped := c.dropped + 1) }

  function PopFront(c: Channel): Channel
    requires |c.queue| > 0
  {
    c.(queue := c.queue[1..])
  }

  function PushBack(c: Channel, value: string): Channel
  {
    c.(queue := c.queue + [Entry(value, |c.pushed|)], pushed := c.pushed + [value])
  }

  function NextTry(p: Producer): Producer
  {
    p.(tries := p.tries + 1, phase := if p.tries + 1 < ATTEMPTS then Pushing else GivingUp)
  }

  /** The producer and its channel after its next atomic access. */
  function ProducerStep(p: Producer, c: Channel): (Producer, Channel)
  {
    match p.phase
    case Counting => (p.(phase := Pushing), Count(c))
    case Pushing =>
      if |c.queue| < c.capacity then (p.(phase := Queued), PushBack(c, p.value))
      else (p.(phase := Popping, found := p.found + 1), c)
    case Popping => if |c.queue| > 0 then (p.(phase := Uncounting), PopFront(c)) else (NextTry(p), c)
    case Uncounting => (p.(phase := Tallying), Uncount(c))
    case Tallying => (NextTry(p), Drop(c))
    case GivingUp => (p.(phase := TallyingOwn), Uncount(c))
    case TallyingOwn => (p.(phase := GaveUp), Drop(c))
    case _ => (p, c)
  }

  function Go(s: State, at: At): State { s.(writer := s.writer.(at := at)) }

  /** The writer's next atomic access. */
  function WriterStep(s: State): State
  {
    var w := s.writer;
    match w.at
    case Top =>
      if w.burst < PROTOCOL_BURST && |s.protocol.queue| > 0 then
        Go(s, HoldingProtocol(s.protocol.queue[0], w.burst + 1)).(protocol := PopFront(s.protocol))
      else Go(s, TakingDiagnostic)
    case HoldingProtocol(line, burst) =>
      s.(writer := w.(at := UncountingProtocol, burst := burst), log := s.log + [WroteProtocol(line)])
    case UncountingProtocol =>
      Go(s, Top).(protocol := Uncount(s.protocol))
    case TakingDiagnostic =>
      if w.pending.Some? then s.(writer := w.(at := Coalescing([w.pending.value]), pending := None))
      else if |s.diagnostic.queue| > 0 then
        Go(s, Coalescing([s.diagnostic.queue[0]])).(diagnostic := PopFront(s.diagnostic))
      else Go(s, TakingProtocol)
    case Coalescing(taken) =>
      if |taken| >= COALESCE_BATCH || |taken| == 0 || |s.diagnostic.queue| == 0 then Go(s, Writing(taken))
      else
        var next := s.diagnostic.queue[0];
        var s' := s.(diagnostic := PopFront(s.diagnostic));
        if next.value == taken[0].value then Go(s', UncountingRepeat(taken + [next]))
        else s'.(writer := w.(at := Writing(taken), pending := Some(next)))
    case UncountingRepeat(taken) =>
      Go(s, Coalescing(taken)).(diagnostic := Uncount(s.diagnostic))
    case Writing(taken) =>
      Go(s, UncountingDiagnostic).(log := s.log + [WroteDiagnostic(if |taken| > 0 then taken[0].value else "", |taken|, taken)])
    case UncountingDiagnostic =>
      s.(writer := w.(at := Top, burst := 0), diagnostic := Uncount(s.diagnostic))
    case TakingProtocol =>
      if |s.protocol.queue| > 0 then
        Go(s, HoldingProtocol(s.protocol.queue[0], 1)).(protocol := PopFront(s.protocol))
      else Go(s, Top)
  }

  function Next(s: State, step: Step): State
  {
    match step
    case Log(kind, value) =>
      PutChan(s.(producers := s.producers + [Producer(kind, value, 0, Counting, 0)]), kind,
              Chan(s, kind).(accepted := Chan(s, kind).accepted + 1))
    case Produce(i) =>
      if i >= |s.producers| then s
      else
        var p := s.producers[i];
        var (p', c') := ProducerStep(p, Chan(s, p.kind));
        PutChan(PutProducer(s, i, p'), p.kind, c')
    case Write => WriterStep(s)
  }

  function Run(init: State, steps: seq<Step>): State
  {
    if steps == [] then init
    else Next(Run(init, steps[..|steps| - 1]), steps[|steps| - 1])
  }

  // ----- Books: counters and conservation

  /** Whether a producer is counted as outstanding, or is one line yet to be accounted for. */
  datatype Book = Outstanding | Lines

  function ProducerWeight(p: Producer, kind: Kind, book: Book): nat
  {
    if p.kind != kind then 0
    else
      match p.phase
      case Counting => if book.Lines? then 1 else 0
      case Pushing => 1
      case Popping => 1
      case Uncounting => 2
      case Tallying => if book.Lines? then 2 else 1
      case GivingUp => 1
      case TallyingOwn => if book.Lines? then 1 else 0
      case Queued => 0
      case GaveUp => 0
  }

  function Weights(producers: seq<Producer>, kind: Kind, book: Book): (weights: seq<nat>)
    ensures |weights| == |producers|
  {
    seq(|producers|, i requires 0 <= i < |producers| => ProducerWeight(producers[i], kind, book))
  }

  function Held(w: Writer): nat { if w.pending.Some? then 1 else 0 }

  /** What the writer holds of a queue, by either book. */
  function WriterWeight(w: Writer, kind: Kind, book: Book): nat
  {
    match kind
    case Protocol =>
      (match w.at
       case HoldingProtocol(_, _) => 1
       case UncountingProtocol => if book.Lines? then 0 else 1
       case _ => 0)
    case Diagnostic =>
      Held(w) +
      (match w.at
       case Coalescing(taken) => if book.Lines? then |taken| else 1
       case UncountingRepeat(taken) => if book.Lines? then |taken| else 2
       case Writing(taken) => if book.Lines? then |taken| else 1
       case UncountingDiagnostic => if book.Lines? then 0 else 1
       case _ => 0)
  }

  function Written(log: seq<Event>, kind: Kind): nat
  {
    if log == [] then 0 else Written(log[..|log| - 1], kind) + EventLines(log[|log| - 1], kind)
  }

  /** The lines an event stands for, with "(xN)" expanded. */
  function EventLines(e: Event, kind: Kind): nat
  {
    match e
    case WroteProtocol(_) => if kind.Protocol? then 1 else 0
    case WroteDiagnostic(_, count, _) => if kind.Diagnostic? then count else 0
  }

  lemma WrittenAppend(log: seq<Event>, e: Event, kind: Kind)
    ensures Written(log + [e], kind) == Written(log, kind) + EventLines(e, kind)
  {
  }

  ghost predicate OutstandingInv(s: State, kind: Kind)
  {
    Chan(s, kind).outstanding ==
      |Chan(s, kind).queue| + Sum(Weights(s.producers, kind, Outstanding)) + WriterWeight(s.writer, kind, Outstanding)
  }

  ghost predicate LinesInv(s: State, kind: Kind)
  {
    Chan(s, kind).accepted ==
      |Chan(s, kind).queue| + Chan(s, kind).dropped + Written(s.log, kind)
      + Sum(Weights(s.producers, kind, Lines)) + WriterWeight(s.writer, kind, Lines)
  }

  lemma Rebalance(s: State, step: Step, kind: Kind, book: Book)
    ensures var before, after := Weights(s.producers, kind, book), Weights(Next(s, step).producers, kind, book);
            if step.Log? then
              Sum(after) == Sum(before) + ProducerWeight(Producer(step.kind, step.value, 0, Counting, 0), kind, book)
            else if step.Produce? && step.producer < |s.producers| then
              Sum(after) + ProducerWeight(s.producers[step.producer], kind, book)
              == Sum(before) + ProducerWeight(Next(s, step).producers[step.producer], kind, book)
            else after == before
  {
    var s' := Next(s, step);
    var before, after := Weights(s.producers, kind, book), Weights(s'.producers, kind, book);
    if step.Log? {
      SumAppend(before, ProducerWeight(s'.producers[|s.producers|], kind, book));
      assert after == before + [ProducerWeight(s'.producers[|s.producers|], kind, book)];
    } else if step.Produce? && step.producer < |s.producers| {
      SumUpdate(before, step.producer, ProducerWeight(s'.producers[step.producer], kind, book));
      assert after == before[step.producer := ProducerWeight(s'.producers[step.producer], kind, book)];
    }
  }

  /** While it collects repetitions the writer holds no other diagnostic, and they are repetitions. */
  ghost predicate WriterInv(w: Writer)
  {
    && w.burst <= PROTOCOL_BURST
    && match w.at
       case HoldingProtocol(_, burst) => 0 < burst <= PROTOCOL_BURST
       case TakingProtocol => w.pending == None
       case Coalescing(taken) => w.pending == None && Repetitions(taken)
       case UncountingRepeat(taken) => w.pending == None && Repetitions(taken)
       case Writing(taken) => Repetitions(taken)
       case _ => true
  }

  ghost predicate Repetitions(taken: seq<Entry>)
  {
    0 < |taken| <= COALESCE_BATCH && forall i :: 0 <= i < |taken| ==> taken[i].value == taken[0].value
  }

  lemma WriterInvStep(s: State, step: Step)
    requires WriterInv(s.writer)
    ensures WriterInv(Next(s, step).writer)
  {
  }

  /** What a producer's step moves between the books. */
  lemma ProducerBalance(p: Producer, c: Channel)
    ensures var (p', c') := ProducerStep(p, c);
            && p'.kind == p.kind
            && c'.outstanding + |c.queue| + ProducerWeight(p, p.kind, Outstanding)
               == c.outstanding + |c'.queue| + ProducerWeight(p', p.kind, Outstanding)
            && c'.accepted == c.accepted
            && |c.queue| + c.dropped + ProducerWeight(p, p.kind, Lines)
               == |c'.queue| + c'.dropped + ProducerWeight(p', p.kind, Lines)
  {
  }

  /** What the writer's step moves between the books: it only counts off what it lets go... */
  lemma WriterCounts(s: State, kind: Kind)
    requires WriterInv(s.writer)
    ensures var s' := WriterStep(s);
            var c, c' := Chan(s, kind), Chan(s', kind);
            && c'.accepted == c.accepted && c'.dropped == c.dropped && c'.pushed == c.pushed
            && c'.outstanding + |c.queue| + WriterWeight(s.writer, kind, Outstanding)
               == c.outstanding + |c'.queue| + WriterWeight(s'.writer, kind, Outstanding)
  {
  }

  /** ... and writes what it takes. */
  lemma WriterLines(s: State, kind: Kind)
    requires WriterInv(s.writer)
    ensures var s' := WriterStep(s);
            |Chan(s, kind).queue| + Written(s.log, kind) + WriterWeight(s.writer, kind, Lines)
            == |Chan(s', kind).queue| + Written(s'.log, kind) + WriterWeight(s'.writer, kind, Lines)
  {
    var s' := WriterStep(s);
    LinesMove(s, kind);
    if s'.log != s.log {
      WrittenAppend(s.log, s'.log[|s.log|], kind);
    }
    hide WriterStep, WriterWeight, WriterInv, EventLines;
  }

  lemma LinesMove(s: State, kind: Kind)
    requires WriterInv(s.writer)
    ensures var s' := WriterStep(s);
            var written := if |s'.log| > |s.log| then EventLines(s'.log[|s.log|], kind) else 0;
            && (s'.log != s.log ==> |s'.log| > |s.log| && s'.log == s.log + [s'.log[|s.log|]])
            && |Chan(s, kind).queue| + WriterWeight(s.writer, kind, Lines)
               == |Chan(s', kind).queue| + written + WriterWeight(s'.writer, kind, Lines)
  {
  }

  ghost predicate BooksInv(s: State, kind: Kind)
  {
    OutstandingInv(s, kind) && LinesInv(s, kind)
  }

  lemma BooksProduce(s: State, i: nat, kind: Kind)
    requires BooksInv(s, kind) && i < |s.producers|
    ensures BooksInv(Next(s, Produce(i)), kind)
  {
    Rebalance(s, Produce(i), kind, Outstanding);
    Rebalance(s, Produce(i), kind, Lines);
    ProducerBalance(s.producers[i], Chan(s, s.producers[i].kind));
    hide ProducerStep;
  }

  lemma BooksLog(s: State, step: Step, kind: Kind)
    requires BooksInv(s, kind) && step.Log?
    ensures BooksInv(Next(s, step), kind)
  {
    Rebalance(s, step, kind, Outstanding);
    Rebalance(s, step, kind, Lines);
  }

  lemma BooksWrite(s: State, kind: Kind)
    requires WriterInv(s.writer) && BooksInv(s, kind)
    ensures BooksInv(WriterStep(s), kind)
  {
    Rebalance(s, Write, kind, Outstanding);
    Rebalance(s, Write, kind, Lines);
    WriterCounts(s, kind);
    WriterLines(s, kind);
    hide WriterStep, WriterWeight, WriterInv;
  }

  lemma BooksStep(s: State, step: Step, kind: Kind)
    requires WriterInv(s.writer) && BooksInv(s, kind)
    ensures BooksInv(Next(s, step), kind)
  {
    hide BooksInv, WriterInv, ProducerStep, WriterStep;
    match step {
      case Log(_, _) => BooksLog(s, step, kind);
      case Produce(i) =>
        if i < |s.producers| {
          BooksProduce(s, i, kind);
        }
      case Write => BooksWrite(s, kind);
    }
  }

  lemma {:induction false} BooksHold(protocolCapacity: nat, diagnosticCapacity: nat, steps: seq<Step>, kind: Kind)
    ensures var s := Run(Init(protocolCapacity, diagnosticCapacity), steps);
            WriterInv(s.writer) && BooksInv(s, kind)
  {
    if steps != [] {
      var s := Run(Init(protocolCapacity, diagnosticCapacity), steps[..|steps| - 1]);
      BooksHold(protocolCapacity, diagnosticCapacity, steps[..|steps| - 1], kind);
      WriterInvStep(s, steps[|steps| - 1]);
      BooksStep(s, steps[|steps| - 1], kind);
    }
  }

  /** In every interleaving the outstanding counter is never negative: it is the queued lines, those
      the writer holds and those producers are in the middle of. */
  lemma OutstandingIsExact(protocolCapacity: nat, diagnosticCapacity: nat, steps: seq<Step>, kind: Kind)
    ensures var s := Run(Init(protocolCapacity, diagnosticCapacity), steps);
            Chan(s, kind).outstanding ==
              |Chan(s, kind).queue| + Sum(Weights(s.producers, kind, Outstanding)) + WriterWeight(s.writer, kind, Outstanding)
  {
    BooksHold(protocolCapacity, diagnosticCapacity, steps, kind);
  }

  /** No call is in progress and the writer is about to look for work. */
  ghost predicate Quiescent(s: State)
  {
    && s.writer.at == Top && s.writer.pending == None
    && forall i :: 0 <= i < |s.producers| ==> Finished(s.producers[i])
  }

  /** Then every accepted line was written, with repetitions expanded, or dropped, or is queued, and
      exactly the queued ones are outstanding. */
  lemma LinesConserved(protocolCapacity: nat, diagnosticCapacity: nat, steps: seq<Step>, kind: Kind)
    requires Quiescent(Run(Init(protocolCapacity, diagnosticCapacity), steps))
    ensures var s := Run(Init(protocolCapacity, diagnosticCapacity), steps);
            var c := Chan(s, kind);
            && c.accepted == Written(s.log, kind) + c.dropped + |c.queue|
            && c.outstanding == |c.queue|
  {
    var s := Run(Init(protocolCapacity, diagnosticCapacity), steps);
    BooksHold(protocolCapacity, diagnosticCapacity, steps, kind);
    SumZero(Weights(s.producers, kind, Outstanding));
    SumZero(Weights(s.producers, kind, Lines));
  }

  // ----- Order

  function Expand(log: seq<Event>, kind: Kind): seq<Entry>
  {
    if log == [] then [] else Expand(log[..|log| - 1], kind) + EventEntries(log[|log| - 1], kind)
  }

  function EventEntries(e: Event, kind: Kind): seq<Entry>
  {
    match e
    case WroteProtocol(line) => if kind.Protocol? then [line] else []
    case WroteDiagnostic(_, _, taken) => if kind.Diagnostic? then taken else []
  }

  lemma ExpandAppend(log: seq<Event>, e: Event, kind: Kind)
    ensures Expand(log + [e], kind) == Expand(log, kind) + EventEntries(e, kind)
  {
  }

  /** The lines of a queue that the writer has taken and not yet written, oldest first. */
  function InHand(w: Writer, kind: Kind): seq<Entry>
  {
    match kind
    case Protocol => if w.at.HoldingProtocol? then [w.at.line] else []
    case Diagnostic =>
      (if w.at.Coalescing? || w.at.UncountingRepeat? || w.at.Writing? then w.at.taken else [])
      + if w.pending.Some? then [w.pending.value] else []
  }

  /** Everything written, held or queued, in that order. */
  function Pipe(s: State, kind: Kind): seq<Entry>
  {
    Expand(s.log, kind) + InHand(s.writer, kind) + Chan(s, kind).queue
  }

  /** Lines of the push history, in its order, each with the text that was pushed. */
  ghost predicate InPushOrder(entries: seq<Entry>, pushed: seq<string>)
  {
    && (forall i :: 0 <= i < |entries| ==> entries[i].ticket < |pushed| && entries[i].value == pushed[entries[i].ticket])
    && (forall i, j :: 0 <= i < j < |entries| ==> entries[i].ticket < entries[j].ticket)
  }

  lemma OrderAfterPop(entries: seq<Entry>, queue: seq<Entry>, pushed: seq<string>)
    requires |queue| > 0 && InPushOrder(entries + queue, pushed)
    ensures InPushOrder(entries + queue[1..], pushed)
  {
    var before, after := entries + queue, entries + queue[1..];
    assert forall i :: 0 <= i < |after| ==> after[i] == before[if i < |entries| then i else i + 1];
  }

  lemma OrderAfterPush(entries: seq<Entry>, queue: seq<Entry>, pushed: seq<string>, value: string)
    requires InPushOrder(entries + queue, pushed)
    ensures InPushOrder(entries + (queue + [Entry(value, |pushed|)]), pushed + [value])
  {
    assert entries + (queue + [Entry(value, |pushed|)]) == entries + queue + [Entry(value, |pushed|)];
  }

  lemma OrderProduce(s: State, i: nat, kind: Kind)
    requires i < |s.producers| && InPushOrder(Pipe(s, kind), Chan(s, kind).pushed)
    ensures InPushOrder(Pipe(Next(s, Produce(i)), kind), Chan(Next(s, Produce(i)), kind).pushed)
  {
    var p, c := s.producers[i], Chan(s, kind);
    var entries := Expand(s.log, kind) + InHand(s.writer, kind);
    if p.kind == kind && p.phase.Pushing? && |c.queue| < c.capacity {
      OrderAfterPush(entries, c.queue, c.pushed, p.value);
    } else if p.kind == kind && p.phase.Popping? && |c.queue| > 0 {
      OrderAfterPop(entries, c.queue, c.pushed);
    }
  }

  /** What a step of the writer writes. */
  function Output(s: State, kind: Kind): seq<Entry>
  {
    var s' := WriterStep(s);
    if |s'.log| > |s.log| then EventEntries(s'.log[|s.log|], kind) else []
  }

  /** The writer takes the front of a queue in hand, or writes the front of what it has in hand. */
  lemma WriterMoves(s: State, kind: Kind)
    requires WriterInv(s.writer)
    ensures var s' := WriterStep(s);
            Output(s, kind) + InHand(s'.writer, kind) + Chan(s', kind).queue == InHand(s.writer, kind) + Chan(s, kind).queue
  {
    match kind {
      case Protocol => ProtocolMoves(s);
      case Diagnostic => DiagnosticMoves(s);
    }
  }

  lemma ProtocolMoves(s: State)
    requires WriterInv(s.writer)
    ensures var s' := WriterStep(s);
            Output(s, Protocol) + InHand(s'.writer, Protocol) + s'.protocol.queue == InHand(s.writer, Protocol) + s.protocol.queue
  {
    var s', q := WriterStep(s), s.protocol.queue;
    if |s'.protocol.queue| < |q| {
      assert q == [q[0]] + q[1..];
    }
  }

  lemma DiagnosticMoves(s: State)
    requires WriterInv(s.writer)
    ensures var s' := WriterStep(s);
            Output(s, Diagnostic) + InHand(s'.writer, Diagnostic) + s'.diagnostic.queue
            == InHand(s.writer, Diagnostic) + s.diagnostic.queue
  {
    if s.writer.at.TakingDiagnostic? || s.writer.at.Coalescing? {
      DiagnosticTakes(s);
      var q, q', hand, hand' := s.diagnostic.queue, WriterStep(s).diagnostic.queue,
                                InHand(s.writer, Diagnostic), InHand(WriterStep(s).writer, Diagnostic);
      hide WriterStep, InHand, WriterInv;
      assert q' != q ==> hand + [q[0]] + q[1..] == hand + q;
      assert [] + hand' + q' == hand' + q';
    } else {
      DiagnosticRests(s);
    }
  }

  lemma DiagnosticTakes(s: State)
    requires WriterInv(s.writer) && (s.writer.at.TakingDiagnostic? || s.writer.at.Coalescing?)
    ensures var s' := WriterStep(s);
            var q, q', hand, hand' := s.diagnostic.queue, s'.diagnostic.queue,
                                      InHand(s.writer, Diagnostic), InHand(s'.writer, Diagnostic);
            && Output(s, Diagnostic) == []
            && ((q' == q && hand' == hand) || (|q| > 0 && q' == q[1..] && hand' == hand + [q[0]]))
  {
  }

  lemma DiagnosticRests(s: State)
    requires WriterInv(s.writer) && !s.writer.at.TakingDiagnostic? && !s.writer.at.Coalescing?
    ensures var s' := WriterStep(s);
            Output(s, Diagnostic) + InHand(s'.writer, Diagnostic) + s'.diagnostic.queue
            == InHand(s.writer, Diagnostic) + s.diagnostic.queue
  {
  }

  lemma WriterWrites(s: State, kind: Kind)
    ensures Expand(WriterStep(s).log, kind) == Expand(s.log, kind) + Output(s, kind)
  {
    var s' := WriterStep(s);
    if |s'.log| > |s.log| {
      ExpandAppend(s.log, s'.log[|s.log|], kind);
    }
  }

  lemma Regroup(written: seq<Entry>, output: seq<Entry>, hand: seq<Entry>, queue: seq<Entry>, hand': seq<Entry>, queue': seq<Entry>)
    requires output + hand' + queue' == hand + queue
    ensures written + output + hand' + queue' == written + hand + queue
  {
    assert written + output + hand' + queue' == written + (output + hand' + queue');
    assert written + hand + queue == written + (hand + queue);
  }

  /** So it never reorders and never invents. */
  lemma WriterKeepsPipe(s: State, kind: Kind)
    requires WriterInv(s.writer)
    ensures Pipe(WriterStep(s), kind) == Pipe(s, kind)
  {
    WriterMoves(s, kind);
    WriterWrites(s, kind);
    hide WriterStep, InHand, Output, Expand, WriterInv;
    var s' := WriterStep(s);
    Regroup(Expand(s.log, kind), Output(s, kind), InHand(s.writer, kind), Chan(s, kind).queue,
            InHand(s'.writer, kind), Chan(s', kind).queue);
  }

  lemma OrderLog(s: State, step: Step, kind: Kind)
    requires step.Log?
    ensures Pipe(Next(s, step), kind) == Pipe(s, kind) && Chan(Next(s, step), kind).pushed == Chan(s, kind).pushed
  {
  }

  lemma OrderWrite(s: State, kind: Kind)
    requires WriterInv(s.writer)
    ensures Pipe(WriterStep(s), kind) == Pipe(s, kind) && Chan(WriterStep(s), kind).pushed == Chan(s, kind).pushed
  {
    hide Pipe, WriterStep;
    WriterKeepsPipe(s, kind);
    WriterCounts(s, kind);
  }

  lemma OrderStep(s: State, step: Step, kind: Kind)
    requires WriterInv(s.writer) && InPushOrder(Pipe(s, kind), Chan(s, kind).pushed)
    ensures InPushOrder(Pipe(Next(s, step), kind), Chan(Next(s, step), kind).pushed)
  {
    hide InPushOrder, WriterInv, Pipe, WriterStep, ProducerStep;
    match step {
      case Log(_, _) => OrderLog(s, step, kind);
      case Produce(i) =>
        if i < |s.producers| {
          OrderProduce(s, i, kind);
        }
      case Write => OrderWrite(s, kind);
    }
  }

  lemma {:induction false} OrderHolds(protocolCapacity: nat, diagnosticCapacity: nat, steps: seq<Step>, kind: Kind)
    ensures var s := Run(Init(protocolCapacity, diagnosticCapacity), steps);
            WriterInv(s.writer) && InPushOrder(Pipe(s, kind), Chan(s, kind).pushed)
  {
    if steps != [] {
      var s := Run(Init(protocolCapacity, diagnosticCapacity), steps[..|steps| - 1]);
      OrderHolds(protocolCapacity, diagnosticCapacity, steps[..|steps| - 1], kind);
      WriterInvStep(s, steps[|steps| - 1]);
      OrderStep(s, steps[|steps| - 1], kind);
    }
  }

  /** What is printed, with every "(xN)" written out. */
  function Printed(log: seq<Event>, kind: Kind): seq<string>
  {
    if log == [] then [] else Printed(log[..|log| - 1], kind) + PrintedText(log[|log| - 1], kind)
  }

  function PrintedText(e: Event, kind: Kind): seq<string>
  {
    match e
    case WroteProtocol(line) => if kind.Protocol? then [line.value] else []
    case WroteDiagnostic(printed, count, _) => if kind.Diagnostic? then seq(count, _ => printed) else []
  }

  function Values(entries: seq<Entry>): (values: seq<string>)
    ensures |values| == |entries|
  {
    seq(|entries|, i requires 0 <= i < |entries| => entries[i].value)
  }

  /** A printed diagnostic stands for as many lines as it says, all with its text. */
  ghost predicate IsHonest(e: Event)
  {
    e.WroteDiagnostic? ==>
      0 < e.count == |e.taken| <= COALESCE_BATCH && forall i :: 0 <= i < e.count ==> e.taken[i].value == e.printed
  }

  lemma HonestText(e: Event, kind: Kind)
    requires IsHonest(e)
    ensures PrintedText(e, kind) == Values(EventEntries(e, kind))
  {
  }

  lemma HonestStep(s: State)
    requires WriterInv(s.writer)
    ensures WriterStep(s).log == s.log ||
            (|WriterStep(s).log| == |s.log| + 1 && WriterStep(s).log == s.log + [WriterStep(s).log[|s.log|]]
             && IsHonest(WriterStep(s).log[|s.log|]))
  {
    var s' := WriterStep(s);
    if s'.log != s.log {
      assert s'.log == s.log + [s'.log[|s.log|]];
    }
  }

  lemma ProducersDoNotWrite(s: State, step: Step)
    requires !step.Write?
    ensures Next(s, step).log == s.log
  {
  }

  lemma PrintedAppend(log: seq<Event>, e: Event, kind: Kind)
    ensures Printed(log + [e], kind) == Printed(log, kind) + PrintedText(e, kind)
  {
    assert (log + [e])[..|log|] == log;
  }

  /** In every run the printed text, written out, is the text of the entries taken. */
  lemma {:induction false} PrintedIsTaken(protocolCapacity: nat, diagnosticCapacity: nat, steps: seq<Step>, kind: Kind)
    ensures var log := Run(Init(protocolCapacity, diagnosticCapacity), steps).log;
            Printed(log, kind) == Values(Expand(log, kind))
  {
    if steps != [] {
      var front, step := steps[..|steps| - 1], steps[|steps| - 1];
      var s := Run(Init(protocolCapacity, diagnosticCapacity), front);
      PrintedIsTaken(protocolCapacity, diagnosticCapacity, front, kind);
      WriterInvHolds(protocolCapacity, diagnosticCapacity, front);
      if step.Write? {
        HonestStep(s);
      } else {
        ProducersDoNotWrite(s, step);
      }
      hide WriterStep, IsHonest, WriterInv, ProducerStep, Printed, Expand;
      var log := Next(s, step).log;
      if log != s.log {
        var e := log[|s.log|];
        PrintedAppend(s.log, e, kind);
        ExpandAppend(s.log, e, kind);
        HonestText(e, kind);
        ValuesConcat(Expand(s.log, kind), EventEntries(e, kind));
      }
    }
  }

  lemma ValuesConcat(a: seq<Entry>, b: seq<Entry>)
    ensures Values(a + b) == Values(a) + Values(b)
  {
  }

  /** In every interleaving what is printed, with repetitions written out, is the text of a
      subsequence of the pushed lines, in push order. */
  lemma WrittenInPushOrder(protocolCapacity: nat, diagnosticCapacity: nat, steps: seq<Step>, kind: Kind)
    ensures var s := Run(Init(protocolCapacity, diagnosticCapacity), steps);
            && Printed(s.log, kind) == Values(Expand(s.log, kind))
            && InPushOrder(Expand(s.log, kind), Chan(s, kind).pushed)
  {
    PrintedIsTaken(protocolCapacity, diagnosticCapacity, steps, kind);
    OrderHolds(protocolCapacity, diagnosticCapacity, steps, kind);
    var s := Run(Init(protocolCapacity, diagnosticCapacity), steps);
    var written := Expand(s.log, kind);
    assert forall i :: 0 <= i < |written| ==> Pipe(s, kind)[i] == written[i];
    hide Expand, Printed, Values;
  }

  // ----- Bounded bypass

  /** A diagnostic waits: it is queued or set aside. */
  predicate Waits(s: State)
  {
    |s.diagnostic.queue| > 0 || s.writer.pending.Some?
  }

  /** Protocol lines written since diagnostics last had their turn, at least. */
  function Bypassed(w: Writer): nat
  {
    match w.at
    case HoldingProtocol(_, burst) => if burst == 0 then 0 else burst - 1
    case TakingProtocol => 0
    case UncountingDiagnostic => 0
    case _ => w.burst
  }

  predicate WroteAnyDiagnostic(log: seq<Event>, since: nat)
    requires since <= |log|
  {
    exists i :: since <= i < |log| && log[i].WroteDiagnostic?
  }

  function ProtocolsSince(log: seq<Event>, since: nat): nat
    requires since <= |log|
  {
    Written(log[since..], Protocol)
  }

  ghost predicate BypassOk(s: State, since: nat)
  {
    && since <= |s.log|
    && (WroteAnyDiagnostic(s.log, since) || ProtocolsSince(s.log, since) <= Bypassed(s.writer))
  }

  /** A step logs nothing, a diagnostic, or a protocol line that uses up one of the burst. */
  lemma BypassMoves(s: State, step: Step)
    requires WriterInv(s.writer) && Waits(s)
    ensures var s' := Next(s, step);
            if s'.log == s.log then Bypassed(s.writer) <= Bypassed(s'.writer)
            else
              && |s'.log| == |s.log| + 1 && s'.log == s.log + [s'.log[|s.log|]]
              && (s'.log[|s.log|].WroteProtocol? ==> Bypassed(s'.writer) == Bypassed(s.writer) + 1)
  {
  }

  lemma BypassLogged(log: seq<Event>, e: Event, since: nat, before: nat, after: nat)
    requires since <= |log| && (WroteAnyDiagnostic(log, since) || ProtocolsSince(log, since) <= before)
    requires e.WroteProtocol? ==> after == before + 1
    ensures WroteAnyDiagnostic(log + [e], since) || ProtocolsSince(log + [e], since) <= after
  {
    var log' := log + [e];
    if WroteAnyDiagnostic(log, since) {
      var i :| since <= i < |log| && log[i].WroteDiagnostic?;
      assert log'[i].WroteDiagnostic?;
    } else if e.WroteDiagnostic? {
      assert log'[|log|].WroteDiagnostic?;
    } else {
      assert log'[since..] == log[since..] + [e];
      WrittenAppend(log[since..], e, Protocol);
    }
  }

  /** A step out of a state in which a diagnostic waits. */
  lemma BypassStep(s: State, step: Step, since: nat)
    requires WriterInv(s.writer) && Waits(s) && BypassOk(s, since)
    ensures BypassOk(Next(s, step), since)
  {
    BypassMoves(s, step);
    hide Next, WriterInv, Waits, Bypassed, WroteAnyDiagnostic, ProtocolsSince;
    var s' := Next(s, step);
    if s'.log != s.log {
      BypassLogged(s.log, s'.log[|s.log|], since, Bypassed(s.writer), Bypassed(s'.writer));
    }
  }

  lemma {:induction false} WriterInvHolds(protocolCapacity: nat, diagnosticCapacity: nat, steps: seq<Step>)
    ensures WriterInv(Run(Init(protocolCapacity, diagnosticCapacity), steps).writer)
  {
    if steps != [] {
      WriterInvHolds(protocolCapacity, diagnosticCapacity, steps[..|steps| - 1]);
      WriterInvStep(Run(Init(protocolCapacity, diagnosticCapacity), steps[..|steps| - 1]), steps[|steps| - 1]);
    }
  }

  lemma {:induction false} BypassOkHolds(protocolCapacity: nat, diagnosticCapacity: nat, steps: seq<Step>, m: nat)
    requires m <= |steps|
    requires forall k :: m <= k <= |steps| ==> Waits(Run(Init(protocolCapacity, diagnosticCapacity), steps[..k]))
    ensures BypassOk(Run(Init(protocolCapacity, diagnosticCapacity), steps),
                     |Run(Init(protocolCapacity, diagnosticCapacity), steps[..m]).log|)
    decreases |steps|
  {
    hide WriterInv, BypassOk, Waits, Next;
    var init := Init(protocolCapacity, diagnosticCapacity);
    if m == |steps| {
      assert steps[..m] == steps;
      BypassStarts(Run(init, steps));
    } else {
      var front := steps[..|steps| - 1];
      assert forall k :: 0 <= k <= |front| ==> front[..k] == steps[..k];
      BypassOkHolds(protocolCapacity, diagnosticCapacity, front, m);
      WriterInvHolds(protocolCapacity, diagnosticCapacity, front);
      assert Waits(Run(init, steps[..|front|]));
      BypassStep(Run(init, front), steps[|steps| - 1], |Run(init, steps[..m]).log|);
    }
  }

  lemma BypassStarts(s: State)
    ensures BypassOk(s, |s.log|)
  {
  }

  /** Along every run, while a diagnostic keeps waiting at most 32 protocol lines are written before
      one diagnostic is. */
  lemma BoundedBypass(protocolCapacity: nat, diagnosticCapacity: nat, steps: seq<Step>, m: nat)
    requires m <= |steps|
    requires forall k :: m <= k <= |steps| ==> Waits(Run(Init(protocolCapacity, diagnosticCapacity), steps[..k]))
    ensures var since := |Run(Init(protocolCapacity, diagnosticCapacity), steps[..m]).log|;
            var log := Run(Init(protocolCapacity, diagnosticCapacity), steps).log;
            since <= |log| && (WroteAnyDiagnostic(log, since) || ProtocolsSince(log, since) <= PROTOCOL_BURST)
  {
    BypassOkHolds(protocolCapacity, diagnosticCapacity, steps, m);
    WriterInvHolds(protocolCapacity, diagnosticCapacity, steps);
  }

  // ----- What one call does

  /** The queues keep their capacity. */
  ghost predicate BoundInv(s: State, kind: Kind)
  {
    |Chan(s, kind).queue| <= Chan(s, kind).capacity
  }

  lemma BoundStep(s: State, step: Step, kind: Kind)
    requires BoundInv(s, kind)
    ensures BoundInv(Next(s, step), kind) && Chan(Next(s, step), kind).capacity == Chan(s, kind).capacity
  {
  }

  lemma {:induction false} BoundHolds(protocolCapacity: nat, diagnosticCapacity: nat, steps: seq<Step>, kind: Kind)
    ensures var init := Init(protocolCapacity, diagnosticCapacity);
            var s := Run(init, steps);
            BoundInv(s, kind) && Chan(s, kind).capacity == Chan(init, kind).capacity > 0
  {
    if steps != [] {
      BoundHolds(protocolCapacity, diagnosticCapacity, steps[..|steps| - 1], kind);
      BoundStep(Run(Init(protocolCapacity, diagnosticCapacity), steps[..|steps| - 1]), steps[|steps| - 1], kind);
    }
  }

  /** How often a producer has found the queue full, by where it stands. */
  predicate FoundFits(p: Producer)
  {
    match p.phase
    case Counting => p.tries == 0 == p.found
    case Pushing => p.found == p.tries < ATTEMPTS
    case Popping => p.found == p.tries + 1 <= ATTEMPTS
    case Uncounting => p.found == p.tries + 1 <= ATTEMPTS
    case Tallying => p.found == p.tries + 1 <= ATTEMPTS
    case Queued => p.found < ATTEMPTS
    case _ => p.found == ATTEMPTS
  }

  ghost predicate FoundInv(producers: seq<Producer>)
  {
    forall i :: 0 <= i < |producers| ==> FoundFits(producers[i])
  }

  lemma FoundStep(p: Producer, c: Channel)
    requires FoundFits(p)
    ensures FoundFits(ProducerStep(p, c).0)
  {
  }

  lemma FoundInvStep(s: State, step: Step)
    requires FoundInv(s.producers)
    ensures FoundInv(Next(s, step).producers)
  {
    hide ProducerStep;
    if step.Produce? && step.producer < |s.producers| {
      var p := s.producers[step.producer];
      FoundStep(p, Chan(s, p.kind));
    }
  }

  lemma {:induction false} FoundHolds(protocolCapacity: nat, diagnosticCapacity: nat, steps: seq<Step>)
    ensures FoundInv(Run(Init(protocolCapacity, diagnosticCapacity), steps).producers)
  {
    if steps != [] {
      FoundHolds(protocolCapacity, diagnosticCapacity, steps[..|steps| - 1]);
      FoundInvStep(Run(Init(protocolCapacity, diagnosticCapacity), steps[..|steps| - 1]), steps[|steps| - 1]);
    }
  }

  /** In every interleaving a producer gives its own line up only after finding the queue full four
      times, and otherwise queues it. */
  lemma GivesUpAfterFour(protocolCapacity: nat, diagnosticCapacity: nat, steps: seq<Step>, i: nat)
    requires var s := Run(Init(protocolCapacity, diagnosticCapacity), steps);
             i < |s.producers| && Finished(s.producers[i])
    ensures var p := Run(Init(protocolCapacity, diagnosticCapacity), steps).producers[i];
            if p.phase.GaveUp? then p.found == ATTEMPTS else p.found < ATTEMPTS
  {
    FoundHolds(protocolCapacity, diagnosticCapacity, steps);
  }

  /** One producer goes on alone. */
  function Alone(s: State, i: nat, n: nat): State
  {
    if n == 0 then s else Next(Alone(s, i, n - 1), Produce(i))
  }

  lemma AloneFive(s: State, i: nat)
    ensures Alone(s, i, 2) == Next(Next(s, Produce(i)), Produce(i))
    ensures Alone(s, i, 6) ==
            Next(Next(Next(Next(Next(Next(s, Produce(i)), Produce(i)), Produce(i)), Produce(i)), Produce(i)), Produce(i))
  {
    hide Next;
    assert Alone(s, i, 0) == s;
    assert Alone(s, i, 2) == Next(Alone(s, i, 1), Produce(i));
    assert Alone(s, i, 4) == Next(Alone(s, i, 3), Produce(i));
    assert Alone(s, i, 6) == Next(Alone(s, i, 5), Produce(i));
  }

  /** In every reachable state a line that is logged without interruption ends up last in its queue,
      behind all that was there, or if the queue was full, behind all but the oldest line, which is
      dropped. Nothing else changes. */
  lemma LogUndisturbed(protocolCapacity: nat, diagnosticCapacity: nat, steps: seq<Step>, kind: Kind, value: string) returns (n: nat)
    ensures var s := Run(Init(protocolCapacity, diagnosticCapacity), steps);
            var s' := Alone(Next(s, Log(kind, value)), |s.producers|, n);
            var c, c' := Chan(s, kind), Chan(s', kind);
            var full := |c.queue| == Chan(Init(protocolCapacity, diagnosticCapacity), kind).capacity;
            && c'.queue == (if full then c.queue[1..] else c.queue) + [Entry(value, |c.pushed|)]
            && c'.pushed == c.pushed + [value]
            && c'.dropped == c.dropped + (if full then 1 else 0)
            && c'.outstanding == c.outstanding + (if full then 0 else 1)
            && Chan(s', if kind.Protocol? then Diagnostic else Protocol) == Chan(s, if kind.Protocol? then Diagnostic else Protocol)
            && s'.writer == s.writer && s'.log == s.log
  {
    BoundHolds(protocolCapacity, diagnosticCapacity, steps, kind);
    var s := Run(Init(protocolCapacity, diagnosticCapacity), steps);
    n := LogOn(s, kind, value);
  }

  lemma LogOn(s: State, kind: Kind, value: string) returns (n: nat)
    requires |Chan(s, kind).queue| <= Chan(s, kind).capacity && 0 < Chan(s, kind).capacity
    ensures var s' := Alone(Next(s, Log(kind, value)), |s.producers|, n);
            var c, c' := Chan(s, kind), Chan(s', kind);
            var full := |c.queue| == c.capacity;
            && c'.queue == (if full then c.queue[1..] else c.queue) + [Entry(value, |c.pushed|)]
            && c'.pushed == c.pushed + [value]
            && c'.dropped == c.dropped + (if full then 1 else 0)
            && c'.outstanding == c.outstanding + (if full then 0 else 1)
            && Chan(s', if kind.Protocol? then Diagnostic else Protocol) == Chan(s, if kind.Protocol? then Diagnostic else Protocol)
            && s'.writer == s.writer && s'.log == s.log
  {
    var i, s0 := |s.producers|, Next(s, Log(kind, value));
    AloneFive(s0, i);
    hide Alone, WriterStep;
    var s1 := Next(s0, Produce(i));
    assert s1.producers[i].phase == Pushing;
    if |Chan(s, kind).queue| < Chan(s, kind).capacity {
      n := 2;
    } else {
      n := 6;
      var s2 := Next(s1, Produce(i));
      assert s2.producers[i].phase == Popping;
      var s3 := Next(s2, Produce(i));
      assert s3.producers[i].phase == Uncounting;
      var s4 := Next(s3, Produce(i));
      assert s4.producers[i].phase == Tallying;
      var s5 := Next(s4, Produce(i));
      assert s5.producers[i].phase == Pushing;
    }
  }

  // ----- What the writer does when it is left alone

  function Writes(s: State, n: nat): State
  {
    if n == 0 then s else WriterStep(Writes(s, n - 1))
  }

  lemma {:induction false} WritesOn(s: State, n: nat)
    ensures Writes(WriterStep(s), n) == Writes(s, n + 1)
  {
    hide WriterStep;
    assert Writes(s, 1) == WriterStep(Writes(s, 0));
    if n > 0 {
      WritesOn(s, n - 1);
    }
  }

  /** What is left to take, and how far the writer is from taking or finishing. */
  function Work(s: State): nat { |s.protocol.queue| + |s.diagnostic.queue| + Held(s.writer) }

  function Stage(s: State): nat
  {
    match s.writer.at
    case UncountingRepeat(_) => 9
    case Coalescing(_) => 8
    case Writing(_) => 7
    case HoldingProtocol(_, _) => 7
    case UncountingDiagnostic => 6
    case UncountingProtocol => 6
    case TakingDiagnostic => if Work(s) == 0 then 6 else 3
    case TakingProtocol => if |s.protocol.queue| == 0 then 5 else 2
    case Top => 4
  }

  lemma WriterAdvances(s: State)
    requires WriterInv(s.writer) && !(s.writer.at.Top? && Work(s) == 0)
    ensures var s' := WriterStep(s);
            WriterInv(s'.writer) && (Work(s') < Work(s) || (Work(s') == Work(s) && Stage(s') < Stage(s)))
  {
  }

  lemma {:induction false} Drains(s: State) returns (n: nat)
    requires WriterInv(s.writer)
    ensures var s' := Writes(s, n);
            && s'.writer.at == Top && Work(s') == 0
            && Pipe(s', Protocol) == Pipe(s, Protocol) && Pipe(s', Diagnostic) == Pipe(s, Diagnostic)
    decreases Work(s), Stage(s)
  {
    hide Pipe, Writes, Stage, WriterStep;
    if s.writer.at.Top? && Work(s) == 0 {
      n := 0;
      WritesNothing(s);
    } else {
      WriterAdvances(s);
      WriterKeepsPipe(s, Protocol);
      WriterKeepsPipe(s, Diagnostic);
      var m := Drains(WriterStep(s));
      WritesOn(s, m);
      n := m + 1;
    }
  }

  lemma WritesNothing(s: State)
    ensures Writes(s, 0) == s
  {
  }

  /** Left alone in any reachable state, the writer writes out everything it holds and everything that
      is queued, of each kind in order, and comes to rest with nothing left. */
  lemma WriterDrains(protocolCapacity: nat, diagnosticCapacity: nat, steps: seq<Step>) returns (n: nat)
    ensures var s := Run(Init(protocolCapacity, diagnosticCapacity), steps);
            var s' := Writes(s, n);
            && s'.writer.at == Top && Work(s') == 0
            && Expand(s'.log, Protocol) == Expand(s.log, Protocol) + InHand(s.writer, Protocol) + s.protocol.queue
            && Expand(s'.log, Diagnostic) == Expand(s.log, Diagnostic) + InHand(s.writer, Diagnostic) + s.diagnostic.queue
  {
    WriterInvHolds(protocolCapacity, diagnosticCapacity, steps);
    var s := Run(Init(protocolCapacity, diagnosticCapacity), steps);
    n := Drains(s);
    NothingInPipe(Writes(s, n));
    hide Expand, InHand, Writes, Work;
  }

  lemma NothingInPipe(s: State)
    requires s.writer.at == Top && Work(s) == 0
    ensures Pipe(s, Protocol) == Expand(s.log, Protocol) && Pipe(s, Diagnostic) == Expand(s.log, Diagnostic)
  {
    hide Expand;
  }

  /** The diagnostics that wait, oldest first. */
  function Diagnostics(s: State): seq<Entry>
  {
    (if s.writer.pending.Some? then [s.writer.pending.value] else []) + s.diagnostic.queue
  }

  /** The first m lines, at most 64, repeat the first one, and no longer beginning does. */
  ghost predicate LongestRun(lines: seq<Entry>, m: nat)
  {
    && m <= |lines| && Repetitions(lines[..m])
    && (m == COALESCE_BATCH || m == |lines| || lines[m].value != lines[0].value)
  }

  /** From `at` to `at'` the writer has changed nothing but what it holds and waits for. */
  ghost predicate OnlyTook(s: State, s': State)
  {
    && s'.protocol == s.protocol && s'.producers == s.producers && s'.log == s.log
    && s'.writer.burst == s.writer.burst
  }

  /** The batch is full, the queue is empty or its next line differs... */
  lemma CoalesceStops(s: State, taken: seq<Entry>)
    requires s.writer.at == Coalescing(taken) && s.writer.pending == None && Repetitions(taken)
    requires var queue := s.diagnostic.queue;
             |taken| >= COALESCE_BATCH || |queue| == 0 || queue[0].value != taken[0].value
    ensures var s' := WriterStep(s);
            && s'.writer.at == Writing(taken) && OnlyTook(s, s')
            && LongestRun(taken + s.diagnostic.queue, |taken|) && Diagnostics(s') == s.diagnostic.queue
  {
    assert (taken + s.diagnostic.queue)[..|taken|] == taken;
  }

  /** ... or the writer takes it. */
  lemma CoalesceTakes(s: State, taken: seq<Entry>)
    requires s.writer.at == Coalescing(taken) && s.writer.pending == None && Repetitions(taken)
    requires var queue := s.diagnostic.queue;
             |taken| < COALESCE_BATCH && |queue| > 0 && queue[0].value == taken[0].value
    ensures var s', queue := WriterStep(WriterStep(s)), s.diagnostic.queue;
            && s'.writer.at == Coalescing(taken + [queue[0]]) && s'.writer.pending == None && OnlyTook(s, s')
            && s'.diagnostic.queue == queue[1..] && Repetitions(taken + [queue[0]])
            && taken + [queue[0]] + queue[1..] == taken + queue
  {
    var queue := s.diagnostic.queue;
    assert queue == [queue[0]] + queue[1..];
  }

  lemma SomeRepeat(taken: seq<Entry>)
    requires Repetitions(taken)
    ensures |taken| > 0
  {
  }

  lemma OnlyTookOn(s: State, s1: State, s2: State)
    requires OnlyTook(s, s1) && OnlyTook(s1, s2)
    ensures OnlyTook(s, s2)
  {
  }

  lemma {:induction false} CoalesceOn(s: State, taken: seq<Entry>) returns (n: nat)
    requires s.writer.at == Coalescing(taken) && s.writer.pending == None && Repetitions(taken)
    ensures var s' := Writes(s, n);
            && s'.writer.at.Writing? && OnlyTook(s, s')
            && LongestRun(taken + s.diagnostic.queue, |s'.writer.at.taken|)
            && s'.writer.at.taken + Diagnostics(s') == taken + s.diagnostic.queue
    decreases |s.diagnostic.queue|
  {
    hide WriterStep, LongestRun, Repetitions, Diagnostics, Writes, OnlyTook;
    assert |taken| > 0 by { SomeRepeat(taken); }
    var queue := s.diagnostic.queue;
    WritesNothing(s);
    if |taken| >= COALESCE_BATCH || |queue| == 0 || queue[0].value != taken[0].value {
      CoalesceStops(s, taken);
      n := 1;
      WritesNothing(WriterStep(s));
      WritesOn(s, 0);
    } else {
      CoalesceTakes(s, taken);
      var s2 := WriterStep(WriterStep(s));
      var m := CoalesceOn(s2, taken + [queue[0]]);
      WritesOn(WriterStep(s), m);
      WritesOn(s, m + 1);
      n := m + 2;
      OnlyTookOn(s, s2, Writes(s, n));
    }
  }

  /** Protocol lines go first while the burst lasts or no diagnostic waits. */
  predicate ProtocolsTurn(s: State)
  {
    |s.protocol.queue| > 0 && (s.writer.burst < PROTOCOL_BURST || Diagnostics(s) == [])
  }

  /** The next turn of a writer that is left alone: the oldest protocol line, or the oldest waiting
      diagnostic with all the repetitions of it that directly follow, at most 64 in all, which gives
      protocol lines a new burst. */
  lemma TurnUndisturbed(protocolCapacity: nat, diagnosticCapacity: nat, steps: seq<Step>) returns (n: nat, taken: seq<Entry>)
    requires var s := Run(Init(protocolCapacity, diagnosticCapacity), steps); s.writer.at.Top? && Work(s) > 0
    ensures var s := Run(Init(protocolCapacity, diagnosticCapacity), steps);
            var s' := Writes(s, n);
            && s'.writer.at == Top && s'.producers == s.producers
            && (if ProtocolsTurn(s) then
                  && s'.log == s.log + [WroteProtocol(s.protocol.queue[0])]
                  && s'.protocol.queue == s.protocol.queue[1..] && Diagnostics(s') == Diagnostics(s)
                  && s'.writer.burst == if s.writer.burst < PROTOCOL_BURST then s.writer.burst + 1 else 1
                else
                  && LongestRun(Diagnostics(s), |taken|) && Diagnostics(s) == taken + Diagnostics(s') && |taken| > 0
                  && s'.log == s.log + [WroteDiagnostic(taken[0].value, |taken|, taken)]
                  && s'.protocol == s.protocol && s'.writer.burst == 0)
  {
    var s := Run(Init(protocolCapacity, diagnosticCapacity), steps);
    WriterInvHolds(protocolCapacity, diagnosticCapacity, steps);
    taken := [];
    if ProtocolsTurn(s) {
      n := ProtocolTurn(s);
    } else {
      n, taken := DiagnosticTurn(s);
    }
  }

  lemma WritesFive(s: State)
    ensures Writes(s, 3) == WriterStep(WriterStep(WriterStep(s)))
    ensures Writes(s, 5) == WriterStep(WriterStep(WriterStep(WriterStep(WriterStep(s)))))
  {
    hide WriterStep;
    assert Writes(s, 0) == s;
    assert Writes(s, 2) == WriterStep(Writes(s, 1));
    assert Writes(s, 4) == WriterStep(Writes(s, 3));
  }

  lemma ProtocolTurn(s: State) returns (n: nat)
    requires s.writer.at.Top? && ProtocolsTurn(s)
    ensures var s' := Writes(s, n);
            && s'.writer.at == Top && s'.producers == s.producers
            && s'.log == s.log + [WroteProtocol(s.protocol.queue[0])]
            && s'.protocol.queue == s.protocol.queue[1..] && Diagnostics(s') == Diagnostics(s)
            && s'.writer.burst == if s.writer.burst < PROTOCOL_BURST then s.writer.burst + 1 else 1
  {
    WritesFive(s);
    hide Writes;
    n := if s.writer.burst < PROTOCOL_BURST then 3 else 5;
  }

  /** The writer takes the first diagnostic... */
  lemma TurnStarts(s: State)
    requires s.writer.at.Top? && Work(s) > 0 && !ProtocolsTurn(s)
    ensures var s' := WriterStep(WriterStep(s));
            && Diagnostics(s) != [] && s'.writer.at == Coalescing([Diagnostics(s)[0]]) && s'.writer.pending == None
            && OnlyTook(s, s') && Diagnostics(s) == [Diagnostics(s)[0]] + s'.diagnostic.queue
  {
  }

  /** ... and in the end writes it. */
  lemma TurnEnds(s: State)
    requires s.writer.at.Writing? && Repetitions(s.writer.at.taken)
    ensures var s', taken := WriterStep(WriterStep(s)), s.writer.at.taken;
            && s'.writer.at == Top && s'.writer.burst == 0 && Diagnostics(s') == Diagnostics(s)
            && s'.protocol == s.protocol && s'.producers == s.producers
            && s'.log == s.log + [WroteDiagnostic(taken[0].value, |taken|, taken)]
  {
  }

  lemma WritesFour(s: State, n: nat)
    ensures Writes(WriterStep(WriterStep(s)), n + 2) == Writes(s, n + 4)
    ensures Writes(s, n + 2) == WriterStep(WriterStep(Writes(s, n)))
  {
    WritesOn(WriterStep(s), n + 2);
    WritesOn(s, n + 3);
    hide WriterStep;
    assert Writes(s, n + 1) == WriterStep(Writes(s, n));
  }

  lemma RunIsTaken(lines: seq<Entry>, taken: seq<Entry>, rest: seq<Entry>)
    requires lines == taken + rest && LongestRun(lines, |taken|)
    ensures Repetitions(taken) && |taken| > 0
  {
    assert lines[..|taken|] == taken;
  }

  lemma DiagnosticTurn(s: State) returns (n: nat, taken: seq<Entry>)
    requires s.writer.at.Top? && Work(s) > 0 && !ProtocolsTurn(s)
    ensures var s' := Writes(s, n);
            && s'.writer.at == Top && s'.producers == s.producers
            && LongestRun(Diagnostics(s), |taken|) && Diagnostics(s) == taken + Diagnostics(s')
            && |taken| > 0 && s'.log == s.log + [WroteDiagnostic(taken[0].value, |taken|, taken)]
            && s'.protocol == s.protocol && s'.writer.burst == 0
  {
    hide WriterStep, Diagnostics, LongestRun, ProtocolsTurn, Writes, Work, Repetitions;
    var s2 := WriterStep(WriterStep(s));
    TurnStarts(s);
    OneIsARun(Diagnostics(s)[0]);
    var m := CoalesceOn(s2, [Diagnostics(s)[0]]);
    var s3 := Writes(s2, m);
    taken := s3.writer.at.taken;
    RunIsTaken(Diagnostics(s), taken, Diagnostics(s3));
    TurnEnds(s3);
    WritesFour(s2, m);
    WritesFour(s, m);
    n := m + 4;
  }

  lemma OneIsARun(entry: Entry)
    ensures Repetitions([entry])
  {
  }

  // ----- One bounded line

  const MAX_LINE_BYTES: nat := 4096

  /** Bytes of UTF-8 text; a byte in [128, 192) continues a character. */
  type Text = seq<int>

  predicate Boundary(text: Text, i: nat)
  {
    i <= |text| && (i == 0 || i == |text| || !(128 <= text[i] < 192))
  }

  /** Text starts with the first byte of a character. */
  predicate StartsWhole(text: Text) { text != [] ==> !(128 <= text[0] < 192) }

  /** The length of the longest whole-character prefix that fits a line. */
  ghost predicate IsCut(text: Text, n: nat)
  {
    && n <= MAX_LINE_BYTES && Boundary(text, n)
    && forall m: nat :: n < m <= MAX_LINE_BYTES ==> !Boundary(text, m)
  }

  class BoundedLine {
    var value: Text
    var full: bool
    ghost var all: Text          // everything written so far

    ghost predicate Valid()
      reads this
    {
      && value <= all && IsCut(all, |value|)
      && (!full ==> value == all)
      && (full ==> |value| < |all|)
    }

    constructor ()
      ensures Valid() && value == [] && all == []
    {
      value, full, all := [], false, [];
    }

    method WriteStr(text: Text)
      requires Valid() && StartsWhole(text)
      modifies this
      ensures Valid() && all == old(all) + text
    {
      all := all + text;
      if full {
        KeepsCut(old(all), text, |value|);
        return;
      }
      var remaining := MAX_LINE_BYTES - |value|;
      if |text| <= remaining {
        value := value + text;
        return;
      }
      var end := if remaining < |text| then remaining else |text|;
      while !Boundary(text, end)
        invariant 0 <= end <= remaining
        invariant forall m: nat :: end < m <= remaining ==> !Boundary(text, m)
        decreases end
      {
        end := end - 1;
      }
      ghost var n := |value|;
      assert forall m: nat :: n < m < |all| ==> (Boundary(all, m) <==> Boundary(text, m - n));
      value := value + text[..end];
      full := true;
    }
  }

  /** Once text has been cut off, more text does not change where. */
  lemma KeepsCut(before: Text, text: Text, n: nat)
    requires IsCut(before, n) && n < |before| && StartsWhole(text)
    ensures IsCut(before + text, n)
  {
    var after := before + text;
    assert Boundary(before, |before|);
    assert forall m: nat :: m < |before| ==> (Boundary(after, m) <==> Boundary(before, m));
  }
}
