/**
 The shutdown coordinator: of any number of concurrent disconnect requests one becomes the leader
 and offers DISCONNECT to the live streams, one after the other, within a time budget. A run is an
 arbitrary list of steps; timers are exact and only waiting takes time.
 */
module Shutdown {
  import opened Sums

  const DISCONNECT_BUDGET: nat := 700
  const DISCONNECT_ATTEMPT: nat := 80

  datatype Stream = Stream(incarnation: nat, activity: nat)

  /** Where the leader stands. `timer` is the latest moment a wait may end. */
  datatype Leader =
    | Nobody
    | Chosen
    | Looping
    | Checked
    | Delivering(timer: nat)
    | Accepted
    | Awaiting(timer: nat)
    | Finishing
    | Finished

  datatype Event =
    | LeaderChosen(time: nat)
    | Offered(stream: Stream, time: nat)
    | Took(time: nat)                 // the stream took the offer, and its answer is awaited
    | Responded                       // a response set the completion flag
    | CompletionSeen                  // the leader found it set
    | LeaderDone(time: nat)           // the leader set it, unless it was set already

  datatype State = State(
    now: nat,
    active: bool,
    completed: bool,
    streams: seq<Stream>,
    used: set<nat>,                   // the incarnations registered so far
    nextActivity: nat,
    leader: Leader,
    deadline: nat,
    order: seq<Stream>,               // the leader's snapshot
    next: nat,
    log: seq<Event>)

  datatype Step =
    | Request
    | Register(incarnation: nat)      // a fresh one: every session draws its own
    | Unregister(incarnation: nat)
    | MarkActivity(incarnation: nat)
    | Respond
    | Tick(duration: nat)
    | Snapshot(order: seq<Stream>)
    | Lead(accepted: bool)

  function Init(): State
  {
    State(0, false, false, [], {}, 1, Nobody, 0, [], 0, [])
  }

  function Min(a: nat, b: nat): nat { if a < b then a else b }

  function Without(streams: seq<Stream>, incarnation: nat): seq<Stream>
  {
    if streams == [] then []
    else Without(streams[..|streams| - 1], incarnation)
         + if streams[|streams| - 1].incarnation == incarnation then [] else [streams[|streams| - 1]]
  }

  function Marked(streams: seq<Stream>, incarnation: nat, activity: nat): seq<Stream>
  {
    seq(|streams|, i requires 0 <= i < |streams| =>
      if streams[i].incarnation == incarnation then streams[i].(activity := activity) else streams[i])
  }

  /** Most recently active first; among equals the newer incarnation first. */
  predicate Precedes(a: Stream, b: Stream)
  {
    a.activity > b.activity || (a.activity == b.activity && a.incarnation >= b.incarnation)
  }

  predicate StrictlyPrecedes(a: Stream, b: Stream)
  {
    a.activity > b.activity || (a.activity == b.activity && a.incarnation > b.incarnation)
  }

  /** No incarnation twice. */
  ghost predicate Distinct(streams: seq<Stream>)
  {
    forall i, j :: 0 <= i < j < |streams| ==> streams[i].incarnation != streams[j].incarnation
  }

  ghost predicate StrictlyDescending(order: seq<Stream>)
  {
    forall i, j :: 0 <= i < j < |order| ==> StrictlyPrecedes(order[i], order[j])
  }

  ghost predicate Descending(order: seq<Stream>)
  {
    forall i, j :: 0 <= i < j < |order| ==> Precedes(order[i], order[j])
  }

  /** Time passes only while the leader waits, up to its timer, or when there is none at work. */
  predicate MayTick(s: State, duration: nat)
  {
    match s.leader
    case Nobody => true
    case Finished => true
    case Delivering(timer) => s.now + duration <= timer
    case Awaiting(timer) => s.now + duration <= timer
    case _ => false
  }

  /** The leader's next action. A delivery ends accepted, refused, or with its timer; a wait ends when
      completion is observed or with its timer. */
  function LeaderStep(s: State, accepted: bool): State
  {
    match s.leader
    case Looping =>
      s.(leader := if s.next >= |s.order| || s.completed || s.now >= s.deadline then Finishing else Checked)
    case Checked =>
      if s.next >= |s.order| then s
      else s.(leader := Delivering(Min(s.now + DISCONNECT_ATTEMPT, s.deadline)), next := s.next + 1)
    case Delivering(_) =>
      s.(leader := if accepted then Accepted else Looping)
    case Accepted =>
      s.(leader := if s.now >= s.deadline then Finishing else Awaiting(Min(s.now + DISCONNECT_ATTEMPT, s.deadline)))
    case Awaiting(timer) =>
      s.(leader := if s.completed then Finishing else if s.now >= timer then Looping else s.leader)
    case Finishing => s.(leader := Finished, completed := true)
    case _ => s
  }

  ghost function Move(s: State, step: Step): State
  {
    match step
    case Request =>
      if s.active then s
      else s.(active := true, completed := false, leader := Chosen, deadline := s.now + DISCONNECT_BUDGET)
    case Register(incarnation) =>
      var counted := s.(nextActivity := s.nextActivity + 1, used := s.used + {incarnation});
      if incarnation in s.used then s
      else if s.active then counted
      else counted.(streams := s.streams + [Stream(incarnation, s.nextActivity)])
    case Unregister(incarnation) => s.(streams := Without(s.streams, incarnation))
    case MarkActivity(incarnation) =>
      s.(streams := Marked(s.streams, incarnation, s.nextActivity), nextActivity := s.nextActivity + 1)
    case Respond => if s.active then s.(completed := true) else s
    case Tick(duration) => if MayTick(s, duration) then s.(now := s.now + duration) else s
    case Snapshot(order) =>
      if s.leader.Chosen? && Descending(order) && multiset(order) == multiset(s.streams)
      then s.(leader := Looping, order := order, next := 0)
      else s
    case Lead(accepted) => LeaderStep(s, accepted)
  }

  /** What a step records. */
  function EventOf(s: State, step: Step): seq<Event>
  {
    match step
    case Request => if s.active then [] else [LeaderChosen(s.now)]
    case Respond => if s.active && !s.completed then [Responded] else []
    case Lead(accepted) =>
      (match s.leader
       case Looping => if s.next < |s.order| && s.completed then [CompletionSeen] else []
       case Checked => if s.next < |s.order| then [Offered(s.order[s.next], s.now)] else []
       case Delivering(_) => if accepted then [Took(s.now)] else []
       case Awaiting(_) => if s.completed then [CompletionSeen] else []
       case Finishing => [LeaderDone(s.now)]
       case _ => [])
    case _ => []
  }

  ghost function Next(s: State, step: Step): State
  {
    Move(s, step).(log := s.log + EventOf(s, step))
  }

  ghost function Run(steps: seq<Step>): State
  {
    if steps == [] then Init() else Next(Run(steps[..|steps| - 1]), steps[|steps| - 1])
  }

  predicate Leading(s: State) { !s.leader.Nobody? && !s.leader.Finished? }

  function Offers(log: seq<Event>): seq<Stream>
  {
    if log == [] then []
    else Offers(log[..|log| - 1]) + if log[|log| - 1].Offered? then [log[|log| - 1].stream] else []
  }

  lemma OffersAppend(log: seq<Event>, e: Event)
    ensures Offers(log + [e]) == Offers(log) + if e.Offered? then [e.stream] else []
  {
  }

  /** The events that set the completion flag or find it set. */
  predicate Completes(e: Event) { e.Responded? || e.LeaderDone? }

  // ----- Leadership, offers and completion

  /** Every phase of the leader keeps within the deadline. */
  ghost predicate TimeInv(s: State)
  {
    && TimerInv(s)
    && (forall i :: 0 <= i < |s.log| && s.log[i].LeaderChosen? ==>
          s.active && s.deadline == s.log[i].time + DISCONNECT_BUDGET)
    && (forall i :: 0 <= i < |s.log| && s.log[i].LeaderDone? ==> s.leader.Finished? && s.log[i].time <= s.deadline)
  }

  ghost predicate TimerInv(s: State)
  {
    && (s.active <==> !s.leader.Nobody?)
    && (Leading(s) ==> s.now <= s.deadline)
    && (s.leader.Delivering? || s.leader.Awaiting? ==> s.now <= s.leader.timer <= s.deadline)
  }

  ghost predicate OfferInv(s: State)
  {
    && StreamsInv(s)
    && Distinct(s.order)
    && StrictlyDescending(s.order) && s.next <= |s.order| && Offers(s.log) == s.order[..s.next]
    && (s.leader.Checked? ==> s.next < |s.order|)
    && (s.leader.Nobody? || s.leader.Chosen? ==> s.order == [])
    && FlagInv(s)
  }

  /** The live streams are told apart by their incarnations. */
  ghost predicate StreamsInv(s: State)
  {
    Distinct(s.streams) && forall i :: 0 <= i < |s.streams| ==> s.streams[i].incarnation in s.used
  }

  lemma {:induction false} WithoutDistinct(streams: seq<Stream>, incarnation: nat)
    requires Distinct(streams)
    ensures Distinct(Without(streams, incarnation))
    ensures forall x :: x in Without(streams, incarnation) ==> x in streams
  {
    if streams != [] {
      var front, last := streams[..|streams| - 1], streams[|streams| - 1];
      WithoutDistinct(front, incarnation);
      var kept := Without(front, incarnation);
      forall i | 0 <= i < |kept|
        ensures kept[i].incarnation != last.incarnation
      {
        assert kept[i] in front;
      }
    }
  }

  lemma StreamsStep(s: State, step: Step)
    requires StreamsInv(s)
    ensures StreamsInv(Next(s, step))
  {
    match step
    case Unregister(incarnation) =>
      WithoutDistinct(s.streams, incarnation);
      var kept := Without(s.streams, incarnation);
      assert forall i :: 0 <= i < |kept| ==> kept[i] in s.streams;
    case _ =>
  }

  lemma {:induction false} CountedOnce(streams: seq<Stream>, x: Stream)
    requires Distinct(streams)
    ensures multiset(streams)[x] <= 1
  {
    if streams != [] {
      var front, last := streams[..|streams| - 1], streams[|streams| - 1];
      assert streams == front + [last];
      CountedOnce(front, x);
      assert last in multiset(front) ==> last in front;
    }
  }

  lemma SameStream(streams: seq<Stream>, a: Stream, b: Stream)
    requires Distinct(streams) && a in multiset(streams) && b in multiset(streams) && a.incarnation == b.incarnation
    ensures a == b
  {
    assert a in streams && b in streams;
  }

  /** Sorting streams that are told apart puts them in strict order. */
  lemma SortedDistinct(order: seq<Stream>, streams: seq<Stream>)
    requires multiset(order) == multiset(streams) && Distinct(streams) && Descending(order)
    ensures Distinct(order) && StrictlyDescending(order)
  {
    forall i, j | 0 <= i < j < |order|
      ensures order[i].incarnation != order[j].incarnation
    {
      CountedOnce(streams, order[i]);
      if order[i] == order[j] {
        CountedTwice(order, i, j);
      }
      assert order[i] != order[j];
      assert order[i] in multiset(order) && order[j] in multiset(order);
      if order[i].incarnation == order[j].incarnation {
        SameStream(streams, order[i], order[j]);
      }
    }
  }

  /** One leader; and how the log stands to the completion flag. */
  ghost predicate LogInv(s: State)
  {
    && (forall i :: 0 <= i < |s.log| && s.log[i].LeaderChosen? ==> s.active)
    && (forall i, j :: 0 <= i < j < |s.log| && s.log[i].LeaderChosen? ==> !s.log[j].LeaderChosen?)
    && (forall i :: 0 <= i < |s.log| && Completes(s.log[i]) ==> s.completed)
    && (forall i :: 0 <= i < |s.log| && s.log[i].CompletionSeen? ==> s.leader.Finishing? || s.leader.Finished?)
    && (forall i, j :: 0 <= i < j < |s.log| && s.log[i].CompletionSeen? ==> !s.log[j].Offered?)
    && FlagInv(s)
  }

  ghost predicate FlagInv(s: State)
  {
    (s.completed ==> s.active) && (s.active <==> !s.leader.Nobody?) && (s.leader.Finished? ==> s.completed)
  }

  /** An offer made after the completion flag was set. */
  ghost predicate LateOffer(log: seq<Event>, i: int, j: int)
  {
    0 <= i < j < |log| && Completes(log[i]) && log[j].Offered?
  }

  /** A late offer is made by a leader that had checked the flag before, and it looks again first. */
  ghost predicate LateInv(s: State)
  {
    && (forall i, j, i', j' :: LateOffer(s.log, i, j) && LateOffer(s.log, i', j') ==> j == j')
    && (s.leader.Checked? ==> forall i, j :: !LateOffer(s.log, i, j))
  }

  lemma TimerStep(s: State, step: Step)
    requires TimerInv(s)
    ensures TimerInv(Next(s, step))
    ensures s.leader.Finished? ==> Next(s, step).leader.Finished?
    ensures s.active ==> Next(s, step).active && Next(s, step).deadline == s.deadline
  {
  }

  /** What the events that carry a time say. */
  lemma TimedEvent(s: State, step: Step)
    requires TimerInv(s)
    ensures var e, s' := EventOf(s, step), Next(s, step);
            && |e| <= 1
            && (e != [] && e[0].LeaderChosen? ==> s'.active && s'.deadline == e[0].time + DISCONNECT_BUDGET)
            && (e != [] && e[0].LeaderDone? ==> s.active && s'.leader.Finished? && e[0].time <= s.deadline)
  {
  }

  lemma TimeStep(s: State, step: Step)
    requires TimeInv(s)
    ensures TimeInv(Next(s, step))
  {
    TimerStep(s, step);
    TimedEvent(s, step);
    var s', e := Next(s, step), EventOf(s, step);
    assert forall i :: 0 <= i < |s'.log| ==> s'.log[i] == if i < |s.log| then s.log[i] else e[0];
    assert e != [] && e[0].LeaderChosen? ==> !s.active;
    hide Move, EventOf, TimerInv;
  }

  /** How a step moves the leader along its snapshot. */
  lemma OrderMoves(s: State, step: Step)
    requires FlagInv(s) && (s.leader.Checked? ==> s.next < |s.order|)
    ensures var e, s' := EventOf(s, step), Next(s, step);
            && |e| <= 1
            && (s'.leader.Checked? ==> s'.next < |s'.order|)
            && (s'.leader.Nobody? || s'.leader.Chosen? ==> (s.leader.Nobody? || s.leader.Chosen?) && s'.order == s.order)
            && if e != [] && e[0].Offered? then
                 s.next < |s.order| && s'.order == s.order && s'.next == s.next + 1 && e[0].stream == s.order[s.next]
               else
                 (s'.order == s.order && s'.next == s.next)
                 || (s.leader.Chosen? && step.Snapshot? && Descending(s'.order) && multiset(s'.order) == multiset(s.streams) && s'.next == 0)
  {
    hide Next, EventOf, FlagInv;
    if step.Lead? {
      OrderMovesLead(s, step);
    } else {
      OrderMovesElse(s, step);
    }
  }

  lemma OrderMovesLead(s: State, step: Step)
    requires step.Lead? && FlagInv(s) && (s.leader.Checked? ==> s.next < |s.order|)
    ensures var e, s' := EventOf(s, step), Next(s, step);
            && |e| <= 1
            && (s'.leader.Checked? ==> s'.next < |s'.order|)
            && (s'.leader.Nobody? || s'.leader.Chosen? ==> (s.leader.Nobody? || s.leader.Chosen?) && s'.order == s.order)
            && if e != [] && e[0].Offered? then
                 s.next < |s.order| && s'.order == s.order && s'.next == s.next + 1 && e[0].stream == s.order[s.next]
               else
                 (s'.order == s.order && s'.next == s.next)
                 || (s.leader.Chosen? && step.Snapshot? && Descending(s'.order) && multiset(s'.order) == multiset(s.streams) && s'.next == 0)
  {
  }

  lemma OrderMovesElse(s: State, step: Step)
    requires !step.Lead? && FlagInv(s) && (s.leader.Checked? ==> s.next < |s.order|)
    ensures var e, s' := EventOf(s, step), Next(s, step);
            && |e| <= 1 && (e != [] ==> !e[0].Offered?)
            && (s'.leader.Checked? ==> s'.next < |s'.order|)
            && (s'.leader.Nobody? || s'.leader.Chosen? ==> (s.leader.Nobody? || s.leader.Chosen?) && s'.order == s.order)
            && ((s'.order == s.order && s'.next == s.next)
                || (s.leader.Chosen? && step.Snapshot? && Descending(s'.order) && multiset(s'.order) == multiset(s.streams) && s'.next == 0))
  {
  }

  lemma OfferStep(s: State, step: Step)
    requires OfferInv(s)
    ensures OfferInv(Next(s, step))
  {
    FlagStep(s, step);
    StreamsStep(s, step);
    OrderMoves(s, step);
    var e, s' := EventOf(s, step), Next(s, step);
    if s'.order != s.order {
      SortedDistinct(s'.order, s.streams);
    }
    if e == [] {
      assert s.log + e == s.log;
    } else {
      assert e == [e[0]];
      OffersAppend(s.log, e[0]);
    }
    hide Offers, Move, EventOf, FlagInv, StreamsInv, Distinct, Descending, StrictlyDescending;
    if e != [] && e[0].Offered? {
      assert s.order[..s.next] + [s.order[s.next]] == s.order[..s.next + 1];
    }
  }

  lemma FlagStep(s: State, step: Step)
    requires FlagInv(s)
    ensures FlagInv(Next(s, step)) && (s.active ==> Next(s, step).active) && (s.completed ==> Next(s, step).completed)
    ensures s.leader.Finishing? || s.leader.Finished? ==> Next(s, step).leader.Finishing? || Next(s, step).leader.Finished?
  {
  }

  /** What each kind of event says about the state it is recorded in, and the state after. */
  lemma EventMeans(s: State, step: Step)
    requires FlagInv(s)
    ensures var e, s' := EventOf(s, step), Next(s, step);
            && |e| <= 1
            && (e != [] ==>
                 && (e[0].LeaderChosen? ==> !s.active && s'.active)
                 && (Completes(e[0]) ==> s'.completed)
                 && (e[0].CompletionSeen? ==> s'.leader.Finishing?)
                 && (e[0].Offered? ==> s.leader.Checked?))
  {
  }

  lemma LogStep(s: State, step: Step)
    requires LogInv(s)
    ensures LogInv(Next(s, step))
  {
    FlagStep(s, step);
    EventMeans(s, step);
    hide Move, EventOf, FlagInv;
    var s', e := Next(s, step), EventOf(s, step);
    assert forall i :: 0 <= i < |s'.log| ==> s'.log[i] == if i < |s.log| then s.log[i] else e[0];
  }

  lemma LateStep(s: State, step: Step)
    requires LateInv(s) && LogInv(s)
    ensures LateInv(Next(s, step))
  {
    var s', e := Next(s, step), EventOf(s, step);
    assert e != [] && e[0].Offered? ==> s.leader.Checked?;
    assert forall i, j :: LateOffer(s'.log, i, j) && j < |s.log| ==> LateOffer(s.log, i, j);
    if s'.leader.Checked? && !s.leader.Checked? {
      assert !s.completed && e == [];
    }
  }

  lemma {:induction false} InvHolds(steps: seq<Step>)
    ensures TimeInv(Run(steps)) && OfferInv(Run(steps)) && LogInv(Run(steps)) && LateInv(Run(steps))
  {
    if steps != [] {
      InvHolds(steps[..|steps| - 1]);
      hide TimeInv, OfferInv, LogInv, LateInv, Next;
      var s, step := Run(steps[..|steps| - 1]), steps[|steps| - 1];
      TimeStep(s, step);
      OfferStep(s, step);
      LogStep(s, step);
      LateStep(s, step);
    }
  }

  /** In every run at most one caller ever becomes the leader. */
  lemma OneLeader(steps: seq<Step>, i: nat, j: nat)
    requires var log := Run(steps).log; i < |log| && j < |log| && log[i].LeaderChosen? && log[j].LeaderChosen?
    ensures i == j
  {
    InvHolds(steps);
  }

  lemma RequestStep(s: State, step: Step)
    ensures Next(s, step).active <==> s.active || step == Request
    ensures s.log <= Next(s, step).log
    ensures step == Request && !s.active ==> |s.log| < |Next(s, step).log| && Next(s, step).log[|s.log|].LeaderChosen?
  {
  }

  /** And as soon as anyone has asked for it there is one. */
  lemma {:induction false} RequestsLead(steps: seq<Step>)
    ensures Run(steps).active <==> Request in steps
    ensures Request in steps ==> exists i :: 0 <= i < |Run(steps).log| && Run(steps).log[i].LeaderChosen?
  {
    if steps != [] {
      var front, step := steps[..|steps| - 1], steps[|steps| - 1];
      RequestsLead(front);
      RequestStep(Run(front), step);
      hide Next;
      assert steps == front + [step];
      var log, log' := Run(front).log, Run(steps).log;
      if Request in front {
        var i :| 0 <= i < |log| && log[i].LeaderChosen?;
        assert log'[i].LeaderChosen?;
      } else if step == Request {
        assert log'[|log|].LeaderChosen?;
      }
    }
  }

  /** The order is a permutation of the streams that were live when the leader took its snapshot. */
  ghost predicate TakenAt(steps: seq<Step>, k: nat, order: seq<Stream>)
  {
    k < |steps| && steps[k].Snapshot? && multiset(order) == multiset(Run(steps[..k]).streams)
  }

  lemma SnapshotStep(s: State, step: Step)
    requires OfferInv(s)
    ensures Next(s, step).order == s.order || (step.Snapshot? && multiset(Next(s, step).order) == multiset(s.streams))
  {
    OrderMoves(s, step);
    hide Move, EventOf, FlagInv, StreamsInv, Distinct, StrictlyDescending, Descending, Offers;
  }

  lemma {:induction false} SnapshotTaken(steps: seq<Step>)
    ensures Run(steps).order == [] || exists k: nat :: TakenAt(steps, k, Run(steps).order)
  {
    hide Next, OfferInv, TimeInv, LogInv, LateInv;
    if steps == [] {
      assert Run(steps).order == [];
    } else {
      var front, step := steps[..|steps| - 1], steps[|steps| - 1];
      var order := Run(steps).order;
      SnapshotTaken(front);
      InvHolds(front);
      SnapshotStep(Run(front), step);
      if order != [] {
        var k: nat := |front|;
        if order == Run(front).order {
          k :| TakenAt(front, k, order);
        }
        assert front[..k] == steps[..k];
        assert TakenAt(steps, k, order);
      }
    }
  }

  /** The streams offered DISCONNECT are, each once and in strictly descending (activity, incarnation)
      order, the first of those that were live when the leader took its snapshot. */
  lemma OffersInOrder(steps: seq<Step>)
    ensures var s := Run(steps);
            && s.next <= |s.order| && Offers(s.log) == s.order[..s.next]
            && Distinct(s.order) && StrictlyDescending(s.order)
            && (s.order == [] || exists k: nat :: TakenAt(steps, k, s.order))
  {
    InvHolds(steps);
    SnapshotTaken(steps);
  }

  /** No stream is offered once the leader has seen completion, and at most one is once completion
      has happened: the one whose check of the flag came just before. */
  lemma CompletionStopsOffers(steps: seq<Step>, i: nat, j: nat, i': nat, j': nat)
    ensures var log := Run(steps).log;
            && (i < j < |log| && log[i].CompletionSeen? ==> !log[j].Offered?)
            && (LateOffer(log, i, j) && LateOffer(log, i', j') ==> j == j')
  {
    InvHolds(steps);
  }

  lemma RunOne(steps: seq<Step>, step: Step)
    ensures Run(steps + [step]) == Next(Run(steps), step)
  {
    assert (steps + [step])[..|steps|] == steps;
  }

  /** Completed, and the leader not about to offer: that is kept, and nothing more is offered. */
  ghost predicate IsQuiet(s: State) { s.completed && !s.leader.Checked? && FlagInv(s) }

  lemma QuietMove(s: State, step: Step)
    requires IsQuiet(s)
    ensures IsQuiet(Next(s, step))
    ensures |EventOf(s, step)| <= 1 && (EventOf(s, step) != [] ==> !EventOf(s, step)[0].Offered?)
  {
  }

  lemma QuietStep(s: State, step: Step)
    requires IsQuiet(s)
    ensures IsQuiet(Next(s, step)) && Offers(Next(s, step).log) == Offers(s.log)
  {
    QuietMove(s, step);
    hide Move, EventOf, IsQuiet;
    var e := EventOf(s, step);
    if e == [] {
      assert s.log + e == s.log;
    } else {
      OffersAppend(s.log, e[0]);
      assert e == [e[0]];
    }
  }

  lemma {:induction false} NoMoreOffers(steps: seq<Step>, more: seq<Step>)
    requires IsQuiet(Run(steps))
    ensures IsQuiet(Run(steps + more)) && Offers(Run(steps + more).log) == Offers(Run(steps).log)
    decreases |more|
  {
    hide *;
    if more == [] {
      assert steps + more == steps;
    } else {
      var front, last := more[..|more| - 1], more[|more| - 1];
      NoMoreOffers(steps, front);
      assert steps + more == steps + front + [last];
      RunOne(steps + front, last);
      QuietStep(Run(steps + front), last);
    }
  }

  lemma OfferStep1(s: State)
    requires OfferInv(s) && s.leader.Checked?
    ensures |Offers(Next(s, Lead(true)).log)| == |Offers(s.log)| + 1
  {
    OffersAppend(s.log, Offered(s.order[s.next], s.now));
  }

  lemma RespondStep(s: State)
    requires FlagInv(s) && s.active && !s.completed
    ensures var r := Next(s, Respond);
            && r.leader == s.leader && Offers(r.log) == Offers(s.log)
            && (!s.leader.Checked? ==> IsQuiet(r))
  {
    OffersAppend(s.log, Responded);
  }

  /** When a response has just set the completion flag, another stream can still be offered DISCONNECT
      if and only if the leader stands between its check of the flag and the offer. */
  lemma LateOfferExactly(steps: seq<Step>)
    requires Run(steps).active && !Run(steps).completed
    ensures (exists more :: Offers(Run(steps + [Respond] + more).log) != Offers(Run(steps).log))
            <==> Run(steps).leader.Checked?
  {
    var s, responded := Run(steps), steps + [Respond];
    InvHolds(steps);
    InvHolds(responded);
    RunOne(steps, Respond);
    RespondStep(s);
    hide Run, Next, Offers, IsQuiet, TimeInv, LogInv, LateInv;
    if s.leader.Checked? {
      OfferStep1(Run(responded));
      RunOne(responded, Lead(true));
      assert Offers(Run(responded + [Lead(true)]).log) != Offers(s.log);
    } else if more :| Offers(Run(responded + more).log) != Offers(s.log) {
      NoMoreOffers(responded, more);
      assert false;
    }
  }

  const lateStream: Stream := Stream(7, 1)

  /** A response between the check and the offer. */
  const lateRun: seq<Step> :=
    [] + [Register(7)] + [Request] + [Snapshot([lateStream])] + [Lead(true)] + [Respond] + [Lead(true)]

  lemma LateRunStarts()
    ensures Next(Next(Next(Init(), Register(7)), Request), Snapshot([lateStream])) ==
            Init().(used := {7}, nextActivity := 2, streams := [lateStream], active := true, leader := Looping,
                    deadline := DISCONNECT_BUDGET, order := [lateStream], log := [LeaderChosen(0)])
  {
    var b := Next(Init(), Register(7));
    assert b == Init().(used := {7}, nextActivity := 2, streams := [lateStream]);
    var c := Next(b, Request);
    assert c == b.(active := true, leader := Chosen, deadline := DISCONNECT_BUDGET, log := [LeaderChosen(0)]);
  }

  lemma LateRunEnds(d: State)
    requires d.leader == Looping && d.order == [lateStream] && d.next == 0 && d.now == 0 < d.deadline
    requires d.active && !d.completed && d.log == [LeaderChosen(0)]
    ensures Next(Next(Next(d, Lead(true)), Respond), Lead(true)).log == [LeaderChosen(0), Responded, Offered(lateStream, 0)]
  {
    var e := Next(d, Lead(true));
    assert e == d.(leader := Checked);
    var f := Next(e, Respond);
    assert f == e.(completed := true, log := [LeaderChosen(0), Responded]);
  }

  /** And it happens. */
  lemma LateOfferHappens()
    ensures Run(lateRun).log == [LeaderChosen(0), Responded, Offered(lateStream, 0)]
    ensures LateOffer(Run(lateRun).log, 1, 2)
  {
    hide Next;
    LateRunStarts();
    LateRunEnds(Next(Next(Next(Init(), Register(7)), Request), Snapshot([lateStream])));
    LateRunIs();
  }

  lemma LateRunIs()
    ensures Run(lateRun) ==
            Next(Next(Next(Next(Next(Next(Init(), Register(7)), Request), Snapshot([lateStream])), Lead(true)), Respond), Lead(true))
  {
    hide Next;
    var a: seq<Step> := [];
    RunOne(a, Register(7));
    RunOne(a + [Register(7)], Request);
    RunOne(a + [Register(7)] + [Request], Snapshot([lateStream]));
    RunOne(a + [Register(7)] + [Request] + [Snapshot([lateStream])], Lead(true));
    RunOne(a + [Register(7)] + [Request] + [Snapshot([lateStream])] + [Lead(true)], Respond);
    RunOne(a + [Register(7)] + [Request] + [Snapshot([lateStream])] + [Lead(true)] + [Respond], Lead(true));
    assert Run(a) == Init();
  }

  /** The leader is done at most 700 ms after it was chosen, and leaves the shutdown completed. */
  lemma LeaderWithinBudget(steps: seq<Step>, i: nat, j: nat)
    requires var log := Run(steps).log; i < |log| && j < |log| && log[i].LeaderChosen? && log[j].LeaderDone?
    ensures var s := Run(steps);
            s.log[j].time <= s.log[i].time + DISCONNECT_BUDGET && s.completed
  {
    InvHolds(steps);
  }

  /** Until then the time never passes its deadline. */
  lemma LeaderWithinDeadline(steps: seq<Step>, i: nat)
    requires var s := Run(steps); i < |s.log| && s.log[i].LeaderChosen? && Leading(s)
    ensures Run(steps).now <= Run(steps).log[i].time + DISCONNECT_BUDGET
  {
    InvHolds(steps);
  }

  // ----- How many streams get their chance

  /** The slowest the leader goes: 160 ms a stream, and it stops only for a reason. */
  ghost predicate PaceInv(s: State)
  {
    && (s.active ==> s.deadline >= DISCONNECT_BUDGET)
    && match s.leader
       case Nobody => s.next == 0
       case Chosen => s.next == 0 && s.now + DISCONNECT_BUDGET == s.deadline
       case Looping => s.now + DISCONNECT_BUDGET <= s.deadline + 2 * DISCONNECT_ATTEMPT * s.next
       case Checked => s.now + DISCONNECT_BUDGET <= s.deadline + 2 * DISCONNECT_ATTEMPT * s.next
       case Delivering(timer) => 0 < s.next && timer + DISCONNECT_BUDGET + DISCONNECT_ATTEMPT <= s.deadline + 2 * DISCONNECT_ATTEMPT * s.next
       case Accepted => 0 < s.next && s.now + DISCONNECT_BUDGET + DISCONNECT_ATTEMPT <= s.deadline + 2 * DISCONNECT_ATTEMPT * s.next
       case Awaiting(timer) => 0 < s.next && timer + DISCONNECT_BUDGET <= s.deadline + 2 * DISCONNECT_ATTEMPT * s.next
       case _ => s.next >= |s.order| || CompletionSeen in s.log || 5 <= s.next
  }

  lemma PaceLead(s: State, accepted: bool)
    requires PaceInv(s) && TimerInv(s)
    ensures PaceInv(Next(s, Lead(accepted)))
  {
    var s' := Next(s, Lead(accepted));
    assert s.log <= s'.log;
    if s.leader.Looping? && s'.leader.Finishing? && s.next < |s.order| {
      if s.completed {
        assert s'.log[|s.log|] == CompletionSeen;
      } else {
        assert s.now == s.deadline;
      }
    }
    if s.leader.Awaiting? && s.completed {
      assert s'.log[|s.log|] == CompletionSeen;
    }
    if s.leader.Finishing? && CompletionSeen in s.log {
      assert CompletionSeen in s'.log;
    }
  }

  lemma PaceElse(s: State, step: Step)
    requires PaceInv(s) && TimerInv(s) && !step.Lead?
    ensures PaceInv(Next(s, step))
  {
    if CompletionSeen in s.log {
      assert CompletionSeen in Next(s, step).log;
    }
  }

  lemma PaceStep(s: State, step: Step)
    requires PaceInv(s) && TimerInv(s)
    ensures PaceInv(Next(s, step))
  {
    hide PaceInv, TimerInv, Next;
    match step {
      case Lead(accepted) => PaceLead(s, accepted);
      case _ => PaceElse(s, step);
    }
  }

  lemma {:induction false} PaceHolds(steps: seq<Step>)
    ensures PaceInv(Run(steps))
  {
    if steps != [] {
      PaceHolds(steps[..|steps| - 1]);
      InvHolds(steps[..|steps| - 1]);
      hide Next, PaceInv, OfferInv, LogInv, LateInv;
      PaceStep(Run(steps[..|steps| - 1]), steps[|steps| - 1]);
    }
  }

  /** Unless completion is seen, the leader does not stop before every stream of its snapshot, or at
      least five, have been offered DISCONNECT: streams that hang cannot use up the budget. */
  lemma FiveGetAChance(steps: seq<Step>)
    requires Run(steps).leader.Finishing? || Run(steps).leader.Finished?
    ensures var s := Run(steps);
            |Offers(s.log)| == |s.order| || 5 <= |Offers(s.log)| || CompletionSeen in s.log
  {
    PaceHolds(steps);
    OffersInOrder(steps);
    var s := Run(steps);
    hide Run, Offers, Next;
    assert |s.order[..s.next]| == s.next;
    assert PaceInv(s);
  }

  /** An answer that is awaited is awaited for 80 ms, before another stream is offered. */
  ghost predicate WaitInv(s: State)
  {
    && (forall i, j :: 0 <= i < j < |s.log| && s.log[i].Took? && s.log[j].Offered? ==>
          s.log[i].time + DISCONNECT_ATTEMPT <= s.log[j].time)
    && (forall i :: 0 <= i < |s.log| && s.log[i].Took? ==> WaitFits(s, s.log[i].time))
  }

  predicate WaitFits(s: State, took: nat)
  {
    && s.active
    && match s.leader
       case Looping => Min(took + DISCONNECT_ATTEMPT, s.deadline) <= s.now
       case Checked => took + DISCONNECT_ATTEMPT <= s.now
       case Delivering(_) => took + DISCONNECT_ATTEMPT <= s.now
       case Accepted => took == s.now || took + DISCONNECT_ATTEMPT <= s.now
       case Awaiting(timer) => Min(took + DISCONNECT_ATTEMPT, s.deadline) <= timer
       case Finishing => true
       case Finished => true
       case _ => false
  }

  lemma WaitStep(s: State, step: Step)
    requires WaitInv(s) && TimerInv(s)
    ensures WaitInv(Next(s, step))
  {
    var s', e := Next(s, step), EventOf(s, step);
    OneTook(s, step);
    WaitMoves(s, step);
    hide Move, EventOf, WaitFits;
    assert forall i :: 0 <= i < |s'.log| ==> s'.log[i] == if i < |s.log| then s.log[i] else e[0];
  }

  lemma WaitMoves(s: State, step: Step)
    requires TimerInv(s)
    ensures forall took: nat :: WaitFits(s, took) ==> WaitFits(Next(s, step), took)
  {
  }

  lemma OneTook(s: State, step: Step)
    requires TimerInv(s)
    ensures var e := EventOf(s, step);
            && |e| <= 1
            && (e != [] && e[0].Took? ==> WaitFits(Next(s, step), e[0].time))
            && (e != [] && e[0].Offered? ==> forall took: nat :: WaitFits(s, took) ==> took + DISCONNECT_ATTEMPT <= e[0].time)
  {
  }

  /** In every run, a stream that takes the offer and stays silent is given 80 ms before the next. */
  lemma {:induction false} SilentStreamsAreAwaited(steps: seq<Step>)
    ensures WaitInv(Run(steps))
  {
    if steps != [] {
      SilentStreamsAreAwaited(steps[..|steps| - 1]);
      InvHolds(steps[..|steps| - 1]);
      hide Next, WaitInv, OfferInv, LogInv, LateInv;
      WaitStep(Run(steps[..|steps| - 1]), steps[|steps| - 1]);
    }
  }

  /** The leader is about to offer DISCONNECT to the next stream. */
  predicate MayOffer(s: State)
  {
    s.leader.Looping? && s.next < |s.order| && !s.completed && s.now < s.deadline
  }

  /** The state when the offer to the next stream ends, after some time. */
  ghost function OfferNext(s: State, duration: nat, accepted: bool): State
  {
    Next(Next(Next(Next(s, Lead(false)), Lead(false)), Tick(duration)), Lead(accepted))
  }

  /** How long a single wait lasts. */
  function Patience(s: State): nat
  {
    if s.now >= s.deadline then 0 else Min(DISCONNECT_ATTEMPT, s.deadline - s.now)
  }

  /** A stream may take the whole of its time to refuse; the leader then goes on at once. */
  lemma RefusalGoesOn(s: State, duration: nat)
    requires MayOffer(s) && duration <= Patience(s)
    ensures var s' := OfferNext(s, duration, false);
            && s'.leader == Looping && s'.next == s.next + 1 && s'.now == s.now + duration
            && s'.log == s.log + [Offered(s.order[s.next], s.now)] && !s'.completed
  {
  }

  /** A stream that takes the offer and stays silent is left after exactly as long again. */
  lemma SilenceGoesOn(s: State, duration: nat, wait: nat)
    requires MayOffer(s) && duration <= Patience(s) && s.now + duration < s.deadline
    ensures var took := OfferNext(s, duration, true);
            var s' := Next(Next(Next(took, Lead(false)), Tick(wait)), Lead(false));
            && s'.log == s.log + [Offered(s.order[s.next], s.now), Took(s.now + duration)] && !s'.completed
            && (wait < Patience(took) ==> s'.leader.Awaiting? && s'.now == took.now + wait)
            && (wait == Patience(took) ==> s'.leader == Looping && s'.next == s.next + 1 && s'.now == took.now + wait)
  {
    var took := OfferNext(s, duration, true);
    OfferTaken(s, duration);
    hide OfferNext, Marked, Without, Descending, Distinct;
    assert Next(took, Lead(false)).leader == Awaiting(took.now + Patience(took));
  }

  lemma OfferTaken(s: State, duration: nat)
    requires MayOffer(s) && duration <= Patience(s)
    ensures var took := OfferNext(s, duration, true);
            && took.leader == Accepted && took.now == s.now + duration && !took.completed
            && took.next == s.next + 1 && took.order == s.order && took.deadline == s.deadline
            && took.log == s.log + [Offered(s.order[s.next], s.now), Took(s.now + duration)]
  {
  }

  // ----- Which streams are live, and which was active last

  /** Registered before the shutdown, and not dropped since. */
  ghost predicate Live(steps: seq<Step>, x: nat)
  {
    steps != [] &&
    var front, last := steps[..|steps| - 1], steps[|steps| - 1];
    if last == Register(x) && x !in Run(front).used then !Run(front).active
    else last != Unregister(x) && Live(front, x)
  }

  /** The number of the step that last marked the stream active, or registered it. */
  ghost function LastMark(steps: seq<Step>, x: nat): nat
  {
    if steps == [] then 0
    else
      var front, last := steps[..|steps| - 1], steps[|steps| - 1];
      if last == MarkActivity(x) || (last == Register(x) && x !in Run(front).used) then |steps| else LastMark(front, x)
  }

  predicate IsIn(streams: seq<Stream>, x: nat)
  {
    exists i :: 0 <= i < |streams| && streams[i].incarnation == x
  }

  lemma {:induction false} WithoutExactly(streams: seq<Stream>, incarnation: nat)
    ensures forall a :: a in Without(streams, incarnation) <==> a in streams && a.incarnation != incarnation
  {
    if streams != [] {
      var front, last := streams[..|streams| - 1], streams[|streams| - 1];
      WithoutExactly(front, incarnation);
      assert streams == front + [last];
    }
  }

  /** A stream that is in the list after a step: it was there, marked or not, or has just come. */
  ghost predicate Stays(s: State, step: Step, a: Stream)
  {
    if step.Register? && step.incarnation == a.incarnation && a.incarnation !in s.used then
      !s.active && a.activity == s.nextActivity
    else if step == MarkActivity(a.incarnation) then
      a.activity == s.nextActivity && IsIn(s.streams, a.incarnation)
    else
      step != Unregister(a.incarnation) && a in s.streams
  }

  lemma StreamsMove(s: State, step: Step)
    requires StreamsInv(s)
    ensures forall a :: a in Next(s, step).streams <==> Stays(s, step, a)
    ensures s.nextActivity <= Next(s, step).nextActivity
    ensures step.MarkActivity? || (step.Register? && step.incarnation !in s.used) ==> s.nextActivity < Next(s, step).nextActivity
  {
    hide EventOf;
    match step {
      case Unregister(x) => WithoutExactly(s.streams, x);
      case MarkActivity(x) => MarkedMove(s, x);
      case Register(x) => RegisterMove(s, x);
      case _ =>
    }
  }

  lemma RegisterMove(s: State, x: nat)
    requires StreamsInv(s)
    ensures forall a :: a in Next(s, Register(x)).streams <==> Stays(s, Register(x), a)
  {
    var s' := Next(s, Register(x));
    forall a
      ensures a in s'.streams <==> Stays(s, Register(x), a)
    {
      if a in s.streams {
        var i :| 0 <= i < |s.streams| && s.streams[i] == a;
      }
    }
  }

  lemma MarkedMove(s: State, x: nat)
    requires StreamsInv(s)
    ensures forall a :: a in Next(s, MarkActivity(x)).streams <==> Stays(s, MarkActivity(x), a)
  {
    var streams' := Marked(s.streams, x, s.nextActivity);
    forall a
      ensures a in streams' <==> Stays(s, MarkActivity(x), a)
    {
      if a in streams' {
        var i :| 0 <= i < |streams'| && streams'[i] == a;
        assert s.streams[i].incarnation == a.incarnation;
      }
      if Stays(s, MarkActivity(x), a) {
        var i :| 0 <= i < |s.streams| && s.streams[i].incarnation == a.incarnation && (a.incarnation != x ==> s.streams[i] == a);
        assert streams'[i] == a;
      }
    }
  }

  ghost predicate ActivityInv(steps: seq<Step>)
  {
    var s := Run(steps);
    && (forall a :: a in s.streams ==> Live(steps, a.incarnation) && a.activity < s.nextActivity)
    && (forall a, b :: a in s.streams && b in s.streams ==>
          (a.activity < b.activity <==> LastMark(steps, a.incarnation) < LastMark(steps, b.incarnation)))
  }

  lemma {:induction false} LastMarkBounds(steps: seq<Step>, x: nat)
    ensures LastMark(steps, x) <= |steps|
  {
    if steps != [] {
      LastMarkBounds(steps[..|steps| - 1], x);
    }
  }

  /** The coordinator's list holds only live streams, and their activity numbers tell which was marked
      active, or registered, last. */
  lemma {:induction false} ActivityHolds(steps: seq<Step>)
    ensures ActivityInv(steps)
  {
    if steps != [] {
      var front, step := steps[..|steps| - 1], steps[|steps| - 1];
      ActivityHolds(front);
      InvHolds(front);
      StreamsMove(Run(front), step);
      hide Next, TimeInv, LogInv, LateInv, OfferInv;
      forall a | a in Run(steps).streams
        ensures Live(steps, a.incarnation) && a.activity < Run(steps).nextActivity
      {
        StillLive(front, step, a);
      }
      forall a, b | a in Run(steps).streams && b in Run(steps).streams
        ensures a.activity < b.activity <==> LastMark(steps, a.incarnation) < LastMark(steps, b.incarnation)
      {
        LastMarkBounds(front, a.incarnation);
        LastMarkBounds(front, b.incarnation);
        Compare(front, step, a, b);
      }
    }
  }

  lemma StillLive(front: seq<Step>, step: Step, a: Stream)
    requires ActivityInv(front) && Stays(Run(front), step, a)
    ensures Live(front + [step], a.incarnation)
  {
    assert (front + [step])[..|front|] == front;
  }

  /** The step marks the stream active, or registers it. */
  ghost predicate Marks(s: State, step: Step, x: nat)
  {
    step == MarkActivity(x) || (step == Register(x) && x !in s.used)
  }

  lemma LastMarkStep(front: seq<Step>, step: Step, x: nat)
    ensures LastMark(front + [step], x) == if Marks(Run(front), step, x) then |front| + 1 else LastMark(front, x)
  {
    assert (front + [step])[..|front|] == front;
  }

  lemma Compare(front: seq<Step>, step: Step, a: Stream, b: Stream)
    requires ActivityInv(front) && Stays(Run(front), step, a) && Stays(Run(front), step, b)
    requires LastMark(front, a.incarnation) <= |front| && LastMark(front, b.incarnation) <= |front|
    ensures a.activity < b.activity <==>
            LastMark(front + [step], a.incarnation) < LastMark(front + [step], b.incarnation)
  {
    var s := Run(front);
    LastMarkStep(front, step, a.incarnation);
    LastMarkStep(front, step, b.incarnation);
    hide LastMark, Live, Run;
    assert Marks(s, step, a.incarnation) ==> a.activity == s.nextActivity;
    assert Marks(s, step, b.incarnation) ==> b.activity == s.nextActivity;
    assert !Marks(s, step, a.incarnation) ==> a in s.streams;
    assert !Marks(s, step, b.incarnation) ==> b in s.streams;
  }

  /** Every live stream is in the list. */
  lemma {:induction false} LiveIsListed(steps: seq<Step>, x: nat)
    ensures Live(steps, x) ==> exists a :: a in Run(steps).streams && a.incarnation == x
  {
    if Live(steps, x) {
      var front, step := steps[..|steps| - 1], steps[|steps| - 1];
      var s := Run(front);
      LiveIsListed(front, x);
      InvHolds(front);
      StreamsMove(s, step);
      hide Next, TimeInv, LogInv, LateInv, OfferInv, LastMark;
      if Marks(s, step, x) {
        if step == MarkActivity(x) {
          var b :| b in s.streams && b.incarnation == x;
          InList(s.streams, b);
        }
        assert Stays(s, step, Stream(x, s.nextActivity));
      } else {
        var b :| b in s.streams && b.incarnation == x;
        assert Stays(s, step, b);
      }
    }
  }

  lemma InList(streams: seq<Stream>, b: Stream)
    requires b in streams
    ensures IsIn(streams, b.incarnation)
  {
  }

  /** So DISCONNECT is offered to the streams that were live at the snapshot, those first that were
      active last. */
  lemma MostRecentFirst(steps: seq<Step>, k: nat, i: nat, j: nat)
    requires i < j < |Run(steps).order| && TakenAt(steps, k, Run(steps).order)
    ensures var order := Run(steps).order;
            && Live(steps[..k], order[i].incarnation) && Live(steps[..k], order[j].incarnation)
            && LastMark(steps[..k], order[i].incarnation) > LastMark(steps[..k], order[j].incarnation)
  {
    OffersInOrder(steps);
    ActivityHolds(steps[..k]);
    hide Run, Live, LastMark, StrictlyDescending;
    var order := Run(steps).order;
    var live := Run(steps[..k]).streams;
    assert order[i] in multiset(order) && order[j] in multiset(order);
    assert order[i] in live && order[j] in live;
    OrderedPair(order, i, j);
    MarksDiffer(steps[..k], order[i].incarnation, order[j].incarnation);
  }

  lemma {:induction false} MarksDiffer(steps: seq<Step>, x: nat, y: nat)
    requires x != y && Live(steps, x)
    ensures LastMark(steps, x) != LastMark(steps, y)
  {
    var front, step := steps[..|steps| - 1], steps[|steps| - 1];
    LastMarkBounds(front, x);
    LastMarkBounds(front, y);
    assert steps == front + [step];
    LastMarkStep(front, step, x);
    LastMarkStep(front, step, y);
    if !Marks(Run(front), step, x) && !Marks(Run(front), step, y) {
      MarksDiffer(front, x, y);
    }
  }

  lemma OrderedPair(order: seq<Stream>, i: nat, j: nat)
    requires StrictlyDescending(order) && i < j < |order|
    ensures order[i].activity >= order[j].activity
  {
    assert StrictlyPrecedes(order[i], order[j]);
  }
}
