/**
 The bounded packet queue between the dispatcher and one worker: any number of senders, thieves that
 empty it for a dying worker, and one receiver that can resume, which opens a new network epoch.

 Every atomic access of the source is one step, and a run is an arbitrary list of steps, so what is
 proved about runs holds of every interleaving. The epoch word is `2 * epoch + active`.
 */
module PacketQueue {
  import opened Wrappers

  /** A queued packet with the epoch it was stamped with. `ticket` numbers the pushes. */
  datatype Queued = Queued(packet: nat, epoch: nat, ticket: nat)

  /** Where a sender stands inside `send_inner`. */
  datatype Sender = Opened(force: bool) | Stamped(packet: nat, epoch: nat, force: bool)

  /** Where the receiver stands inside `try_recv_inner` or `resume`. */
  datatype Receiver = Ready | Popped(held: Queued) | Clearing | Cleared | Closed

  datatype Fate = Delivered | Discarded | Purged | Evicted | Stolen

  datatype Event =
    | PacketStamped(packet: nat)
    | PacketPushed(queued: Queued)
    | PacketLeft(queued: Queued, fate: Fate)
    | ResumeStarted
    | ResumeEnded

  datatype State = State(
    capacity: nat,
    queue: seq<Queued>,
    word: nat,
    receiverOpen: bool,
    senders: map<nat, Sender>,
    receiver: Receiver,
    nextPacket: nat,
    pushes: nat,
    log: seq<Event>)

  datatype Step =
    | CheckOpen(thread: nat, force: bool)
    | LoadState(thread: nat)
    | Push(thread: nat)
    | Steal
    | Pop
    | Judge
    | StartResume
    | PurgeOne
    | EndResume
    | CloseReceiver

  function Init(capacity: nat, active: bool): State
  {
    State(if capacity == 0 then 1 else capacity, [], if active then 1 else 0, true, map[], Ready, 0, 0, [])
  }

  function Epoch(s: State): nat { s.word / 2 }

  predicate Active(s: State) { s.word % 2 == 1 }

  function TakeFirst(s: State, fate: Fate): State
    requires |s.queue| > 0
  {
    s.(queue := s.queue[1..], log := s.log + [PacketLeft(s.queue[0], fate)])
  }

  function Append(s: State, packet: nat, epoch: nat): State
  {
    var queued := Queued(packet, epoch, s.pushes);
    s.(queue := s.queue + [queued], pushes := s.pushes + 1, log := s.log + [PacketPushed(queued)])
  }

  /** One atomic step; a step that is not enabled changes nothing. */
  function Next(s: State, step: Step): State
  {
    match step
    case CheckOpen(t, force) =>
      if t !in s.senders && s.receiverOpen then s.(senders := s.senders[t := Opened(force)]) else s
    case LoadState(t) =>
      if t !in s.senders || !s.senders[t].Opened? then s
      else if !Active(s) then s.(senders := s.senders - {t})
      else s.(senders := s.senders[t := Stamped(s.nextPacket, Epoch(s), s.senders[t].force)],
              nextPacket := s.nextPacket + 1,
              log := s.log + [PacketStamped(s.nextPacket)])
    case Push(t) =>
      if t !in s.senders || !s.senders[t].Stamped? then s
      else
        var Stamped(packet, epoch, force) := s.senders[t];
        var done := s.(senders := s.senders - {t});
        if |s.queue| < s.capacity then Append(done, packet, epoch)
        else if force && |s.queue| > 0 then Append(TakeFirst(done, Evicted), packet, epoch)
        else done
    case Steal =>
      if |s.queue| > 0 then TakeFirst(s, Stolen) else s
    case Pop =>
      if s.receiver.Ready? && |s.queue| > 0
      then s.(queue := s.queue[1..], receiver := Popped(s.queue[0])) else s
    case Judge =>
      if !s.receiver.Popped? then s
      else
        var q := s.receiver.held;
        var fate := if Active(s) && q.epoch == Epoch(s) then Delivered else Discarded;
        s.(receiver := Ready, log := s.log + [PacketLeft(q, fate)])
    case StartResume =>
      if s.receiver.Ready?
      then s.(receiver := Clearing, word := 2 * (Epoch(s) + 1), log := s.log + [ResumeStarted]) else s
    case PurgeOne =>
      if !s.receiver.Clearing? then s
      else if |s.queue| > 0 then TakeFirst(s, Purged)
      else s.(receiver := Cleared)
    case EndResume =>
      if s.receiver.Cleared?
      then s.(receiver := Ready, word := 2 * Epoch(s) + 1, log := s.log + [ResumeEnded]) else s
    case CloseReceiver =>
      if s.receiver.Ready? then s.(receiver := Closed, receiverOpen := false) else s
  }

  function Run(capacity: nat, active: bool, steps: seq<Step>): State
  {
    if steps == [] then Init(capacity, active)
    else Next(Run(capacity, active, steps[..|steps| - 1]), steps[|steps| - 1])
  }

  predicate ResumeEdge(e: Event) { e.ResumeStarted? || e.ResumeEnded? }

  /** Log position i stamps the packet and a resume starts or ends at the later position j. */
  ghost predicate StaleAt(log: seq<Event>, packet: nat, i: int, j: int)
  {
    0 <= i < j < |log| && log[i] == PacketStamped(packet) && ResumeEdge(log[j])
  }

  /** A resume started or ended after the packet was stamped. */
  ghost predicate Stale(log: seq<Event>, packet: nat)
  {
    exists i, j :: StaleAt(log, packet, i, j)
  }

  ghost predicate IsDelivery(e: Event) { e.PacketLeft? && e.fate == Delivered }

  /** The receiver has judged a packet: it passed it on or threw it away as stale. */
  ghost predicate IsJudgment(e: Event) { e.PacketLeft? && (e.fate == Delivered || e.fate == Discarded) }

  function Held(s: State): seq<Queued>
  {
    if s.receiver.Popped? then [s.receiver.held] else []
  }

  /** Everything pushed and not yet gone, oldest first. */
  function Waiting(s: State): seq<Queued> { Held(s) + s.queue }

  // ----- Epochs: no packet outlives a resume, and no other is thrown away

  /** A stamped packet carries the epoch of the queue as long as no resume edge has passed since the
      stamp, and an earlier one afterwards and while a resume is under way. */
  ghost predicate EpochFits(s: State, packet: nat, epoch: nat)
  {
    && packet < s.nextPacket && PacketStamped(packet) in s.log
    && epoch <= Epoch(s)
    && (s.receiver.Clearing? || s.receiver.Cleared? ==> epoch < Epoch(s))
    && (if Stale(s.log, packet) then epoch < Epoch(s) else Active(s) && epoch == Epoch(s))
  }

  /** Every judgment is right: what was passed on is exactly what no resume edge had made stale. */
  ghost predicate JudgedExactly(log: seq<Event>)
  {
    forall k :: 0 <= k < |log| && IsJudgment(log[k]) ==>
      && PacketStamped(log[k].queued.packet) in log[..k]
      && (log[k].fate == Delivered <==> !Stale(log[..k], log[k].queued.packet))
  }

  /** No packet is stamped twice. */
  ghost predicate StampsRise(log: seq<Event>, nextPacket: nat)
  {
    && (forall i :: 0 <= i < |log| && log[i].PacketStamped? ==> log[i].packet < nextPacket)
    && (forall i, j :: 0 <= i < j < |log| && log[i].PacketStamped? && log[j].PacketStamped? ==>
          log[i].packet < log[j].packet)
  }

  ghost predicate EpochInv(s: State)
  {
    && (s.receiver.Clearing? || s.receiver.Cleared? ==> !Active(s))
    && StampsRise(s.log, s.nextPacket)
    && WaitingFit(s) && SendersFit(s)
    && JudgedExactly(s.log)
  }

  ghost predicate WaitingFit(s: State)
  {
    forall q :: q in Waiting(s) ==> EpochFits(s, q.packet, q.epoch)
  }

  ghost predicate SendersFit(s: State)
  {
    forall t :: t in s.senders && s.senders[t].Stamped? ==> EpochFits(s, s.senders[t].packet, s.senders[t].epoch)
  }

  /** The log grew by events none of which is a resume edge. */
  ghost predicate QuietGrowth(s: State, s': State)
  {
    && s.log <= s'.log
    && (forall k :: |s.log| <= k < |s'.log| ==> !ResumeEdge(s'.log[k]))
    && s'.word == s.word && s.nextPacket <= s'.nextPacket
    && (s'.receiver.Clearing? || s'.receiver.Cleared? ==> s.receiver.Clearing? || s.receiver.Cleared?)
  }

  lemma StaleQuietly(log: seq<Event>, log': seq<Event>, packet: nat)
    requires log <= log' && forall k :: |log| <= k < |log'| ==> !ResumeEdge(log'[k])
    ensures Stale(log', packet) <==> Stale(log, packet)
  {
    if i, j :| StaleAt(log, packet, i, j) {
      assert StaleAt(log', packet, i, j);
    }
    if i, j :| StaleAt(log', packet, i, j) {
      assert StaleAt(log, packet, i, j);
    }
  }

  lemma FitsQuietly(s: State, s': State)
    requires QuietGrowth(s, s')
    ensures forall packet, epoch :: EpochFits(s, packet, epoch) ==> EpochFits(s', packet, epoch)
  {
    forall packet, epoch | EpochFits(s, packet, epoch)
      ensures EpochFits(s', packet, epoch)
    {
      StaleQuietly(s.log, s'.log, packet);
      hide Stale;
      assert forall e :: e in s.log ==> e in s'.log;
    }
  }

  /** A judgment added at the end of the log. */
  lemma JudgedOneMore(log: seq<Event>, log': seq<Event>)
    requires JudgedExactly(log) && log <= log' && |log'| <= |log| + 1
    requires |log'| > |log| && IsJudgment(log'[|log|]) ==>
      && PacketStamped(log'[|log|].queued.packet) in log
      && (log'[|log|].fate == Delivered <==> !Stale(log, log'[|log|].queued.packet))
    ensures JudgedExactly(log')
  {
    hide Stale;
    forall k | 0 <= k < |log'| && IsJudgment(log'[k])
      ensures PacketStamped(log'[k].queued.packet) in log'[..k]
      ensures log'[k].fate == Delivered <==> !Stale(log'[..k], log'[k].queued.packet)
    {
      assert log'[..k] == if k < |log| then log[..k] else log;
    }
  }

  /** Steps that move packets without touching the epoch word. */
  lemma MovingStep(s: State, step: Step)
    requires EpochInv(s) && !step.StartResume? && !step.EndResume? && !step.LoadState?
    ensures EpochInv(Next(s, step))
  {
    Moves(s, step);
    MovingStepJudges(s, step);
    MovingStepSenders(s, step);
    MovingStepWaiting(s, step);
    hide EpochFits, JudgedExactly, WaitingFit, SendersFit;
  }

  /** What such a step does to the senders, the waiting packets and the log. */
  lemma Moves(s: State, step: Step)
    requires !step.StartResume? && !step.EndResume? && !step.LoadState?
    ensures var s' := Next(s, step);
            && (forall t :: t in s'.senders && s'.senders[t].Stamped? ==> t in s.senders && s'.senders[t] == s.senders[t])
            && s'.word == s.word && s'.nextPacket == s.nextPacket
            && s.log <= s'.log && (forall k :: |s.log| <= k < |s'.log| ==> !ResumeEdge(s'.log[k]) && !s'.log[k].PacketStamped?)
            && (s'.receiver.Clearing? || s'.receiver.Cleared? ==> s.receiver.Clearing? || s.receiver.Cleared?)
  {
  }

  lemma MovesWaiting(s: State, step: Step)
    requires !step.StartResume? && !step.EndResume? && !step.LoadState?
    ensures forall q :: q in Waiting(Next(s, step)) ==>
              q in Waiting(s) || (step.Push? && step.thread in s.senders && s.senders[step.thread].Stamped?
                                  && q.packet == s.senders[step.thread].packet && q.epoch == s.senders[step.thread].epoch)
  {
  }

  /** Only a judgment logs a judgment, by the rule of the epoch word. */
  lemma MovesJudgments(s: State, step: Step)
    requires !step.StartResume? && !step.EndResume? && !step.LoadState?
    ensures var s' := Next(s, step);
            forall k :: |s.log| <= k < |s'.log| && IsJudgment(s'.log[k]) ==>
              && |s'.log| == |s.log| + 1
              && s'.log[k].queued in Waiting(s)
              && (s'.log[k].fate == Delivered <==> Active(s) && s'.log[k].queued.epoch == Epoch(s))
  {
    if step.Judge? && s.receiver.Popped? {
      assert Waiting(s)[0] == s.receiver.held;
    }
  }

  lemma MovingStepSenders(s: State, step: Step)
    requires EpochInv(s) && !step.StartResume? && !step.EndResume? && !step.LoadState?
    ensures SendersFit(Next(s, step))
  {
    Moves(s, step);
    FitsQuietly(s, Next(s, step));
    hide Next, EpochFits;
  }

  lemma MovingStepWaiting(s: State, step: Step)
    requires EpochInv(s) && !step.StartResume? && !step.EndResume? && !step.LoadState?
    ensures WaitingFit(Next(s, step))
  {
    Moves(s, step);
    MovesWaiting(s, step);
    FitsQuietly(s, Next(s, step));
    hide Next, EpochFits, Waiting;
  }

  lemma MovingStepJudges(s: State, step: Step)
    requires EpochInv(s) && !step.StartResume? && !step.EndResume? && !step.LoadState?
    ensures JudgedExactly(Next(s, step).log)
  {
    Moves(s, step);
    MovesJudgments(s, step);
    hide Next, Waiting, Stale;
    var s' := Next(s, step);
    if k :| |s.log| <= k < |s'.log| && IsJudgment(s'.log[k]) {
      assert EpochFits(s, s'.log[k].queued.packet, s'.log[k].queued.epoch);
      JudgedOneMore(s.log, s'.log);
    } else {
      NothingJudged(s.log, s'.log);
    }
  }

  lemma NothingJudged(log: seq<Event>, log': seq<Event>)
    requires JudgedExactly(log) && log <= log' && forall k :: |log| <= k < |log'| ==> !IsJudgment(log'[k])
    ensures JudgedExactly(log')
  {
    hide Stale;
    forall k | 0 <= k < |log'| && IsJudgment(log'[k])
      ensures PacketStamped(log'[k].queued.packet) in log'[..k]
      ensures log'[k].fate == Delivered <==> !Stale(log'[..k], log'[k].queued.packet)
    {
      assert log'[..k] == log[..k];
    }
  }

  lemma StampStep(s: State, t: nat)
    requires EpochInv(s)
    ensures EpochInv(Next(s, LoadState(t)))
  {
    var s' := Next(s, LoadState(t));
    FitsQuietly(s, s');
    NothingJudged(s.log, s'.log);
    if s'.nextPacket > s.nextPacket {
      assert s'.log == s.log + [PacketStamped(s.nextPacket)] && s'.log[|s.log|] == PacketStamped(s.nextPacket);
      FreshStamp(s.log, s.nextPacket);
    }
    hide JudgedExactly, Stale;
  }

  lemma FreshStamp(log: seq<Event>, packet: nat)
    requires StampsRise(log, packet)
    ensures !Stale(log + [PacketStamped(packet)], packet) && StampsRise(log + [PacketStamped(packet)], packet + 1)
  {
  }

  lemma ResumeEdgeStep(s: State, step: Step)
    requires EpochInv(s) && (step.StartResume? || step.EndResume?)
    ensures EpochInv(Next(s, step))
  {
    var s' := Next(s, step);
    if s' != s {
      NothingJudged(s.log, s'.log);
      forall packet, epoch | EpochFits(s, packet, epoch)
        ensures EpochFits(s', packet, epoch)
      {
        var i :| 0 <= i < |s.log| && s.log[i] == PacketStamped(packet);
        assert StaleAt(s'.log, packet, i, |s.log|);
      }
    }
    hide JudgedExactly, EpochFits;
  }

  lemma {:induction false} EpochInvHolds(capacity: nat, active: bool, steps: seq<Step>)
    ensures EpochInv(Run(capacity, active, steps))
  {
    if steps != [] {
      var last := steps[|steps| - 1];
      EpochInvHolds(capacity, active, steps[..|steps| - 1]);
      var s := Run(capacity, active, steps[..|steps| - 1]);
      if last.StartResume? || last.EndResume? {
        ResumeEdgeStep(s, last);
      } else if last.LoadState? {
        StampStep(s, last.thread);
      } else {
        MovingStep(s, last);
      }
    }
  }

  lemma RunIsJudgedExactly(capacity: nat, active: bool, steps: seq<Step>)
    ensures var s := Run(capacity, active, steps); JudgedExactly(s.log) && StampsRise(s.log, s.nextPacket)
  {
    hide Next, EpochFits, WaitingFit, SendersFit, JudgedExactly, StampsRise;
    EpochInvHolds(capacity, active, steps);
  }

  /** In every interleaving, a packet delivered after a resume started, or ended, was stamped after. */
  lemma NoPacketOutlivesResume(capacity: nat, active: bool, steps: seq<Step>, i: nat, j: nat, k: nat)
    requires var log := Run(capacity, active, steps).log;
             && k < |log| && IsDelivery(log[k])
             && i < |log| && log[i] == PacketStamped(log[k].queued.packet)
             && j < k && ResumeEdge(log[j])
    ensures j < i
  {
    RunIsJudgedExactly(capacity, active, steps);
    hide Run;
    var log := Run(capacity, active, steps).log;
    assert i < j ==> StaleAt(log[..k], log[k].queued.packet, i, j);
  }

  /** And no other packet is thrown away: whatever the receiver takes off the queue was stamped, once,
      and is delivered if and only if no resume started or ended since. */
  lemma DeliveredExactly(capacity: nat, active: bool, steps: seq<Step>, k: nat) returns (i: nat)
    requires var log := Run(capacity, active, steps).log; k < |log| && IsJudgment(log[k])
    ensures var log := Run(capacity, active, steps).log;
            && i < k && log[i] == PacketStamped(log[k].queued.packet)
            && (forall n :: 0 <= n < |log| && log[n] == log[i] ==> n == i)
            && (log[k].fate == Delivered <==> forall j :: i < j < k ==> !ResumeEdge(log[j]))
  {
    RunIsJudgedExactly(capacity, active, steps);
    hide Run;
    var log := Run(capacity, active, steps).log;
    var packet := log[k].queued.packet;
    i :| 0 <= i < |log[..k]| && log[..k][i] == PacketStamped(packet);
    if j :| i < j < k && ResumeEdge(log[j]) {
      assert StaleAt(log[..k], packet, i, j);
    } else {
      assert forall n, j :: StaleAt(log[..k], packet, n, j) ==> n == i;
    }
  }

  /** Whether the last resume edge left the queue active; before the first one it is as it began. */
  function ActiveAfter(log: seq<Event>, active: bool): bool
  {
    if log == [] then active
    else
      var e := log[|log| - 1];
      if ResumeEdge(e) then e.ResumeEnded? else ActiveAfter(log[..|log| - 1], active)
  }

  function ResumesStarted(log: seq<Event>): nat
  {
    if log == [] then 0
    else ResumesStarted(log[..|log| - 1]) + if log[|log| - 1].ResumeStarted? then 1 else 0
  }

  lemma EdgesGrow(log: seq<Event>, e: Event, active: bool)
    ensures ActiveAfter(log + [e], active) == if ResumeEdge(e) then e.ResumeEnded? else ActiveAfter(log, active)
    ensures ResumesStarted(log + [e]) == ResumesStarted(log) + if e.ResumeStarted? then 1 else 0
  {
  }

  /** What each step does to the epoch word, against what it logs. */
  lemma WordStep(s: State, step: Step)
    ensures var s' := Next(s, step);
            if step.StartResume? && s.receiver.Ready? then
              s'.log == s.log + [ResumeStarted] && !Active(s') && Epoch(s') == Epoch(s) + 1
            else if step.EndResume? && s.receiver.Cleared? then
              s'.log == s.log + [ResumeEnded] && Active(s') && Epoch(s') == Epoch(s)
            else s'.word == s.word
  {
  }

  lemma {:induction false} QuietEvents(log: seq<Event>, log': seq<Event>, active: bool)
    requires log <= log' && forall k :: |log| <= k < |log'| ==> !ResumeEdge(log'[k])
    ensures ActiveAfter(log', active) == ActiveAfter(log, active) && ResumesStarted(log') == ResumesStarted(log)
    decreases |log'|
  {
    if |log'| > |log| {
      QuietEvents(log, log'[..|log'| - 1], active);
    } else {
      assert log' == log;
    }
  }

  lemma QuietStep(s: State, step: Step, active: bool)
    requires !(step.StartResume? && s.receiver.Ready?) && !(step.EndResume? && s.receiver.Cleared?)
    ensures ActiveAfter(Next(s, step).log, active) == ActiveAfter(s.log, active)
    ensures ResumesStarted(Next(s, step).log) == ResumesStarted(s.log)
  {
    if !step.StartResume? && !step.EndResume? && !step.LoadState? {
      Moves(s, step);
    }
    hide ActiveAfter, ResumesStarted;
    QuietEvents(s.log, Next(s, step).log, active);
  }

  /** In every interleaving the queue is active exactly when the last resume has ended, or as it was
      made if there was none, and its epoch counts the resumes. */
  lemma {:induction false} WordFollowsLog(capacity: nat, active: bool, steps: seq<Step>)
    ensures var s := Run(capacity, active, steps);
            (Active(s) <==> ActiveAfter(s.log, active)) && Epoch(s) == ResumesStarted(s.log)
  {
    hide Next, Epoch, Active;
    if steps == [] {
      InitWord(capacity, active);
    } else {
      var s, step := Run(capacity, active, steps[..|steps| - 1]), steps[|steps| - 1];
      WordFollowsLog(capacity, active, steps[..|steps| - 1]);
      WordStep(s, step);
      if step.StartResume? && s.receiver.Ready? {
        EdgesGrow(s.log, ResumeStarted, active);
      } else if step.EndResume? && s.receiver.Cleared? {
        EdgesGrow(s.log, ResumeEnded, active);
      } else {
        QuietStep(s, step, active);
        SameWord(s, Next(s, step));
      }
    }
  }

  lemma InitWord(capacity: nat, active: bool)
    ensures var s := Init(capacity, active); s.log == [] && Active(s) == active && Epoch(s) == 0
  {
  }

  lemma SameWord(s: State, s': State)
    requires s'.word == s.word
    ensures Active(s') == Active(s) && Epoch(s') == Epoch(s)
  {
  }

  // ----- Order, capacity and conservation

  ghost predicate PushesRise(log: seq<Event>)
  {
    forall k, m :: 0 <= k < m < |log| && log[k].PacketPushed? && log[m].PacketPushed? ==>
      log[k].queued.ticket < log[m].queued.ticket
  }

  ghost predicate DeliveriesRise(log: seq<Event>)
  {
    forall k, m :: 0 <= k < m < |log| && IsDelivery(log[k]) && IsDelivery(log[m]) ==>
      log[k].queued.ticket < log[m].queued.ticket
  }

  /** Tickets rise along the log's pushes, along its deliveries, and on through the waiting packets. */
  ghost predicate Ordered(log: seq<Event>, waiting: seq<Queued>, pushes: nat)
  {
    && PushesRise(log) && DeliveriesRise(log)
    && (forall k :: 0 <= k < |log| && log[k].PacketPushed? ==> log[k].queued.ticket < pushes)
    && (forall k :: 0 <= k < |log| && IsDelivery(log[k]) ==> log[k].queued.ticket < pushes)
    && (forall a, b :: 0 <= a < b < |waiting| ==> waiting[a].ticket < waiting[b].ticket)
    && (forall a :: 0 <= a < |waiting| ==> waiting[a].ticket < pushes)
    && (forall k, a :: 0 <= k < |log| && IsDelivery(log[k]) && 0 <= a < |waiting| ==>
          log[k].queued.ticket < waiting[a].ticket)
  }

  /** The packets that were pushed, as logged. */
  ghost function PushedBag(log: seq<Event>): multiset<Queued>
  {
    if log == [] then multiset{}
    else
      var e := log[|log| - 1];
      PushedBag(log[..|log| - 1]) + if e.PacketPushed? then multiset{e.queued} else multiset{}
  }

  /** The packets that have left, as logged. */
  ghost function LeftBag(log: seq<Event>): multiset<Queued>
  {
    if log == [] then multiset{}
    else
      var e := log[|log| - 1];
      LeftBag(log[..|log| - 1]) + if e.PacketLeft? then multiset{e.queued} else multiset{}
  }

  /** Every pushed packet has left or still waits. */
  ghost predicate Conserved(log: seq<Event>, waiting: seq<Queued>)
  {
    PushedBag(log) == LeftBag(log) + multiset(waiting)
  }

  lemma BagsGrow(log: seq<Event>, e: Event)
    ensures PushedBag(log + [e]) == PushedBag(log) + if e.PacketPushed? then multiset{e.queued} else multiset{}
    ensures LeftBag(log + [e]) == LeftBag(log) + if e.PacketLeft? then multiset{e.queued} else multiset{}
  {
  }

  function Without(waiting: seq<Queued>, i: nat): seq<Queued>
    requires i < |waiting|
  {
    waiting[..i] + waiting[i + 1..]
  }

  lemma QuietOrdered(log: seq<Event>, waiting: seq<Queued>, pushes: nat, e: Event)
    requires Ordered(log, waiting, pushes) && !e.PacketPushed? && !e.PacketLeft?
    ensures Ordered(log + [e], waiting, pushes)
  {
    var log' := log + [e];
    assert forall k :: 0 <= k < |log| ==> log'[k] == log[k];
    assert !IsDelivery(log'[|log|]) && !log'[|log|].PacketPushed?;
  }

  lemma QuietOne(log: seq<Event>, waiting: seq<Queued>, pushes: nat, e: Event)
    requires Ordered(log, waiting, pushes) && Conserved(log, waiting)
    requires !e.PacketPushed? && !e.PacketLeft?
    ensures Ordered(log + [e], waiting, pushes) && Conserved(log + [e], waiting)
  {
    QuietOrdered(log, waiting, pushes, e);
    BagsGrow(log, e);
    hide Ordered, PushedBag, LeftBag;
  }

  lemma PushOrdered(log: seq<Event>, waiting: seq<Queued>, pushes: nat, q: Queued)
    requires Ordered(log, waiting, pushes) && q.ticket == pushes
    ensures Ordered(log + [PacketPushed(q)], waiting + [q], pushes + 1)
  {
  }

  lemma PushConserved(log: seq<Event>, waiting: seq<Queued>, q: Queued)
    requires Conserved(log, waiting)
    ensures Conserved(log + [PacketPushed(q)], waiting + [q])
  {
  }

  lemma LeaveOrdered(log: seq<Event>, waiting: seq<Queued>, pushes: nat, i: nat, fate: Fate)
    requires Ordered(log, waiting, pushes)
    requires i < |waiting| && (fate == Delivered ==> i == 0)
    ensures Ordered(log + [PacketLeft(waiting[i], fate)], Without(waiting, i), pushes)
  {
    var rest := Without(waiting, i);
    assert forall a :: 0 <= a < |rest| ==> rest[a] == waiting[if a < i then a else a + 1];
  }

  lemma LeaveConserved(log: seq<Event>, waiting: seq<Queued>, i: nat, fate: Fate)
    requires Conserved(log, waiting) && i < |waiting|
    ensures Conserved(log + [PacketLeft(waiting[i], fate)], Without(waiting, i))
  {
    BagsGrow(log, PacketLeft(waiting[i], fate));
    assert waiting == waiting[..i] + [waiting[i]] + waiting[i + 1..];
    assert multiset(waiting) == multiset(Without(waiting, i)) + multiset{waiting[i]};
  }

  ghost predicate Inv(s: State)
  {
    && |s.queue| <= s.capacity && 0 < s.capacity
    && Ordered(s.log, Waiting(s), s.pushes) && Conserved(s.log, Waiting(s))
  }

  lemma InvTake(s: State, fate: Fate)
    requires Inv(s) && |s.queue| > 0 && fate != Delivered
    ensures Inv(TakeFirst(s, fate))
  {
    var h := |Held(s)|;
    LeaveOrdered(s.log, Waiting(s), s.pushes, h, fate);
    LeaveConserved(s.log, Waiting(s), h, fate);
    assert Waiting(TakeFirst(s, fate)) == Without(Waiting(s), h);
  }

  lemma InvAppend(s: State, packet: nat, epoch: nat)
    requires Inv(s) && |s.queue| < s.capacity
    ensures Inv(Append(s, packet, epoch))
  {
    var q := Queued(packet, epoch, s.pushes);
    PushOrdered(s.log, Waiting(s), s.pushes, q);
    PushConserved(s.log, Waiting(s), q);
    assert Waiting(Append(s, packet, epoch)) == Waiting(s) + [q];
  }

  lemma InvPush(s: State, t: nat)
    requires Inv(s)
    ensures Inv(Next(s, Push(t)))
  {
    if t in s.senders && s.senders[t].Stamped? {
      var Stamped(packet, epoch, force) := s.senders[t];
      var done := s.(senders := s.senders - {t});
      if |s.queue| < s.capacity {
        InvAppend(done, packet, epoch);
      } else if force {
        InvTake(done, Evicted);
        InvAppend(TakeFirst(done, Evicted), packet, epoch);
      }
    }
  }

  lemma InvJudge(s: State)
    requires Inv(s)
    ensures Inv(Next(s, Judge))
  {
    var s' := Next(s, Judge);
    if s.receiver.Popped? {
      var fate := s'.log[|s.log|].fate;
      LeaveOrdered(s.log, Waiting(s), s.pushes, 0, fate);
      LeaveConserved(s.log, Waiting(s), 0, fate);
      assert Waiting(s') == Without(Waiting(s), 0);
    }
  }

  /** A change that moves no packet and logs at most a stamp or a resume edge. */
  lemma InvQuiet(s: State, s': State, e: Event)
    requires Inv(s) && !e.PacketPushed? && !e.PacketLeft?
    requires s'.log == s.log || s'.log == s.log + [e]
    requires Waiting(s') == Waiting(s) && s'.pushes == s.pushes
    requires s'.capacity == s.capacity && |s'.queue| <= |s.queue|
    ensures Inv(s')
  {
    if s'.log != s.log {
      QuietOne(s.log, Waiting(s), s.pushes, e);
    }
  }

  lemma InvStep(s: State, step: Step)
    requires Inv(s)
    ensures Inv(Next(s, step)) && Next(s, step).capacity == s.capacity
  {
    hide Ordered, Conserved;
    match step
    case Push(t) =>
      InvPush(s, t);
    case Steal =>
      if |s.queue| > 0 {
        InvTake(s, Stolen);
      }
    case PurgeOne =>
      if s.receiver.Clearing? && |s.queue| > 0 {
        InvTake(s, Purged);
      }
    case Judge =>
      InvJudge(s);
    case Pop =>
      assert Waiting(Next(s, step)) == Waiting(s);
      InvQuiet(s, Next(s, step), ResumeStarted);
    case LoadState(_) =>
      InvQuiet(s, Next(s, step), PacketStamped(s.nextPacket));
    case EndResume =>
      InvQuiet(s, Next(s, step), ResumeEnded);
    case _ =>
      InvQuiet(s, Next(s, step), ResumeStarted);
  }

  lemma InvInit(capacity: nat, active: bool)
    ensures Inv(Init(capacity, active))
  {
  }

  lemma {:induction false} InvHolds(capacity: nat, active: bool, steps: seq<Step>)
    ensures Inv(Run(capacity, active, steps))
    ensures Run(capacity, active, steps).capacity == if capacity == 0 then 1 else capacity
  {
    hide Inv, Next;
    if steps == [] {
      InvInit(capacity, active);
    } else {
      InvHolds(capacity, active, steps[..|steps| - 1]);
      InvStep(Run(capacity, active, steps[..|steps| - 1]), steps[|steps| - 1]);
    }
  }

  lemma {:induction false} PushedOnce(log: seq<Event>, q: Queued)
    requires PushesRise(log)
    ensures PushedBag(log)[q] == if PacketPushed(q) in log then 1 else 0
  {
    if log != [] {
      var front, e := log[..|log| - 1], log[|log| - 1];
      PushedOnce(front, q);
      assert log == front + [e];
    }
  }

  /** In every interleaving deliveries keep the order of the pushes and the queue keeps its bound. */
  lemma DeliveredInOrder(capacity: nat, active: bool, steps: seq<Step>)
    ensures var s := Run(capacity, active, steps);
            && PushesRise(s.log) && DeliveriesRise(s.log)
            && |s.queue| <= if capacity == 0 then 1 else capacity
  {
    InvHolds(capacity, active, steps);
  }

  /** In every interleaving each pushed packet is, exactly once, delivered, discarded, purged,
      evicted, stolen or still waiting, and nothing else ever leaves the queue. */
  lemma EveryPacketOnce(capacity: nat, active: bool, steps: seq<Step>, q: Queued)
    ensures var s := Run(capacity, active, steps);
            LeftBag(s.log)[q] + multiset(Waiting(s))[q] == if PacketPushed(q) in s.log then 1 else 0
  {
    InvHolds(capacity, active, steps);
    PushedOnce(Run(capacity, active, steps).log, q);
  }

  // ----- Calls that nothing interrupts

  /** `send`: the open check, the load of the epoch word, the push. */
  function Send(s: State, t: nat, force: bool): State
  {
    Next(Next(Next(s, CheckOpen(t, force)), LoadState(t)), Push(t))
  }

  /** In every reachable state an undisturbed send to an open and active queue puts its packet last.
      Only a forced send into a full queue makes room, at the expense of the oldest packet; a full
      queue otherwise, and one that is closed or inactive, stays as it is. */
  lemma SendUndisturbed(capacity: nat, active: bool, steps: seq<Step>, t: nat, force: bool)
    requires t !in Run(capacity, active, steps).senders
    ensures var s := Run(capacity, active, steps);
            var mine := Queued(s.nextPacket, Epoch(s), s.pushes);
            Send(s, t, force).queue ==
              if !s.receiverOpen || !Active(s) then s.queue
              else if |s.queue| == 0 || |s.queue| < capacity then s.queue + [mine]
              else if force then s.queue[1..] + [mine]
              else s.queue
  {
    InvHolds(capacity, active, steps);
  }

  /** In every reachable state an undisturbed receive takes the oldest packet, and passes it on if and
      only if no resume edge has passed since it was stamped. */
  lemma ReceiveUndisturbed(capacity: nat, active: bool, steps: seq<Step>)
    requires var s := Run(capacity, active, steps); s.receiver.Ready? && |s.queue| > 0
    ensures var s := Run(capacity, active, steps);
            var s' := Next(Next(s, Pop), Judge);
            && s'.receiver.Ready? && s'.queue == s.queue[1..]
            && s'.log == s.log + [PacketLeft(s.queue[0], if Stale(s.log, s.queue[0].packet) then Discarded else Delivered)]
  {
    EpochInvHolds(capacity, active, steps);
    var s := Run(capacity, active, steps);
    assert s.queue[0] in Waiting(s);
    assert EpochFits(s, s.queue[0].packet, s.queue[0].epoch);
    hide Stale;
  }

  /** The same step over and over. */
  function Repeat(s: State, step: Step, n: nat): State
  {
    if n == 0 then s else Next(Repeat(s, step, n - 1), step)
  }

  function AllLeft(packets: seq<Queued>, fate: Fate): (log: seq<Event>)
    ensures |log| == |packets|
  {
    seq(|packets|, i requires 0 <= i < |packets| => PacketLeft(packets[i], fate))
  }

  /** Stealing, like purging, takes the packets one by one, oldest first. */
  lemma {:induction false} Drains(s: State, step: Step, n: nat)
    requires n <= |s.queue| && (step == Steal || (step == PurgeOne && s.receiver.Clearing?))
    ensures Repeat(s, step, n) ==
            s.(queue := s.queue[n..], log := s.log + AllLeft(s.queue[..n], if step == Steal then Stolen else Purged))
  {
    var fate := if step == Steal then Stolen else Purged;
    if n == 0 {
      assert s.log + AllLeft([], fate) == s.log;
    } else {
      Drains(s, step, n - 1);
      assert AllLeft(s.queue[..n], fate) == AllLeft(s.queue[..n - 1], fate) + [PacketLeft(s.queue[n - 1], fate)];
    }
  }

  /** So a worker that dies hands over everything that waited for it, in order... */
  lemma StealUndisturbed(s: State)
    ensures var s' := Repeat(s, Steal, |s.queue|);
            s'.queue == [] && s'.log == s.log + AllLeft(s.queue, Stolen)
  {
    Drains(s, Steal, |s.queue|);
    assert s.queue[..|s.queue|] == s.queue;
  }

  /** ... and a resume empties the queue and leaves it active in the next epoch. */
  lemma ResumeUndisturbed(s: State)
    requires s.receiver.Ready?
    ensures var s' := Next(Next(Repeat(Next(s, StartResume), PurgeOne, |s.queue|), PurgeOne), EndResume);
            && s'.queue == [] && s'.receiver.Ready? && Active(s') && Epoch(s') == Epoch(s) + 1
            && s'.log == s.log + [ResumeStarted] + AllLeft(s.queue, Purged) + [ResumeEnded]
  {
    Drains(Next(s, StartResume), PurgeOne, |s.queue|);
    assert s.queue[..|s.queue|] == s.queue;
  }

  /** A sender that finds the receiver gone does nothing. */
  lemma ClosedForGood(s: State, t: nat, force: bool)
    requires s.receiver.Ready? && t !in s.senders
    ensures var closed := Next(s, CloseReceiver); Send(closed, t, force) == closed
  {
  }
}
