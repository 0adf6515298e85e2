/**
 Idle scale-down and the network epoch that lost paths open. Any number of workers join epochs and
 die at once; every atomic load, store and compare-exchange of those calls is one step, while
 entering and leaving idle are single calls. A run is an arbitrary list of steps.

 The calls of one worker do not overlap: its sessions follow one another, and each awaits the join
 or the loss it reports (worker.rs:603-723), or is dropped before the join is stored.
 */
module Idle {

  const UNLIMITED: nat := 0xffff_ffff_ffff_ffff
  const JOINED_SLOTS: nat := 127

  /** Where a call of a worker stands: a session's join, or `note_path_lost`. `seen` is the slot
      value that was loaded, the joined epoch plus one; `counted` says that the death passed the
      check for a parked worker. */
  datatype Thread =
    | Advertised(worker: nat, offset: nat)
    | Joined(worker: nat)
    | Dying(worker: nat)
    | Loading(worker: nat)
    | Comparing(worker: nat, seen: nat)
    | Exchanging(worker: nat, seen: nat, current: nat)
    | Clearing(worker: nat, seen: nat)
    | Gone(worker: nat, counted: bool)

  datatype Event =
    | JoinedEpoch(worker: nat, epoch: nat)
    | LossOpened(worker: nat, from: nat)
    | IdleOpened(from: nat)

  datatype State = State(
    total: nat,
    limit: nat,
    active: bool,
    declared: nat,
    offset: nat,
    joined: seq<nat>,
    threads: seq<Thread>,
    log: seq<Event>)

  datatype Step =
    | StartJoin(worker: nat)
    | StartLoss(worker: nat)
    | Advance(thread: nat)
    | Drop(thread: nat)               // a session is dropped before its join is stored
    | Enter(keep: nat)
    | Exit

  /** `reset`: everything unparked, no epoch joined. */
  function Reset(total: nat): State
  {
    State(total, UNLIMITED, false, total, 0, seq(JOINED_SLOTS, _ => 0), [], [])
  }

  predicate Allows(s: State, worker: nat) { worker <= s.limit }

  function DeclaredCount(s: State): nat
  {
    if s.declared == 0 then s.total else s.declared
  }

  function Put(s: State, i: nat, t: Thread): State
    requires i < |s.threads|
  {
    s.(threads := s.threads[i := t])
  }

  function StoreJoined(s: State, worker: nat, value: nat): State
    requires |s.joined| == JOINED_SLOTS
  {
    if worker < JOINED_SLOTS then s.(joined := s.joined[worker := value]) else s
  }

  /** The next atomic access of one thread. */
  function StepThread(s: State, i: nat): State
    requires i < |s.threads| && |s.joined| == JOINED_SLOTS
  {
    match s.threads[i]
    case Advertised(worker, offset) =>
      var s' := Put(s, i, Joined(worker));
      if worker == 0 || worker >= JOINED_SLOTS then s'
      else StoreJoined(s', worker, offset + 1).(log := s.log + [JoinedEpoch(worker, offset)])
    case Dying(worker) =>
      Put(s, i, if Allows(s, worker) && worker < JOINED_SLOTS then Loading(worker) else Gone(worker, false))
    case Loading(worker) =>
      var seen := if worker < JOINED_SLOTS then s.joined[worker] else 0;
      Put(s, i, if seen == 0 then Gone(worker, true) else Comparing(worker, seen))
    case Comparing(worker, seen) =>
      Put(s, i, if seen != s.offset + 1 then Gone(worker, true) else Exchanging(worker, seen, s.offset))
    case Exchanging(worker, seen, current) =>
      if s.offset != current then Put(s, i, Gone(worker, true))
      else Put(s, i, Clearing(worker, seen)).(offset := current + 1, log := s.log + [LossOpened(worker, current)])
    case Clearing(worker, seen) =>
      StoreJoined(Put(s, i, Gone(worker, true)), worker, 0)
    case _ => s
  }

  predicate Finished(t: Thread) { t.Joined? || t.Gone? }

  /** A call of the worker is under way. */
  predicate Engaged(s: State, worker: nat)
  {
    exists i :: 0 <= i < |s.threads| && s.threads[i].worker == worker && !Finished(s.threads[i])
  }

  function EnterIdle(s: State, keep: nat): State
  {
    if keep == 0 || s.total == 0 || keep >= s.total || s.active then s
    else s.(active := true, limit := keep, declared := keep, offset := s.offset + 1,
            log := s.log + [IdleOpened(s.offset)])
  }

  function ExitIdle(s: State): State
  {
    if !s.active then s
    else s.(active := false, limit := UNLIMITED, declared := s.total)
  }

  function Next(s: State, step: Step): State
    requires |s.joined| == JOINED_SLOTS
  {
    match step
    case StartJoin(worker) =>
      if Engaged(s, worker) then s else s.(threads := s.threads + [Advertised(worker, s.offset)])
    case StartLoss(worker) =>
      if Engaged(s, worker) then s else s.(threads := s.threads + [Dying(worker)])
    case Advance(i) => if i < |s.threads| then StepThread(s, i) else s
    case Drop(i) =>
      if i < |s.threads| && s.threads[i].Advertised? then Put(s, i, Joined(s.threads[i].worker)) else s
    case Enter(keep) => EnterIdle(s, keep)
    case Exit => ExitIdle(s)
  }

  function Run(total: nat, steps: seq<Step>): (s: State)
    ensures |s.joined| == JOINED_SLOTS
  {
    if steps == [] then Reset(total)
    else Next(Run(total, steps[..|steps| - 1]), steps[|steps| - 1])
  }

  // ----- Parking

  /** Active exactly while fewer workers than the total are kept, declared and allowed. */
  ghost predicate ParkInv(s: State)
  {
    if s.active then 0 < s.limit < s.total && s.declared == s.limit
    else s.limit == UNLIMITED && s.declared == s.total
  }

  /** In every run the declared count and the allowed ids agree, and only ids above it are parked. */
  lemma {:induction false} Parking(total: nat, steps: seq<Step>)
    requires total < UNLIMITED
    ensures var s := Run(total, steps);
            && ParkInv(s) && s.total == total
            && (s.active <==> s.limit < total)
            && DeclaredCount(s) == (if s.active then s.limit else total)
            && (forall worker: nat :: worker <= total ==> (!Allows(s, worker) <==> DeclaredCount(s) < worker))
  {
    if steps != [] {
      Parking(total, steps[..|steps| - 1]);
    }
  }

  /** In every reachable state, entering idle with fewer workers than there are, but some, keeps just
      the lowest ids, declares their number and opens one epoch. Entering in any other way, and a
      second time, changes nothing. */
  lemma EnterKeeps(total: nat, steps: seq<Step>, keep: nat)
    requires total < UNLIMITED
    ensures var s := Run(total, steps);
            var s' := Next(s, Enter(keep));
            if 0 < keep < total && !s.active then
              && s'.active && s'.limit == keep && DeclaredCount(s') == keep
              && (forall worker: nat :: Allows(s', worker) <==> worker <= keep)
              && s'.offset == s.offset + 1 && s'.log == s.log + [IdleOpened(s.offset)]
              && s'.joined == s.joined && s'.threads == s.threads
            else s' == s
  {
    Parking(total, steps);
  }

  /** Leaving it unparks every worker, declares them all and opens no epoch. */
  lemma ExitUnparks(total: nat, steps: seq<Step>)
    requires total < UNLIMITED
    ensures var s := Run(total, steps);
            var s' := Next(s, Exit);
            if s.active then
              && !s'.active && DeclaredCount(s') == total
              && (forall worker: nat :: worker <= total ==> Allows(s', worker))
              && s'.offset == s.offset && s'.log == s.log && s'.joined == s.joined && s'.threads == s.threads
            else s' == s
  {
    Parking(total, steps);
  }

  /** Step k entered idle, and nothing has left it since. */
  ghost predicate ActiveSince(total: nat, steps: seq<Step>, k: nat)
  {
    && k < |steps| && steps[k].Enter?
    && !Run(total, steps[..k]).active && forall j :: k < j <= |steps| ==> Run(total, steps[..j]).active
  }

  /** In every run: while idle, the workers allowed are those the last enter that took effect kept. */
  lemma {:induction false} LimitIsLastKeep(total: nat, steps: seq<Step>) returns (k: nat)
    requires Run(total, steps).active
    ensures ActiveSince(total, steps, k)
    ensures var s := Run(total, steps);
            s.limit == s.declared == steps[k].keep && 0 < steps[k].keep < s.total
  {
    var front, last := steps[..|steps| - 1], steps[|steps| - 1];
    var s := Run(total, front);
    assert steps[..|steps|] == steps;
    if s.active {
      k := LimitIsLastKeep(total, front);
      assert forall j :: 0 <= j <= |front| ==> steps[..j] == front[..j];
      KeepsLimit(s, last);
    } else {
      k := |front|;
    }
  }

  lemma KeepsLimit(s: State, step: Step)
    requires |s.joined| == JOINED_SLOTS && s.active && Next(s, step).active
    ensures Next(s, step).limit == s.limit && Next(s, step).declared == s.declared && Next(s, step).total == s.total
  {
  }

  // ----- Epochs

  predicate Opens(e: Event) { e.LossOpened? || e.IdleOpened? }

  /** The log says that the worker joined the epoch. */
  predicate HasJoined(log: seq<Event>, worker: nat, epoch: nat)
  {
    JoinedEpoch(worker, epoch) in log
  }

  /** Every epoch that the worker joined is below the limit. */
  ghost predicate JoinsBelow(log: seq<Event>, worker: nat, limit: nat)
  {
    forall e: nat :: HasJoined(log, worker, e) ==> e < limit
  }

  /** No later call of the worker has begun. */
  predicate IsLatest(s: State, i: nat)
    requires i < |s.threads|
  {
    forall j :: i < j < |s.threads| ==> s.threads[j].worker != s.threads[i].worker
  }

  /** The slot holds an epoch that the worker joined; if it joined the current one, that one. */
  ghost predicate SlotFits(s: State, w: nat)
    requires |s.joined| == JOINED_SLOTS
  {
    && JoinsBelow(s.log, w, s.offset + 1)
    && (HasJoined(s.log, w, s.offset) ==> w < JOINED_SLOTS && s.joined[w] == s.offset + 1)
    && (w < JOINED_SLOTS && s.joined[w] != 0 ==> HasJoined(s.log, w, s.joined[w] - 1))
  }

  ghost predicate ThreadFits(s: State, t: Thread)
    requires |s.joined| == JOINED_SLOTS
  {
    match t
    case Advertised(w, offset) => offset <= s.offset && JoinsBelow(s.log, w, offset + 1)
    case Loading(w) => w < JOINED_SLOTS
    case Comparing(w, seen) => w < JOINED_SLOTS && seen != 0 && s.joined[w] == seen
    case Exchanging(w, seen, current) =>
      w < JOINED_SLOTS && s.joined[w] == seen == current + 1 && current <= s.offset
    case Clearing(w, seen) => w < JOINED_SLOTS && JoinsBelow(s.log, w, s.offset)
    case _ => true
  }

  /** A death that has been dealt with leaves every epoch its worker joined before it closed. */
  ghost predicate DeathFits(s: State, i: nat)
    requires i < |s.threads|
  {
    s.threads[i].Gone? && s.threads[i].counted && IsLatest(s, i) ==> JoinsBelow(s.log, s.threads[i].worker, s.offset)
  }

  /** Opened epochs rise along the log, and a loss opens one only after its worker joined it. */
  ghost predicate LogFits(log: seq<Event>, offset: nat)
  {
    && (forall a :: 0 <= a < |log| && Opens(log[a]) ==> log[a].from < offset)
    && (forall a, b :: 0 <= a < b < |log| && Opens(log[a]) && Opens(log[b]) ==> log[a].from < log[b].from)
    && (forall b :: 0 <= b < |log| && log[b].LossOpened? ==> HasJoined(log[..b], log[b].worker, log[b].from))
  }

  ghost predicate EpochInv(s: State)
    requires |s.joined| == JOINED_SLOTS
  {
    && (forall w: nat :: SlotFits(s, w))
    && (forall i :: 0 <= i < |s.threads| && !Finished(s.threads[i]) ==> ThreadFits(s, s.threads[i]) && IsLatest(s, i))
    && (forall i :: 0 <= i < |s.threads| ==> DeathFits(s, i))
    && LogFits(s.log, s.offset)
  }

  lemma LogGrows(log: seq<Event>, e: Event, offset: nat, offset': nat)
    requires LogFits(log, offset) && offset <= offset'
    requires Opens(e) ==> offset <= e.from < offset'
    requires e.LossOpened? ==> HasJoined(log, e.worker, e.from)
    ensures LogFits(log + [e], offset')
  {
    var log' := log + [e];
    forall b | 0 <= b < |log'| && log'[b].LossOpened?
      ensures HasJoined(log'[..b], log'[b].worker, log'[b].from)
    {
      assert log'[..b] == if b < |log| then log[..b] else log;
    }
  }

  /** The worker whose slot, joins and calls a step may change; `None` for the idle steps. */
  predicate Concerns(s: State, step: Step, w: nat)
  {
    match step
    case StartJoin(worker) => worker == w
    case StartLoss(worker) => worker == w
    case Advance(i) => i < |s.threads| && s.threads[i].worker == w
    case Drop(i) => i < |s.threads| && s.threads[i].worker == w
    case _ => false
  }

  /** What a step does to the calls. */
  lemma CallsMove(s: State, step: Step)
    requires |s.joined| == JOINED_SLOTS
    ensures var s' := Next(s, step);
            && |s.threads| <= |s'.threads| <= |s.threads| + 1
            && (forall j :: 0 <= j < |s.threads| ==> s'.threads[j].worker == s.threads[j].worker)
            && (forall j :: 0 <= j < |s.threads| && step != Advance(j) && step != Drop(j) ==> s'.threads[j] == s.threads[j])
            && (forall j :: 0 <= j < |s.threads| && Finished(s.threads[j]) ==> s'.threads[j] == s.threads[j])
            && (|s'.threads| > |s.threads| ==> !Engaged(s, s'.threads[|s.threads|].worker))
            && (|s'.threads| > |s.threads| ==> Concerns(s, step, s'.threads[|s.threads|].worker))
  {
  }

  /** What a step does to the log. */
  lemma LogMoves(s: State, step: Step)
    requires |s.joined| == JOINED_SLOTS
    ensures var s' := Next(s, step);
            s'.log == s.log ||
            (&& |s'.log| == |s.log| + 1 && s'.log == s.log + [s'.log[|s.log|]]
             && (s'.log[|s.log|].JoinedEpoch? ==> Concerns(s, step, s'.log[|s.log|].worker)))
  {
    var s' := Next(s, step);
    if s'.log != s.log {
      assert s'.log == s.log + [s'.log[|s.log|]];
    }
  }

  /** What a step does to the slots. */
  lemma SlotsMove(s: State, step: Step)
    requires |s.joined| == JOINED_SLOTS
    ensures var s' := Next(s, step);
            |s'.joined| == JOINED_SLOTS && forall w: nat :: w < JOINED_SLOTS && !Concerns(s, step, w) ==> s'.joined[w] == s.joined[w]
  {
  }

  /** Epochs open one after the other. */
  lemma Grows(s: State, step: Step)
    requires |s.joined| == JOINED_SLOTS && EpochInv(s)
    ensures s.offset <= Next(s, step).offset
    ensures LogFits(Next(s, step).log, Next(s, step).offset)
  {
    var s' := Next(s, step);
    if step.Advance? && step.thread < |s.threads| && !Finished(s.threads[step.thread]) {
      assert ThreadFits(s, s.threads[step.thread]);
      assert SlotFits(s, s.threads[step.thread].worker);
    }
    LogMoves(s, step);
    if s'.log != s.log {
      LogGrows(s.log, s'.log[|s.log|], s.offset, s'.offset);
    }
  }

  /** A step leaves the slots, the joins and the calls of every other worker alone. */
  lemma Elsewhere(s: State, step: Step, w: nat)
    requires |s.joined| == JOINED_SLOTS && !Concerns(s, step, w)
    ensures var s' := Next(s, step);
            && (forall e: nat :: HasJoined(s'.log, w, e) <==> HasJoined(s.log, w, e))
            && (w < JOINED_SLOTS ==> s'.joined[w] == s.joined[w])
            && (forall i :: 0 <= i < |s'.threads| && s'.threads[i].worker == w ==> i < |s.threads| && s'.threads[i] == s.threads[i])
  {
    LogMoves(s, step);
    SlotsMove(s, step);
    CallsMove(s, step);
    hide Next;
  }

  /** A join that is stored... */
  lemma OwnJoin(s: State, i: nat)
    requires |s.joined| == JOINED_SLOTS && EpochInv(s) && i < |s.threads| && s.threads[i].Advertised?
    ensures SlotFits(Next(s, Advance(i)), s.threads[i].worker)
  {
    var w, s' := s.threads[i].worker, Next(s, Advance(i));
    assert SlotFits(s, w) && ThreadFits(s, s.threads[i]);
    if s'.log != s.log {
      assert s'.log == s.log + [JoinedEpoch(w, s.threads[i].offset)];
      assert s'.log[|s.log|] == JoinedEpoch(w, s.threads[i].offset);
      assert forall e: nat :: HasJoined(s'.log, w, e) <==> HasJoined(s.log, w, e) || e == s.threads[i].offset;
      assert HasJoined(s.log, w, s.offset) ==> s.offset == s.threads[i].offset;
    }
  }

  /** ... and a death, before and after its next step. */
  lemma OwnDeath(s: State, i: nat)
    requires |s.joined| == JOINED_SLOTS && EpochInv(s) && i < |s.threads| && !s.threads[i].Advertised?
    ensures var s', t' := Next(s, Advance(i)), Next(s, Advance(i)).threads[i];
            && SlotFits(s', s.threads[i].worker)
            && (!Finished(t') ==> ThreadFits(s', t'))
            && (!Finished(s.threads[i]) && t'.Gone? && t'.counted ==> JoinsBelow(s'.log, t'.worker, s'.offset))
  {
    var w, s' := s.threads[i].worker, Next(s, Advance(i));
    assert SlotFits(s, w) && (!Finished(s.threads[i]) ==> ThreadFits(s, s.threads[i]));
    assert forall e: nat :: HasJoined(s'.log, w, e) <==> HasJoined(s.log, w, e);
  }

  lemma OwnStep(s: State, i: nat)
    requires |s.joined| == JOINED_SLOTS && EpochInv(s) && i < |s.threads|
    ensures var s' := Next(s, Advance(i));
            && SlotFits(s', s.threads[i].worker)
            && (!Finished(s'.threads[i]) ==> ThreadFits(s', s'.threads[i]))
            && DeathFits(s', i)
  {
    if s.threads[i].Advertised? {
      OwnJoin(s, i);
    } else if Finished(s.threads[i]) {
      assert DeathFits(s, i) && SlotFits(s, s.threads[i].worker);
    } else {
      OwnDeath(s, i);
    }
  }

  lemma SlotStep(s: State, step: Step, w: nat)
    requires |s.joined| == JOINED_SLOTS && EpochInv(s)
    ensures SlotFits(Next(s, step), w)
  {
    Grows(s, step);
    assert SlotFits(s, w);
    if !Concerns(s, step, w) {
      Elsewhere(s, step, w);
    } else if step.Advance? {
      OwnStep(s, step.thread);
    }
  }

  lemma ThreadStep(s: State, step: Step, i: nat)
    requires |s.joined| == JOINED_SLOTS && EpochInv(s) && i < |Next(s, step).threads|
    ensures var s' := Next(s, step);
            && (!Finished(s'.threads[i]) ==> ThreadFits(s', s'.threads[i]) && IsLatest(s', i))
            && DeathFits(s', i)
  {
    Grows(s, step);
    CallsMove(s, step);
    LatestStep(s, step, i);
    if step == Advance(i) {
      OwnStep(s, i);
    } else if i < |s.threads| {
      OthersKept(s, step, i);
    } else {
      assert SlotFits(s, Next(s, step).threads[i].worker);
    }
  }

  lemma LatestStep(s: State, step: Step, i: nat)
    requires |s.joined| == JOINED_SLOTS && EpochInv(s) && i < |Next(s, step).threads|
    ensures !Finished(Next(s, step).threads[i]) ==> IsLatest(Next(s, step), i)
    ensures i < |s.threads| && IsLatest(Next(s, step), i) ==> IsLatest(s, i)
  {
    CallsMove(s, step);
    hide Next, SlotFits, ThreadFits, DeathFits, LogFits;
  }

  /** A call that does not move while another does. */
  lemma OthersKept(s: State, step: Step, i: nat)
    requires |s.joined| == JOINED_SLOTS && EpochInv(s) && i < |s.threads| && step != Advance(i)
    ensures var s' := Next(s, step);
            && (!Finished(s'.threads[i]) ==> ThreadFits(s', s'.threads[i]))
            && DeathFits(s', i)
  {
    var w := s.threads[i].worker;
    Grows(s, step);
    CallsMove(s, step);
    LatestStep(s, step, i);
    assert DeathFits(s, i);
    if !Concerns(s, step, w) {
      Elsewhere(s, step, w);
    }
  }

  lemma {:induction false} EpochInvHolds(total: nat, steps: seq<Step>)
    ensures EpochInv(Run(total, steps))
  {
    if steps != [] {
      var s, step := Run(total, steps[..|steps| - 1]), steps[|steps| - 1];
      EpochInvHolds(total, steps[..|steps| - 1]);
      Grows(s, step);
      hide SlotFits, ThreadFits, DeathFits, LogFits, IsLatest, Next;
      forall w: nat
        ensures SlotFits(Next(s, step), w)
      {
        SlotStep(s, step, w);
      }
      forall i | 0 <= i < |Next(s, step).threads|
        ensures !Finished(Next(s, step).threads[i]) ==> ThreadFits(Next(s, step), Next(s, step).threads[i]) && IsLatest(Next(s, step), i)
        ensures DeathFits(Next(s, step), i)
      {
        ThreadStep(s, step, i);
      }
    }
  }

  /** In every interleaving each epoch is moved on at most once, whether by a loss or by idling... */
  lemma EpochOpensOnce(total: nat, steps: seq<Step>, a: nat, b: nat)
    requires var log := Run(total, steps).log;
             a < b < |log| && Opens(log[a]) && Opens(log[b])
    ensures var log := Run(total, steps).log;
            log[a].from < log[b].from
  {
    EpochInvHolds(total, steps);
  }

  /** ... a loss only moves on an epoch that its own worker had joined... */
  lemma LossNeedsJoin(total: nat, steps: seq<Step>, b: nat)
    requires var log := Run(total, steps).log;
             b < |log| && log[b].LossOpened?
    ensures var log := Run(total, steps).log;
            HasJoined(log[..b], log[b].worker, log[b].from)
  {
    EpochInvHolds(total, steps);
  }

  /** ... and however the other workers' calls interleave with it, once the death of a worker that is
      not parked has been dealt with, every epoch it had joined is closed. */
  lemma DeathClosesEpochs(total: nat, steps: seq<Step>, i: nat, epoch: nat)
    requires var s := Run(total, steps);
             && i < |s.threads| && s.threads[i].Gone? && s.threads[i].counted && IsLatest(s, i)
             && HasJoined(s.log, s.threads[i].worker, epoch)
    ensures epoch < Run(total, steps).offset
  {
    EpochInvHolds(total, steps);
    assert DeathFits(Run(total, steps), i);
  }

  // ----- Losses never outnumber joins

  function Losses(log: seq<Event>): nat
  {
    if log == [] then 0
    else Losses(log[..|log| - 1]) + if log[|log| - 1].LossOpened? then 1 else 0
  }

  function Joins(log: seq<Event>): nat
  {
    if log == [] then 0
    else Joins(log[..|log| - 1]) + if log[|log| - 1].JoinedEpoch? then 1 else 0
  }

  ghost function LostEpochs(log: seq<Event>): set<nat>
  {
    set a | 0 <= a < |log| && log[a].LossOpened? :: log[a].from
  }

  ghost function JoinedEpochs(log: seq<Event>): set<nat>
  {
    set a | 0 <= a < |log| && log[a].JoinedEpoch? :: log[a].epoch
  }

  ghost predicate LossesRise(log: seq<Event>)
  {
    forall a, b :: 0 <= a < b < |log| && log[a].LossOpened? && log[b].LossOpened? ==> log[a].from < log[b].from
  }

  lemma LossIsNew(front: seq<Event>, e: Event)
    requires LossesRise(front + [e]) && e.LossOpened?
    ensures e.from !in LostEpochs(front)
  {
    var log := front + [e];
    forall a | 0 <= a < |front| && front[a].LossOpened?
      ensures front[a].from < e.from
    {
      assert log[a] == front[a] && log[|front|] == e;
    }
  }

  lemma EpochsGrow(front: seq<Event>, e: Event)
    ensures LostEpochs(front + [e]) == LostEpochs(front) + if e.LossOpened? then {e.from} else {}
    ensures JoinedEpochs(front + [e]) == JoinedEpochs(front) + if e.JoinedEpoch? then {e.epoch} else {}
  {
    var log := front + [e];
    assert forall a :: 0 <= a < |front| ==> front[a] == log[a];
    assert log[|front|] == e;
  }

  lemma {:induction false} LossesAreEpochs(log: seq<Event>)
    requires LossesRise(log)
    ensures |LostEpochs(log)| == Losses(log)
  {
    if log != [] {
      var front, e := log[..|log| - 1], log[|log| - 1];
      assert log == front + [e];
      LossesAreEpochs(front);
      EpochsGrow(front, e);
      if e.LossOpened? {
        LossIsNew(front, e);
      }
    }
  }

  lemma {:induction false} JoinsCoverEpochs(log: seq<Event>)
    ensures |JoinedEpochs(log)| <= Joins(log)
  {
    if log != [] {
      var front, e := log[..|log| - 1], log[|log| - 1];
      assert log == front + [e];
      JoinsCoverEpochs(front);
      EpochsGrow(front, e);
    }
  }

  lemma SubsetSize(a: set<nat>, b: set<nat>)
    requires a <= b
    ensures |a| <= |b|
  {
    assert b == a + (b - a);
  }

  /** In every interleaving path losses open at most as many epochs as there were joins. */
  lemma LossesAtMostJoins(total: nat, steps: seq<Step>)
    ensures var log := Run(total, steps).log;
            Losses(log) <= Joins(log)
  {
    EpochInvHolds(total, steps);
    var s := Run(total, steps);
    forall epoch | epoch in LostEpochs(s.log)
      ensures epoch in JoinedEpochs(s.log)
    {
      var b :| 0 <= b < |s.log| && s.log[b].LossOpened? && s.log[b].from == epoch;
      var a :| 0 <= a < b && s.log[..b][a] == JoinedEpoch(s.log[b].worker, epoch);
      assert s.log[a] == JoinedEpoch(s.log[b].worker, epoch);
    }
    LossesAreEpochs(s.log);
    JoinsCoverEpochs(s.log);
    SubsetSize(LostEpochs(s.log), JoinedEpochs(s.log));
  }

  // ----- One death

  /** A death of the worker that nothing interrupts. */
  function Die(s: State, worker: nat): (s': State)
    requires |s.joined| == JOINED_SLOTS
    ensures |s'.joined| == JOINED_SLOTS
  {
    var i := |s.threads|;
    Finish(Finish(Finish(Finish(Finish(Next(s, StartLoss(worker)), i), i), i), i), i)
  }

  function Finish(s: State, i: nat): (s': State)
    requires |s.joined| == JOINED_SLOTS
    ensures |s'.joined| == JOINED_SLOTS
  {
    Next(s, Advance(i))
  }

  lemma DieBySlot(s: State, worker: nat)
    requires |s.joined| == JOINED_SLOTS && !Engaged(s, worker)
    ensures var opens := Allows(s, worker) && worker < JOINED_SLOTS && s.joined[worker] == s.offset + 1;
            && Die(s, worker).log == (if opens then s.log + [LossOpened(worker, s.offset)] else s.log)
            && Die(s, worker).offset == (if opens then s.offset + 1 else s.offset)
            && Die(s, worker).joined == if opens then s.joined[worker := 0] else s.joined
  {
    var i := |s.threads|;
    var s1 := Next(s, StartLoss(worker));
    assert s1 == s.(threads := s.threads + [Dying(worker)]);
    var s2 := Finish(s1, i);
    if !Allows(s, worker) || worker >= JOINED_SLOTS {
      assert s2.threads[i] == Gone(worker, false);
    } else {
      assert s2.threads[i] == Loading(worker);
      var s3 := Finish(s2, i);
      if s.joined[worker] == 0 {
        assert s3.threads[i] == Gone(worker, true);
      } else {
        assert s3.threads[i] == Comparing(worker, s.joined[worker]);
        DieFrom(s3, i);
      }
    }
  }

  /** The rest of a death that found something in its worker's slot. */
  lemma DieFrom(s: State, i: nat)
    requires |s.joined| == JOINED_SLOTS && i < |s.threads| && s.threads[i].Comparing?
    requires s.threads[i].worker < JOINED_SLOTS
    ensures var opens := s.threads[i].seen == s.offset + 1;
            var s' := Finish(Finish(Finish(s, i), i), i);
            && s'.log == (if opens then s.log + [LossOpened(s.threads[i].worker, s.offset)] else s.log)
            && s'.offset == (if opens then s.offset + 1 else s.offset)
            && s'.joined == if opens then s.joined[s.threads[i].worker := 0] else s.joined
  {
    var s4 := Finish(s, i);
    if s.threads[i].seen == s.offset + 1 {
      assert s4.threads[i] == Exchanging(s.threads[i].worker, s.offset + 1, s.offset);
    }
  }

  /** In every reachable state, whatever the other workers are doing: the death of a worker opens the
      next epoch if and only if the worker is not parked and has joined the current epoch, that is,
      also when it re-joined after earlier deaths. */
  lemma DeathOpensNext(total: nat, steps: seq<Step>, worker: nat)
    requires !Engaged(Run(total, steps), worker)
    ensures var s := Run(total, steps);
            var opens := Allows(s, worker) && HasJoined(s.log, worker, s.offset);
            && Die(s, worker).log == (if opens then s.log + [LossOpened(worker, s.offset)] else s.log)
            && Die(s, worker).offset == (if opens then s.offset + 1 else s.offset)
            && (opens ==> worker < JOINED_SLOTS)
            && Die(s, worker).joined == if opens then s.joined[worker := 0] else s.joined
  {
    SlotHolds(total, steps, worker);
    hide Die, SlotFits, HasJoined;
    DieBySlot(Run(total, steps), worker);
  }

  /** In every reachable state a worker's slot tells whether it has joined the current epoch. */
  lemma SlotHolds(total: nat, steps: seq<Step>, worker: nat)
    ensures var s := Run(total, steps);
            HasJoined(s.log, worker, s.offset) <==> worker < JOINED_SLOTS && s.joined[worker] == s.offset + 1
  {
    hide Next, ThreadFits, DeathFits, LogFits, IsLatest;
    EpochInvHolds(total, steps);
    assert SlotFits(Run(total, steps), worker);
  }

  /** A join that nothing interrupts. */
  function Join(s: State, worker: nat): (s': State)
    requires |s.joined| == JOINED_SLOTS
    ensures |s'.joined| == JOINED_SLOTS
  {
    Finish(Next(s, StartJoin(worker)), |s.threads|)
  }

  /** It joins the current epoch. */
  lemma JoinUndisturbed(s: State, worker: nat)
    requires |s.joined| == JOINED_SLOTS && !Engaged(s, worker) && 0 < worker < JOINED_SLOTS
    ensures var s' := Join(s, worker);
            && s'.log == s.log + [JoinedEpoch(worker, s.offset)] && s'.joined == s.joined[worker := s.offset + 1]
            && s'.offset == s.offset && s'.limit == s.limit && !Engaged(s', worker)
  {
    var s1 := Next(s, StartJoin(worker));
    assert s1.threads == s.threads + [Advertised(worker, s.offset)];
    assert Join(s, worker).threads == s.threads + [Joined(worker)];
  }

  /** So in every reachable state a worker that joins and then dies, undisturbed and not parked, opens
      the next epoch, however often it has done so before. */
  lemma JoinThenDie(total: nat, steps: seq<Step>, worker: nat)
    requires !Engaged(Run(total, steps), worker) && 0 < worker < JOINED_SLOTS
    ensures var s := Run(total, steps);
            Die(Join(s, worker), worker).offset == if Allows(s, worker) then s.offset + 1 else s.offset
  {
    var s := Run(total, steps);
    JoinUndisturbed(s, worker);
    hide Join, Die;
    DieBySlot(Join(s, worker), worker);
  }
}
