/**
 Repair commands from the server, applied to shared per-worker slots by any number of threads at once.

 Every atomic load, store, compare-exchange and fetch-add is one step; a run is an arbitrary list of
 steps, so what is proved about runs holds however many sessions deliver commands concurrently.
 */
module Repair {
  import opened Sums

  datatype Slot = Slot(restarts: nat, credentials: nat, last: nat, ready: nat)

  /** Where a thread stands inside the loop of `apply_repair`, at `ids[next]`. */
  datatype Phase = Scanning | Comparing(current: nat) | Won(previous: nat) | Resetting | Restarting

  /** One call of `apply_repair`; `restarts` and `resets` are the result it reports. */
  datatype Repairer =
    Repairer(sequence: nat, ids: seq<nat>, next: nat, phase: Phase, restarts: nat, resets: nat)

  datatype Thread =
    | Repairing(call: Repairer)
    | Reporting(sequence: nat, ids: seq<nat>, next: nat)
    | MarkingReady(worker: nat)
    | StoringReady(worker: nat, sequence: nat)
    | Done

  /** A compare-exchange that moved a worker from sequence `previous` to `sequence`. */
  datatype Win = Win(worker: nat, sequence: nat, previous: nat)

  /** What the winner over sequence `previous` then found the worker ready for. */
  datatype Load = Load(worker: nat, previous: nat, ready: nat)

  datatype State = State(slots: seq<Slot>, threads: seq<Thread>, wins: seq<Win>, loads: seq<Load>)

  datatype Step =
    | StartRepair(sequence: nat, ids: seq<nat>)
    | StartAlive(sequence: nat, ids: seq<nat>)
    | StartReady(worker: nat)
    | Advance(thread: nat)

  function Init(desired: nat): State
  {
    State(seq(desired + 1, _ => Slot(0, 0, 0, 0)), [], [], [])
  }

  /** `slot` finds a slot for every id but zero and those beyond the table. */
  predicate HasSlot(s: State, worker: nat) { 0 < worker < |s.slots| }

  function Start(s: State, t: Thread): State { s.(threads := s.threads + [t]) }

  function Put(s: State, i: nat, t: Thread): State
    requires i < |s.threads|
  {
    s.(threads := s.threads[i := t])
  }

  function PutSlot(s: State, worker: nat, slot: Slot): State
    requires HasSlot(s, worker)
  {
    s.(slots := s.slots[worker := slot])
  }

  function PutCall(s: State, i: nat, call: Repairer): State
    requires i < |s.threads|
  {
    Put(s, i, Repairing(call))
  }

  /** The next atomic access of a repairing thread. */
  function StepRepair(s: State, i: nat): State
    requires i < |s.threads| && s.threads[i].Repairing?
  {
    var c := s.threads[i].call;
    if c.next >= |c.ids| then s
    else if !HasSlot(s, c.ids[c.next]) then PutCall(s, i, c.(next := c.next + 1))
    else
      var worker := c.ids[c.next];
      var slot := s.slots[worker];
      match c.phase
      case Scanning =>
        PutCall(s, i, c.(phase := Comparing(slot.last)))
      case Comparing(current) =>
        if c.sequence <= current then PutCall(s, i, c.(next := c.next + 1, phase := Scanning))
        else if slot.last == current then
          PutSlot(PutCall(s, i, c.(phase := Won(current))), worker, slot.(last := c.sequence))
            .(wins := s.wins + [Win(worker, c.sequence, current)])
        else PutCall(s, i, c.(phase := Comparing(slot.last)))
      case Won(previous) =>
        PutCall(s, i, c.(phase := if previous != 0 && slot.ready < previous then Resetting else Restarting))
          .(loads := if previous != 0 then s.loads + [Load(worker, previous, slot.ready)] else s.loads)
      case Resetting =>
        PutSlot(PutCall(s, i, c.(phase := Restarting, resets := c.resets + 1)), worker,
                slot.(credentials := slot.credentials + 1))
      case Restarting =>
        PutSlot(PutCall(s, i, c.(next := c.next + 1, phase := Scanning, restarts := c.restarts + 1)), worker,
                slot.(restarts := slot.restarts + 1))
  }

  /** The next atomic access of any other thread; none of them touches `last` or a generation. */
  function StepReady(s: State, i: nat): State
    requires i < |s.threads| && !s.threads[i].Repairing?
  {
    match s.threads[i]
    case Reporting(sequence, ids, next) =>
      if next >= |ids| then s
      else
        var s' := Put(s, i, Reporting(sequence, ids, next + 1));
        if HasSlot(s, ids[next]) && s.slots[ids[next]].ready < sequence
        then PutSlot(s', ids[next], s.slots[ids[next]].(ready := sequence)) else s'
    case MarkingReady(worker) =>
      Put(s, i, if HasSlot(s, worker) then StoringReady(worker, s.slots[worker].last) else Done)
    case StoringReady(worker, sequence) =>
      var s' := Put(s, i, Done);
      if HasSlot(s, worker) then PutSlot(s', worker, s.slots[worker].(ready := sequence)) else s'
    case _ => s
  }

  function Next(s: State, step: Step): State
  {
    match step
    case StartRepair(sequence, ids) => Start(s, Repairing(Repairer(sequence, ids, 0, Scanning, 0, 0)))
    case StartAlive(sequence, ids) => Start(s, Reporting(sequence, ids, 0))
    case StartReady(worker) => Start(s, MarkingReady(worker))
    case Advance(i) =>
      if i >= |s.threads| then s
      else if s.threads[i].Repairing? then StepRepair(s, i)
      else StepReady(s, i)
  }

  function Run(desired: nat, steps: seq<Step>): State
  {
    if steps == [] then Init(desired)
    else Next(Run(desired, steps[..|steps| - 1]), steps[|steps| - 1])
  }

  /** No command is being applied. */
  ghost predicate Quiescent(s: State)
  {
    forall t :: t in s.threads && t.Repairing? ==> t.call.next >= |t.call.ids|
  }

  // ----- Sequences: a worker only moves forward

  ghost predicate WinsRise(wins: seq<Win>)
  {
    forall a, b :: 0 <= a < b < |wins| && wins[a].worker == wins[b].worker ==>
      wins[a].sequence < wins[b].sequence
  }

  predicate AfterWin(p: Phase) { p.Won? || p.Resetting? || p.Restarting? }

  /** Every worker the call has passed, or has just won, is at least at its sequence. */
  ghost predicate Passed(s: State, c: Repairer)
  {
    && (!c.phase.Scanning? ==> c.next < |c.ids| && HasSlot(s, c.ids[c.next]))
    && (forall k :: 0 <= k < c.next && k < |c.ids| && HasSlot(s, c.ids[k]) ==>
          c.sequence <= s.slots[c.ids[k]].last)
    && (c.phase.Comparing? ==> c.phase.current <= s.slots[c.ids[c.next]].last)
    && (AfterWin(c.phase) ==> c.sequence <= s.slots[c.ids[c.next]].last)
  }

  ghost predicate Applies(t: Thread, worker: nat, sequence: nat)
  {
    t.Repairing? && t.call.sequence == sequence && worker in t.call.ids
  }

  ghost predicate SequenceInv(s: State)
  {
    && WinsFit(s)
    && (forall i :: 0 <= i < |s.threads| && s.threads[i].Repairing? ==> Passed(s, s.threads[i].call))
    && (forall w: nat :: HasSlot(s, w) && s.slots[w].last != 0 ==>
          exists i :: 0 <= i < |s.threads| && Applies(s.threads[i], w, s.slots[w].last))
  }

  /** A step only raises `last`... */
  lemma Monotone(s: State, step: Step)
    ensures var s' := Next(s, step);
            && |s'.slots| == |s.slots| && |s.threads| <= |s'.threads|
            && (forall w: nat :: HasSlot(s, w) ==> s.slots[w].last <= s'.slots[w].last)
  {
  }

  /** ... and leaves every command that is being applied alone. */
  lemma StillApplies(s: State, step: Step, i: nat, w: nat, sequence: nat)
    requires i < |s.threads| && Applies(s.threads[i], w, sequence)
    ensures i < |Next(s, step).threads| && Applies(Next(s, step).threads[i], w, sequence)
  {
  }

  lemma PassedKept(s: State, s': State, c: Repairer)
    requires Passed(s, c) && |s'.slots| == |s.slots|
    requires forall w: nat :: HasSlot(s, w) ==> s.slots[w].last <= s'.slots[w].last
    ensures Passed(s', c)
  {
  }

  /** The thread that moved: it passes a worker only when the worker is at its sequence. */
  lemma PassedOwnStep(s: State, i: nat)
    requires i < |s.threads| && s.threads[i].Repairing? && Passed(s, s.threads[i].call)
    ensures var s' := StepRepair(s, i);
            s'.threads[i].Repairing? && Passed(s', s'.threads[i].call)
  {
  }

  lemma OthersUnchanged(s: State, step: Step, i: nat)
    requires i < |s.threads| && step != Advance(i)
    ensures i < |Next(s, step).threads| && Next(s, step).threads[i] == s.threads[i]
  {
  }

  lemma StartedPassed(s: State, step: Step)
    requires !step.Advance?
    ensures var s' := Next(s, step);
            |s'.threads| == |s.threads| + 1 &&
            (s'.threads[|s.threads|].Repairing? ==> Passed(s', s'.threads[|s.threads|].call))
  {
  }

  lemma PassedStep(s: State, step: Step, i: nat)
    requires SequenceInv(s) && i < |Next(s, step).threads| && Next(s, step).threads[i].Repairing?
    ensures Passed(Next(s, step), Next(s, step).threads[i].call)
  {
    if i >= |s.threads| {
      StartedPassed(s, step);
    } else if step != Advance(i) {
      OthersUnchanged(s, step, i);
      Monotone(s, step);
      PassedKept(s, Next(s, step), s.threads[i].call);
    } else if s.threads[i].Repairing? {
      PassedOwnStep(s, i);
    }
  }

  lemma SourceStep(s: State, step: Step, w: nat)
    requires SequenceInv(s) && HasSlot(s, w) && Next(s, step).slots[w].last != 0
    ensures var s' := Next(s, step);
            exists i :: 0 <= i < |s'.threads| && Applies(s'.threads[i], w, s'.slots[w].last)
  {
    Monotone(s, step);
    var s' := Next(s, step);
    if s'.slots[w].last == s.slots[w].last {
      var i :| 0 <= i < |s.threads| && Applies(s.threads[i], w, s.slots[w].last);
      StillApplies(s, step, i, w, s.slots[w].last);
    } else {
      assert Applies(s'.threads[step.thread], w, s'.slots[w].last);
    }
  }

  /** The winning sequences rise on each worker, up to its last sequence. */
  ghost predicate WinsFit(s: State)
  {
    && WinsRise(s.wins)
    && (forall a :: 0 <= a < |s.wins| ==>
          HasSlot(s, s.wins[a].worker) && s.wins[a].sequence <= s.slots[s.wins[a].worker].last)
  }

  lemma WinsStep(s: State, step: Step)
    requires WinsFit(s)
    ensures WinsFit(Next(s, step))
  {
  }

  lemma SequenceStep(s: State, step: Step)
    requires SequenceInv(s)
    ensures SequenceInv(Next(s, step))
  {
    var s' := Next(s, step);
    Monotone(s, step);
    WinsStep(s, step);
    forall i | 0 <= i < |s'.threads| && s'.threads[i].Repairing?
      ensures Passed(s', s'.threads[i].call)
    {
      PassedStep(s, step, i);
    }
    forall w: nat | HasSlot(s', w) && s'.slots[w].last != 0
      ensures exists i :: 0 <= i < |s'.threads| && Applies(s'.threads[i], w, s'.slots[w].last)
    {
      SourceStep(s, step, w);
    }
  }

  // ----- Counting: every win becomes one restart

  /** What a thread contributes to a total. */
  datatype Measure =
    | Unfinished(worker: nat)      // wins on the worker not yet counted as a restart
    | Undecided(worker: nat)       // repeated wins on it that have not looked whether it was ready
    | Unreset(worker: nat)         // those that found it was not, and have not reset its credentials
    | AnyUnfinished
    | Restarts
    | Resets

  function Weigh(t: Thread, m: Measure): nat
  {
    if !t.Repairing? then 0
    else
      var c := t.call;
      var after := AfterWin(c.phase) && c.next < |c.ids|;
      match m
      case Unfinished(w) => if after && c.ids[c.next] == w then 1 else 0
      case Undecided(w) =>
        if after && c.ids[c.next] == w && c.phase.Won? && c.phase.previous != 0 then 1 else 0
      case Unreset(w) => if after && c.ids[c.next] == w && c.phase.Resetting? then 1 else 0
      case AnyUnfinished => if after then 1 else 0
      case Restarts => c.restarts
      case Resets => c.resets
  }

  function Weights(threads: seq<Thread>, m: Measure): (weights: seq<nat>)
    ensures |weights| == |threads|
  {
    seq(|threads|, i requires 0 <= i < |threads| => Weigh(threads[i], m))
  }

  function Total(threads: seq<Thread>, m: Measure): nat
  {
    Sum(Weights(threads, m))
  }

  lemma TotalAppend(threads: seq<Thread>, t: Thread, m: Measure)
    ensures Total(threads + [t], m) == Total(threads, m) + Weigh(t, m)
  {
    SumAppend(Weights(threads, m), Weigh(t, m));
    assert Weights(threads + [t], m) == Weights(threads, m) + [Weigh(t, m)];
  }

  lemma TotalUpdate(threads: seq<Thread>, i: nat, t: Thread, m: Measure)
    requires i < |threads|
    ensures Total(threads[i := t], m) + Weigh(threads[i], m) == Total(threads, m) + Weigh(t, m)
  {
    SumUpdate(Weights(threads, m), i, Weigh(t, m));
    assert Weights(threads[i := t], m) == Weights(threads, m)[i := Weigh(t, m)];
  }

  function Wins(wins: seq<Win>, worker: nat): nat
  {
    if wins == [] then 0
    else Wins(wins[..|wins| - 1], worker) + if wins[|wins| - 1].worker == worker then 1 else 0
  }

  /** Wins that found the worker already at some sequence. */
  function Repeats(wins: seq<Win>, worker: nat): nat
  {
    if wins == [] then 0
    else
      var last := wins[|wins| - 1];
      Repeats(wins[..|wins| - 1], worker) + if last.worker == worker && last.previous != 0 then 1 else 0
  }

  /** The looks at the worker, and those that found it ready for less than had been repaired before. */
  function Looks(loads: seq<Load>, worker: nat): nat
  {
    if loads == [] then 0
    else Looks(loads[..|loads| - 1], worker) + if loads[|loads| - 1].worker == worker then 1 else 0
  }

  function Unready(loads: seq<Load>, worker: nat): (n: nat)
    ensures n <= Looks(loads, worker)
  {
    if loads == [] then 0
    else
      var last := loads[|loads| - 1];
      Unready(loads[..|loads| - 1], worker) + if last.worker == worker && last.ready < last.previous then 1 else 0
  }

  lemma LoadsAppend(loads: seq<Load>, load: Load, worker: nat)
    ensures Looks(loads + [load], worker) == Looks(loads, worker) + if load.worker == worker then 1 else 0
    ensures Unready(loads + [load], worker) ==
            Unready(loads, worker) + if load.worker == worker && load.ready < load.previous then 1 else 0
  {
  }

  lemma WinsAppend(wins: seq<Win>, win: Win, worker: nat)
    ensures Wins(wins + [win], worker) == Wins(wins, worker) + if win.worker == worker then 1 else 0
    ensures Repeats(wins + [win], worker) == Repeats(wins, worker) + if win.worker == worker && win.previous != 0 then 1 else 0
  {
  }

  ghost predicate CountInv(s: State, w: nat)
    requires HasSlot(s, w)
  {
    && s.slots[w].restarts + Total(s.threads, Unfinished(w)) == Wins(s.wins, w)
    && s.slots[w].credentials + Total(s.threads, Unreset(w)) == Unready(s.loads, w)
    && Looks(s.loads, w) + Total(s.threads, Undecided(w)) == Repeats(s.wins, w)
    && (s.slots[w].last == 0 <==> Wins(s.wins, w) == 0)
    && (Wins(s.wins, w) != 0 ==> Repeats(s.wins, w) == Wins(s.wins, w) - 1)
    && (Wins(s.wins, w) == 0 ==> Repeats(s.wins, w) == 0)
  }

  ghost predicate TotalInv(s: State)
  {
    Total(s.threads, Restarts) + Total(s.threads, AnyUnfinished) == |s.wins|
  }

  /** What one step of a call does to the books of worker w: to its wins and restarts... */
  lemma OwnStepBooks(s: State, i: nat, w: nat)
    requires i < |s.threads| && s.threads[i].Repairing? && Passed(s, s.threads[i].call) && HasSlot(s, w)
    ensures var s' := StepRepair(s, i);
            var t, t' := s.threads[i], s'.threads[i];
            if s'.wins == s.wins then
              && s'.slots[w].last == s.slots[w].last
              && s'.slots[w].restarts + Weigh(t', Unfinished(w)) == s.slots[w].restarts + Weigh(t, Unfinished(w))
            else
              && Weigh(t, Unfinished(w)) == 0 && s'.loads == s.loads
              && s'.slots[w].restarts == s.slots[w].restarts && s'.slots[w].credentials == s.slots[w].credentials
              && |s'.wins| == |s.wins| + 1 && s'.wins == s.wins + [s'.wins[|s.wins|]]
              && var win := s'.wins[|s.wins|];
                if win.worker == w then
                  && win.previous == s.slots[w].last && s'.slots[w].last == win.sequence > win.previous
                  && Weigh(t', Unfinished(w)) == 1
                else
                  s'.slots[w].last == s.slots[w].last && Weigh(t', Unfinished(w)) == 0
  {
  }

  /** ... and to its looks and credential resets. */
  lemma OwnStepLoads(s: State, i: nat, w: nat)
    requires i < |s.threads| && s.threads[i].Repairing? && Passed(s, s.threads[i].call) && HasSlot(s, w)
    ensures var s' := StepRepair(s, i);
            var t, t' := s.threads[i], s'.threads[i];
            if s'.loads == s.loads then
              && s'.slots[w].credentials + Weigh(t', Unreset(w)) == s.slots[w].credentials + Weigh(t, Unreset(w))
              && (s'.wins == s.wins ==> Weigh(t', Undecided(w)) == Weigh(t, Undecided(w)))
              && (s'.wins != s.wins && |s'.wins| > |s.wins| ==>
                    var win := s'.wins[|s.wins|];
                    Weigh(t', Undecided(w)) ==
                      Weigh(t, Undecided(w)) + if win.worker == w && win.previous != 0 then 1 else 0)
            else
              && s'.wins == s.wins && s'.slots[w].credentials == s.slots[w].credentials
              && |s'.loads| == |s.loads| + 1 && s'.loads == s.loads + [s'.loads[|s.loads|]]
              && var load := s'.loads[|s.loads|];
                var mine, unready := if load.worker == w then 1 else 0, load.worker == w && load.ready < load.previous;
                && Weigh(t, Undecided(w)) == mine && Weigh(t', Undecided(w)) == 0
                && Weigh(t, Unreset(w)) == 0 && Weigh(t', Unreset(w)) == if unready then 1 else 0
  {
  }

  lemma CountStep(s: State, step: Step, w: nat)
    requires SequenceInv(s) && HasSlot(s, w) && CountInv(s, w)
    ensures CountInv(Next(s, step), w)
  {
    var s' := Next(s, step);
    Recount(s, step, Unfinished(w));
    Recount(s, step, Undecided(w));
    Recount(s, step, Unreset(w));
    if step.Advance? && step.thread < |s.threads| && s.threads[step.thread].Repairing? {
      assert Passed(s, s.threads[step.thread].call);
      OwnStepBooks(s, step.thread, w);
      OwnStepLoads(s, step.thread, w);
      hide StepRepair, Weigh, Total;
      if s'.wins != s.wins {
        WinsAppend(s.wins, s'.wins[|s.wins|], w);
      }
      if s'.loads != s.loads {
        LoadsAppend(s.loads, s'.loads[|s.loads|], w);
      }
    } else {
      QuietBooks(s, step, w);
    }
  }

  lemma QuietBooks(s: State, step: Step, w: nat)
    requires HasSlot(s, w)
    requires step.Advance? ==> step.thread >= |s.threads| || !s.threads[step.thread].Repairing?
    ensures var s' := Next(s, step);
            && s'.wins == s.wins && s'.loads == s.loads && |s'.slots| == |s.slots|
            && s'.slots[w] == s.slots[w].(ready := s'.slots[w].ready)
            && (step.Advance? && step.thread < |s.threads| ==> !s'.threads[step.thread].Repairing?)
  {
  }

  /** How a step changes a total: by what the stepped or started thread contributes. */
  lemma Recount(s: State, step: Step, m: Measure)
    ensures var s' := Next(s, step);
            if step.Advance? then
              var i := step.thread;
              i < |s.threads| ==>
                Total(s'.threads, m) + Weigh(s.threads[i], m) == Total(s.threads, m) + Weigh(s'.threads[i], m)
            else
              Total(s'.threads, m) == Total(s.threads, m)
  {
    var s' := Next(s, step);
    match step
    case Advance(i) =>
      if i < |s.threads| {
        assert s'.threads == s.threads[i := s'.threads[i]];
        TotalUpdate(s.threads, i, s'.threads[i], m);
      }
    case _ =>
      TotalAppend(s.threads, s'.threads[|s.threads|], m);
  }

  lemma OwnStepTotal(s: State, i: nat)
    requires i < |s.threads| && (s.threads[i].Repairing? ==> Passed(s, s.threads[i].call))
    ensures var s' := Next(s, Advance(i));
            var t, t' := s.threads[i], s'.threads[i];
            |s'.wins| + Weigh(t, Restarts) + Weigh(t, AnyUnfinished)
            == |s.wins| + Weigh(t', Restarts) + Weigh(t', AnyUnfinished)
  {
  }

  lemma TotalStep(s: State, step: Step)
    requires SequenceInv(s) && TotalInv(s)
    ensures TotalInv(Next(s, step))
  {
    Recount(s, step, Restarts);
    Recount(s, step, AnyUnfinished);
    if step.Advance? && step.thread < |s.threads| {
      assert s.threads[step.thread].Repairing? ==> Passed(s, s.threads[step.thread].call);
      OwnStepTotal(s, step.thread);
    }
  }

  ghost predicate Inv(s: State)
  {
    && SequenceInv(s) && TotalInv(s)
    && forall w: nat :: HasSlot(s, w) ==> CountInv(s, w)
  }

  lemma {:induction false} InvHolds(desired: nat, steps: seq<Step>)
    ensures Inv(Run(desired, steps)) && |Run(desired, steps).slots| == desired + 1
  {
    if steps != [] {
      var s, step := Run(desired, steps[..|steps| - 1]), steps[|steps| - 1];
      InvHolds(desired, steps[..|steps| - 1]);
      Monotone(s, step);
      SequenceStep(s, step);
      TotalStep(s, step);
      forall w: nat | HasSlot(s, w)
        ensures CountInv(Next(s, step), w)
      {
        CountStep(s, step, w);
      }
    }
  }

  // ----- What every interleaving guarantees

  /** On each worker the winning sequences rise, so no sequence restarts a worker twice. */
  lemma SequenceWinsOnce(desired: nat, steps: seq<Step>, a: nat, b: nat)
    requires var wins := Run(desired, steps).wins;
             a < b < |wins| && wins[a].worker == wins[b].worker
    ensures var wins := Run(desired, steps).wins;
            wins[a].sequence < wins[b].sequence
  {
    assert WinsRise(Run(desired, steps).wins) by {
      InvHolds(desired, steps);
    }
  }

  /** Once no command is being applied, a worker's last sequence is the greatest one sent to it. */
  lemma LastIsMaximum(desired: nat, steps: seq<Step>, w: nat)
    requires var s := Run(desired, steps); Quiescent(s) && HasSlot(s, w)
    ensures var s := Run(desired, steps);
            && (forall t :: t in s.threads && t.Repairing? && w in t.call.ids ==> t.call.sequence <= s.slots[w].last)
            && (s.slots[w].last != 0 ==> exists t :: t in s.threads && Applies(t, w, s.slots[w].last))
  {
    InvHolds(desired, steps);
    var s := Run(desired, steps);
    forall t | t in s.threads && t.Repairing? && w in t.call.ids
      ensures t.call.sequence <= s.slots[w].last
    {
      var i :| 0 <= i < |s.threads| && s.threads[i] == t;
      assert Passed(s, s.threads[i].call);
      var k :| 0 <= k < |t.call.ids| && t.call.ids[k] == w;
    }
    if s.slots[w].last != 0 {
      var i :| 0 <= i < |s.threads| && Applies(s.threads[i], w, s.slots[w].last);
      assert s.threads[i] in s.threads;
    }
  }

  /** Then its restart generation is the number of wins on it, and its credential generation the number
      of those that found it repaired before but not ready since: fewer than its restarts, unless it
      was never restarted. */
  lemma RestartsAreWins(desired: nat, steps: seq<Step>, w: nat)
    requires var s := Run(desired, steps); Quiescent(s) && HasSlot(s, w)
    ensures var s := Run(desired, steps);
            && s.slots[w].restarts == Wins(s.wins, w)
            && s.slots[w].credentials == Unready(s.loads, w) && Looks(s.loads, w) == Repeats(s.wins, w)
            && (s.slots[w].restarts > 0 ==> s.slots[w].credentials < s.slots[w].restarts)
            && (s.slots[w].restarts == 0 ==> s.slots[w].credentials == 0)
  {
    InvHolds(desired, steps);
    var s := Run(desired, steps);
    QuiescentWeighsNothing(s, Unfinished(w));
    QuiescentWeighsNothing(s, Undecided(w));
    QuiescentWeighsNothing(s, Unreset(w));
    assert CountInv(s, w);
  }

  lemma QuiescentWeighsNothing(s: State, m: Measure)
    requires Quiescent(s) && !m.Restarts? && !m.Resets?
    ensures Total(s.threads, m) == 0
  {
    SumZero(Weights(s.threads, m));
  }

  /** And the restarts that all calls reported add up to the wins. */
  lemma ReportsAddUp(desired: nat, steps: seq<Step>)
    requires Quiescent(Run(desired, steps))
    ensures var s := Run(desired, steps); Total(s.threads, Restarts) == |s.wins|
  {
    InvHolds(desired, steps);
    QuiescentWeighsNothing(Run(desired, steps), AnyUnfinished);
  }

  // ----- Reports and generations

  function RestartGenerations(slots: seq<Slot>): seq<nat>
  {
    seq(|slots|, i requires 0 <= i < |slots| => slots[i].restarts)
  }

  function CredentialGenerations(slots: seq<Slot>): seq<nat>
  {
    seq(|slots|, i requires 0 <= i < |slots| => slots[i].credentials)
  }

  ghost predicate ReportsInv(s: State)
  {
    && Total(s.threads, Restarts) == Sum(RestartGenerations(s.slots))
    && Total(s.threads, Resets) == Sum(CredentialGenerations(s.slots))
  }

  lemma SlotUpdate(slots: seq<Slot>, worker: nat, slot: Slot)
    requires worker < |slots|
    ensures Sum(RestartGenerations(slots[worker := slot])) + slots[worker].restarts
            == Sum(RestartGenerations(slots)) + slot.restarts
    ensures Sum(CredentialGenerations(slots[worker := slot])) + slots[worker].credentials
            == Sum(CredentialGenerations(slots)) + slot.credentials
  {
    SumUpdate(RestartGenerations(slots), worker, slot.restarts);
    SumUpdate(CredentialGenerations(slots), worker, slot.credentials);
    assert RestartGenerations(slots[worker := slot]) == RestartGenerations(slots)[worker := slot.restarts];
    assert CredentialGenerations(slots[worker := slot]) == CredentialGenerations(slots)[worker := slot.credentials];
  }

  /** The slot that a step writes, if any, grows by what the stepped call reports more. */
  lemma StepReports(s: State, i: nat) returns (worker: nat)
    requires i < |s.threads| && |s.slots| > 0
    ensures var t, s' := s.threads[i], Next(s, Advance(i));
            && i < |s'.threads| && worker < |s.slots| && |s'.slots| == |s.slots|
            && s'.slots == s.slots[worker := s'.slots[worker]]
            && s'.slots[worker].restarts + Weigh(t, Restarts) == s.slots[worker].restarts + Weigh(s'.threads[i], Restarts)
            && s'.slots[worker].credentials + Weigh(t, Resets) == s.slots[worker].credentials + Weigh(s'.threads[i], Resets)
  {
    var t, s' := s.threads[i], Next(s, Advance(i));
    worker := 0;
    match t {
      case Repairing(c) =>
        if c.next < |c.ids| && HasSlot(s, c.ids[c.next]) {
          worker := c.ids[c.next];
        }
      case Reporting(_, ids, next) =>
        if next < |ids| && HasSlot(s, ids[next]) {
          worker := ids[next];
        }
      case StoringReady(w, _) =>
        if HasSlot(s, w) {
          worker := w;
        }
      case _ =>
    }
  }

  lemma NoGenerations(desired: nat)
    ensures ReportsInv(Init(desired))
  {
    SumZero(RestartGenerations(Init(desired).slots));
    SumZero(CredentialGenerations(Init(desired).slots));
  }

  lemma StartsReportNothing(s: State, step: Step)
    requires !step.Advance?
    ensures Next(s, step).slots == s.slots
  {
  }

  /** In every state, not only at quiescence, the restarts and the credential resets that all calls
      report add up to the restart and the credential generations of all workers. */
  lemma {:induction false} ReportsAreGenerations(desired: nat, steps: seq<Step>)
    ensures |Run(desired, steps).slots| == desired + 1 && ReportsInv(Run(desired, steps))
  {
    hide Next, Weigh, Total, RestartGenerations, CredentialGenerations;
    if steps == [] {
      NoGenerations(desired);
    } else {
      var s, step := Run(desired, steps[..|steps| - 1]), steps[|steps| - 1];
      ReportsAreGenerations(desired, steps[..|steps| - 1]);
      Recount(s, step, Restarts);
      Recount(s, step, Resets);
      if !step.Advance? {
        StartsReportNothing(s, step);
      } else if step.thread < |s.threads| {
        var worker := StepReports(s, step.thread);
        SlotUpdate(s.slots, worker, Next(s, step).slots[worker]);
      } else {
        NoSuchThread(s, step.thread);
      }
    }
  }

  lemma NoSuchThread(s: State, i: nat)
    requires i >= |s.threads|
    ensures Next(s, Advance(i)) == s
  {
  }

  // ----- Calls that nothing interrupts

  /** What a repair of one worker leaves in its slot: a sequence above the last one restarts it, and
      resets its credentials if it was repaired before and has not been ready since. */
  function Repaired(slot: Slot, sequence: nat): Slot
  {
    if sequence <= slot.last then slot
    else
      slot.(last := sequence, restarts := slot.restarts + 1,
            credentials := slot.credentials + if slot.last != 0 && slot.ready < slot.last then 1 else 0)
  }

  /** And what one of all the ids leaves in the slots. */
  function AllRepaired(slots: seq<Slot>, sequence: nat, ids: seq<nat>): (slots': seq<Slot>)
    ensures |slots'| == |slots|
  {
    if ids == [] then slots
    else
      var before, worker := AllRepaired(slots, sequence, ids[..|ids| - 1]), ids[|ids| - 1];
      if 0 < worker < |slots| then before[worker := Repaired(before[worker], sequence)] else before
  }

  /** One thread goes on alone. */
  function Drive(s: State, i: nat, n: nat): State
  {
    if n == 0 then s else Next(Drive(s, i, n - 1), Advance(i))
  }

  lemma {:induction false} DriveOn(s: State, i: nat, m: nat, n: nat)
    ensures Drive(Drive(s, i, m), i, n) == Drive(s, i, m + n)
  {
    hide Next;
    if n > 0 {
      DriveOn(s, i, m, n - 1);
    }
  }

  lemma DriveTwo(s: State, i: nat)
    ensures Drive(s, i, 1) == Next(s, Advance(i)) && Drive(s, i, 2) == Next(Next(s, Advance(i)), Advance(i))
    ensures Drive(s, i, 3) == Next(Next(Next(s, Advance(i)), Advance(i)), Advance(i))
  {
    hide Next;
    assert Drive(s, i, 0) == s;
    assert Drive(s, i, 2) == Next(Drive(s, i, 1), Advance(i));
  }

  /** A call that looks at a worker without a slot, or already at its sequence, goes on to the next... */
  lemma PassesBy(s: State, i: nat) returns (n: nat)
    requires i < |s.threads| && s.threads[i].Repairing? && s.threads[i].call.phase.Scanning?
    requires s.threads[i].call.next < |s.threads[i].call.ids|
    requires var c := s.threads[i].call;
             HasSlot(s, c.ids[c.next]) ==> c.sequence <= s.slots[c.ids[c.next]].last
    ensures var c, s' := s.threads[i].call, Drive(s, i, n);
            |s'.threads| == |s.threads| && s'.slots == s.slots && s'.threads[i] == Repairing(c.(next := c.next + 1))
  {
    DriveTwo(s, i);
    hide Drive;
    n := if HasSlot(s, s.threads[i].call.ids[s.threads[i].call.next]) then 2 else 1;
  }

  /** ... one with a newer sequence wins the exchange... */
  lemma Wins2(s: State, i: nat)
    requires i < |s.threads| && s.threads[i].Repairing? && s.threads[i].call.phase.Scanning?
    requires var c := s.threads[i].call;
             c.next < |c.ids| && HasSlot(s, c.ids[c.next]) && c.sequence > s.slots[c.ids[c.next]].last
    ensures var c, s' := s.threads[i].call, Drive(s, i, 2);
            var worker := c.ids[c.next];
            && |s'.threads| == |s.threads| && s'.threads[i] == Repairing(c.(phase := Won(s.slots[worker].last)))
            && s'.slots == s.slots[worker := s.slots[worker].(last := c.sequence)]
  {
    DriveTwo(s, i);
    hide Drive;
  }

  /** ... and restarts the worker, with or without its credentials. */
  lemma Restarts3(s: State, i: nat) returns (n: nat)
    requires i < |s.threads| && s.threads[i].Repairing? && s.threads[i].call.phase.Won?
    requires var c := s.threads[i].call; c.next < |c.ids| && HasSlot(s, c.ids[c.next])
    ensures var c, s' := s.threads[i].call, Drive(s, i, n);
            var worker := c.ids[c.next];
            var slot, previous := s.slots[worker], c.phase.previous;
            var reset := if previous != 0 && slot.ready < previous then 1 else 0;
            && |s'.threads| == |s.threads|
            && s'.threads[i] == Repairing(c.(next := c.next + 1, phase := Scanning, restarts := c.restarts + 1, resets := c.resets + reset))
            && s'.slots == s.slots[worker := slot.(restarts := slot.restarts + 1, credentials := slot.credentials + reset)]
  {
    DriveTwo(s, i);
    hide Drive;
    var c := s.threads[i].call;
    n := if c.phase.previous != 0 && s.slots[c.ids[c.next]].ready < c.phase.previous then 3 else 2;
  }

  /** What the call for one id leaves behind. */
  lemma OneRepaired(s: State, i: nat) returns (n: nat)
    requires i < |s.threads| && s.threads[i].Repairing? && s.threads[i].call.phase.Scanning?
    requires s.threads[i].call.next < |s.threads[i].call.ids|
    ensures var c, s' := s.threads[i].call, Drive(s, i, n);
            var worker := c.ids[c.next];
            var slot' := if HasSlot(s, worker) then Repaired(s.slots[worker], c.sequence) else Slot(0, 0, 0, 0);
            && |s'.threads| == |s.threads|
            && s'.slots == (if HasSlot(s, worker) then s.slots[worker := slot'] else s.slots)
            && s'.threads[i] == Repairing(c.(next := c.next + 1,
                 restarts := c.restarts + if HasSlot(s, worker) then slot'.restarts - s.slots[worker].restarts else 0,
                 resets := c.resets + if HasSlot(s, worker) then slot'.credentials - s.slots[worker].credentials else 0))
  {
    hide Drive, Next;
    var c := s.threads[i].call;
    if HasSlot(s, c.ids[c.next]) && c.sequence > s.slots[c.ids[c.next]].last {
      Wins2(s, i);
      var m := Restarts3(Drive(s, i, 2), i);
      DriveOn(s, i, 2, m);
      n := 2 + m;
    } else {
      n := PassesBy(s, i);
    }
  }

  /** From the start of a call on. */
  lemma {:induction false} IdsRepaired(s: State, i: nat, sequence: nat, ids: seq<nat>, k: nat) returns (n: nat)
    requires k <= |ids| && i < |s.threads| && s.threads[i] == Repairing(Repairer(sequence, ids, 0, Scanning, 0, 0))
    ensures var s' := Drive(s, i, n);
            && |s'.threads| == |s.threads| && s'.slots == AllRepaired(s.slots, sequence, ids[..k])
            && s'.threads[i].Repairing? && s'.threads[i].call.next == k && s'.threads[i].call.phase.Scanning?
            && s'.threads[i].call.sequence == sequence && s'.threads[i].call.ids == ids
  {
    hide Next;
    if k == 0 {
      n := 0;
      assert ids[..0] == [];
    } else {
      var m := IdsRepaired(s, i, sequence, ids, k - 1);
      var s' := Drive(s, i, m);
      hide Drive, Repaired;
      var o := OneRepaired(s', i);
      DriveOn(s, i, m, o);
      n := m + o;
      assert ids[..k][..k - 1] == ids[..k - 1] && ids[..k][k - 1] == ids[k - 1];
    }
  }

  /** In any state, a repair command that nothing interrupts ends with every listed worker repaired:
      restarted by a newer sequence, and its credentials reset exactly if it had been repaired before
      and was not ready since. */
  lemma RepairUndisturbed(s: State, sequence: nat, ids: seq<nat>) returns (n: nat)
    ensures var s' := Drive(Next(s, StartRepair(sequence, ids)), |s.threads|, n);
            && s'.slots == AllRepaired(s.slots, sequence, ids)
            && |s'.threads| == |s.threads| + 1 && s'.threads[|s.threads|].Repairing?
            && s'.threads[|s.threads|].call.next == |ids|
  {
    n := IdsRepaired(Next(s, StartRepair(sequence, ids)), |s.threads|, sequence, ids, |ids|);
    assert ids[..|ids|] == ids;
  }

  /** For one worker, with what the call reports. */
  lemma OneRepairUndisturbed(s: State, sequence: nat, worker: nat) returns (n: nat)
    requires HasSlot(s, worker)
    ensures var s' := Drive(Next(s, StartRepair(sequence, [worker])), |s.threads|, n);
            var slot := s.slots[worker];
            var restarted := sequence > slot.last;
            var reset := restarted && slot.last != 0 && slot.ready < slot.last;
            && |s'.slots| == |s.slots|
            && s'.slots[worker].last == (if restarted then sequence else slot.last)
            && s'.slots[worker].ready == slot.ready
            && s'.slots[worker].restarts == slot.restarts + (if restarted then 1 else 0)
            && s'.slots[worker].credentials == slot.credentials + (if reset then 1 else 0)
            && |s'.threads| == |s.threads| + 1 && s'.threads[|s.threads|].Repairing?
            && s'.threads[|s.threads|].call.restarts == (if restarted then 1 else 0)
            && s'.threads[|s.threads|].call.resets == (if reset then 1 else 0)
  {
    n := OneRepaired(Next(s, StartRepair(sequence, [worker])), |s.threads|);
  }

  /** An alive notice raises what each listed worker is ready for to its sequence, and nothing else... */
  function AllAlive(slots: seq<Slot>, sequence: nat, ids: seq<nat>): (slots': seq<Slot>)
    ensures |slots'| == |slots|
  {
    if ids == [] then slots
    else
      var before, worker := AllAlive(slots, sequence, ids[..|ids| - 1]), ids[|ids| - 1];
      if 0 < worker < |slots| && before[worker].ready < sequence then before[worker := before[worker].(ready := sequence)]
      else before
  }

  lemma {:induction false} IdsAlive(s: State, i: nat, sequence: nat, ids: seq<nat>, k: nat)
    requires k <= |ids| && i < |s.threads| && s.threads[i] == Reporting(sequence, ids, 0)
    ensures var s' := Drive(s, i, k);
            && |s'.threads| == |s.threads| && s'.threads[i] == Reporting(sequence, ids, k)
            && s'.slots == AllAlive(s.slots, sequence, ids[..k])
  {
    if k > 0 {
      IdsAlive(s, i, sequence, ids, k - 1);
      assert ids[..k][..k - 1] == ids[..k - 1] && ids[..k][k - 1] == ids[k - 1];
      AliveStep(Drive(s, i, k - 1), i);
      hide Next;
    }
  }

  lemma AliveStep(s: State, i: nat)
    requires i < |s.threads| && s.threads[i].Reporting? && s.threads[i].next < |s.threads[i].ids|
    ensures var t, s' := s.threads[i], Next(s, Advance(i));
            && |s'.threads| == |s.threads| && s'.threads[i] == t.(next := t.next + 1)
            && var w := t.ids[t.next];
               s'.slots == if 0 < w < |s.slots| && s.slots[w].ready < t.sequence
                           then s.slots[w := s.slots[w].(ready := t.sequence)] else s.slots
  {
  }

  lemma AliveUndisturbed(s: State, sequence: nat, ids: seq<nat>)
    ensures Drive(Next(s, StartAlive(sequence, ids)), |s.threads|, |ids|).slots == AllAlive(s.slots, sequence, ids)
  {
    IdsAlive(Next(s, StartAlive(sequence, ids)), |s.threads|, sequence, ids, |ids|);
    assert ids[..|ids|] == ids;
  }

  lemma {:induction false} AliveMeans(slots: seq<Slot>, sequence: nat, ids: seq<nat>, w: nat)
    requires w < |slots|
    ensures AllAlive(slots, sequence, ids)[w] ==
            if w > 0 && w in ids && slots[w].ready < sequence then slots[w].(ready := sequence) else slots[w]
  {
    if ids != [] {
      AliveMeans(slots, sequence, ids[..|ids| - 1], w);
      assert ids == ids[..|ids| - 1] + [ids[|ids| - 1]];
    }
  }

  lemma {:induction false} RepairMeans(slots: seq<Slot>, sequence: nat, ids: seq<nat>, w: nat)
    requires w < |slots|
    ensures AllRepaired(slots, sequence, ids)[w] == if w > 0 && w in ids then Repaired(slots[w], sequence) else slots[w]
  {
    if ids != [] {
      RepairMeans(slots, sequence, ids[..|ids| - 1], w);
      assert ids == ids[..|ids| - 1] + [ids[|ids| - 1]];
    }
  }

  /** ... and a worker that becomes ready is ready for the last sequence it was repaired by. */
  lemma ReadyUndisturbed(s: State, worker: nat)
    ensures var s' := Drive(Next(s, StartReady(worker)), |s.threads|, 2);
            s'.slots == if HasSlot(s, worker) then s.slots[worker := s.slots[worker].(ready := s.slots[worker].last)] else s.slots
  {
    var s1 := Next(s, StartReady(worker));
    assert Drive(s1, |s.threads|, 0) == s1;
    assert Drive(s1, |s.threads|, 1) == Next(s1, Advance(|s.threads|));
  }

  /** So a worker that was ready, or reported alive, since its last repair keeps its credentials, and
      one that was not gets new ones. */
  lemma ReadinessDecides(slot: Slot, sequence: nat)
    requires sequence > slot.last > 0
    ensures Repaired(slot.(ready := slot.last), sequence).credentials == slot.credentials
    ensures slot.ready < slot.last ==> Repaired(slot, sequence).credentials == slot.credentials + 1
  {
  }
}
