/** Single bits of 64-bit words, by shift amounts. */
module Words {

  predicate BitAt(word: bv64, k: bv7)
    requires k < 64
  {
    word & (1 << k) != 0
  }

  function SetAt(word: bv64, k: bv7): bv64
    requires k < 64
  {
    word | (1 << k)
  }

  function ClearAt(word: bv64, k: bv7): bv64
    requires k < 64
  {
    word & !(1 << k)
  }

  // What the operations do to their own bit and to another.

  lemma SetsOwn(word: bv64, k: bv7)
    requires k < 64
    ensures (word | (1 << k)) & (1 << k) != 0
  {
  }

  lemma KeepsOther(word: bv64, k: bv7, j: bv7)
    requires k < 64 && j < 64 && j != k
    ensures (word | (1 << k)) & (1 << j) == word & (1 << j)
  {
  }

  lemma ClearsOwn(word: bv64, k: bv7)
    requires k < 64
    ensures (word & !(1 << k)) & (1 << k) == 0
  {
  }

  lemma LeavesOther(word: bv64, k: bv7, j: bv7)
    requires k < 64 && j < 64 && j != k
    ensures (word & !(1 << k)) & (1 << j) == word & (1 << j)
  {
  }

  lemma SetAtBit(word: bv64, k: bv7, j: bv7)
    requires k < 64 && j < 64
    ensures BitAt(SetAt(word, k), j) <==> j == k || BitAt(word, j)
  {
    if j == k {
      SetsOwn(word, k);
    } else {
      KeepsOther(word, k, j);
    }
  }

  lemma ClearAtBit(word: bv64, k: bv7, j: bv7)
    requires k < 64 && j < 64
    ensures BitAt(ClearAt(word, k), j) <==> j != k && BitAt(word, j)
  {
    if j == k {
      ClearsOwn(word, k);
    } else {
      LeavesOther(word, k, j);
    }
  }
}

/** The same by position. */
module Bits {
  import opened Words

  function Amount(k: nat): bv7
    requires k < 64
  {
    k as bv7
  }

  lemma AmountFits(k: nat)
    requires k < 64
    ensures Amount(k) < 64
  {
  }

  lemma AmountReadsBack(k: nat)
    requires k < 64
    ensures Amount(k) as nat == k
  {
  }

  /** A shift amount below 64 is a seven-bit number. */
  lemma AmountIs(k: nat)
    requires k < 64
    ensures Amount(k) < 64 && Amount(k) as nat == k
  {
    AmountFits(k);
    AmountReadsBack(k);
    hide Amount;
  }

  predicate Bit(word: bv64, k: nat)
    requires k < 64
  {
    AmountIs(k);
    BitAt(word, Amount(k))
  }

  function Set(word: bv64, k: nat): bv64
    requires k < 64
  {
    AmountIs(k);
    SetAt(word, Amount(k))
  }

  function Clear(word: bv64, k: nat): bv64
    requires k < 64
  {
    AmountIs(k);
    ClearAt(word, Amount(k))
  }

  /** `|= 1 << k` sets bit k and no other. */
  lemma SetBit(word: bv64, k: nat, j: nat)
    requires j < 64 && k < 64
    ensures Bit(Set(word, k), j) <==> j == k || Bit(word, j)
  {
    hide BitAt, SetAt, Amount;
    AmountIs(k);
    AmountIs(j);
    SetAtBit(word, Amount(k), Amount(j));
  }

  /** `&= !(1 << k)` clears bit k and no other. */
  lemma ClearBit(word: bv64, k: nat, j: nat)
    requires j < 64 && k < 64
    ensures Bit(Clear(word, k), j) <==> j != k && Bit(word, j)
  {
    hide BitAt, ClearAt, Amount;
    AmountIs(k);
    AmountIs(j);
    ClearAtBit(word, Amount(k), Amount(j));
  }

  lemma ZeroWord(k: nat)
    requires k < 64
    ensures !Bit(0, k)
  {
    hide Amount;
    AmountIs(k);
  }
}

/**
 Replay protection of one transport: a ring of 16384 bits behind the highest counter seen, and the
 extension of 16-bit RTP sequence numbers to 64-bit counters.
 */
module ReplayProtection {
  import opened Wrappers
  import Bits

  const WINDOW: nat := 16384
  const WORDS: nat := 256
  const BLOCK: nat := 65536
  const HALF: nat := 32768
  const U64_MAX: nat := 0xffff_ffff_ffff_ffff

  /** The simple specification: a counter is fresh when it differs from, and is less than a window
      behind, every counter offered before it. */
  ghost predicate Fresh(offered: set<nat>, counter: nat)
  {
    forall d :: d in offered ==> d != counter && d < counter + WINDOW
  }

  ghost function Prefix(counters: seq<nat>, n: nat): set<nat>
    requires n <= |counters|
  {
    set j | 0 <= j < n :: counters[j]
  }

  function SaturatingAdd(a: nat, b: nat): nat
  {
    if a + b > U64_MAX then U64_MAX else a + b
  }

  /** The 64-bit counter that a 16-bit sequence number stands for when `highest` is the highest
      counter so far; `base | sequence` is a sum because their bits are disjoint. */
  function Extend(highest: nat, sequence: nat): nat
    requires sequence < BLOCK
  {
    var base := highest / BLOCK * BLOCK;
    var extended := base + sequence;
    if SaturatingAdd(extended, HALF) < highest then
      SaturatingAdd(extended, BLOCK)
    else if extended > SaturatingAdd(highest, HALF) && extended >= BLOCK then
      extended - BLOCK
    else
      extended
  }

  /** The counter `AcceptRtp` offers for a sequence number. */
  function CounterFor(highest: Option<nat>, sequence: nat): nat
    requires sequence < BLOCK
  {
    if highest == None then sequence else Extend(highest.value, sequence)
  }

  function Raise(highest: Option<nat>, counter: nat): Option<nat>
  {
    if highest == None || counter > highest.value then Some(counter) else highest
  }

  predicate IsWire(wires: seq<nat>)
  {
    forall i :: 0 <= i < |wires| ==> wires[i] < BLOCK
  }

  /** The highest counter after the first n arrivals. */
  ghost function Highest(wires: seq<nat>, n: nat): Option<nat>
    requires IsWire(wires) && n <= |wires|
  {
    if n == 0 then None
    else Raise(Highest(wires, n - 1), CounterFor(Highest(wires, n - 1), wires[n - 1]))
  }

  /** The counter recovered for arrival i. */
  ghost function Counter(wires: seq<nat>, i: nat): nat
    requires IsWire(wires) && i < |wires|
  {
    CounterFor(Highest(wires, i), wires[i])
  }

  ghost function Counters(wires: seq<nat>): seq<nat>
    requires IsWire(wires)
  {
    seq(|wires|, i requires 0 <= i < |wires| => Counter(wires, i))
  }

  class ReplayWindow {
    var highest: Option<nat>
    const seen: array<bv64>
    ghost var offered: set<nat>

    predicate TestBit(counter: nat)
      reads seen
      requires seen.Length == WORDS
    {
      var idx := counter % WINDOW;
      Bits.Bit(seen[idx / 64], idx % 64)
    }

    ghost predicate Valid()
      reads this, seen
    {
      && seen.Length == WORDS
      && match highest {
           case None =>
             offered == {} && forall c: nat :: !TestBit(c)
           case Some(h) =>
             && h <= U64_MAX
             && h in offered
             && (forall c :: c in offered ==> c <= h)
             && (forall c: nat :: h < c + WINDOW && c <= h ==> (TestBit(c) <==> c in offered))
         }
    }

    constructor ()
      ensures Valid() && highest == None && fresh(seen)
    {
      highest := None;
      seen := new bv64[WORDS](_ => 0);
      offered := {};
      new;
      AllClear();
    }

    lemma AllClear()
      requires seen.Length == WORDS && forall k :: 0 <= k < WORDS ==> seen[k] == 0
      ensures forall c: nat :: !TestBit(c)
    {
      hide Bits.Bit;
      forall c: nat
        ensures !TestBit(c)
      {
        Bits.ZeroWord(c % WINDOW % 64);
      }
    }

    /** Two counters share a bit of the ring only if they are congruent. */
    lemma SamePlace(a: nat, b: nat)
      ensures a % WINDOW / 64 == b % WINDOW / 64 && a % WINDOW % 64 == b % WINDOW % 64 <==> a % WINDOW == b % WINDOW
    {
    }

    method SetBit(counter: nat)
      requires seen.Length == WORDS
      modifies seen
      ensures forall c: nat :: TestBit(c) <==> c % WINDOW == counter % WINDOW || old(TestBit(c))
    {
      hide Bits.Bit, Bits.Set, Bits.Clear;
      var idx := counter % WINDOW;
      ghost var word := seen[idx / 64];
      seen[idx / 64] := Bits.Set(seen[idx / 64], idx % 64);
      forall c: nat
        ensures TestBit(c) <==> c % WINDOW == counter % WINDOW || old(TestBit(c))
      {
        SamePlace(c, counter);
        Bits.SetBit(word, idx % 64, c % WINDOW % 64);
      }
    }

    method ClearBit(counter: nat)
      requires seen.Length == WORDS
      modifies seen
      ensures forall c: nat :: TestBit(c) <==> c % WINDOW != counter % WINDOW && old(TestBit(c))
    {
      hide Bits.Bit, Bits.Set, Bits.Clear;
      var idx := counter % WINDOW;
      ghost var word := seen[idx / 64];
      seen[idx / 64] := Bits.Clear(seen[idx / 64], idx % 64);
      forall c: nat
        ensures TestBit(c) <==> c % WINDOW != counter % WINDOW && old(TestBit(c))
      {
        SamePlace(c, counter);
        Bits.ClearBit(word, idx % 64, c % WINDOW % 64);
      }
    }

    method ClearAll()
      requires seen.Length == WORDS
      modifies seen
      ensures forall c: nat :: !TestBit(c)
    {
      for i := 0 to WORDS
        invariant forall k :: 0 <= k < i ==> seen[k] == 0
      {
        seen[i] := 0;
      }
      AllClear();
    }

    /** Clears the bits of the counters in (from, from + shift]. */
    method ClearRange(from: nat, shift: nat)
      requires seen.Length == WORDS && shift < WINDOW
      modifies seen
      ensures forall c: nat :: from < c <= from + shift ==> !TestBit(c)
      ensures forall c: nat :: from + shift < c + WINDOW && c <= from ==> TestBit(c) == old(TestBit(c))
    {
      for i := 1 to shift + 1
        invariant forall c: nat :: from < c < from + i ==> !TestBit(c)
        invariant forall c: nat :: from + shift < c + WINDOW && c <= from ==> TestBit(c) == old(TestBit(c))
      {
        ClearBit(from + i);
        forall c: nat | from + shift < c + WINDOW && c <= from
          ensures c % WINDOW != (from + i) % WINDOW
        {
          Separate(c, from + i);
        }
      }
    }

    /** The branch of `Accept` for a counter above the highest. */
    method Advance(counter: nat)
      requires Valid() && highest.Some? && highest.value < counter <= U64_MAX
      modifies this, seen
      ensures Valid()
      ensures highest == Some(counter) && offered == old(offered) + {counter}
    {
      var h := highest.value;
      var shift := counter - h;
      if shift >= WINDOW {
        ClearAll();
      } else {
        ClearRange(h, shift);
      }
      label cleared:
      highest := Some(counter);
      SetBit(counter);
      SeparateBehind(counter);
      assert forall c: nat :: counter < c + WINDOW && c < counter ==> TestBit(c) == old@cleared(TestBit(c));
      offered := offered + {counter};
    }

    /** The branch of `Accept` for a counter inside the window whose bit is clear. */
    method MarkBehind(counter: nat)
      requires Valid() && highest.Some? && counter <= highest.value < counter + WINDOW
      modifies this, seen
      ensures Valid()
      ensures highest == old(highest) && offered == old(offered) + {counter}
    {
      var h := highest.value;
      SetBit(counter);
      forall c: nat | h < c + WINDOW && c <= h && c != counter
        ensures c % WINDOW != counter % WINDOW
      {
        Separate(c, counter);
      }
      offered := offered + {counter};
    }

    method Accept(counter: nat) returns (ok: bool)
      requires Valid() && counter <= U64_MAX
      modifies this, seen
      ensures Valid()
      ensures ok <==> Fresh(old(offered), counter)
      ensures offered == old(offered) + {counter}
      ensures highest == Raise(old(highest), counter)
    {
      if highest == None {
        highest := Some(counter);
        SetBit(counter);
        SeparateBehind(counter);
        offered := {counter};
        return true;
      }
      var h := highest.value;
      if counter > h {
        Advance(counter);
        return true;
      }
      var age := h - counter;
      if age >= WINDOW {
        offered := offered + {counter};
        return false;
      }
      if TestBit(counter) {
        assert offered == offered + {counter};
        return false;
      }
      MarkBehind(counter);
      return true;
    }

    method AcceptRtp(sequence: nat) returns (ok: bool)
      requires Valid() && sequence < BLOCK
      modifies this, seen
      ensures Valid()
      ensures var counter := CounterFor(old(highest), sequence);
              && (ok <==> Fresh(old(offered), counter))
              && offered == old(offered) + {counter}
              && highest == Raise(old(highest), counter)
    {
      hide Fresh, Raise, Valid, TestBit;
      if highest == None {
        ok := Accept(sequence);
        return;
      }
      var h := highest.value;
      var base := h / BLOCK * BLOCK;
      var extended := base + sequence;
      if SaturatingAdd(extended, HALF) < h {
        extended := SaturatingAdd(extended, BLOCK);
      } else if extended > SaturatingAdd(h, HALF) && extended >= BLOCK {
        extended := extended - BLOCK;
      }
      ok := Accept(extended);
    }
  }

  /** Each answer is what the set of everything offered before demands. */
  ghost predicate Answers(counters: seq<nat>, answers: seq<bool>)
    requires |answers| <= |counters|
  {
    forall i :: 0 <= i < |answers| ==> (answers[i] <==> Fresh(Prefix(counters, i), counters[i]))
  }

  lemma AnswersGrow(counters: seq<nat>, answers: seq<bool>, ok: bool)
    requires |answers| < |counters| && Answers(counters, answers)
    requires ok <==> Fresh(Prefix(counters, |answers|), counters[|answers|])
    ensures Answers(counters, answers + [ok])
  {
  }

  lemma FreshByArrival(counters: seq<nat>, i: nat)
    requires i < |counters|
    ensures Fresh(Prefix(counters, i), counters[i]) <==>
            forall j :: 0 <= j < i ==> counters[j] != counters[i] && counters[j] < counters[i] + WINDOW
  {
    assert forall j :: 0 <= j < i ==> counters[j] in Prefix(counters, i);
  }

  lemma PrefixGrows(counters: seq<nat>, n: nat)
    requires n < |counters|
    ensures Prefix(counters, n + 1) == Prefix(counters, n) + {counters[n]}
  {
  }

  /** Every run of `Accept` answers as the set of everything offered before demands; in particular
      no counter is accepted twice. */
  method AcceptAll(counters: seq<nat>) returns (answers: seq<bool>)
    requires forall i :: 0 <= i < |counters| ==> counters[i] <= U64_MAX
    ensures |answers| == |counters|
    ensures Answers(counters, answers)
    ensures forall i, j :: 0 <= i < j < |counters| && answers[i] && answers[j] ==> counters[i] != counters[j]
  {
    var window := new ReplayWindow();
    answers := [];
    for n := 0 to |counters|
      invariant window.Valid() && fresh(window) && fresh(window.seen)
      invariant window.offered == Prefix(counters, n)
      invariant |answers| == n && Answers(counters, answers)
    {
      PrefixGrows(counters, n);
      var ok := window.Accept(counters[n]);
      AnswersGrow(counters, answers, ok);
      answers := answers + [ok];
    }
    forall i, j | 0 <= i < j < |counters| && answers[i] && answers[j]
      ensures counters[i] != counters[j]
    {
      assert counters[i] in Prefix(counters, j);
    }
  }

  /** Every run of `AcceptRtp`, on arbitrary sequence numbers. */
  method AcceptRtpAll(wires: seq<nat>) returns (answers: seq<bool>)
    requires IsWire(wires)
    ensures |answers| == |wires|
    ensures Answers(Counters(wires), answers)
  {
    var window := new ReplayWindow();
    answers := [];
    ghost var counters := Counters(wires);
    for n := 0 to |wires|
      invariant window.Valid() && fresh(window) && fresh(window.seen)
      invariant window.offered == Prefix(counters, n)
      invariant window.highest == Highest(wires, n)
      invariant |answers| == n && Answers(counters, answers)
    {
      PrefixGrows(counters, n);
      var ok := window.AcceptRtp(wires[n]);
      AnswersGrow(counters, answers, ok);
      answers := answers + [ok];
    }
  }

  // ----- Recovering the sender's index

  /** The first index of the block that holds the first arrival: what the receiver cannot know. */
  function Offset(indices: seq<nat>): nat
    requires |indices| > 0
  {
    indices[0] / BLOCK * BLOCK
  }

  function WiresOf(indices: seq<nat>): (wires: seq<nat>)
    ensures IsWire(wires) && |wires| == |indices|
  {
    seq(|indices|, i requires 0 <= i < |indices| => indices[i] % BLOCK)
  }

  /** Near enough to the highest counter: strictly within half a block, at exactly half a block only
      inside its block, and in the very first block also anywhere above it. */
  predicate IsNear(highest: nat, counter: nat)
  {
    || (counter < highest + HALF && highest < counter + HALF)
    || (counter / BLOCK == highest / BLOCK && (counter == highest + HALF || highest == counter + HALF))
    || (counter / BLOCK == 0 && highest / BLOCK == 0 && highest <= counter)
  }

  /** That is exactly when a step recovers the true counter. */
  lemma RecoversExactly(highest: nat, counter: nat)
    requires highest <= U64_MAX - BLOCK && counter <= U64_MAX - BLOCK
    ensures Extend(highest, counter % BLOCK) == counter <==> IsNear(highest, counter)
  {
    var base := highest / BLOCK * BLOCK;
    assert counter == counter / BLOCK * BLOCK + counter % BLOCK;
    if counter / BLOCK == highest / BLOCK {
    } else if counter / BLOCK == highest / BLOCK + 1 {
    } else if counter / BLOCK + 1 == highest / BLOCK {
    } else if counter / BLOCK > highest / BLOCK + 1 {
      assert counter / BLOCK * BLOCK >= (highest / BLOCK + 2) * BLOCK;
    } else {
      assert (counter / BLOCK + 2) * BLOCK <= highest / BLOCK * BLOCK;
    }
  }

  /** Outside the first block the recovered counter is a nearest one with that sequence number. */
  lemma PicksNearest(highest: nat, sequence: nat, other: nat)
    requires BLOCK <= highest <= U64_MAX - BLOCK && sequence < BLOCK && other % BLOCK == sequence
    ensures var e := Extend(highest, sequence);
            && e % BLOCK == sequence
            && e <= highest + HALF && highest <= e + HALF
            && (other != e ==> other >= highest + HALF || other + HALF <= highest)
  {
    var e := Extend(highest, sequence);
    var base := highest / BLOCK * BLOCK;
    assert e == base + sequence || e == base + sequence + BLOCK || e == base + sequence - BLOCK;
    assert e % BLOCK == sequence;
    if other > e {
      assert other / BLOCK >= e / BLOCK + 1;
    } else if other < e {
      assert other / BLOCK + 1 <= e / BLOCK;
    }
  }

  /** The greatest of the first n indices. */
  function Greatest(indices: seq<nat>, n: nat): (g: nat)
    requires 0 < n <= |indices|
    ensures g >= indices[0]
  {
    if n == 1 then indices[0]
    else if indices[n - 1] > Greatest(indices, n - 1) then indices[n - 1]
    else Greatest(indices, n - 1)
  }

  /** Every arrival is on or after the block of the first, and near enough to the greatest before it. */
  ghost predicate Recoverable(indices: seq<nat>)
  {
    forall i :: 0 < i < |indices| ==> IsInReach(indices, i)
  }

  predicate IsInReach(indices: seq<nat>, i: nat)
    requires 0 < i < |indices|
  {
    Offset(indices) <= indices[i] && IsNear(Greatest(indices, i) - Offset(indices), indices[i] - Offset(indices))
  }

  /** Arrival i gets the counter of its index, less the offset. */
  ghost predicate IsRecovered(indices: seq<nat>, i: nat)
    requires i < |indices|
  {
    Counter(WiresOf(indices), i) + Offset(indices) == indices[i]
  }

  /** All indices are clear of the 64-bit limit. */
  ghost predicate InRange(indices: seq<nat>)
  {
    forall i :: 0 <= i < |indices| ==> indices[i] <= U64_MAX - BLOCK
  }

  /** While arrivals are recovered the highest counter is that of the greatest index. */
  lemma {:induction false} HighestTracks(indices: seq<nat>, n: nat)
    requires 0 < n <= |indices| && forall i :: 0 <= i < n ==> IsRecovered(indices, i)
    ensures Highest(WiresOf(indices), n) == Some(Greatest(indices, n) - Offset(indices))
    decreases n
  {
    hide WiresOf, Offset;
    assert IsRecovered(indices, n - 1);
    if n == 1 {
      assert Highest(WiresOf(indices), 0) == None;
    } else {
      HighestTracks(indices, n - 1);
    }
  }

  lemma FirstIsRecovered(indices: seq<nat>)
    requires |indices| > 0
    ensures IsRecovered(indices, 0)
  {
    assert Highest(WiresOf(indices), 0) == None;
  }

  lemma StepRecovers(highest: nat, q: nat, index: nat)
    requires highest <= U64_MAX - BLOCK && index <= U64_MAX - BLOCK
    ensures Extend(highest, index % BLOCK) + q * BLOCK == index <==>
            q * BLOCK <= index && IsNear(highest, index - q * BLOCK)
  {
    hide Extend, IsNear;
    if q * BLOCK <= index {
      ShiftedRemainder(index, q);
      RecoversExactly(highest, index - q * BLOCK);
    }
  }

  lemma CounterIs(indices: seq<nat>, n: nat)
    requires 0 < n < |indices| && Highest(WiresOf(indices), n) == Some(Greatest(indices, n) - Offset(indices))
    ensures Counter(WiresOf(indices), n) == Extend(Greatest(indices, n) - Offset(indices), indices[n] % BLOCK)
  {
    hide Extend, Highest, Greatest, Offset;
  }

  lemma NextIsRecovered(indices: seq<nat>, n: nat)
    requires InRange(indices) && 0 < n < |indices| && forall i :: 0 <= i < n ==> IsRecovered(indices, i)
    ensures IsRecovered(indices, n) <==> IsInReach(indices, n)
  {
    hide Extend, IsNear, Highest, Greatest, Counter, WiresOf;
    HighestTracks(indices, n);
    GreatestInRange(indices, n);
    assert indices[n] <= U64_MAX - BLOCK;
    hide InRange;
    CounterIs(indices, n);
    StepRecovers(Greatest(indices, n) - Offset(indices), indices[0] / BLOCK, indices[n]);
  }

  lemma {:induction false} GreatestInRange(indices: seq<nat>, n: nat)
    requires InRange(indices) && 0 < n <= |indices|
    ensures Greatest(indices, n) <= U64_MAX - BLOCK
  {
    if n > 1 {
      GreatestInRange(indices, n - 1);
    }
  }

  lemma ShiftedRemainder(n: nat, q: nat)
    requires q * BLOCK <= n
    ensures (n - q * BLOCK) % BLOCK == n % BLOCK
  {
  }

  lemma {:induction false} FirstAreRecovered(indices: seq<nat>, n: nat)
    requires InRange(indices) && Recoverable(indices) && n <= |indices|
    ensures forall i :: 0 <= i < n ==> IsRecovered(indices, i)
  {
    hide IsRecovered, IsInReach, InRange;
    if n > 0 {
      FirstAreRecovered(indices, n - 1);
      if n == 1 {
        FirstIsRecovered(indices);
      } else {
        NextIsRecovered(indices, n - 1);
      }
    }
  }

  /** Across any number of wraps: a run recovers every sender index up to one constant if and only if
      it is recoverable... */
  lemma RtpRecoversIndices(indices: seq<nat>)
    requires InRange(indices)
    ensures (forall i :: 0 <= i < |indices| ==> IsRecovered(indices, i)) <==> Recoverable(indices)
  {
    hide IsRecovered, IsInReach, InRange;
    if Recoverable(indices) {
      FirstAreRecovered(indices, |indices|);
    } else if forall i :: 0 <= i < |indices| ==> IsRecovered(indices, i) {
      forall n | 0 < n < |indices|
        ensures IsInReach(indices, n)
      {
        NextIsRecovered(indices, n);
      }
    }
  }

  /** ... so what is refused of it is exactly a repeated index or one at least a window behind. */
  lemma RtpAnswersByIndex(indices: seq<nat>, i: nat)
    requires InRange(indices) && Recoverable(indices) && i < |indices|
    ensures var counters := Counters(WiresOf(indices));
            Fresh(Prefix(counters, i), counters[i]) <==> Fresh(Prefix(indices, i), indices[i])
  {
    FirstAreRecovered(indices, |indices|);
    CountersAre(indices);
    hide Counters, Offset, InRange, Recoverable, IsRecovered, Fresh, Prefix;
    ShiftedFresh(Counters(WiresOf(indices)), indices, Offset(indices), i);
  }

  lemma CountersAre(indices: seq<nat>)
    requires forall i :: 0 <= i < |indices| ==> IsRecovered(indices, i)
    ensures var counters := Counters(WiresOf(indices));
            |counters| == |indices| && forall i :: 0 <= i < |indices| ==> counters[i] + Offset(indices) == indices[i]
  {
    var wires := WiresOf(indices);
    var counters := Counters(wires);
    hide Counter, Offset, WiresOf;
    forall i | 0 <= i < |indices|
      ensures counters[i] + Offset(indices) == indices[i]
    {
      assert counters[i] == Counter(wires, i);
      assert IsRecovered(indices, i);
    }
  }

  /** Freshness does not depend on where counting starts. */
  lemma ShiftedFresh(a: seq<nat>, b: seq<nat>, offset: nat, i: nat)
    requires |a| == |b| && i < |a| && forall j :: 0 <= j < |a| ==> a[j] + offset == b[j]
    ensures Fresh(Prefix(a, i), a[i]) <==> Fresh(Prefix(b, i), b[i])
  {
    FreshByArrival(a, i);
    FreshByArrival(b, i);
    hide Fresh, Prefix;
    assert forall j :: 0 <= j < i ==> (a[j] < a[i] + WINDOW <==> b[j] < b[i] + WINDOW);
    assert forall j :: 0 <= j < i ==> (a[j] == a[i] <==> b[j] == b[i]);
  }

  /** Arrivals stay within half a block of the highest arrival so far, on or after the first
      arrival's block, and clear of the 64-bit limit. */
  ghost predicate Paced(indices: seq<nat>)
  {
    forall i :: 0 < i < |indices| ==>
      && Offset(indices) <= indices[i] <= U64_MAX - BLOCK
      && (forall j :: 0 <= j < i ==> indices[j] < indices[i] + HALF)
      && (exists j :: 0 <= j < i && indices[i] < indices[j] + HALF)
  }

  /** Such a run is recoverable. */
  lemma PacedIsRecoverable(indices: seq<nat>)
    requires Paced(indices)
    ensures Recoverable(indices)
  {
    forall i | 0 < i < |indices|
      ensures IsInReach(indices, i)
    {
      GreatestBounds(indices, i);
      var k := GreatestIsOne(indices, i);
      var m :| 0 <= m < i && indices[i] < indices[m] + HALF;
      assert indices[k] < indices[i] + HALF && indices[m] <= Greatest(indices, i);
    }
  }

  lemma {:induction false} GreatestIsOne(indices: seq<nat>, n: nat) returns (j: nat)
    requires 0 < n <= |indices|
    ensures j < n && indices[j] == Greatest(indices, n)
  {
    if n == 1 || indices[n - 1] > Greatest(indices, n - 1) {
      j := n - 1;
    } else {
      j := GreatestIsOne(indices, n - 1);
    }
  }

  lemma {:induction false} GreatestBounds(indices: seq<nat>, n: nat)
    requires 0 < n <= |indices|
    ensures forall j :: 0 <= j < n ==> indices[j] <= Greatest(indices, n)
  {
    if n > 1 {
      GreatestBounds(indices, n - 1);
    }
  }

  /** The precondition on the first block is needed: after index 65541 the earlier index 65535 is
      taken for a later one, and the copy of 65541 that follows is accepted a second time. */
  lemma EarlierBlockReadmitsDuplicate()
    ensures var indices := [65541, 65535, 65541];
            var counters := Counters(WiresOf(indices));
            && counters == [5, 65535, 65541]
            && Fresh(Prefix(counters, 2), counters[2])
            && !Fresh(Prefix(indices, 2), indices[2])
  {
    var indices := [65541, 65535, 65541];
    var wires := WiresOf(indices);
    assert wires == [5, 65535, 5];
    assert Highest(wires, 0) == None;
    assert Highest(wires, 1) == Some(5);
    assert Highest(wires, 2) == Some(65535);
    assert Counter(wires, 2) == 65541;
    assert indices[0] in Prefix(indices, 2);
  }

  /** Two counters less than a window apart use different bits of the ring. */
  lemma Separate(a: nat, b: nat)
    requires a != b && a < b + WINDOW && b < a + WINDOW
    ensures a % WINDOW != b % WINDOW
  {
  }

  lemma SeparateBehind(counter: nat)
    ensures forall c: nat :: counter < c + WINDOW && c < counter ==> c % WINDOW != counter % WINDOW
  {
  }
}
