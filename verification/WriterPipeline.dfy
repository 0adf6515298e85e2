/**
 The transport writer: queued packets are wrapped in order, FEC-marked ones leave alone and twice,
 the others leave in batches that the kernel may take piecemeal.
 */
module WriterPipeline {

  const MAX_DATAGRAMS: nat := 128

  /** The number-th packet this writer wrapped; its RTP sequence number wraps at 2^16. */
  datatype Datagram = Datagram(packet: nat, number: nat, sequence: nat, duplicate: bool)

  /** What a coming send call does: it takes some datagrams, takes none, or fails. */
  datatype Outcome = Sent(count: nat) | WouldBlock | Failed

  function Primary(initial: nat, packet: nat, number: nat): Datagram
  {
    Datagram(packet, number, (initial + number) % 0x1_0000, false)
  }

  /** Sequence numbers start where the writer was told to, step by one and come round after 2^16. */
  lemma SequencesStep(initial: nat, packet: nat, packet': nat, number: nat, number': nat)
    requires initial < 0x1_0000
    ensures Primary(initial, packet, 0).sequence == initial
    ensures Primary(initial, packet', number + 1).sequence == (Primary(initial, packet, number).sequence + 1) % 65536
    ensures Primary(initial, packet, number).sequence == Primary(initial, packet', number').sequence
            <==> (number - number') % 65536 == 0
  {
  }

  /** The packets in order, with consecutive numbers from `number` on. */
  function Primaries(initial: nat, packets: seq<nat>, number: nat): (r: seq<Datagram>)
    ensures |r| == |packets| && forall i :: 0 <= i < |r| ==> !r[i].duplicate
  {
    seq(|packets|, i requires 0 <= i < |packets| => Primary(initial, packets[i], number + i))
  }

  lemma PrimaryAt(initial: nat, packets: seq<nat>, number: nat, i: nat)
    requires i < |packets|
    ensures Primaries(initial, packets, number)[i] == Primary(initial, packets[i], number + i)
  {
  }

  function Copy(d: Datagram): Datagram { d.(duplicate := true) }

  /** The wire form of some primaries, when the numbers in `echoed` leave twice. */
  function OnWire(primaries: seq<Datagram>, echoed: set<nat>): seq<Datagram>
  {
    if primaries == [] then []
    else
      var last := primaries[|primaries| - 1];
      OnWire(primaries[..|primaries| - 1], echoed) + [last] + if last.number in echoed then [Copy(last)] else []
  }

  // ----- What the wire form means

  /** The datagrams on the wire that are not duplicates. */
  function WithoutDuplicates(wire: seq<Datagram>): seq<Datagram>
  {
    if wire == [] then []
    else WithoutDuplicates(wire[..|wire| - 1]) + if wire[|wire| - 1].duplicate then [] else [wire[|wire| - 1]]
  }

  /** Every duplicate immediately follows its own primary, and exactly the echoed ones have one. */
  ghost predicate DuplicatesFollow(wire: seq<Datagram>, echoed: set<nat>)
  {
    forall j :: 0 <= j < |wire| ==> Follows(wire, j, echoed)
  }

  predicate Follows(wire: seq<Datagram>, j: nat, echoed: set<nat>)
    requires j < |wire|
  {
    if wire[j].duplicate then 0 < j && wire[j - 1] == wire[j].(duplicate := false) && wire[j].number in echoed
    else wire[j].number in echoed ==> j + 1 < |wire| && wire[j + 1] == Copy(wire[j])
  }

  lemma DropLast(wire: seq<Datagram>, d: Datagram)
    ensures WithoutDuplicates(wire + [d]) == WithoutDuplicates(wire) + if d.duplicate then [] else [d]
  {
  }

  lemma WithCopy(wire: seq<Datagram>, d: Datagram, copy: seq<Datagram>)
    requires !d.duplicate && (copy == [] || copy == [Copy(d)])
    ensures WithoutDuplicates(wire + [d] + copy) == WithoutDuplicates(wire) + [d]
  {
    hide WithoutDuplicates;
    DropLast(wire, d);
    DropLast(wire + [d], Copy(d));
    assert wire + [d] + [] == wire + [d];
  }

  /** Every primary leaves once and in order... */
  lemma {:induction false} PrimariesLeaveOnce(primaries: seq<Datagram>, echoed: set<nat>)
    requires forall i :: 0 <= i < |primaries| ==> !primaries[i].duplicate
    ensures WithoutDuplicates(OnWire(primaries, echoed)) == primaries
  {
    if primaries != [] {
      var front, last := primaries[..|primaries| - 1], primaries[|primaries| - 1];
      PrimariesLeaveOnce(front, echoed);
      var before, copy := OnWire(front, echoed), if last.number in echoed then [Copy(last)] else [];
      assert OnWire(primaries, echoed) == before + [last] + copy;
      WithCopy(before, last, copy);
      hide OnWire, WithoutDuplicates;
    }
  }

  /** ... and each copy right behind its own. */
  lemma {:induction false} CopiesFollowPrimaries(primaries: seq<Datagram>, echoed: set<nat>)
    requires forall i :: 0 <= i < |primaries| ==> !primaries[i].duplicate
    ensures DuplicatesFollow(OnWire(primaries, echoed), echoed)
  {
    if primaries != [] {
      var front, last := primaries[..|primaries| - 1], primaries[|primaries| - 1];
      CopiesFollowPrimaries(front, echoed);
      var before, copy := OnWire(front, echoed), if last.number in echoed then [Copy(last)] else [];
      var wire := before + [last] + copy;
      forall j | 0 <= j < |wire|
        ensures Follows(wire, j, echoed)
      {
        if j < |before| {
          assert Follows(before, j, echoed) && wire[j] == before[j];
          assert j + 1 < |before| ==> wire[j + 1] == before[j + 1];
        }
      }
    }
  }

  // ----- Sending

  lemma OneMore(all: seq<Datagram>, n: nat, echoed: set<nat>)
    requires n < |all|
    ensures OnWire(all[..n + 1], echoed) ==
            OnWire(all[..n], echoed) + [all[n]] + if all[n].number in echoed then [Copy(all[n])] else []
  {
    assert all[..n + 1][..n] == all[..n];
  }

  /** Datagrams that are not echoed add just themselves. */
  lemma {:induction false} BatchMore(all: seq<Datagram>, n: nat, m: nat, echoed: set<nat>)
    requires n <= m <= |all| && forall d :: d in all[n..m] ==> d.number !in echoed
    ensures OnWire(all[..m], echoed) == OnWire(all[..n], echoed) + all[n..m]
    decreases m
  {
    if n < m {
      assert all[n..m] == all[n..m - 1] + [all[m - 1]];
      BatchMore(all, n, m - 1, echoed);
      OneMore(all, m - 1, echoed);
    }
  }

  lemma SliceJoins(s: seq<Datagram>, from: nat, to: nat, n: nat)
    requires from <= to <= |s| && n <= to - from
    ensures s[..from] + s[from..to][..n] == s[..from + n]
  {
  }

  /** How often the kernel will take something before a call fails. */
  function Takes(kernel: seq<Outcome>): nat
  {
    if kernel == [] || kernel[0].Failed? then 0
    else Takes(kernel[1..]) + if kernel[0] == WouldBlock || kernel[0] == Sent(0) then 0 else 1
  }

  /** None of the next n calls fails; on a stream each takes one packet, however long it waits. */
  predicate Accepts(kernel: seq<Outcome>, n: nat)
  {
    n <= |kernel| && forall i :: 0 <= i < n ==> !kernel[i].Failed?
  }

  /** A batch that left at once: the number of its first packet, and how many there were. */
  datatype Flush = Flush(first: nat, count: nat)

  /** Batches are within the limit, and one that falls short of it is followed by a marked packet or
      by none. */
  ghost predicate FlushesFit(flushes: seq<Flush>, limit: nat, marked: set<nat>, end: nat)
  {
    forall i :: 0 <= i < |flushes| ==>
      && 0 < flushes[i].count <= limit
      && (flushes[i].count < limit ==> flushes[i].first + flushes[i].count in marked || flushes[i].first + flushes[i].count == end)
  }

  lemma NothingFlushed(flushes: seq<Flush>, limit: nat, marked: set<nat>, end: nat)
    ensures FlushesFit(flushes[|flushes|..], limit, marked, end)
  {
  }

  /** What is left at the end is flushed. */
  lemma LastFlushed(flushes: seq<Flush>, limit: nat, marked: set<nat>, end: nat)
    requires forall f :: f in flushes ==> 0 < f.count <= limit && f.first + f.count == end
    ensures FlushesFit(flushes, limit, marked, end)
  {
    assert forall i :: 0 <= i < |flushes| ==> flushes[i] in flushes;
  }

  lemma FlushesMore(a: seq<Flush>, b: seq<Flush>, c: seq<Flush>, limit: nat, marked: set<nat>, end: nat)
    requires a <= b <= c
    requires FlushesFit(b[|a|..], limit, marked, end) && FlushesFit(c[|b|..], limit, marked, end)
    ensures FlushesFit(c[|a|..], limit, marked, end)
  {
    assert c[|a|..] == b[|a|..] + c[|b|..];
  }

  /** Sending got as far as some of the primaries. */
  ghost predicate Partly(before: seq<Datagram>, wire: seq<Datagram>, all: seq<Datagram>, echoed: set<nat>)
  {
    exists n :: 0 <= n <= |all| && wire == before + OnWire(all[..n], echoed)
  }

  class TransportWriter {
    const initial: nat                 // the first RTP sequence number
    const limit: nat                   // the bulk batch limit
    const stream: bool                 // over a TURN stream, in the order of its queue, or over UDP
    const marked: set<nat>             // numbers of the packets chosen for a duplicate
    const taken: set<nat>              // numbers of the packets whose duplicate the kernel would take
    const empty: set<nat>              // packets that wrapping refuses at once
    const oversized: set<nat>          // packets that it refuses after taking a number
    var number: nat                    // packets wrapped so far
    var pending: seq<nat>
    var mmsg: seq<Datagram>
    var kernel: seq<Outcome>           // the coming send calls; sending fails when they run out
    var wire: seq<Datagram>
    ghost var flushes: seq<Flush>      // the batches flushed so far

    constructor (initial: nat, limit: nat, stream: bool, marked: set<nat>, taken: set<nat>, empty: set<nat>, oversized: set<nat>,
                 kernel: seq<Outcome>)
      requires 0 < limit
      ensures this.initial == initial && this.limit == limit && this.empty == empty && this.oversized == oversized
      ensures this.stream == stream && this.marked == marked && this.taken == taken
      ensures number == 0 && pending == [] && mmsg == [] && wire == [] && this.kernel == kernel
      ensures flushes == []
    {
      this.initial, this.limit, this.stream := initial, limit, stream;
      this.marked, this.taken := marked, taken;
      this.empty, this.oversized := empty, oversized;
      number, pending, mmsg, wire, flushes := 0, [], [], [], [];
      this.kernel := kernel;
    }

    /** Nothing is queued or waits in the batch. */
    ghost predicate Idle()
      reads this
    {
      pending == [] && mmsg == [] && 0 < limit
    }

    /** The numbers that leave twice; a stream has no duplicates. */
    ghost function Echoed(): set<nat> { if stream then {} else marked * taken }

    method QueueData(packet: nat)
      modifies this`pending
      ensures pending == old(pending) + [packet]
    {
      pending := pending + [packet];
    }

    /** No packet is refused. */
    predicate Willing() { empty == {} && oversized == {} }

    predicate Refused(packet: nat) { packet in empty || packet in oversized }

    method PreparePacket(packet: nat) returns (ok: bool, datagram: Datagram, duplicate: bool)
      modifies this`number
      ensures number == old(number) + if packet in empty then 0 else 1
      ensures ok <==> packet !in empty && packet !in oversized
      ensures datagram == Primary(initial, packet, old(number)) && (duplicate <==> old(number) in marked)
    {
      datagram, duplicate := Primary(initial, packet, number), number in marked;
      ok := packet !in empty && packet !in oversized;
      if packet !in empty {
        number := number + 1;
      }
    }

    /** Sends a chunk however the kernel cuts it up; in order, each datagram once. */
    method SendConnected(datagrams: seq<Datagram>) returns (ok: bool)
      modifies this`wire, this`kernel
      ensures ok ==> wire == old(wire) + datagrams && |datagrams| <= MAX_DATAGRAMS
      ensures ok ==> Takes(kernel) + |datagrams| >= Takes(old(kernel))
      ensures Takes(old(kernel)) >= |datagrams| && |datagrams| <= MAX_DATAGRAMS ==> ok
      ensures exists sent :: 0 <= sent <= |datagrams| && wire == old(wire) + datagrams[..sent]
    {
      var sent := 0;
      assert wire == old(wire) + datagrams[..0];
      if |datagrams| > MAX_DATAGRAMS {
        return false;
      }
      while sent < |datagrams|
        invariant 0 <= sent <= |datagrams| && wire == old(wire) + datagrams[..sent]
        invariant Takes(kernel) + sent >= Takes(old(kernel))
        decreases |kernel|
      {
        if kernel == [] {
          return false;
        }
        var outcome := kernel[0];
        kernel := kernel[1..];
        match outcome {
          case Failed => return false;
          case WouldBlock =>
          case Sent(count) =>
            var took := if count <= |datagrams| - sent then count else |datagrams| - sent;
            wire := wire + datagrams[sent..sent + took];
            assert datagrams[..sent] + datagrams[sent..sent + took] == datagrams[..sent + took];
            sent := sent + took;
        }
      }
      assert datagrams[..sent] == datagrams;
      return true;
    }

    /** Sends a batch in chunks of what one kernel call takes. */
    method SendDataBatch(datagrams: seq<Datagram>) returns (ok: bool)
      modifies this`wire, this`kernel
      ensures stream ==> (ok <==> Accepts(old(kernel), |datagrams|))
      ensures stream && ok ==> kernel == old(kernel)[|datagrams|..]
      ensures ok ==> wire == old(wire) + datagrams
      ensures ok ==> Takes(kernel) + |datagrams| >= Takes(old(kernel))
      ensures Takes(old(kernel)) >= |datagrams| ==> ok
      ensures exists sent :: 0 <= sent <= |datagrams| && wire == old(wire) + datagrams[..sent]
    {
      if stream {
        ok := SendDrained(datagrams);
        return;
      }
      var done := 0;
      assert wire == old(wire) + datagrams[..0];
      while done < |datagrams|
        invariant 0 <= done <= |datagrams| && wire == old(wire) + datagrams[..done]
        invariant Takes(kernel) + done >= Takes(old(kernel))
      {
        var end := if |datagrams| - done < MAX_DATAGRAMS then |datagrams| else done + MAX_DATAGRAMS;
        var chunk := datagrams[done..end];
        ok := SendConnected(chunk);
        ghost var sent :| 0 <= sent <= |chunk| && wire == old(wire) + datagrams[..done] + chunk[..sent];
        SliceJoins(datagrams, done, end, sent);
        if !ok {
          return;
        }
        assert datagrams[..done] + chunk == datagrams[..end];
        done := end;
      }
      assert datagrams[..done] == datagrams;
      return true;
    }

    /** Queues a batch on the stream, one packet after the other. */
    method SendDrained(datagrams: seq<Datagram>) returns (ok: bool)
      modifies this`wire, this`kernel
      ensures ok <==> Accepts(old(kernel), |datagrams|)
      ensures ok ==> kernel == old(kernel)[|datagrams|..]
      ensures ok ==> wire == old(wire) + datagrams
      ensures ok ==> Takes(kernel) + |datagrams| >= Takes(old(kernel))
      ensures Takes(old(kernel)) >= |datagrams| ==> ok
      ensures exists sent :: 0 <= sent <= |datagrams| && wire == old(wire) + datagrams[..sent]
    {
      assert wire == old(wire) + datagrams[..0];
      for sent := 0 to |datagrams|
        invariant wire == old(wire) + datagrams[..sent]
        invariant Takes(kernel) + sent >= Takes(old(kernel))
        invariant Accepts(old(kernel), sent) && kernel == old(kernel)[sent..]
      {
        ok := SendOne(datagrams[sent]);
        if !ok {
          return;
        }
        assert datagrams[..sent] + [datagrams[sent]] == datagrams[..sent + 1];
      }
      assert datagrams[..|datagrams|] == datagrams;
      return true;
    }

    method SendOne(datagram: Datagram) returns (ok: bool)
      modifies this`wire, this`kernel
      ensures wire == old(wire) + if ok then [datagram] else []
      ensures ok <==> old(kernel) != [] && !old(kernel)[0].Failed?
      ensures ok ==> kernel == old(kernel)[1..]
      ensures (Takes(old(kernel)) > 0 ==> ok) && Takes(kernel) + 1 >= Takes(old(kernel))
    {
      if kernel == [] {
        return false;
      }
      ok := !kernel[0].Failed?;
      kernel := kernel[1..];
      if ok {
        wire := wire + [datagram];
      }
    }

    /** Sends one datagram and, if asked, tries a second copy right after it. */
    method SendWithDuplicate(datagram: Datagram, duplicate: bool) returns (ok: bool)
      modifies this`wire, this`kernel
      ensures ok ==>
        wire == old(wire) + [datagram] + if duplicate && !stream && datagram.number in taken then [Copy(datagram)] else []
      ensures !ok ==> wire == old(wire)
      ensures (Takes(old(kernel)) > 0 ==> ok) && Takes(kernel) + 1 >= Takes(old(kernel))
    {
      ok := SendOne(datagram);
      if ok && duplicate && !stream && datagram.number in taken {
        wire := wire + [Copy(datagram)];
      }
    }

    method FlushMmsgData() returns (ok: bool)
      modifies this`wire, this`kernel, this`mmsg, this`flushes
      ensures flushes == old(flushes) + if old(mmsg) == [] then [] else [Flush(old(mmsg)[0].number, |old(mmsg)|)]
      ensures ok ==> wire == old(wire) + old(mmsg) && mmsg == [] && Takes(kernel) + |old(mmsg)| >= Takes(old(kernel))
      ensures Takes(old(kernel)) >= |old(mmsg)| ==> ok
      ensures !ok ==> exists sent :: 0 <= sent <= |old(mmsg)| && wire == old(wire) + old(mmsg)[..sent]
    {
      if mmsg == [] {
        return true;
      }
      flushes := flushes + [Flush(mmsg[0].number, |mmsg|)];
      ok := SendDataBatch(mmsg);
      if ok {
        mmsg := [];
      }
    }

    /** The first k primaries are wrapped: those in the batch wait, those before are on the wire. */
    ghost predicate Wrapped(before: seq<Datagram>, all: seq<Datagram>, k: nat)
      reads this`mmsg, this`wire
    {
      && |mmsg| <= k <= |all| && mmsg == all[k - |mmsg|..k]
      && (forall d :: d in mmsg ==> d.number !in marked)
      && wire == before + OnWire(all[..k - |mmsg|], Echoed())
    }

    /** The batch has room for another and holds the packets up to the number. */
    ghost predicate Batched(number: nat)
      reads this`mmsg
    {
      |mmsg| < limit && |mmsg| <= number && (mmsg != [] ==> mmsg[0].number == number - |mmsg|)
    }

    /** Flushes the batch, which holds the last of the first k primaries. */
    method FlushFrom(ghost before: seq<Datagram>, ghost all: seq<Datagram>, ghost k: nat) returns (ok: bool)
      requires Wrapped(before, all, k)
      modifies this`wire, this`kernel, this`mmsg, this`flushes
      ensures flushes == old(flushes) + if old(mmsg) == [] then [] else [Flush(old(mmsg)[0].number, |old(mmsg)|)]
      ensures Partly(before, wire, all, Echoed())
      ensures ok ==> mmsg == [] && Wrapped(before, all, k) && Takes(kernel) + |old(mmsg)| >= Takes(old(kernel))
      ensures Takes(old(kernel)) >= |old(mmsg)| ==> ok
    {
      hide OnWire;
      ghost var n, batch := k - |mmsg|, mmsg;
      assert all[n..n + |batch|] == batch;
      ok := FlushMmsgData();
      ghost var sent := |batch|;
      assert batch[..|batch|] == batch;
      if !ok {
        sent :| 0 <= sent <= |batch| && wire == old(wire) + batch[..sent];
      }
      BatchSent(all, n, batch, sent);
      assert wire == before + OnWire(all[..n + sent], Echoed());
    }

    lemma BatchSent(all: seq<Datagram>, n: nat, batch: seq<Datagram>, sent: nat)
      requires sent <= |batch| && n + |batch| <= |all| && batch == all[n..n + |batch|]
      requires forall d :: d in batch ==> d.number !in marked
      ensures OnWire(all[..n + sent], Echoed()) == OnWire(all[..n], Echoed()) + batch[..sent]
    {
      assert all[n..n + sent] == batch[..sent];
      forall d | d in batch[..sent]
        ensures d in batch
      {
      }
      BatchMore(all, n, n + sent, Echoed());
    }

    /** Sends the k-th primary by itself. */
    method SendPrepared(datagram: Datagram, duplicate: bool, ghost before: seq<Datagram>, ghost all: seq<Datagram>, ghost k: nat)
      returns (ok: bool)
      requires k < |all| && datagram == all[k] && (duplicate <==> datagram.number in marked)
      requires mmsg == [] && Wrapped(before, all, k)
      modifies this`wire, this`kernel
      ensures Partly(before, wire, all, Echoed())
      ensures ok ==> Wrapped(before, all, k + 1)
      ensures (Takes(old(kernel)) > 0 ==> ok) && Takes(kernel) + 1 >= Takes(old(kernel))
    {
      OneMore(all, k, Echoed());
      ok := SendWithDuplicate(datagram, duplicate);
      assert wire == before + OnWire(all[..if ok then k + 1 else k], Echoed());
    }

    /** The loop's body: wraps the next packet and sends it alone or adds it to the batch. */
    method SendNext(packet: nat, ghost before: seq<Datagram>, ghost all: seq<Datagram>, ghost k: nat) returns (ok: bool)
      requires k < |all| && all[k] == Primary(initial, packet, number) && Wrapped(before, all, k)
      requires Batched(number)
      modifies this`wire, this`kernel, this`mmsg, this`number, this`flushes
      ensures old(flushes) <= flushes
      ensures forall end :: FlushesFit(flushes[|old(flushes)|..], limit, marked, end)
      ensures ok ==> Batched(number)
      ensures ok ==> number == old(number) + 1
      ensures Partly(before, wire, all, Echoed())
      ensures ok ==> Wrapped(before, all, k + 1) && Takes(kernel) + |old(mmsg)| + 1 >= Takes(old(kernel)) + |mmsg|
      ensures Takes(old(kernel)) > |old(mmsg)| && !Refused(packet) ==> ok
    {
      hide OnWire, Takes;
      var datagram, duplicate;
      ok, datagram, duplicate := PreparePacket(packet);
      SentSoFar(before, all, k);
      if !ok {
        return;
      }
      if duplicate {
        ok := FlushFrom(before, all, k);
        if ok {
          ok := SendPrepared(datagram, true, before, all, k);
        }
      } else {
        assert all[k - |mmsg|..k + 1] == mmsg + [datagram];
        mmsg := mmsg + [datagram];
        assert Wrapped(before, all, k + 1);
        if |mmsg| == limit {
          ok := FlushFrom(before, all, k + 1);
        }
      }
    }

    /** Sends everything that is queued. Whatever the kernel does, the wire gets the queued packets in
        order, with consecutive sequence numbers and the marked ones' copies in place, as far as
        sending got; on success that is all of them. */
    method FlushQueuedData() returns (ok: bool)
      requires mmsg == [] && 0 < limit
      modifies this
      ensures Partly(old(wire), wire, Primaries(initial, old(pending), old(number)), Echoed())
      ensures ok ==> pending == [] && mmsg == [] && number == old(number) + |old(pending)|
      ensures ok ==> wire == old(wire) + OnWire(Primaries(initial, old(pending), old(number)), Echoed())
      ensures ok ==> Takes(kernel) + |old(pending)| >= Takes(old(kernel))
      ensures Takes(old(kernel)) >= |old(pending)| && (forall p :: p in old(pending) ==> !Refused(p)) ==> ok
      ensures old(flushes) <= flushes
      ensures FlushesFit(flushes[|old(flushes)|..], limit, marked, old(number) + |old(pending)|)
    {
      hide OnWire, Wrapped, Partly, Primaries, Primary, Takes, FlushesFit;
      ghost var all := Primaries(initial, pending, number);
      ghost var packets, first, before := pending, number, wire;
      NothingWrapped(before, all);
      NothingFlushed(flushes, limit, marked, number + |pending|);
      if |pending| == 1 {
        PrimaryAt(initial, packets, first, 0);
        var packet := pending[0];
        pending := [];
        ok := SendPacket(packet);
        assert all == [Primary(initial, packet, first)];
        if ok {
          AllSent(before, wire, all, Echoed());
        } else {
          NoneSent(before, all, Echoed());
        }
        return;
      }
      while pending != []
        invariant |pending| <= |packets| && pending == packets[|packets| - |pending|..]
        invariant number == first + |packets| - |pending|
        invariant Wrapped(before, all, |packets| - |pending|) && Batched(number)
        invariant old(flushes) <= flushes
        invariant FlushesFit(flushes[|old(flushes)|..], limit, marked, first + |packets|)
        invariant |mmsg| <= |packets| - |pending| && Takes(kernel) + |packets| >= Takes(old(kernel)) + |pending| + |mmsg|
        decreases |pending|
      {
        ghost var k := |packets| - |pending|;
        PrimaryAt(initial, packets, first, k);
        var packet := pending[0];
        pending := pending[1..];
        InBatch(before, all, k);
        ghost var flushed := flushes;
        ok := SendNext(packet, before, all, k);
        FlushesMore(old(flushes), flushed, flushes, limit, marked, first + |packets|);
        if ok {
          InBatch(before, all, k + 1);
        }
        if !ok {
          return;
        }
      }
      ghost var flushed := flushes;
      ok := FlushFrom(before, all, |packets|);
      LastFlushed(flushes[|flushed|..], limit, marked, first + |packets|);
      FlushesMore(old(flushes), flushed, flushes, limit, marked, first + |packets|);
      AllWrapped(before, all);
    }

    lemma InBatch(before: seq<Datagram>, all: seq<Datagram>, k: nat)
      requires Wrapped(before, all, k)
      ensures |mmsg| <= k
    {
    }

    lemma NothingWrapped(before: seq<Datagram>, all: seq<Datagram>)
      requires mmsg == [] && wire == before
      ensures Wrapped(before, all, 0)
    {
    }

    lemma SentSoFar(before: seq<Datagram>, all: seq<Datagram>, k: nat)
      requires Wrapped(before, all, k)
      ensures Partly(before, wire, all, Echoed())
    {
    }

    lemma AllWrapped(before: seq<Datagram>, all: seq<Datagram>)
      ensures mmsg == [] && Wrapped(before, all, |all|) ==> wire == before + OnWire(all, Echoed())
    {
      assert all[..|all|] == all;
    }

    /** Sends one packet by itself. If that fails the packet may have taken a number all the same. */
    method SendPacket(packet: nat) returns (ok: bool)
      modifies this`wire, this`kernel, this`number
      ensures old(number) <= number <= old(number) + 1
      ensures ok ==> number == old(number) + 1
      ensures ok ==> wire == old(wire) + OnWire([Primary(initial, packet, old(number))], Echoed())
      ensures !ok ==> wire == old(wire)
      ensures Takes(kernel) + 1 >= Takes(old(kernel))
      ensures Takes(old(kernel)) > 0 && !Refused(packet) ==> ok
    {
      var datagram, duplicate;
      ok, datagram, duplicate := PreparePacket(packet);
      if ok {
        OneOnWire(datagram, Echoed());
        ok := SendWithDuplicate(datagram, duplicate);
      }
    }

    /** A writer command: its bytes are sent in a packet from the pool, if one is to be had. */
    method SendBytes(packet: nat, acquired: bool) returns (ok: bool)
      modifies this`wire, this`kernel, this`number
      ensures old(number) <= number <= old(number) + 1
      ensures ok ==> number == old(number) + 1
      ensures ok ==> wire == old(wire) + OnWire([Primary(initial, packet, old(number))], Echoed())
      ensures !ok ==> wire == old(wire)
      ensures Takes(kernel) + 1 >= Takes(old(kernel))
      ensures Takes(old(kernel)) > 0 && acquired && !Refused(packet) ==> ok
    {
      if !acquired {
        return false;
      }
      ok := SendPacket(packet);
    }
  }

  lemma OneOnWire(d: Datagram, echoed: set<nat>)
    ensures OnWire([d], echoed) == [d] + if d.number in echoed then [Copy(d)] else []
  {
    assert [d][..0] == [];
  }

  lemma AllSent(before: seq<Datagram>, wire: seq<Datagram>, all: seq<Datagram>, echoed: set<nat>)
    requires wire == before + OnWire(all, echoed)
    ensures Partly(before, wire, all, echoed)
  {
    assert all[..|all|] == all;
  }

  lemma NoneSent(before: seq<Datagram>, all: seq<Datagram>, echoed: set<nat>)
    ensures Partly(before, before, all, echoed)
  {
    assert before + OnWire(all[..0], echoed) == before;
  }
}
