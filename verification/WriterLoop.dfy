/**
 The writer's loop over its three queues: each round takes the first packet of the most urgent queue
 and extends it to a batch of its class. Packets keep arriving between any two looks at the queues.
 */
module WriterLoop {
  import opened Wrappers
  import opened Scheduler
  import opened WriterPipeline

  /** A packet in the queue of its class. */
  datatype Item = Item(class_: PacketClass, packet: nat)

  /** The packets of one class, in order. */
  function OfClass(items: seq<Item>, class_: PacketClass): seq<nat>
  {
    if items == [] then []
    else OfClass(items[..|items| - 1], class_) + if items[|items| - 1].class_ == class_ then [items[|items| - 1].packet] else []
  }

  function Packets(items: seq<Item>): (packets: seq<nat>)
    ensures |packets| == |items|
  {
    seq(|items|, i requires 0 <= i < |items| => items[i].packet)
  }

  lemma OneMoreItem(items: seq<Item>, item: Item)
    ensures Packets(items + [item]) == Packets(items) + [item.packet]
    ensures forall c :: OfClass(items + [item], c) == OfClass(items, c) + if c == item.class_ then [item.packet] else []
  {
  }

  lemma {:induction false} ClassCounts(items: seq<Item>)
    ensures |OfClass(items, Small)| + |OfClass(items, Medium)| + |OfClass(items, Bulk)| == |items|
  {
    if items != [] {
      ClassCounts(items[..|items| - 1]);
    }
  }

  lemma OnePacket(items: seq<Item>, item: Item, from: nat)
    requires from <= |items|
    ensures Packets((items + [item])[from..]) == Packets(items[from..]) + [item.packet]
    ensures from == |items| ==> Packets(items[from..]) == []
  {
  }

  class WriterQueues {
    const chunks: Chunks               // the batch limit of each class
    var latency: seq<nat>
    var priority: seq<nat>
    var bulk: seq<nat>
    var coming: seq<seq<Item>>         // what arrives before each of the coming looks
    ghost var arrived: seq<Item>
    ghost var taken: seq<Item>

    function Queue(class_: PacketClass): seq<nat>
      reads this
    {
      match class_
      case Small => latency
      case Medium => priority
      case Bulk => bulk
    }

    /** In each class what arrived is what was taken, in the same order, and what still waits. */
    ghost predicate Valid()
      reads this
    {
      forall c :: OfClass(arrived, c) == OfClass(taken, c) + Queue(c)
    }

    /** Something more urgent waits. */
    predicate Outranked(class_: PacketClass)
      reads this
    {
      match class_
      case Small => false
      case Medium => latency != []
      case Bulk => latency != [] || priority != []
    }

    /** The classes in order of urgency. */
    lemma OutrankedMeans(class_: PacketClass)
      ensures Outranked(class_) <==> exists c :: Index(c) < Index(class_) && Queue(c) != []
    {
      assert Queue(Small) == latency && Queue(Medium) == priority && Index(Small) < Index(Medium) < Index(Bulk);
    }

    /** How many packets wait. */
    function Waiting(): nat
      reads this
    {
      |latency| + |priority| + |bulk|
    }

    /** What arrived is taken or waits. */
    lemma CountsMatch()
      requires Valid()
      ensures |arrived| == |taken| + Waiting()
    {
      ClassCounts(arrived);
      ClassCounts(taken);
      assert Queue(Small) == latency && Queue(Medium) == priority && Queue(Bulk) == bulk;
    }

    constructor (chunks: Chunks, coming: seq<seq<Item>>)
      ensures Valid() && this.chunks == chunks && this.coming == coming && arrived == [] && taken == []
    {
      this.chunks, this.coming := chunks, coming;
      latency, priority, bulk, arrived, taken := [], [], [], [], [];
    }

    method Push(item: Item)
      requires Valid()
      modifies this`latency, this`priority, this`bulk, this`arrived
      ensures Valid() && arrived == old(arrived) + [item]
      ensures forall c :: Queue(c) == old(Queue(c)) + if c == item.class_ then [item.packet] else []
    {
      hide OfClass;
      OneMoreItem(arrived, item);
      arrived := arrived + [item];
      match item.class_ {
        case Small => latency := latency + [item.packet];
        case Medium => priority := priority + [item.packet];
        case Bulk => bulk := bulk + [item.packet];
      }
    }

    method Arrive()
      requires Valid()
      modifies this`latency, this`priority, this`bulk, this`arrived, this`coming
      ensures Valid() && old(arrived) <= arrived
      ensures forall c :: old(Queue(c)) <= Queue(c) && (old(Outranked(c)) ==> Outranked(c))
    {
      if coming == [] {
        return;
      }
      var items := coming[0];
      coming := coming[1..];
      for i := 0 to |items|
        invariant Valid() && old(arrived) <= arrived
        invariant forall c :: old(Queue(c)) <= Queue(c)
      {
        Push(items[i]);
      }
      assert old(Queue(Small)) <= Queue(Small) && old(Queue(Medium)) <= Queue(Medium);
    }

    method TryRecv(class_: PacketClass) returns (packet: Option<nat>)
      requires Valid()
      modifies this`latency, this`priority, this`bulk, this`taken
      ensures Valid()
      ensures var queue := old(Queue(class_));
              if queue == [] then packet == None && taken == old(taken)
              else packet == Some(queue[0]) && taken == old(taken) + [Item(class_, queue[0])]
      ensures forall c :: Queue(c) == if c == class_ && packet.Some? then old(Queue(c))[1..] else old(Queue(c))
    {
      hide OfClass;
      var queue := Queue(class_);
      if queue == [] {
        return None;
      }
      OneMoreItem(taken, Item(class_, queue[0]));
      assert OfClass(taken, class_) + queue == OfClass(taken, class_) + [queue[0]] + queue[1..];
      taken := taken + [Item(class_, queue[0])];
      match class_ {
        case Small => latency := queue[1..];
        case Medium => priority := queue[1..];
        case Bulk => bulk := queue[1..];
      }
      return Some(queue[0]);
    }

    /** Looks into the queues by urgency, so what waits in a more urgent one goes first. */
    method NextWriterPacket() returns (next: Option<Item>)
      requires Valid()
      modifies this
      ensures Valid() && old(arrived) <= arrived
      ensures taken == old(taken) + if next.Some? then [next.value] else []
      ensures next == None ==> old(Waiting()) == 0
      ensures next.Some? ==> !old(Outranked(next.value.class_))
      ensures next.Some? && old(Queue(next.value.class_)) != [] ==> next.value.packet == old(Queue(next.value.class_))[0]
    {
      hide OfClass, Valid;
      Arrive();
      var packet := TryRecv(Small);
      if packet.Some? {
        return Some(Item(Small, packet.value));
      }
      Arrive();
      packet := TryRecv(Medium);
      if packet.Some? {
        return Some(Item(Medium, packet.value));
      }
      Arrive();
      packet := TryRecv(Bulk);
      if packet.Some? {
        return Some(Item(Bulk, packet.value));
      }
      assert old(Queue(Small)) == [] && old(Queue(Medium)) == [] && old(Queue(Bulk)) == [];
      return None;
    }

    /** Extends the packet just taken to a batch of its class, as long as nothing more urgent waits. */
    method Extend(class_: PacketClass, first: nat, transport: TransportWriter) returns (sent: nat)
      requires Valid() && transport.pending == []
      requires taken != [] && taken[|taken| - 1] == Item(class_, first)
      modifies this, transport`pending
      ensures Valid() && old(arrived) <= arrived
      ensures 1 <= sent <= ChunkOf(chunks, class_) && sent == |transport.pending|
      ensures |taken| == |old(taken)| + sent - 1 && old(taken) <= taken
      ensures transport.pending == Packets(taken[|old(taken)| - 1..])
      ensures forall i :: |old(taken)| <= i < |taken| ==> taken[i].class_ == class_
      ensures old(Outranked(class_)) ==> sent == 1
      ensures sent < ChunkOf(chunks, class_) ==> Outranked(class_) || Queue(class_) == []
    {
      hide OfClass, Packets, Valid, Outranked, Queue;
      transport.QueueData(first);
      sent := 1;
      ghost var from := |taken| - 1;
      OnePacket(taken[..from], Item(class_, first), from);
      assert taken == taken[..from] + [Item(class_, first)];
      while sent < ChunkOf(chunks, class_)
        invariant Valid() && old(arrived) <= arrived && old(taken) <= taken
        invariant 1 <= sent <= ChunkOf(chunks, class_) && |taken| == from + sent
        invariant transport.pending == Packets(taken[from..])
        invariant forall i :: |old(taken)| <= i < |taken| ==> taken[i].class_ == class_
        invariant old(Outranked(class_)) ==> sent == 1 && Outranked(class_)
      {
        Arrive();
        if Outranked(class_) {
          break;
        }
        Arrive();
        ghost var before := taken;
        var packet := TryRecv(class_);
        if packet == None {
          break;
        }
        OnePacket(before, Item(class_, packet.value), from);
        transport.QueueData(packet.value);
        sent := sent + 1;
      }
    }
  }

  /** One batch: queued in the order in which it is taken, and flushed. */
  method SendWriterBatch(queues: WriterQueues, transport: TransportWriter, class_: PacketClass, first: nat) returns (ok: bool, sent: nat)
    requires queues.Valid() && transport.Idle()
    requires queues.taken != [] && queues.taken[|queues.taken| - 1] == Item(class_, first)
    modifies queues, transport
    ensures queues.Valid() && old(queues.arrived) <= queues.arrived && old(queues.taken) <= queues.taken
    ensures 1 <= sent <= ChunkOf(queues.chunks, class_) && |queues.taken| == |old(queues.taken)| + sent - 1
    ensures forall i :: |old(queues.taken)| <= i < |queues.taken| ==> queues.taken[i].class_ == class_
    ensures old(queues.Outranked(class_)) ==> sent == 1
    ensures sent < ChunkOf(queues.chunks, class_) ==> queues.Outranked(class_) || queues.Queue(class_) == []
    ensures ok ==> Takes(transport.kernel) + sent >= Takes(old(transport.kernel))
    ensures Takes(old(transport.kernel)) >= sent && transport.Willing() ==> ok
    ensures var batch := Primaries(transport.initial, Packets(queues.taken[|old(queues.taken)| - 1..]), old(transport.number));
            && Partly(old(transport.wire), transport.wire, batch, transport.Echoed())
            && (ok ==> transport.wire == old(transport.wire) + OnWire(batch, transport.Echoed()))
    ensures ok ==> transport.Idle() && transport.number == old(transport.number) + sent
  {
    hide OnWire, Partly, Primaries, Packets, Takes;
    sent := queues.Extend(class_, first, transport);
    ok := transport.FlushQueuedData();
  }

  // ----- The whole loop

  /** A packet on the wire: a writer command's, or one of the queues'. */
  datatype Shipment = Shipment(command: bool, datagram: Datagram)

  /** The bytes of a writer command, and whether the pool has a packet for them. */
  datatype Command = Command(packet: nat, acquired: bool)

  function Datagrams(sent: seq<Shipment>): (datagrams: seq<Datagram>)
    ensures |datagrams| == |sent|
  {
    seq(|sent|, i requires 0 <= i < |sent| => sent[i].datagram)
  }

  function FromQueues(primaries: seq<Datagram>): (sent: seq<Shipment>)
    ensures |sent| == |primaries|
  {
    seq(|primaries|, i requires 0 <= i < |primaries| => Shipment(false, primaries[i]))
  }

  /** The packets of the queues among those sent, in order. */
  function DataPackets(sent: seq<Shipment>): seq<nat>
  {
    if sent == [] then []
    else
      var last := sent[|sent| - 1];
      DataPackets(sent[..|sent| - 1]) + if last.command then [] else [last.datagram.packet]
  }

  /** Numbers rise from the start, and run ahead by no more than the commands that failed. */
  ghost predicate Numbered(sent: seq<Shipment>, initial: nat, number: nat, failed: nat)
  {
    && (forall i :: 0 <= i < |sent| ==>
          var d := sent[i].datagram;
          number + i <= d.number <= number + i + failed && d == Primary(initial, d.packet, d.number))
    && (forall i, j :: 0 <= i < j < |sent| ==> sent[i].datagram.number < sent[j].datagram.number)
  }

  lemma {:induction false} OnWireConcat(a: seq<Datagram>, b: seq<Datagram>, echoed: set<nat>)
    ensures OnWire(a + b, echoed) == OnWire(a, echoed) + OnWire(b, echoed)
    decreases |b|
  {
    if b == [] {
      assert a + b == a;
    } else {
      OnWireConcat(a, b[..|b| - 1], echoed);
      assert (a + b)[..|a + b| - 1] == a + b[..|b| - 1];
    }
  }

  lemma DatagramsConcat(a: seq<Shipment>, b: seq<Shipment>)
    ensures Datagrams(a + b) == Datagrams(a) + Datagrams(b)
  {
  }

  lemma {:induction false} DataPacketsConcat(a: seq<Shipment>, b: seq<Shipment>)
    ensures DataPackets(a + b) == DataPackets(a) + DataPackets(b)
    decreases |b|
  {
    if b == [] {
      assert a + b == a;
    } else {
      DataPacketsConcat(a, b[..|b| - 1]);
      assert (a + b)[..|a + b| - 1] == a + b[..|b| - 1];
    }
  }

  lemma {:induction false} DataPacketsOfBatch(initial: nat, packets: seq<nat>, number: nat)
    ensures DataPackets(FromQueues(Primaries(initial, packets, number))) == packets
    ensures Datagrams(FromQueues(Primaries(initial, packets, number))) == Primaries(initial, packets, number)
    decreases |packets|
  {
    var sent := FromQueues(Primaries(initial, packets, number));
    assert Datagrams(sent) == Primaries(initial, packets, number);
    if packets != [] {
      var front := packets[..|packets| - 1];
      DataPacketsOfBatch(initial, front, number);
      assert sent[..|sent| - 1] == FromQueues(Primaries(initial, front, number));
      assert packets == front + [packets[|packets| - 1]];
    }
  }

  lemma NumberedMore(sent: seq<Shipment>, more: seq<Shipment>, initial: nat, number: nat, failed: nat, next: nat)
    requires Numbered(sent, initial, number, failed)
    requires number + |sent| <= next <= number + |sent| + failed
    requires forall i :: 0 <= i < |sent| ==> sent[i].datagram.number < next
    requires forall i :: 0 <= i < |more| ==> more[i].datagram == Primary(initial, more[i].datagram.packet, next + i)
    ensures Numbered(sent + more, initial, number, failed)
    ensures forall i :: 0 <= i < |sent + more| ==> (sent + more)[i].datagram.number < next + |more|
  {
    var all := sent + more;
    assert forall i :: |sent| <= i < |all| ==> all[i] == more[i - |sent|];
  }

  /** What is on the wire after `before`: what was sent, with its copies. */
  ghost predicate OnTheWire(transport: TransportWriter, sent: seq<Shipment>, before: seq<Datagram>, number: nat, failed: nat)
    reads transport
  {
    && transport.wire == before + OnWire(Datagrams(sent), transport.Echoed())
    && Numbered(sent, transport.initial, number, failed)
  }

  /** Between rounds: nothing waits in the transport, and the next number is in step. */
  ghost predicate InStep(transport: TransportWriter, sent: seq<Shipment>, number: nat, failed: nat)
    reads transport
  {
    && transport.Idle()
    && number + |sent| <= transport.number <= number + |sent| + failed
    && forall i :: 0 <= i < |sent| ==> sent[i].datagram.number < transport.number
  }

  /** A batch, or the first of it, joins what was sent. */
  lemma BatchJoins(sent: seq<Shipment>, before: seq<Datagram>, between: seq<Datagram>, wire: seq<Datagram>, initial: nat, number: nat,
                   failed: nat, packets: seq<nat>, next: nat, n: nat, echoed: set<nat>) returns (sent': seq<Shipment>)
    requires between == before + OnWire(Datagrams(sent), echoed) && Numbered(sent, initial, number, failed)
    requires number + |sent| <= next <= number + |sent| + failed
    requires forall i :: 0 <= i < |sent| ==> sent[i].datagram.number < next
    requires n <= |packets| && wire == between + OnWire(Primaries(initial, packets, next)[..n], echoed)
    ensures sent <= sent' && |sent'| == |sent| + n
    ensures wire == before + OnWire(Datagrams(sent'), echoed) && Numbered(sent', initial, number, failed)
    ensures DataPackets(sent') == DataPackets(sent) + packets[..n]
    ensures forall i :: 0 <= i < |sent'| ==> sent'[i].datagram.number < next + n
  {
    hide OnWire, Datagrams, DataPackets, Numbered, Primaries;
    var more := FromQueues(Primaries(initial, packets[..n], next));
    sent' := sent + more;
    FirstPrimaries(initial, packets, next, n);
    DataPacketsOfBatch(initial, packets[..n], next);
    DatagramsConcat(sent, more);
    DataPacketsConcat(sent, more);
    OnWireConcat(Datagrams(sent), Datagrams(more), echoed);
    BatchPrimaries(initial, packets[..n], next);
    NumberedMore(sent, more, initial, number, failed, next);
  }

  lemma BatchPrimaries(initial: nat, packets: seq<nat>, next: nat)
    ensures var more := FromQueues(Primaries(initial, packets, next));
            forall i :: 0 <= i < |more| ==> more[i].datagram == Primary(initial, more[i].datagram.packet, next + i)
  {
  }

  lemma FirstPrimaries(initial: nat, packets: seq<nat>, number: nat, n: nat)
    requires n <= |packets|
    ensures Primaries(initial, packets, number)[..n] == Primaries(initial, packets[..n], number)
  {
  }

  lemma JoinTaken(taken: seq<Item>, taken': seq<Item>, from: nat)
    requires from <= |taken| && taken <= taken'
    ensures Packets(taken'[from..]) == Packets(taken[from..]) + Packets(taken'[|taken|..])
  {
    assert taken'[from..] == taken[from..] + taken'[|taken|..];
  }

  /** One round without a command: takes a packet, if there is one, and sends a batch. */
  method DataRound(queues: WriterQueues, transport: TransportWriter, ghost sent: seq<Shipment>, ghost before: seq<Datagram>,
                   ghost number: nat, ghost failed: nat, ghost from: nat) returns (ok: bool, ghost sent': seq<Shipment>)
    requires queues.Valid() && from <= |queues.taken| && DataPackets(sent) == Packets(queues.taken[from..])
    requires OnTheWire(transport, sent, before, number, failed) && InStep(transport, sent, number, failed)
    modifies queues, transport
    ensures queues.Valid() && old(queues.arrived) <= queues.arrived && old(queues.taken) <= queues.taken
    ensures sent <= sent' && OnTheWire(transport, sent', before, number, failed)
    ensures DataPackets(sent') <= Packets(queues.taken[from..])
    ensures ok ==> InStep(transport, sent', number, failed) && DataPackets(sent') == Packets(queues.taken[from..])
    ensures old(queues.Waiting()) > 0 ==> |queues.taken| > |old(queues.taken)|
    ensures ok ==> Takes(transport.kernel) + |queues.taken| >= Takes(old(transport.kernel)) + |old(queues.taken)|
    ensures Takes(old(transport.kernel)) + |old(queues.taken)| >= |queues.taken| && transport.Willing() ==> ok
  {
    hide OnWire, Primaries, Primary, Packets, OfClass, Datagrams, DataPackets, Numbered, WriterQueues.Valid, Takes;
    ghost var taken, between, next := queues.taken, transport.wire, transport.number;
    var item := queues.NextWriterPacket();
    if item == None {
      assert queues.taken == taken;
      return true, sent;
    }
    var count;
    ok, count := SendWriterBatch(queues, transport, item.value.class_, item.value.packet);
    ghost var packets := Packets(queues.taken[|taken|..]);
    ghost var batch := Primaries(transport.initial, packets, next);
    JoinTaken(taken, queues.taken, from);
    ghost var n := |packets|;
    assert batch[..n] == batch && packets[..n] == packets;
    if !ok {
      n :| 0 <= n <= |packets| && transport.wire == between + OnWire(batch[..n], transport.Echoed());
    }
    sent' := BatchJoins(sent, before, between, transport.wire, transport.initial, number, failed, packets, next, n, transport.Echoed());
  }

  /** One round with a command. Its outcome goes to whoever gave it; the loop goes on. */
  method CommandRound(transport: TransportWriter, command: Command, ghost sent: seq<Shipment>, ghost before: seq<Datagram>,
                      ghost number: nat, ghost failed: nat) returns (ok: bool, ghost sent': seq<Shipment>)
    requires OnTheWire(transport, sent, before, number, failed) && InStep(transport, sent, number, failed)
    modifies transport
    ensures sent <= sent' && DataPackets(sent') == DataPackets(sent)
    ensures var failed' := if ok then failed else failed + 1;
            OnTheWire(transport, sent', before, number, failed') && InStep(transport, sent', number, failed')
    ensures sent' == if ok then sent + [Shipment(true, Primary(transport.initial, command.packet, old(transport.number)))] else sent
    ensures Takes(transport.kernel) + 1 >= Takes(old(transport.kernel))
    ensures Takes(old(transport.kernel)) > 0 && transport.Willing() && command.acquired ==> ok
  {
    hide OnWire, Primary, Datagrams, Takes;
    ghost var next := transport.number;
    ok := transport.SendBytes(command.packet, command.acquired);
    sent' := sent;
    if ok {
      ghost var d := Primary(transport.initial, command.packet, next);
      sent' := sent + [Shipment(true, d)];
      CommandJoins(sent, d, transport.Echoed());
      PrimaryIs(transport.initial, command.packet, next);
      NumberedMore(sent, [Shipment(true, d)], transport.initial, number, failed, next);
    }
  }

  lemma PrimaryIs(initial: nat, packet: nat, number: nat)
    ensures Primary(initial, packet, number).packet == packet && Primary(initial, packet, number).number == number
  {
  }

  lemma CommandJoins(sent: seq<Shipment>, d: Datagram, echoed: set<nat>)
    ensures OnWire(Datagrams(sent + [Shipment(true, d)]), echoed) == OnWire(Datagrams(sent), echoed) + OnWire([d], echoed)
    ensures DataPackets(sent + [Shipment(true, d)]) == DataPackets(sent)
  {
    DatagramsConcat(sent, [Shipment(true, d)]);
    assert Datagrams([Shipment(true, d)]) == [d];
    OnWireConcat(Datagrams(sent), [d], echoed);
    assert (sent + [Shipment(true, d)])[..|sent|] == sent;
  }

  /** Any number of rounds, some with a command. The wire carries what was sent, with its copies: the
      packets taken from the queues, in the order in which they were taken, all of them unless a batch
      failed, and among them the commands. Sequence numbers are consecutive but for what failed
      commands used up. In each class packets are taken in the order of arrival, at least one in every
      round that has no command while any waits; and a kernel that keeps taking datagrams never makes
      a batch fail. */
  method RunWriter(queues: WriterQueues, transport: TransportWriter, commands: seq<Option<Command>>)
    returns (ok: bool, failed: nat, ghost sent: seq<Shipment>)
    requires queues.Valid() && transport.Idle()
    modifies queues, transport
    ensures queues.Valid() && old(queues.arrived) <= queues.arrived && old(queues.taken) <= queues.taken
    ensures OnTheWire(transport, sent, old(transport.wire), old(transport.number), failed)
    ensures DataPackets(sent) <= Packets(queues.taken[|old(queues.taken)|..])
    ensures ok ==> transport.Idle() && DataPackets(sent) == Packets(queues.taken[|old(queues.taken)|..])
    ensures (forall i :: 0 <= i < |commands| ==> commands[i] == None) ==> failed == 0
    ensures ok ==> |queues.taken| >= |old(queues.taken)| + Least(DataRounds(commands), old(queues.Waiting()))
    ensures transport.Willing() && Takes(old(transport.kernel)) + |old(queues.taken)| >= |queues.taken| + |commands| ==> ok
  {
    ghost var from, number, before, waiting := |queues.taken|, transport.number, transport.wire, queues.Waiting();
    ghost var takes := Takes(transport.kernel);
    ok, failed, sent := true, 0, [];
    Starts(queues, transport);
    assert commands[..0] == [];
    hide Progress, OnTheWire, DataPackets, Packets, WriterQueues.Valid, Takes, DataRounds;
    for i := 0 to |commands|
      invariant ok && old(queues.arrived) <= queues.arrived && old(queues.taken) <= queues.taken
      invariant Progress(queues, transport, sent, before, number, failed, from, waiting, takes, DataRounds(commands[..i]), i)
      invariant failed > 0 ==> exists j :: 0 <= j < i && commands[j] != None
    {
      RoundsMore(commands, i);
      var done;
      ok, done, sent := OneRound(queues, transport, commands[i], sent, before, number, failed, from, waiting, takes,
                                 DataRounds(commands[..i]), i);
      if !done {
        failed := failed + 1;
      }
      if !ok {
        return;
      }
    }
    assert commands[..|commands|] == commands;
    Ends(queues, transport, sent, before, number, failed, from, waiting, takes, DataRounds(commands), |commands|);
  }

  /** How far the loop has got after i rounds. */
  ghost predicate Progress(queues: WriterQueues, transport: TransportWriter, sent: seq<Shipment>, before: seq<Datagram>, number: nat,
                           failed: nat, from: nat, waiting: nat, takes: nat, rounds: nat, i: nat)
    reads queues, transport
  {
    && queues.Valid() && from <= |queues.taken| && |queues.arrived| >= from + waiting
    && OnTheWire(transport, sent, before, number, failed) && InStep(transport, sent, number, failed)
    && DataPackets(sent) == Packets(queues.taken[from..])
    && |queues.taken| >= from + Least(rounds, waiting)
    && Takes(transport.kernel) + |queues.taken| + i >= takes + from
  }

  lemma Starts(queues: WriterQueues, transport: TransportWriter)
    requires queues.Valid() && transport.Idle()
    ensures Progress(queues, transport, [], transport.wire, transport.number, 0, |queues.taken|, queues.Waiting(),
                     Takes(transport.kernel), 0, 0)
  {
    queues.CountsMatch();
    hide WriterQueues.Valid, Takes;
    assert queues.taken[|queues.taken|..] == [];
  }

  lemma Ends(queues: WriterQueues, transport: TransportWriter, sent: seq<Shipment>, before: seq<Datagram>, number: nat,
             failed: nat, from: nat, waiting: nat, takes: nat, rounds: nat, i: nat)
    requires Progress(queues, transport, sent, before, number, failed, from, waiting, takes, rounds, i)
    ensures queues.Valid() && transport.Idle() && from <= |queues.taken| && |queues.taken| >= from + Least(rounds, waiting)
    ensures OnTheWire(transport, sent, before, number, failed) && DataPackets(sent) == Packets(queues.taken[from..])
  {
    hide WriterQueues.Valid, OnTheWire, DataPackets, Packets, Takes;
  }

  /** One round, with a command or without. */
  method OneRound(queues: WriterQueues, transport: TransportWriter, command: Option<Command>, ghost sent: seq<Shipment>,
                  ghost before: seq<Datagram>, ghost number: nat, ghost failed: nat, ghost from: nat, ghost waiting: nat,
                  ghost takes: nat, ghost rounds: nat, ghost i: nat) returns (ok: bool, done: bool, ghost sent': seq<Shipment>)
    requires Progress(queues, transport, sent, before, number, failed, from, waiting, takes, rounds, i)
    modifies queues, transport
    ensures queues.Valid() && old(queues.arrived) <= queues.arrived && old(queues.taken) <= queues.taken
    ensures !done ==> command.Some?
    ensures from <= |queues.taken| && DataPackets(sent') <= Packets(queues.taken[from..])
    ensures OnTheWire(transport, sent', before, number, if done then failed else failed + 1)
    ensures ok ==> Progress(queues, transport, sent', before, number, if done then failed else failed + 1, from, waiting, takes,
                            if command == None then rounds + 1 else rounds, i + 1)
    ensures transport.Willing() && takes + from >= |queues.taken| + i ==> ok
  {
    hide Progress, OnTheWire, DataPackets, Packets, Takes, WriterQueues.Valid;
    if command == None {
      done := true;
      ok, sent' := OneDataRound(queues, transport, sent, before, number, failed, from, waiting, takes, rounds, i);
    } else {
      ok := true;
      done, sent' := OneCommandRound(queues, transport, command.value, sent, before, number, failed, from, waiting, takes, rounds, i);
    }
  }

  method OneDataRound(queues: WriterQueues, transport: TransportWriter, ghost sent: seq<Shipment>, ghost before: seq<Datagram>,
                      ghost number: nat, ghost failed: nat, ghost from: nat, ghost waiting: nat, ghost takes: nat,
                      ghost rounds: nat, ghost i: nat) returns (ok: bool, ghost sent': seq<Shipment>)
    requires Progress(queues, transport, sent, before, number, failed, from, waiting, takes, rounds, i)
    modifies queues, transport
    ensures queues.Valid() && old(queues.arrived) <= queues.arrived && old(queues.taken) <= queues.taken
    ensures from <= |queues.taken| && DataPackets(sent') <= Packets(queues.taken[from..])
    ensures OnTheWire(transport, sent', before, number, failed)
    ensures ok ==> Progress(queues, transport, sent', before, number, failed, from, waiting, takes, rounds + 1, i + 1)
    ensures transport.Willing() && takes + from >= |queues.taken| + i ==> ok
  {
    queues.CountsMatch();
    hide OnTheWire, InStep, DataPackets, Packets, Takes, WriterQueues.Valid, WriterQueues.Waiting;
    ok, sent' := DataRound(queues, transport, sent, before, number, failed, from);
  }

  method OneCommandRound(queues: WriterQueues, transport: TransportWriter, command: Command, ghost sent: seq<Shipment>,
                         ghost before: seq<Datagram>, ghost number: nat, ghost failed: nat, ghost from: nat, ghost waiting: nat,
                         ghost takes: nat, ghost rounds: nat, ghost i: nat) returns (done: bool, ghost sent': seq<Shipment>)
    requires Progress(queues, transport, sent, before, number, failed, from, waiting, takes, rounds, i)
    modifies transport
    ensures queues.Valid() && from <= |queues.taken| && DataPackets(sent') == Packets(queues.taken[from..])
    ensures OnTheWire(transport, sent', before, number, if done then failed else failed + 1)
    ensures Progress(queues, transport, sent', before, number, if done then failed else failed + 1, from, waiting, takes, rounds, i + 1)
  {
    hide OnTheWire, InStep, DataPackets, Packets, Takes, WriterQueues.Valid;
    done, sent' := CommandRound(transport, command, sent, before, number, failed);
  }

  function Least(a: nat, b: nat): nat { if a < b then a else b }

  /** The rounds without a command. */
  function DataRounds(commands: seq<Option<Command>>): nat
  {
    if commands == [] then 0
    else DataRounds(commands[..|commands| - 1]) + if commands[|commands| - 1] == None then 1 else 0
  }

  lemma RoundsMore(commands: seq<Option<Command>>, i: nat)
    requires i < |commands|
    ensures DataRounds(commands[..i + 1]) == DataRounds(commands[..i]) + if commands[i] == None then 1 else 0
  {
    assert commands[..i + 1][..i] == commands[..i];
  }
}
