/** The whole way of one payload: wrap, ChannelData, datagram, strip, unwrap. */
module DataPath {
  import opened Wrappers
  import opened Bytes
  import opened PacketBuffers
  import ChannelData
  import opened Obfuscation
  import ReplayProtection

  /** The length of the datagram that carries a payload. */
  function DatagramLength(config: Config, draws: Draws, payload: nat): nat
  {
    4 + WrappedLength(config, draws, payload) + Padding(WrappedLength(config, draws, payload))
  }

  method Transmit(c: Cipher, config: Config, state: ObfsState, draws: Draws, channel: nat, sender: PacketBuffer)
    returns (sent: Result<nat, WrapError>)
    requires Lawful(c) && config.ssrc < U32 && DrawsFit(config, draws)
    requires state.Valid() && sender.Valid() && ChannelData.IsChannel(channel)
    requires HEADER + 4 <= sender.start < sender.end
    requires sender.start - HEADER - 4 + DatagramLength(config, draws, sender.end - sender.start) <= CAPACITY
    modifies state, sender, sender.storage
    ensures sent == Ok(old(state.Sequence()))
    ensures state.Valid() && state.Sequence() == (old(state.Sequence()) + 1) % 0x1_0000
    ensures var wire := old(WireNow(c, config, state, draws, sender.Slice()));
            && |wire| == WrappedLength(config, draws, old(sender.end - sender.start))
            && sender.Valid() && sender.Slice() == ChannelData.Framed(channel, wire)
  {
    hide Lawful, WireNow, ChannelData.Framed, PaddingBytes;
    sent := Wrap(c, config, state, draws, sender);
    var framed := ChannelData.Encode(sender, channel);
  }

  method Deliver(c: Cipher, mode: Mode, channel: nat, ghost wire: seq<byte>, datagram: seq<byte>, receiver: PacketBuffer)
    returns (received: Result<nat, UnwrapError>)
    requires Lawful(c) && ChannelData.IsChannel(channel) && receiver.Valid()
    requires |datagram| <= READ_AREA && |wire| < 0x1_0000 && datagram == ChannelData.Framed(channel, wire)
    modifies receiver, receiver.storage
    ensures receiver.Valid()
    ensures match Open(c, mode, wire)
            case Err(e) => received == Err(e)
            case Ok(found) => received == Ok(found.sequence) && receiver.Slice() == found.payload
  {
    ChannelData.HeaderOfFramed(channel, wire);
    hide Lawful, Open, ChannelData.Framed, ChannelData.Header;
    var ok := receiver.Receive(datagram);
    ok := ChannelData.Strip(receiver, channel);
    received := Unwrap(c, mode, receiver);
  }

  /** For both modes, every payload and every draw whose datagram fits the receive area, what is
      sent in one buffer is received in another: the same payload and the same sequence number. */
  method SendAndReceive(c: Cipher, config: Config, state: ObfsState, draws: Draws, channel: nat,
                        sender: PacketBuffer, receiver: PacketBuffer)
    returns (sent: Result<nat, WrapError>, received: Result<nat, UnwrapError>)
    requires Lawful(c) && config.ssrc < U32 && config == NewConfig(config.mode, config.ssrc)
    requires DrawsFit(config, draws) && state.Valid() && ChannelData.IsChannel(channel)
    requires sender.Valid() && receiver.Valid() && sender != receiver && sender.storage != receiver.storage
    requires HEADER + 4 <= sender.start < sender.end
    requires sender.start - HEADER - 4 + DatagramLength(config, draws, sender.end - sender.start) <= CAPACITY
    requires DatagramLength(config, draws, sender.end - sender.start) <= READ_AREA
    modifies state, sender, sender.storage, receiver, receiver.storage
    ensures sent == Ok(old(state.Sequence()))
    ensures received == Ok(sent.value)
    ensures receiver.Valid() && receiver.Slice() == old(sender.Slice())
  {
    hide Lawful, NewConfig, DrawsFit, Open, Wire, RtpHeader, ChannelData.Framed, PaddingBytes;
    OpenUndoesWire(c, config, draws.marker, state.Sequence(), state.Timestamp(draws),
                   (state.initialSendTime + draws.absoluteTicks) % U32 % 0x100_0000, state.transportSequence, draws, sender.Slice());
    ghost var wire := WireNow(c, config, state, draws, sender.Slice());
    sent := Transmit(c, config, state, draws, channel, sender);
    received := Deliver(c, config.mode, channel, wire, sender.Slice(), receiver);
  }

  // ----- A run of packets

  const BLOCK: nat := ReplayProtection.BLOCK

  /** The sender's index of each arriving packet: `order[i]` packets were sent before it. */
  function Indices(initial: nat, order: seq<nat>): (indices: seq<nat>)
    ensures |indices| == |order|
  {
    seq(|order|, i requires 0 <= i < |order| => initial + order[i])
  }

  /** The datagram frames a wire form that opens to the payload, under the number. */
  ghost predicate Carries(c: Cipher, mode: Mode, channel: nat, datagram: seq<byte>, wire: seq<byte>, number: nat, payload: seq<byte>)
  {
    && ChannelData.IsChannel(channel) && |wire| < 0x1_0000 && |datagram| <= READ_AREA
    && datagram == ChannelData.Framed(channel, wire)
    && Open(c, mode, wire) == Ok(Opened(number, HEADER, payload))
  }

  predicate Sendable(config: Config, payloads: seq<seq<byte>>, draws: seq<Draws>)
  {
    && |draws| == |payloads|
    && forall i :: 0 <= i < |payloads| ==>
         payloads[i] != [] && DrawsFit(config, draws[i]) && DatagramLength(config, draws[i], |payloads[i]|) <= READ_AREA
  }

  lemma NextNumber(first: nat, i: nat)
    ensures ((first + i) % BLOCK + 1) % BLOCK == (first + i + 1) % BLOCK
  {
  }

  /** Sends one payload from a buffer of its own. */
  method SendOne(c: Cipher, config: Config, state: ObfsState, draws: Draws, channel: nat, payload: seq<byte>)
    returns (datagram: seq<byte>, ghost wire: seq<byte>)
    requires Lawful(c) && config.ssrc < U32 && config == NewConfig(config.mode, config.ssrc)
    requires DrawsFit(config, draws) && state.Valid() && ChannelData.IsChannel(channel)
    requires payload != [] && DatagramLength(config, draws, |payload|) <= READ_AREA
    modifies state
    ensures state.Valid() && state.Sequence() == (old(state.Sequence()) + 1) % BLOCK
    ensures Carries(c, config.mode, channel, datagram, wire, old(state.Sequence()), payload)
  {
    hide Lawful, NewConfig, DrawsFit, Open, Wire, RtpHeader, ChannelData.Framed, PaddingBytes;
    OpenUndoesWire(c, config, draws.marker, state.Sequence(), state.Timestamp(draws),
                   (state.initialSendTime + draws.absoluteTicks) % U32 % 0x100_0000, state.transportSequence, draws, payload);
    wire := WireNow(c, config, state, draws, payload);
    var packet := new PacketBuffer();
    var stored := packet.Receive(payload);
    var sent := Transmit(c, config, state, draws, channel, packet);
    datagram := packet.Slice();
  }

  /** The sender: consecutive packets get consecutive sequence numbers, modulo 2^16. */
  method SendRun(c: Cipher, config: Config, state: ObfsState, draws: seq<Draws>, channel: nat, payloads: seq<seq<byte>>)
    returns (datagrams: seq<seq<byte>>, ghost wires: seq<seq<byte>>)
    requires Lawful(c) && config.ssrc < U32 && config == NewConfig(config.mode, config.ssrc)
    requires Sendable(config, payloads, draws) && state.Valid() && ChannelData.IsChannel(channel)
    modifies state
    ensures |datagrams| == |wires| == |payloads|
    ensures forall i :: 0 <= i < |payloads| ==>
      Carries(c, config.mode, channel, datagrams[i], wires[i], (old(state.Sequence()) + i) % BLOCK, payloads[i])
  {
    hide Carries, Lawful, NewConfig, DrawsFit;
    ghost var first := state.Sequence();
    datagrams, wires := [], [];
    for n := 0 to |payloads|
      invariant state.Valid() && state.Sequence() == (first + n) % BLOCK
      invariant |datagrams| == |wires| == n
      invariant forall i :: 0 <= i < n ==>
        Carries(c, config.mode, channel, datagrams[i], wires[i], (first + i) % BLOCK, payloads[i])
    {
      NextNumber(first, n);
      ghost var wire;
      var datagram;
      datagram, wire := SendOne(c, config, state, draws[n], channel, payloads[n]);
      datagrams, wires := datagrams + [datagram], wires + [wire];
    }
  }

  /** One arrival: received, stripped, unwrapped, and passed on if the replay window accepts it. What
      does not open leaves the window alone. */
  method Inbound(c: Cipher, mode: Mode, channel: nat, window: ReplayProtection.ReplayWindow, datagram: seq<byte>, ghost wire: seq<byte>)
    returns (passed: Option<seq<byte>>)
    requires Lawful(c) && window.Valid() && ChannelData.IsChannel(channel)
    requires |datagram| <= READ_AREA && |wire| < 0x1_0000 && datagram == ChannelData.Framed(channel, wire)
    modifies window, window.seen
    ensures window.Valid()
    ensures match Open(c, mode, wire)
            case Err(_) => passed == None && window.offered == old(window.offered) && window.highest == old(window.highest)
            case Ok(found) =>
              found.sequence < BLOCK &&
              var counter := ReplayProtection.CounterFor(old(window.highest), found.sequence);
              && passed == (if ReplayProtection.Fresh(old(window.offered), counter) then Some(found.payload) else None)
              && window.offered == old(window.offered) + {counter}
              && window.highest == ReplayProtection.Raise(old(window.highest), counter)
    ensures passed.Some? ==> exists number :: OpensTo(c, mode, wire, number, passed.value)
    ensures (forall number, payload :: !OpensTo(c, mode, wire, number, payload)) ==>
      passed == None && window.offered == old(window.offered) && window.highest == old(window.highest)
  {
    OpensExactly(c, mode, wire);
    SequenceFits(c, mode, wire);
    hide Lawful, Open, OpensTo, ChannelData.Framed, ReplayProtection.ReplayWindow.Valid;
    hide ReplayProtection.Fresh, ReplayProtection.CounterFor, ReplayProtection.Raise;
    var packet := new PacketBuffer();
    var received := Deliver(c, mode, channel, wire, datagram, packet);
    if received.Err? {
      return None;
    }
    var ok := window.AcceptRtp(received.value);
    passed := if ok then Some(packet.Slice()) else None;
  }

  lemma SequenceFits(c: Cipher, mode: Mode, wire: seq<byte>)
    ensures Open(c, mode, wire).Ok? ==> Open(c, mode, wire).value.sequence < BLOCK
  {
  }

  /** What is passed on of a run of arrivals: the exact payload of each fresh one. */
  ghost predicate ExactlyFresh(payloads: seq<seq<byte>>, order: seq<nat>, passed: seq<Option<seq<byte>>>)
    requires |passed| <= |order| && forall i :: 0 <= i < |order| ==> order[i] < |payloads|
  {
    forall i :: 0 <= i < |passed| ==>
      passed[i] == if ReplayProtection.Fresh(ReplayProtection.Prefix(order, i), order[i]) then Some(payloads[order[i]]) else None
  }

  /** The receiver, on any recoverable order of arrivals with losses and copies. */
  method ReceiveRun(c: Cipher, mode: Mode, channel: nat, datagrams: seq<seq<byte>>, order: seq<nat>,
                    ghost wires: seq<seq<byte>>, ghost first: nat, ghost payloads: seq<seq<byte>>)
    returns (passed: seq<Option<seq<byte>>>)
    requires Lawful(c) && |datagrams| == |wires| == |payloads| && ChannelData.IsChannel(channel)
    requires forall i :: 0 <= i < |payloads| ==>
      Carries(c, mode, channel, datagrams[i], wires[i], (first + i) % BLOCK, payloads[i])
    requires forall i :: 0 <= i < |order| ==> order[i] < |payloads|
    requires ReplayProtection.InRange(Indices(first, order)) && ReplayProtection.Recoverable(Indices(first, order))
    ensures |passed| == |order| && ExactlyFresh(payloads, order, passed)
  {
    hide Open, OpensTo, ChannelData.Framed, Lawful;
    hide ReplayProtection.Fresh, ReplayProtection.Prefix, ReplayProtection.CounterFor;
    hide ReplayProtection.InRange, ReplayProtection.Recoverable, ReplayProtection.Raise, ReplayProtection.ReplayWindow.Valid;
    ghost var indices := Indices(first, order);
    ghost var numbers := ReplayProtection.WiresOf(indices);
    ghost var counters := ReplayProtection.Counters(numbers);
    var window := new ReplayProtection.ReplayWindow();
    passed := [];
    NoneOffered(counters);
    for n := 0 to |order|
      invariant window.Valid() && fresh(window) && fresh(window.seen)
      invariant window.offered == ReplayProtection.Prefix(counters, n)
      invariant window.highest == ReplayProtection.Highest(numbers, n)
      invariant |passed| == n && ExactlyFresh(payloads, order, passed)
    {
      ReplayProtection.PrefixGrows(counters, n);
      ReplayProtection.RtpAnswersByIndex(indices, n);
      ReplayProtection.ShiftedFresh(order, indices, first, n);
      assert Carries(c, mode, channel, datagrams[order[n]], wires[order[n]], numbers[n], payloads[order[n]]);
      var one := Inbound(c, mode, channel, window, datagrams[order[n]], wires[order[n]]);
      passed := passed + [one];
    }
  }

  lemma NoneOffered(counters: seq<nat>)
    ensures ReplayProtection.Prefix(counters, 0) == {}
  {
  }

  /** Sender and receiver together: whatever order the packets of one sender arrive in, with losses and
      copies, as long as it is recoverable, each payload is passed on exactly once, unchanged, unless
      it arrives a window behind the newest. */
  method SendAndReceiveRun(c: Cipher, config: Config, state: ObfsState, draws: seq<Draws>, channel: nat,
                           payloads: seq<seq<byte>>, order: seq<nat>)
    returns (passed: seq<Option<seq<byte>>>)
    requires Lawful(c) && config.ssrc < U32 && config == NewConfig(config.mode, config.ssrc)
    requires Sendable(config, payloads, draws) && state.Valid() && ChannelData.IsChannel(channel)
    requires forall i :: 0 <= i < |order| ==> order[i] < |payloads|
    requires ReplayProtection.InRange(Indices(state.Sequence(), order))
    requires ReplayProtection.Recoverable(Indices(state.Sequence(), order))
    modifies state
    ensures |passed| == |order| && ExactlyFresh(payloads, order, passed)
  {
    hide Carries, Lawful, ReplayProtection.InRange, ReplayProtection.Recoverable;
    ghost var first := state.Sequence();
    ghost var wires;
    var datagrams;
    datagrams, wires := SendRun(c, config, state, draws, channel, payloads);
    passed := ReceiveRun(c, config.mode, channel, datagrams, order, wires, first, payloads);
  }
}
