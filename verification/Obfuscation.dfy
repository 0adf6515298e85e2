/**
 The RTP-shaped wrapping of a packet in its own buffer, and its inverse. The ciphers are parameters
 of which only their laws are known.
 */
module Obfuscation {
  import opened Wrappers
  import opened Bytes
  import opened PacketBuffers

  const U64: nat := 0x1_0000_0000_0000_0000
  const U32: nat := 0x1_0000_0000
  const HEADER: nat := 24

  datatype Mode = Audio | Video

  datatype Config = Config(paddingMax: nat, ssrc: nat, payloadType: nat, mode: Mode)

  /** The configuration of a mode; the ssrc is drawn at random. */
  function NewConfig(mode: Mode, ssrc: nat): Config
  {
    match mode
    case Audio => Config(24, ssrc, 111, Audio)
    case Video => Config(60, ssrc, 96, Video)
  }

  /** `applyKeystream(iv, data)`, `mac(data)` truncated to ten bytes, and an AEAD whose `seal` yields
      the ciphertext followed by a sixteen-byte tag. */
  datatype Cipher = Cipher(
    applyKeystream: (seq<byte>, seq<byte>) -> seq<byte>,
    mac: seq<byte> -> seq<byte>,
    seal: (seq<byte>, seq<byte>, seq<byte>) -> seq<byte>,
    open: (seq<byte>, seq<byte>, seq<byte>) -> Option<seq<byte>>)

  ghost predicate Lawful(c: Cipher)
  {
    && (forall iv, d :: |c.applyKeystream(iv, d)| == |d|)
    && (forall iv, d {:trigger c.applyKeystream(iv, c.applyKeystream(iv, d))} ::
          c.applyKeystream(iv, c.applyKeystream(iv, d)) == d)
    && (forall d :: |c.mac(d)| == 10)
    && (forall n, a, p :: |c.seal(n, a, p)| == |p| + 16 && c.open(n, a, c.seal(n, a, p)) == Some(p))
    && (forall n, a, x :: c.open(n, a, x).Some? ==> |c.open(n, a, x).value| + 16 == |x|)
  }

  function Nonce(ssrc: nat, sequence: nat, timestamp: nat): (nonce: seq<byte>)
    requires ssrc < U32 && sequence < 0x1_0000 && timestamp < U32
    ensures |nonce| == 12
  {
    ToBe32(ssrc) + ToBe16(sequence) + [0, 0] + ToBe32(timestamp)
  }

  function SrtpIv(ssrc: nat, sequence: nat, timestamp: nat): (iv: seq<byte>)
    requires ssrc < U32 && sequence < 0x1_0000 && timestamp < U32
    ensures |iv| == 16
  {
    Nonce(ssrc, sequence, timestamp) + [0, 0, 0, 0]
  }

  /** Different packets of one source have different nonces: only the same source, sequence number and
      timestamp give the same nonce... */
  lemma NoncesDiffer(ssrc: nat, sequence: nat, timestamp: nat, ssrc': nat, sequence': nat, timestamp': nat)
    requires ssrc < U32 && sequence < 0x1_0000 && timestamp < U32
    requires ssrc' < U32 && sequence' < 0x1_0000 && timestamp' < U32
    ensures Nonce(ssrc, sequence, timestamp) == Nonce(ssrc', sequence', timestamp') <==>
            ssrc == ssrc' && sequence == sequence' && timestamp == timestamp'
  {
    hide ToBe32, ToBe16;
    var n, n' := Nonce(ssrc, sequence, timestamp), Nonce(ssrc', sequence', timestamp');
    assert n[..4] == ToBe32(ssrc) && n[4..6] == ToBe16(sequence) && n[8..] == ToBe32(timestamp);
    assert n'[..4] == ToBe32(ssrc') && n'[4..6] == ToBe16(sequence') && n'[8..] == ToBe32(timestamp');
  }

  /** ... and the counter blocks start at the nonce. */
  lemma IvStartsWithNonce(ssrc: nat, sequence: nat, timestamp: nat)
    requires ssrc < U32 && sequence < 0x1_0000 && timestamp < U32
    ensures SrtpIv(ssrc, sequence, timestamp)[..12] == Nonce(ssrc, sequence, timestamp)
    ensures SrtpIv(ssrc, sequence, timestamp)[12..] == [0, 0, 0, 0]
  {
  }

  /** What the clock and the generator contribute to one packet. */
  datatype Draws = Draws(ticks: nat, absoluteTicks: nat, marker: bool, filler: seq<byte>)

  predicate DrawsFit(config: Config, draws: Draws)
  {
    && draws.ticks < U32 && draws.absoluteTicks < U32
    && if config.paddingMax == 0 then draws.filler == [] else |draws.filler| < config.paddingMax
  }

  /** The last bytes before the tag, or of the packet: filler, then the length of both. */
  function PaddingBytes(draws: Draws): (padding: seq<byte>)
    ensures |padding| == |draws.filler| + 1 && padding[|draws.filler|] == |padding| % 256
  {
    draws.filler + [(|draws.filler| + 1) % 256]
  }

  /** Section 5.1 of RFC 3550 with a two-word header extension. */
  function RtpHeader(config: Config, marker: bool, sequence: nat, timestamp: nat, sendTime: nat, transport: nat): (h: seq<byte>)
    requires sequence < 0x1_0000 && timestamp < U32 && config.ssrc < U32 && transport < 0x1_0000
    ensures |h| == HEADER
  {
    [0xb0, config.payloadType % 128 + if config.payloadType == 96 && marker then 128 else 0]
    + ToBe16(sequence) + ToBe32(timestamp) + ToBe32(config.ssrc)
    + [0xbe, 0xde, 0, 2]
    + [0x32, sendTime / 0x1_0000 % 256, sendTime / 256 % 256, sendTime % 256]
    + [0x51] + ToBe16(transport) + [0]
  }

  /** The wire form of a payload. */
  function Wire(c: Cipher, config: Config, header: seq<byte>, sequence: nat, timestamp: nat, draws: Draws, payload: seq<byte>): seq<byte>
    requires config.ssrc < U32 && sequence < 0x1_0000 && timestamp < U32
  {
    match config.mode
    case Video =>
      var body := header + c.applyKeystream(SrtpIv(config.ssrc, sequence, timestamp), payload) + PaddingBytes(draws);
      body + c.mac(body)
    case Audio =>
      header + c.seal(Nonce(config.ssrc, sequence, timestamp), header, payload) + PaddingBytes(draws)
  }

  predicate RangeFits(config: Config, draws: Draws, start: nat, end: nat)
  {
    HEADER <= start && end + |PaddingBytes(draws)| + (if config.mode.Video? then 10 else 16) <= CAPACITY
  }

  datatype WrapError = EmptyPayload | TooLarge

  /** The sender's counters. */
  class ObfsState {
    var count: nat
    const initialTimestamp: nat
    const initialSendTime: nat
    const initialSequence: nat
    var transportSequence: nat

    ghost predicate Valid()
      reads this
    {
      count < U64 && initialTimestamp < U32 && initialSendTime < 0x100_0000
      && initialSequence < 0x1_0000 && transportSequence < 0x1_0000
    }

    constructor (timestamp: nat, sendTime: nat, sequence: nat, transport: nat)
      requires timestamp < U32 && sendTime < 0x100_0000 && sequence < 0x1_0000 && transport < 0x1_0000
      ensures Valid() && count == 0 && initialSequence == sequence
    {
      count := 0;
      initialTimestamp, initialSendTime := timestamp, sendTime;
      initialSequence, transportSequence := sequence, transport;
    }

    /** The RTP sequence number of the next packet. */
    function Sequence(): (n: nat)
      requires Valid()
      reads this
      ensures n == (initialSequence + count) % 0x1_0000
    {
      (initialSequence + count % 0x1_0000) % 0x1_0000
    }

    function Header(config: Config, draws: Draws): (h: seq<byte>)
      requires Valid() && config.ssrc < U32
      reads this
      ensures |h| == HEADER
    {
      RtpHeader(config, draws.marker, Sequence(), Timestamp(draws),
                (initialSendTime + draws.absoluteTicks) % U32 % 0x100_0000, transportSequence)
    }

    function Timestamp(draws: Draws): (n: nat)
      requires Valid()
      reads this
      ensures n < U32 && (draws.ticks < U32 ==> (n + U32 - initialTimestamp) % U32 == draws.ticks)
    {
      (initialTimestamp + draws.ticks) % U32
    }

    method Next()
      requires Valid()
      modifies this
      ensures Valid()
      ensures count == (old(count) + 1) % U64 && Sequence() == (old(Sequence()) + 1) % 0x1_0000
      ensures transportSequence == (old(transportSequence) + 1) % 0x1_0000
    {
      NextSequence(initialSequence, count);
      count := (count + 1) % U64;
      transportSequence := (transportSequence + 1) % 0x1_0000;
    }
  }

  /** The count's own wrap does not disturb the sequence numbers. */
  lemma NextSequence(initial: nat, count: nat)
    requires count < U64
    ensures (initial + (count + 1) % U64) % 0x1_0000 == ((initial + count) % 0x1_0000 + 1) % 0x1_0000
  {
    assert count + 1 < U64 || count + 1 == U64;
  }

  /** The wire form the sender's state gives to a payload. */
  ghost function WireNow(c: Cipher, config: Config, state: ObfsState, draws: Draws, payload: seq<byte>): (wire: seq<byte>)
    requires Lawful(c) && config.ssrc < U32 && state.Valid()
    reads state
    ensures |wire| == WrappedLength(config, draws, |payload|)
  {
    Wire(c, config, state.Header(config, draws), state.Sequence(), state.Timestamp(draws), draws, payload)
  }

  function WrappedLength(config: Config, draws: Draws, payload: nat): nat
  {
    HEADER + payload + |PaddingBytes(draws)| + if config.mode.Video? then 10 else 16
  }

  /** Wraps a packet in place. The counters move on even when the packet turns out too large. */
  method Wrap(c: Cipher, config: Config, state: ObfsState, draws: Draws, packet: PacketBuffer)
    returns (r: Result<nat, WrapError>)
    requires Lawful(c) && config.ssrc < U32 && DrawsFit(config, draws)
    requires packet.Valid() && state.Valid()
    modifies packet, packet.storage, state
    ensures packet.Valid() && state.Valid()
    ensures var payload := old(packet.Slice());
            if payload == [] then
              r == Err(EmptyPayload) && packet.Slice() == payload && state.count == old(state.count)
            else
              && state.count == (old(state.count) + 1) % U64
              && state.Sequence() == (old(state.Sequence()) + 1) % 0x1_0000
              && if RangeFits(config, draws, old(packet.start), old(packet.end)) then
                   && r == Ok(old(state.Sequence()))
                   && packet.start == old(packet.start) - HEADER
                   && packet.Slice() == old(WireNow(c, config, state, draws, packet.Slice()))
                 else
                   r == Err(TooLarge) && packet.Slice() == payload
  {
    if packet.start == packet.end {
      return Err(EmptyPayload);
    }
    var sequence, timestamp, header := state.Sequence(), state.Timestamp(draws), state.Header(config, draws);
    state.Next();
    var padding := PaddingBytes(draws);
    var s, e, a := packet.start, packet.end, packet.storage;
    var tail := |padding| + if config.mode.Video? then 10 else 16;
    if s < HEADER || e + tail > CAPACITY {
      return Err(TooLarge);
    }
    WriteHeader(packet, header);
    if config.mode.Video? {
      SealVideo(c, SrtpIv(config.ssrc, sequence, timestamp), header, padding, packet);
    } else {
      SealAudio(c, Nonce(config.ssrc, sequence, timestamp), header, padding, packet);
    }
    r := Ok(sequence);
  }

  method WriteHeader(packet: PacketBuffer, header: seq<byte>)
    requires packet.Valid() && |header| <= packet.start
    modifies packet, packet.storage
    ensures packet.Valid() && packet.start == old(packet.start) - |header| && packet.end == old(packet.end)
    ensures packet.Slice() == header + old(packet.Slice())
  {
    PatchPrepend(packet.storage[..], packet.start, packet.end, header);
    var room := packet.Prepend(|header|);
    Write(packet.storage, packet.start, header);
  }

  /** Overwrites the packet from `at` bytes into it, growing it if the bytes reach past its end. */
  method WriteFrom(packet: PacketBuffer, at: nat, bytes: seq<byte>)
    requires packet.Valid() && packet.end <= packet.start + at + |bytes| <= CAPACITY
    requires packet.start + at <= packet.end
    modifies packet, packet.storage
    ensures packet.Valid() && packet.start == old(packet.start)
    ensures packet.Slice() == old(packet.Slice())[..at] + bytes
  {
    var s, a := packet.start, packet.storage;
    PatchAppend(a[..], s, s + at, bytes);
    assert a[s..packet.end][..at] == a[s..s + at];
    var room := packet.ExtendTail(s + at + |bytes| - packet.end);
    Write(a, s + at, bytes);
  }

  /** SRTP-like: keystream over the payload, padding, and a tag over everything before it. */
  method SealVideo(c: Cipher, iv: seq<byte>, header: seq<byte>, padding: seq<byte>, packet: PacketBuffer)
    requires Lawful(c) && packet.Valid() && header <= packet.Slice() && packet.end + |padding| + 10 <= CAPACITY
    modifies packet, packet.storage
    ensures packet.Valid() && packet.start == old(packet.start)
    ensures var body := header + c.applyKeystream(iv, old(packet.Slice())[|header|..]) + padding;
            packet.Slice() == body + c.mac(body)
  {
    var encrypted := c.applyKeystream(iv, packet.Slice()[|header|..]);
    var body := header + encrypted + padding;
    WriteFrom(packet, |header|, encrypted);
    assert packet.Slice() == header + encrypted;
    WriteFrom(packet, |header| + |encrypted|, padding);
    assert packet.Slice() == body;
    WriteFrom(packet, |body|, c.mac(body));
    assert packet.Slice() == body + c.mac(body);
  }

  /** AEAD over the payload with the header as associated data, then padding. */
  method SealAudio(c: Cipher, nonce: seq<byte>, header: seq<byte>, padding: seq<byte>, packet: PacketBuffer)
    requires Lawful(c) && packet.Valid() && header <= packet.Slice() && packet.end + |padding| + 16 <= CAPACITY
    modifies packet, packet.storage
    ensures packet.Valid() && packet.start == old(packet.start)
    ensures packet.Slice() == header + c.seal(nonce, header, old(packet.Slice())[|header|..]) + padding
  {
    var sealed := c.seal(nonce, header, packet.Slice()[|header|..]);
    WriteFrom(packet, |header|, sealed);
    assert packet.Slice() == header + sealed;
    WriteFrom(packet, |header| + |sealed|, padding);
    assert packet.Slice() == header + sealed + padding;
  }

  // ----- Unwrapping

  datatype UnwrapError =
    | NotRtp | UnsupportedType | NoExtension | ShortHeader | NoTag | BadTag | BadPadding | NotAudio | NoPayload

  predicate IsRtpPacket(wire: seq<byte>)
  {
    |wire| >= 13 && wire[0] / 64 == 2 && wire[1] % 128 in {111, 96, 6}
  }

  predicate HasExtension(wire: seq<byte>) requires |wire| > 0 { wire[0] / 16 % 2 == 1 }

  predicate HasPadding(wire: seq<byte>) requires |wire| > 0 { wire[0] / 32 % 2 == 1 }

  /** The header length that the extension bit and the extension's length field announce. */
  function HeaderLength(wire: seq<byte>): (r: Result<nat, UnwrapError>)
    requires |wire| >= 13
    ensures r.Ok? ==> 12 <= r.value <= |wire|
  {
    if HasExtension(wire) && |wire| < 16 then Err(NoExtension)
    else
      var length := if HasExtension(wire) then 16 + 4 * Be16(wire[14], wire[15]) else 12;
      if |wire| < length then Err(ShortHeader) else Ok(length)
  }

  /** The end of the content once the padding announced by its last byte is taken off. */
  function ContentEnd(wire: seq<byte>, header: nat, end: nat): (r: Result<nat, UnwrapError>)
    requires 12 <= header <= end <= |wire|
    ensures r.Ok? ==> header <= r.value <= end
  {
    if !HasPadding(wire) then Ok(end)
    else
      var padding := wire[end - 1];
      if padding == 0 || padding > end - header then Err(BadPadding) else Ok(end - padding)
  }

  /** Where the payload lies in the wire form and what it is once decrypted. */
  datatype Opened = Opened(sequence: nat, start: nat, payload: seq<byte>)

  function OpenVideo(c: Cipher, wire: seq<byte>, header: nat): Result<Opened, UnwrapError>
    requires 13 <= |wire| && 12 <= header <= |wire|
  {
    if |wire| < header + 10 then Err(NoTag)
    else
      var end := |wire| - 10;
      if c.mac(wire[..end]) != wire[end..] then Err(BadTag)
      else
        match ContentEnd(wire, header, end)
        case Err(e) => Err(e)
        case Ok(stop) => Ok(Opened(SequenceOf(wire), header, c.applyKeystream(IvOf(wire), wire[header..stop])))
  }

  function OpenAudio(c: Cipher, wire: seq<byte>, header: nat): Result<Opened, UnwrapError>
    requires 13 <= |wire| && 12 <= header <= |wire|
  {
    if wire[1] % 128 != 111 then Err(NotAudio)
    else
      match ContentEnd(wire, header, |wire|)
      case Err(e) => Err(e)
      case Ok(stop) =>
        if stop <= header + 16 then Err(NoPayload)
        else
          match c.open(IvOf(wire)[..12], wire[..header], wire[header..stop])
          case None => Err(BadTag)
          case Some(payload) => Ok(Opened(SequenceOf(wire), header, payload))
  }

  function Open(c: Cipher, mode: Mode, wire: seq<byte>): Result<Opened, UnwrapError>
  {
    if |wire| < 13 || wire[0] / 64 != 2 then Err(NotRtp)
    else if wire[1] % 128 !in {111, 96, 6} then Err(UnsupportedType)
    else
      match HeaderLength(wire)
      case Err(e) => Err(e)
      case Ok(header) => if mode.Video? then OpenVideo(c, wire, header) else OpenAudio(c, wire, header)
  }

  function SequenceOf(wire: seq<byte>): nat
    requires |wire| >= 13
  {
    Be16(wire[2], wire[3])
  }

  function IvOf(wire: seq<byte>): (iv: seq<byte>)
    requires |wire| >= 13
    ensures |iv| == 16
  {
    SrtpIv(Be32(wire[8..12]), SequenceOf(wire), Be32(wire[4..8]))
  }

  // ----- What may be opened, on arbitrary bytes

  /** The header ends at `header`: twelve bytes, or with an extension, sixteen and its words. */
  predicate HeaderEndsAt(wire: seq<byte>, header: nat)
  {
    && IsRtpPacket(wire) && header <= |wire|
    && if HasExtension(wire) then |wire| >= 16 && header == 16 + 4 * Be16(wire[14], wire[15]) else header == 12
  }

  /** Between header and end the content ends at `stop`, where the padding begins, if there is any. */
  predicate ContentEndsAt(wire: seq<byte>, header: nat, end: nat, stop: nat)
    requires 12 <= header <= end <= |wire|
  {
    header <= stop && if HasPadding(wire) then stop < end && wire[end - 1] == end - stop else stop == end
  }

  /** The bytes are a packet of the sequence number that carries the payload and is authentic: in video
      mode its last ten bytes are the tag of all before them, in audio mode the cipher accepts what
      lies between header and padding, with the header as associated data. */
  ghost predicate OpensTo(c: Cipher, mode: Mode, wire: seq<byte>, sequence: nat, payload: seq<byte>)
  {
    exists header, stop :: OpensAt(c, mode, wire, header, stop, sequence, payload)
  }

  ghost predicate OpensAt(c: Cipher, mode: Mode, wire: seq<byte>, header: nat, stop: nat, sequence: nat, payload: seq<byte>)
  {
    && HeaderEndsAt(wire, header) && sequence == SequenceOf(wire)
    && match mode
       case Video =>
         && header + 10 <= |wire| && ContentEndsAt(wire, header, |wire| - 10, stop)
         && wire[|wire| - 10..] == c.mac(wire[..|wire| - 10])
         && payload == c.applyKeystream(IvOf(wire), wire[header..stop])
       case Audio =>
         && wire[1] % 128 == 111 && ContentEndsAt(wire, header, |wire|, stop) && header + 16 < stop
         && c.open(IvOf(wire)[..12], wire[..header], wire[header..stop]) == Some(payload)
  }

  lemma OpenedIsWhole(c: Cipher, mode: Mode, wire: seq<byte>)
    ensures var r := Open(c, mode, wire);
            r.Ok? ==> OpensTo(c, mode, wire, r.value.sequence, r.value.payload)
  {
    hide IvOf;
    var r := Open(c, mode, wire);
    if r.Ok? {
      var header := r.value.start;
      var stop := ContentEnd(wire, header, if mode.Video? then |wire| - 10 else |wire|).value;
      assert OpensAt(c, mode, wire, header, stop, r.value.sequence, r.value.payload);
    }
  }

  lemma HeaderIsUnique(wire: seq<byte>, header: nat)
    requires HeaderEndsAt(wire, header)
    ensures HeaderLength(wire) == Ok(header)
  {
  }

  lemma ContentIsUnique(wire: seq<byte>, header: nat, end: nat, stop: nat)
    requires 12 <= header <= end <= |wire| && ContentEndsAt(wire, header, end, stop)
    ensures ContentEnd(wire, header, end) == Ok(stop)
  {
  }

  lemma WholeIsOpened(c: Cipher, mode: Mode, wire: seq<byte>, header: nat, stop: nat, sequence: nat, payload: seq<byte>)
    ensures OpensAt(c, mode, wire, header, stop, sequence, payload) ==> Open(c, mode, wire).Ok?
  {
    hide IvOf, HeaderLength, ContentEnd;
    if OpensAt(c, mode, wire, header, stop, sequence, payload) {
      HeaderIsUnique(wire, header);
      ContentIsUnique(wire, header, if mode.Video? then |wire| - 10 else |wire|, stop);
    }
  }

  /** That is exactly what opens. */
  lemma OpensExactly(c: Cipher, mode: Mode, wire: seq<byte>)
    ensures var r := Open(c, mode, wire);
            if r.Ok? then OpensTo(c, mode, wire, r.value.sequence, r.value.payload)
            else forall n, payload :: !OpensTo(c, mode, wire, n, payload)
  {
    hide Open, OpensAt;
    OpenedIsWhole(c, mode, wire);
    forall header, stop, n, payload
      ensures OpensAt(c, mode, wire, header, stop, n, payload) ==> Open(c, mode, wire).Ok?
    {
      WholeIsOpened(c, mode, wire, header, stop, n, payload);
    }
  }

  /** A packet that is whole in every other respect but carries a wrong tag fails for that reason. */
  lemma WrongTagFails(c: Cipher, wire: seq<byte>, header: nat)
    requires HeaderEndsAt(wire, header) && header + 10 <= |wire|
    requires wire[|wire| - 10..] != c.mac(wire[..|wire| - 10])
    ensures Open(c, Video, wire) == Err(BadTag)
  {
  }

  lemma RefusedFails(c: Cipher, wire: seq<byte>, header: nat, stop: nat)
    requires HeaderEndsAt(wire, header) && wire[1] % 128 == 111
    requires ContentEndsAt(wire, header, |wire|, stop) && header + 16 < stop
    ensures c.open(IvOf(wire)[..12], wire[..header], wire[header..stop]) == None ==> Open(c, Audio, wire) == Err(BadTag)
  {
    hide IvOf;
  }

  /** Padding that says zero, or more than there is, fails for that reason. */
  lemma WrongPaddingFails(c: Cipher, wire: seq<byte>, header: nat)
    requires HeaderEndsAt(wire, header) && header < |wire| && HasPadding(wire) && wire[1] % 128 == 111
    requires wire[|wire| - 1] == 0 || wire[|wire| - 1] > |wire| - header
    ensures Open(c, Audio, wire) == Err(BadPadding)
  {
  }

  /** Decrypts in place and narrows the range to the payload; on an error the range stays. */
  method Unwrap(c: Cipher, mode: Mode, packet: PacketBuffer) returns (r: Result<nat, UnwrapError>)
    requires Lawful(c) && packet.Valid()
    modifies packet, packet.storage
    ensures packet.Valid()
    ensures match old(Open(c, mode, packet.Slice()))
            case Err(e) => r == Err(e) && packet.start == old(packet.start) && packet.end == old(packet.end)
            case Ok(found) => r == Ok(found.sequence) && packet.Slice() == found.payload
    ensures r.Ok? ==> OpensTo(c, mode, old(packet.Slice()), r.value, packet.Slice())
    ensures r.Err? ==> forall n, payload :: !OpensTo(c, mode, old(packet.Slice()), n, payload)
  {
    OpensExactly(c, mode, packet.Slice());
    hide OpensTo;
    var wire := packet.Slice();
    if |wire| < 13 || wire[0] / 64 != 2 {
      return Err(NotRtp);
    }
    if wire[1] % 128 !in {111, 96, 6} {
      return Err(UnsupportedType);
    }
    var length := HeaderLength(wire);
    if length.Err? {
      return Err(length.error);
    }
    var found := if mode.Video? then OpenVideo(c, wire, length.value) else OpenAudio(c, wire, length.value);
    if found.Err? {
      return Err(found.error);
    }
    var Opened(sequence, header, payload) := found.value;
    var from := packet.start + header;
    PatchSlice(packet.storage[..], from, payload);
    Write(packet.storage, from, payload);
    var narrowed := packet.SetRange(from, from + |payload|);
    r := Ok(sequence);
  }

  // ----- Unwrapping undoes wrapping

  /** The bytes start with a header of the configuration that carries the sequence number and time. */
  predicate StartsWithHeader(wire: seq<byte>, config: Config, sequence: nat, timestamp: nat)
    requires sequence < 0x1_0000 && timestamp < U32 && config.ssrc < U32
  {
    && HEADER <= |wire| && wire[0] == 0xb0 && wire[1] % 128 == config.payloadType % 128
    && [wire[2], wire[3]] == ToBe16(sequence) && [wire[14], wire[15]] == [0, 2]
    && wire[4..8] == ToBe32(timestamp) && wire[8..12] == ToBe32(config.ssrc)
  }

  /** What is written in front of a packet is such a header... */
  lemma HeaderIsWritten(config: Config, marker: bool, sequence: nat, timestamp: nat, sendTime: nat, transport: nat, rest: seq<byte>)
    requires sequence < 0x1_0000 && timestamp < U32 && config.ssrc < U32 && transport < 0x1_0000
    ensures var header := RtpHeader(config, marker, sequence, timestamp, sendTime, transport);
            (header + rest)[..HEADER] == header && StartsWithHeader(header + rest, config, sequence, timestamp)
  {
    var number, time, source, extra := ToBe16(sequence), ToBe32(timestamp), ToBe32(config.ssrc), ToBe16(transport);
    hide ToBe16, ToBe32;
    var header := RtpHeader(config, marker, sequence, timestamp, sendTime, transport);
    var wire := header + rest;
    assert wire[..HEADER] == header;
    assert header[2..4] == number && header[4..8] == time && header[8..12] == source;
    assert wire[2..4] == number && wire[4..8] == time && wire[8..12] == source;
    assert wire[2] == number[0] && wire[3] == number[1];
  }

  /** ... its marker bit is set at most for video, and its extension carries the send time in three
      bytes and the transport sequence number. */
  lemma ExtensionIsWritten(config: Config, marker: bool, sequence: nat, timestamp: nat, sendTime: nat, transport: nat)
    requires sequence < 0x1_0000 && timestamp < U32 && config.ssrc < U32 && transport < 0x1_0000 && sendTime < 0x100_0000
    ensures var h := RtpHeader(config, marker, sequence, timestamp, sendTime, transport);
            && (h[1] >= 128 <==> marker && config.payloadType == 96)
            && h[12..14] == [0xbe, 0xde] && h[16] == 0x32 && h[20] == 0x51 && h[23] == 0
            && Be32([0] + h[17..20]) == sendTime && Be16(h[21], h[22]) == transport
  {
    var number, time, source, extra := ToBe16(sequence), ToBe32(timestamp), ToBe32(config.ssrc), ToBe16(transport);
    hide ToBe16, ToBe32;
    var h := RtpHeader(config, marker, sequence, timestamp, sendTime, transport);
    assert h[21..23] == extra;
    assert h[21] == extra[0] && h[22] == extra[1];
    assert [0] + h[17..20] == [0, h[17], h[18], h[19]];
    SendTimeBytes(sendTime);
  }

  lemma SendTimeBytes(n: nat)
    requires n < 0x100_0000
    ensures Be32([0, n / 0x1_0000 % 256, n / 256 % 256, n % 256]) == n
  {
    var a := n / 256;
    assert n == 256 * a + n % 256 && a == 256 * (a / 256) + a % 256;
    assert n / 0x1_0000 == a / 256;
  }

  /** ... and reads back as one. */
  lemma HeaderReadsBack(wire: seq<byte>, config: Config, sequence: nat, timestamp: nat)
    requires sequence < 0x1_0000 && timestamp < U32 && config.ssrc < U32 && config.payloadType in {111, 96}
    requires StartsWithHeader(wire, config, sequence, timestamp)
    ensures IsRtpPacket(wire) && wire[1] % 128 == config.payloadType && HasPadding(wire) && HeaderLength(wire) == Ok(HEADER)
    ensures SequenceOf(wire) == sequence && IvOf(wire) == SrtpIv(config.ssrc, sequence, timestamp)
  {
    hide ToBe16, ToBe32, Be32, SrtpIv;
    assert Be16(wire[14], wire[15]) == 2;
    assert ToBe16(sequence)[0] == wire[2] && ToBe16(sequence)[1] == wire[3];
  }

  /** The last byte of the padding says how long the padding is. */
  lemma PaddingReadsBack(wire: seq<byte>, header: nat, draws: Draws, stop: nat)
    requires |draws.filler| < 255 && 12 <= header <= stop && stop + |PaddingBytes(draws)| <= |wire|
    requires HasPadding(wire) && wire[stop..stop + |PaddingBytes(draws)|] == PaddingBytes(draws)
    ensures ContentEnd(wire, header, stop + |PaddingBytes(draws)|) == Ok(stop)
  {
  }

  /** A keystream over the payload, padding that reads back, and the tag of everything before it. */
  lemma VideoOpens(c: Cipher, wire: seq<byte>, stop: nat, payload: seq<byte>)
    requires Lawful(c) && HEADER <= stop && stop + 10 <= |wire|
    requires wire[|wire| - 10..] == c.mac(wire[..|wire| - 10]) && ContentEnd(wire, HEADER, |wire| - 10) == Ok(stop)
    ensures wire[HEADER..stop] == c.applyKeystream(IvOf(wire), payload) ==>
            OpenVideo(c, wire, HEADER) == Ok(Opened(SequenceOf(wire), HEADER, payload))
  {
  }

  /** A payload sealed with the header, and padding that reads back. */
  lemma AudioOpens(c: Cipher, wire: seq<byte>, stop: nat, payload: seq<byte>)
    requires Lawful(c) && payload != [] && HEADER <= stop <= |wire| && wire[1] % 128 == 111
    requires ContentEnd(wire, HEADER, |wire|) == Ok(stop)
    ensures wire[HEADER..stop] == c.seal(IvOf(wire)[..12], wire[..HEADER], payload) ==>
            OpenAudio(c, wire, HEADER) == Ok(Opened(SequenceOf(wire), HEADER, payload))
  {
  }

  /** What either mode wraps, the same mode unwraps to the same payload and sequence number. */
  lemma OpenUndoesWire(c: Cipher, config: Config, marker: bool, sequence: nat, timestamp: nat, sendTime: nat, transport: nat,
                       draws: Draws, payload: seq<byte>)
    requires Lawful(c) && sequence < 0x1_0000 && timestamp < U32 && config.ssrc < U32 && transport < 0x1_0000
    requires config == NewConfig(config.mode, config.ssrc) && DrawsFit(config, draws) && payload != []
    ensures var header := RtpHeader(config, marker, sequence, timestamp, sendTime, transport);
            Open(c, config.mode, Wire(c, config, header, sequence, timestamp, draws, payload)) == Ok(Opened(sequence, HEADER, payload))
  {
    hide RtpHeader, HeaderLength, IvOf, SequenceOf, StartsWithHeader, PaddingBytes, ContentEnd, OpenVideo, OpenAudio, Nonce;
    var header := RtpHeader(config, marker, sequence, timestamp, sendTime, transport);
    var wire := Wire(c, config, header, sequence, timestamp, draws, payload);
    assert wire == header + wire[HEADER..];
    HeaderIsWritten(config, marker, sequence, timestamp, sendTime, transport, wire[HEADER..]);
    HeaderReadsBack(wire, config, sequence, timestamp);
    var padding := PaddingBytes(draws);
    match config.mode {
      case Video =>
        var encrypted := c.applyKeystream(IvOf(wire), payload);
        var body, stop := header + encrypted + padding, HEADER + |payload|;
        assert wire == body + c.mac(body);
        assert wire[..|wire| - 10] == body && wire[|wire| - 10..] == c.mac(body);
        assert wire[stop..stop + |padding|] == padding && wire[HEADER..stop] == encrypted;
        PaddingReadsBack(wire, HEADER, draws, stop);
        VideoOpens(c, wire, stop, payload);
      case Audio =>
        var sealed := c.seal(Nonce(config.ssrc, sequence, timestamp), header, payload);
        var stop := HEADER + |sealed|;
        assert wire == header + sealed + padding;
        assert wire[stop..stop + |padding|] == padding && wire[HEADER..stop] == sealed;
        assert IvOf(wire)[..12] == Nonce(config.ssrc, sequence, timestamp);
        PaddingReadsBack(wire, HEADER, draws, stop);
        AudioOpens(c, wire, stop, payload);
    }
  }
}
