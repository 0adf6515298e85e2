/** TURN ChannelData framing of a packet in its own buffer: section 11.4 of RFC 5766. */
module ChannelData {
  import opened Wrappers
  import opened Bytes
  import opened PacketBuffers

  predicate IsChannel(channel: nat) { 0x4000 <= channel < 0x8000 }

  /** Channel numbers are those whose frames start with the bits 01. */
  lemma ChannelsAreMarked(channel: nat)
    requires channel < 0x1_0000
    ensures IsChannel(channel) <==> ToBe16(channel)[0] / 64 == 1
  {
  }

  /** The framed form of a payload. */
  function Framed(channel: nat, payload: seq<byte>): (wire: seq<byte>)
    requires IsChannel(channel) && |payload| < 0x1_0000
    ensures |wire| == 4 + |payload| + Padding(|payload|)
  {
    ToBe16(channel) + ToBe16(|payload|) + payload + Zeros(Padding(|payload|))
  }

  /** Channel and payload length of a datagram that carries ChannelData. */
  function Header(wire: seq<byte>): (r: Option<(nat, nat)>)
    ensures r.Some? ==> IsChannel(r.value.0) && 4 + r.value.1 <= |wire| <= 4 + r.value.1 + 3
  {
    if |wire| < 4 || wire[0] / 64 != 1 then None
    else
      var channel, length := Be16(wire[0], wire[1]), Be16(wire[2], wire[3]);
      if !IsChannel(channel) || length > |wire| - 4 || |wire| - 4 - length > 3 then None
      else Some((channel, length))
  }

  /** Whether the buffer has room for the four header bytes and the padding. */
  predicate Fits(start: nat, end: nat)
  {
    start <= end && 4 <= start && end + Padding(end - start) <= CAPACITY
  }

  method Encode(packet: PacketBuffer, channel: nat) returns (ok: bool)
    requires packet.Valid()
    modifies packet, packet.storage
    ensures packet.Valid()
    ensures ok <==> IsChannel(channel) && Fits(old(packet.start), old(packet.end))
    ensures ok ==> packet.Slice() == Framed(channel, old(packet.Slice()))
    ensures !ok ==> packet.Slice() == old(packet.Slice())
  {
    var length := packet.end - packet.start;
    var padding := Padding(length);
    if !IsChannel(channel) || packet.start < 4 || packet.end + padding > CAPACITY {
      return false;
    }
    ghost var payload := packet.Slice();
    var s, e, a := packet.start, packet.end, packet.storage;
    var header := ToBe16(channel) + ToBe16(length);
    PatchAround(a[..], s, e, header, Zeros(padding));
    ok := packet.ExtendTail(padding);
    Write(a, e, Zeros(padding));
    ok := packet.Prepend(4);
    Write(a, s - 4, header);
  }

  /** The ChannelData branch of packet processing: strip the header and the padding of what comes on
      the bound channel. */
  method Strip(packet: PacketBuffer, bound: nat) returns (ok: bool)
    requires packet.Valid()
    modifies packet
    ensures packet.Valid()
    ensures var header := Header(old(packet.Slice()));
            if header == None || header.value.0 != bound then !ok && packet.Slice() == old(packet.Slice())
            else ok && packet.Slice() == old(packet.Slice())[4..4 + header.value.1]
  {
    var header := Header(packet.Slice());
    if header == None || header.value.0 != bound {
      return false;
    }
    ok := packet.TrimFront(4);
    if ok {
      ok := packet.Truncate(header.value.1);
    }
  }

  lemma HeaderOfFramed(channel: nat, payload: seq<byte>)
    requires IsChannel(channel) && |payload| < 0x1_0000
    ensures Header(Framed(channel, payload)) == Some((channel, |payload|))
    ensures Framed(channel, payload)[4..4 + |payload|] == payload
  {
  }
}
