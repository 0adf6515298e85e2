/**
 The incremental reader of a TURN stream: STUN control frames and padded ChannelData frames are cut
 out of a byte buffer that grows by whatever each read returns.
 */
module TurnStream {
  import opened Wrappers
  import opened Bytes

  const MAX_CONTROL_FRAME_BYTES: nat := 4096
  const MAX_DATA_FRAME_BYTES: nat := 2304 - 64
  const STREAM_READ_BUFFER_BYTES: nat := MAX_CONTROL_FRAME_BYTES
  const MAGIC_COOKIE: seq<byte> := [0x21, 0x12, 0xa4, 0x42]

  datatype Error = UnalignedControl | ControlTooLong | BadCookie | ReservedType | DataTooLong | Closed

  datatype FrameKind = ControlFrame(bytes: nat) | ChannelData(bytes: nat, padding: nat)

  /** A frame as cut from the stream, with its padding. */
  datatype Cut = ControlCut(wire: seq<byte>) | DataCut(wire: seq<byte>)

  /** What the reader hands on: data is dropped when the packet pool is empty. */
  datatype Frame = Control(wire: seq<byte>) | Data(wire: seq<byte>) | DataDropped

  /** The first two bits of a byte tell control frames (00) from ChannelData (01). */
  function FrameStart(bytes: seq<byte>): Result<Option<FrameKind>, Error>
  {
    if |bytes| < 4 then Ok(None)
    else
      var declared := Be16(bytes[2], bytes[3]);
      if bytes[0] / 64 == 0 then
        if declared % 4 != 0 then Err(UnalignedControl)
        else if 20 + declared > MAX_CONTROL_FRAME_BYTES then Err(ControlTooLong)
        else if |bytes| < 8 then Ok(None)
        else if bytes[4..8] != MAGIC_COOKIE then Err(BadCookie)
        else Ok(Some(ControlFrame(20 + declared)))
      else if bytes[0] / 64 != 1 then Err(ReservedType)
      else if 4 + declared + Padding(declared) > MAX_DATA_FRAME_BYTES then Err(DataTooLong)
      else Ok(Some(ChannelData(4 + declared, Padding(declared))))
  }

  /** The first frame of the bytes, if they hold all of it. */
  function Decode(bytes: seq<byte>): (r: Result<Option<Cut>, Error>)
    ensures r.Ok? && r.value.Some? ==> 4 <= |r.value.value.wire| && r.value.value.wire <= bytes
  {
    match FrameStart(bytes)
    case Err(e) => Err(e)
    case Ok(None) => Ok(None)
    case Ok(Some(ControlFrame(n))) =>
      if |bytes| < n then Ok(None) else Ok(Some(ControlCut(bytes[..n])))
    case Ok(Some(ChannelData(n, padding))) =>
      if |bytes| < n + padding then Ok(None) else Ok(Some(DataCut(bytes[..n + padding])))
  }

  /** Every frame of a byte stream, what is left over, and the error that stopped it, if any. */
  datatype Parsed = Parsed(cuts: seq<Cut>, rest: seq<byte>, error: Option<Error>)

  function Parse(bytes: seq<byte>): Parsed
    decreases |bytes|
  {
    match Decode(bytes)
    case Err(e) => Parsed([], bytes, Some(e))
    case Ok(None) => Parsed([], bytes, None)
    case Ok(Some(cut)) =>
      var tail := Parse(bytes[|cut.wire|..]);
      tail.(cuts := [cut] + tail.cuts)
  }

  /** What a read returns; a read of nothing is the end of the stream. */
  type Read = bytes: seq<byte> | bytes != [] witness [0]

  function Concat(chunks: seq<Read>): seq<byte>
  {
    if chunks == [] then [] else chunks[0] + Concat(chunks[1..])
  }

  /** The frame handed on when the acquires numbered in `misses` find the pool empty. */
  function DeliverOne(cut: Cut, misses: set<nat>, k: nat): Frame
  {
    match cut
    case ControlCut(wire) => Control(wire)
    case DataCut(wire) => if k !in misses then Data(wire) else DataDropped
  }

  function AfterOne(cut: Cut, k: nat): nat
  {
    if cut.DataCut? then k + 1 else k
  }

  function Deliver(cuts: seq<Cut>, misses: set<nat>, k: nat): seq<Frame>
  {
    if cuts == [] then []
    else [DeliverOne(cuts[0], misses, k)] + Deliver(cuts[1..], misses, AfterOne(cuts[0], k))
  }

  /** What the next call yields, the bytes it leaves, and the acquires made once it is done. */
  datatype Taken = Taken(result: Result<Option<Frame>, Error>, rest: seq<byte>, acquires: nat)

  function First(bytes: seq<byte>, misses: set<nat>, k: nat): (first: Taken)
  {
    match Decode(bytes)
    case Err(e) => Taken(Err(e), bytes, k)
    case Ok(None) => Taken(Ok(None), bytes, k)
    case Ok(Some(cut)) =>
      Taken(Ok(Some(DeliverOne(cut, misses, k))), bytes[|cut.wire|..], AfterOne(cut, k))
  }

  class TurnStreamReader {
    var buffer: seq<byte>
    var acquires: nat                 // packets asked of the pool so far
    const misses: set<nat>

    constructor (misses: set<nat>)
      ensures buffer == [] && acquires == 0 && this.misses == misses
    {
      buffer := [];
      acquires := 0;
      this.misses := misses;
    }

    method DecodeFrame() returns (r: Result<Option<Frame>, Error>)
      modifies this
      ensures var first := First(old(buffer), misses, old(acquires));
              r == first.result && buffer == first.rest && acquires == first.acquires
    {
      var kind := FrameStart(buffer);
      match kind {
        case Err(e) =>
          r := Err(e);
        case Ok(None) =>
          r := Ok(None);
        case Ok(Some(ControlFrame(n))) =>
          if |buffer| < n {
            return Ok(None);
          }
          r := Ok(Some(Control(buffer[..n])));
          buffer := buffer[n..];
        case Ok(Some(ChannelData(n, padding))) =>
          if |buffer| < n + padding {
            return Ok(None);
          }
          r := Ok(Some(if acquires !in misses then Data(buffer[..n + padding]) else DataDropped));
          acquires := acquires + 1;
          buffer := buffer[n + padding..];
      }
    }

    /** Reads until a frame is complete. `chunks` are the results of the coming reads; the stream is
        closed once they run out. */
    method ReadFrame(chunks: seq<Read>) returns (r: Result<Frame, Error>, left: seq<Read>)
      modifies this
      ensures |left| <= |chunks|
      ensures var bytes := old(buffer) + Concat(chunks);
              var first := First(bytes, misses, old(acquires));
              && buffer + Concat(left) == first.rest
              && acquires == first.acquires
              && r == match first.result
                      case Err(e) => Err(e)
                      case Ok(None) => Err(Closed)
                      case Ok(Some(frame)) => Ok(frame)
    {
      left := chunks;
      ghost var bytes := buffer + Concat(chunks);
      while true
        invariant |left| <= |chunks|
        invariant buffer + Concat(left) == bytes && acquires == old(acquires)
        decreases |left|
      {
        ghost var before := buffer;
        DecodeIsStable(before, Concat(left));
        var decoded := DecodeFrame();
        if decoded.Err? {
          return Err(decoded.error), left;
        }
        if decoded.value.Some? {
          DropConcat(before, Concat(left), |before| - |buffer|);
          return Ok(decoded.value.value), left;
        }
        if |buffer| >= STREAM_READ_BUFFER_BYTES {
          FullBufferDecodes(buffer);
          assert false;
        }
        if left == [] {
          return Err(Closed), left;
        }
        Associative(buffer, left[0], Concat(left[1..]));
        buffer := buffer + left[0];
        left := left[1..];
      }
    }
  }

  // ----- What is cut, on arbitrary bytes

  /** A control frame is cut exactly if the bytes start with a well-formed STUN message: leading bits 00,
      a length in words that fits the limit, and the cookie. */
  lemma ControlIsCut(bytes: seq<byte>, n: nat)
    ensures Decode(bytes) == Ok(Some(ControlCut(bytes[..if n <= |bytes| then n else |bytes|]))) && n <= |bytes| <==>
      && 20 <= n <= |bytes| && n <= 4096 && bytes[0] < 64 && bytes[3] % 4 == 0
      && n == 20 + Be16(bytes[2], bytes[3]) && bytes[4..8] == [0x21, 0x12, 0xa4, 0x42]
  {
    if |bytes| >= 4 {
      assert Be16(bytes[2], bytes[3]) % 4 == bytes[3] % 4;
    }
  }

  /** A data frame exactly if they start with ChannelData, its padding included: leading bits 01 and a
      length that fits a packet. */
  lemma DataIsCut(bytes: seq<byte>, n: nat)
    ensures Decode(bytes) == Ok(Some(DataCut(bytes[..if n <= |bytes| then n else |bytes|]))) && n <= |bytes| <==>
      && 4 <= n <= |bytes| && n <= 2240 && 64 <= bytes[0] < 128 && n == 4 + Padded(Be16(bytes[2], bytes[3]))
  {
  }

  /** How each failure is told, as soon as there are bytes enough to tell. */
  lemma BadFramesFail(bytes: seq<byte>)
    requires |bytes| >= 4
    ensures bytes[0] >= 128 ==> Decode(bytes) == Err(ReservedType)
    ensures bytes[0] < 64 && bytes[3] % 4 != 0 ==> Decode(bytes) == Err(UnalignedControl)
    ensures bytes[0] < 64 && bytes[3] % 4 == 0 && Be16(bytes[2], bytes[3]) > 4076 ==> Decode(bytes) == Err(ControlTooLong)
    ensures |bytes| >= 8 && bytes[4..8] != [0x21, 0x12, 0xa4, 0x42] ==>
      (bytes[0] < 64 && bytes[3] % 4 == 0 && Be16(bytes[2], bytes[3]) <= 4076 ==> Decode(bytes) == Err(BadCookie))
    ensures 64 <= bytes[0] < 128 && Be16(bytes[2], bytes[3]) > 2236 ==> Decode(bytes) == Err(DataTooLong)
  {
    assert Be16(bytes[2], bytes[3]) % 4 == bytes[3] % 4;
  }

  // ----- Independence of how the stream is cut into reads

  /** More bytes never change a frame or an error that is already decided. */
  lemma DecodeIsStable(bytes: seq<byte>, more: seq<byte>)
    ensures Decode(bytes) != Ok(None) ==> Decode(bytes + more) == Decode(bytes)
  {
    var all := bytes + more;
    if |bytes| >= 8 {
      assert all[4..8] == bytes[4..8];
    }
    match Decode(bytes) {
      case Ok(Some(cut)) =>
        assert all[..|cut.wire|] == bytes[..|cut.wire|];
      case _ =>
    }
  }

  /** The hard limit of the read buffer is out of reach: a full buffer holds a frame or an error. */
  lemma FullBufferDecodes(bytes: seq<byte>)
    requires |bytes| >= STREAM_READ_BUFFER_BYTES
    ensures Decode(bytes) != Ok(None)
  {
  }

  lemma DropConcat(a: seq<byte>, b: seq<byte>, n: nat)
    requires n <= |a|
    ensures a[n..] + b == (a + b)[n..]
  {
  }

  lemma Associative(a: seq<byte>, b: seq<byte>, c: seq<byte>)
    ensures a + b + c == a + (b + c)
  {
  }

  /** The frames and the error a reader will see from here on. */
  ghost predicate Ahead(bytes: seq<byte>, misses: set<nat>, k: nat, frames: seq<Frame>, error: Option<Error>)
  {
    Deliver(Parse(bytes).cuts, misses, k) == frames && Parse(bytes).error == error
  }

  lemma AheadWhole(bytes: seq<byte>, misses: set<nat>)
    ensures Ahead(bytes, misses, 0, Deliver(Parse(bytes).cuts, misses, 0), Parse(bytes).error)
  {
  }

  lemma AheadSteps(bytes: seq<byte>, misses: set<nat>, k: nat, frames: seq<Frame>, error: Option<Error>)
    requires Ahead(bytes, misses, k, frames, error)
    ensures var first := First(bytes, misses, k);
            if first.result.Err? then frames == [] && error == Some(first.result.error)
            else if first.result.value.None? then frames == [] && error == None
            else
              && |frames| > 0 && frames[0] == first.result.value.value
              && |first.rest| < |bytes| && Ahead(first.rest, misses, first.acquires, frames[1..], error)
  {
  }

  /** Reading frame after frame: on any bytes, cut into reads in any way, the frames are those of the
      whole stream, in order, and the reader stops at the same error. */
  method ReadFrames(chunks: seq<Read>, misses: set<nat>) returns (frames: seq<Frame>, error: Error)
    ensures var parsed := Parse(Concat(chunks));
            && frames == Deliver(parsed.cuts, misses, 0)
            && error == (if parsed.error.Some? then parsed.error.value else Closed)
  {
    hide *;
    AheadWhole(Concat(chunks), misses);
    var reader := new TurnStreamReader(misses);
    var left := chunks;
    frames := [];
    ghost var all := Deliver(Parse(Concat(chunks)).cuts, misses, 0);
    ghost var stop := Parse(Concat(chunks)).error;
    ghost var bytes, ahead := Concat(chunks), all;
    assert reader.buffer + Concat(left) == bytes;
    while true
      invariant fresh(reader) && reader.misses == misses
      invariant reader.buffer + Concat(left) == bytes
      invariant frames + ahead == all && Ahead(bytes, misses, reader.acquires, ahead, stop)
      decreases |bytes|
    {
      AheadSteps(bytes, misses, reader.acquires, ahead, stop);
      ghost var rest := First(bytes, misses, reader.acquires).rest;
      var r;
      r, left := reader.ReadFrame(left);
      if r.Err? {
        return frames, r.error;
      }
      assert frames + ahead == frames + [r.value] + ahead[1..];
      frames, ahead, bytes := frames + [r.value], ahead[1..], rest;
    }
  }

  // ----- Well-formed streams

  /** A frame as the peer means it. */
  datatype Message =
    | StunMessage(kind: nat, transaction: seq<byte>, attributes: seq<byte>)
    | ChannelMessage(channel: nat, payload: seq<byte>)

  predicate WellFormed(m: Message)
  {
    match m
    case StunMessage(kind, transaction, attributes) =>
      && kind < 0x4000 && |transaction| == 12
      && |attributes| % 4 == 0 && 20 + |attributes| <= MAX_CONTROL_FRAME_BYTES
    case ChannelMessage(channel, payload) =>
      && 0x4000 <= channel < 0x8000
      && 4 + |payload| + Padding(|payload|) <= MAX_DATA_FRAME_BYTES
  }

  /** Section 5 of RFC 8489, and sections 11.4 and 11.5 of RFC 5766. */
  function Encode(m: Message): seq<byte>
    requires WellFormed(m)
  {
    match m
    case StunMessage(kind, transaction, attributes) =>
      ToBe16(kind) + ToBe16(|attributes|) + MAGIC_COOKIE + transaction + attributes
    case ChannelMessage(channel, payload) =>
      ToBe16(channel) + ToBe16(|payload|) + payload + Zeros(Padding(|payload|))
  }

  function EncodeAll(messages: seq<Message>): seq<byte>
    requires forall m :: m in messages ==> WellFormed(m)
  {
    if messages == [] then [] else Encode(messages[0]) + EncodeAll(messages[1..])
  }

  function CutOf(m: Message): Cut
    requires WellFormed(m)
  {
    if m.StunMessage? then ControlCut(Encode(m)) else DataCut(Encode(m))
  }

  function CutsOf(messages: seq<Message>): seq<Cut>
    requires forall m :: m in messages ==> WellFormed(m)
  {
    if messages == [] then [] else [CutOf(messages[0])] + CutsOf(messages[1..])
  }

  lemma DecodeStun(m: Message)
    requires WellFormed(m) && m.StunMessage?
    ensures Decode(Encode(m)) == Ok(Some(CutOf(m)))
  {
    var wire := Encode(m);
    assert wire[0] < 64 && wire[4..8] == MAGIC_COOKIE && Be16(wire[2], wire[3]) == |m.attributes|;
    assert wire[..20 + |m.attributes|] == wire;
  }

  lemma DecodeChannel(m: Message)
    requires WellFormed(m) && m.ChannelMessage?
    ensures Decode(Encode(m)) == Ok(Some(CutOf(m)))
  {
    var wire := Encode(m);
    assert 64 <= wire[0] < 128 && Be16(wire[2], wire[3]) == |m.payload|;
    assert wire[..4 + |m.payload| + Padding(|m.payload|)] == wire;
  }

  lemma DecodeEncoded(m: Message, more: seq<byte>)
    requires WellFormed(m)
    ensures Decode(Encode(m) + more) == Ok(Some(CutOf(m)))
  {
    hide *;
    match m {
      case StunMessage(_, _, _) => DecodeStun(m);
      case ChannelMessage(_, _) => DecodeChannel(m);
    }
    DecodeIsStable(Encode(m), more);
  }

  lemma {:induction false} ParseEncoded(messages: seq<Message>)
    requires forall m :: m in messages ==> WellFormed(m)
    ensures Parse(EncodeAll(messages)) == Parsed(CutsOf(messages), [], None)
  {
    if messages != [] {
      var first, rest := Encode(messages[0]), EncodeAll(messages[1..]);
      DecodeEncoded(messages[0], rest);
      assert (first + rest)[|first|..] == rest;
      ParseEncoded(messages[1..]);
    }
  }

  /** For every list of well-formed messages and every way of cutting their bytes into reads the
      reader yields exactly those messages, in order; only pool misses drop data, never sync. */
  method ReadMessages(messages: seq<Message>, chunks: seq<Read>, misses: set<nat>)
    returns (frames: seq<Frame>, error: Error)
    requires forall m :: m in messages ==> WellFormed(m)
    requires Concat(chunks) == EncodeAll(messages)
    ensures error == Closed
    ensures frames == Deliver(CutsOf(messages), misses, 0)
  {
    ParseEncoded(messages);
    frames, error := ReadFrames(chunks, misses);
  }
}
