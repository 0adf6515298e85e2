/** The STUN message codec: header, attribute walk and iterator (RFC 8489, sections 5 and 14). */
module StunCodec {
  import opened Wrappers
  import opened Bytes

  const HEADER_SIZE: nat := 20
  const MAGIC_COOKIE: seq<byte> := [0x21, 0x12, 0xa4, 0x42]

  datatype Error =
    | HeaderTruncated | LeadingBits | ZeroType | BadCookie | Unaligned | LengthMismatch | ValueTruncated

  datatype Class = Request | Indication | Success | ErrorResponse

  datatype Message = Message(raw: seq<byte>, kind: nat, transaction: seq<byte>)

  datatype Attribute = Attribute(kind: nat, value: seq<byte>, headerStart: nat)

  // ----- Class and method share the type's fourteen bits

  function ClassOf(kind: bv16): Class
  {
    match ((kind >> 4) & 1) | ((kind >> 7) & 2)
    case 0 => Request
    case 1 => Indication
    case 2 => Success
    case _ => ErrorResponse
  }

  function MethodOf(kind: bv16): bv16
  {
    (kind & 0x000f) | ((kind >> 1) & 0x0070) | ((kind >> 2) & 0x0f80)
  }

  function ClassBits(c: Class): bv16
  {
    match c
    case Request => 0
    case Indication => 1
    case Success => 2
    case ErrorResponse => 3
  }

  /** The message type of a class and a twelve-bit method: section 5 of RFC 8489. */
  function KindOf(c: Class, method_: bv16): bv16
  {
    var bits := ClassBits(c);
    (method_ & 0x000f) | ((bits & 1) << 4) | ((method_ & 0x0070) << 1) | ((bits & 2) << 7) | ((method_ & 0x0f80) << 2)
  }

  lemma KindReadsBack(c: Class, method_: bv16)
    requires method_ < 0x1000
    ensures KindOf(c, method_) & 0xc000 == 0
    ensures ClassOf(KindOf(c, method_)) == c && MethodOf(KindOf(c, method_)) == method_
  {
  }

  /** The two class bits are the fifth and the ninth of the type. */
  lemma ClassBitsExactly(kind: bv16)
    ensures kind & 0x0110 == 0x0000 <==> ClassOf(kind) == Request
    ensures kind & 0x0110 == 0x0010 <==> ClassOf(kind) == Indication
    ensures kind & 0x0110 == 0x0100 <==> ClassOf(kind) == Success
    ensures kind & 0x0110 == 0x0110 <==> ClassOf(kind) == ErrorResponse
  {
  }

  /** The method bits are the others, in their order, of the lower fourteen. */
  lemma MethodBitsExactly(kind: bv16)
    ensures MethodOf(kind) < 0x1000
    ensures MethodOf(kind) & 0x000f == kind & 0x000f
    ensures MethodOf(kind) & 0x0070 == (kind & 0x00e0) >> 1
    ensures MethodOf(kind) & 0x0f80 == (kind & 0x3e00) >> 2
  {
  }

  // ----- The attribute walk

  function LengthAt(raw: seq<byte>, position: nat): nat
    requires position + 4 <= |raw|
  {
    Be16(raw[position + 2], raw[position + 3])
  }

  function NextAt(raw: seq<byte>, position: nat): (next: nat)
    requires position + 4 <= |raw|
    ensures next >= position + 4 + LengthAt(raw, position)
  {
    position + 4 + Padded(LengthAt(raw, position))
  }

  /** From the position on, attributes follow one another up to the end of the bytes. */
  predicate Tiles(raw: seq<byte>, position: nat)
    decreases |raw| - position
  {
    position == |raw| ||
    (position + 4 <= |raw| && NextAt(raw, position) <= |raw| && Tiles(raw, NextAt(raw, position)))
  }

  function AttributeAt(raw: seq<byte>, position: nat): Attribute
    requires position + 4 <= |raw| && NextAt(raw, position) <= |raw|
  {
    var kind := Be16(raw[position], raw[position + 1]);
    Attribute(if kind == 0x8020 then 0x0020 else kind,
              raw[position + 4..position + 4 + LengthAt(raw, position)], position)
  }

  function AttributesFrom(raw: seq<byte>, position: nat): seq<Attribute>
    requires Tiles(raw, position)
    decreases |raw| - position
  {
    if position == |raw| then [] else [AttributeAt(raw, position)] + AttributesFrom(raw, NextAt(raw, position))
  }

  /** What the header must say, in the order in which it is checked. */
  function HeaderError(raw: seq<byte>): Option<Error>
  {
    if |raw| < HEADER_SIZE then Some(HeaderTruncated)
    else if Be16(raw[0], raw[1]) >= 0x4000 then Some(LeadingBits)
    else if Be16(raw[0], raw[1]) == 0 then Some(ZeroType)
    else if raw[4..8] != MAGIC_COOKIE then Some(BadCookie)
    else if Be16(raw[2], raw[3]) % 4 != 0 then Some(Unaligned)
    else if |raw| != HEADER_SIZE + Be16(raw[2], raw[3]) then Some(LengthMismatch)
    else None
  }

  /** What the header says of an accepted message, and how each failure is told. */
  lemma HeaderDemands(raw: seq<byte>)
    ensures HeaderError(raw) == None <==>
      && 20 <= |raw| && raw[0] < 64 && [raw[0], raw[1]] != [0, 0] && raw[4..8] == [0x21, 0x12, 0xa4, 0x42]
      && raw[3] % 4 == 0 && |raw| == 20 + Be16(raw[2], raw[3])
    ensures |raw| < 20 ==> HeaderError(raw) == Some(HeaderTruncated)
    ensures |raw| >= 20 && raw[0] >= 64 ==> HeaderError(raw) == Some(LeadingBits)
    ensures |raw| >= 20 && [raw[0], raw[1]] == [0, 0] ==> HeaderError(raw) == Some(ZeroType)
    ensures |raw| >= 20 && raw[0] < 64 && [raw[0], raw[1]] != [0, 0] && raw[4..8] != [0x21, 0x12, 0xa4, 0x42] ==>
      HeaderError(raw) == Some(BadCookie)
  {
    if |raw| >= 20 {
      assert Be16(raw[2], raw[3]) % 4 == raw[3] % 4;
    }
  }

  /** Accepts exactly the well-headed messages whose attributes tile the bytes after the header. An
      attribute header cut off at the end cannot occur: every position is a multiple of four away. */
  method Decode(raw: seq<byte>) returns (r: Result<Message, Error>)
    ensures HeaderError(raw).Some? ==> r == Err(HeaderError(raw).value)
    ensures HeaderError(raw) == None && Tiles(raw, HEADER_SIZE) ==>
      r == Ok(Message(raw, Be16(raw[0], raw[1]), raw[8..20]))
    ensures HeaderError(raw) == None && !Tiles(raw, HEADER_SIZE) ==> r == Err(ValueTruncated)
  {
    if HeaderError(raw).Some? {
      return Err(HeaderError(raw).value);
    }
    var end := |raw|;
    var position := HEADER_SIZE;
    ghost var words := Be16(raw[2], raw[3]) / 4;
    while position < end
      invariant HEADER_SIZE <= position <= end && end - position == 4 * words
      invariant Tiles(raw, HEADER_SIZE) <==> Tiles(raw, position)
    {
      if end - position < 4 {
        assert false;
      }
      var next := NextAt(raw, position);
      if next > end {
        return Err(ValueTruncated);
      }
      words := words - 1 - (LengthAt(raw, position) + 3) / 4;
      position := next;
    }
    return Ok(Message(raw, Be16(raw[0], raw[1]), raw[8..20]));
  }

  class Attributes {
    const raw: seq<byte>
    var position: nat

    ghost predicate Valid()
      reads this
    {
      Tiles(raw, position)
    }

    constructor (m: Message)
      requires Tiles(m.raw, HEADER_SIZE)
      ensures Valid() && raw == m.raw && position == HEADER_SIZE
    {
      raw, position := m.raw, HEADER_SIZE;
    }

    /** The next attribute; the iterator stops at the end and never reads past it. */
    method Next() returns (attribute: Option<Attribute>)
      requires Valid()
      modifies this
      ensures Valid()
      ensures old(position) == |raw| ==> attribute == None && position == old(position)
      ensures old(position) < |raw| ==>
        && attribute == Some(AttributesFrom(raw, old(position))[0])
        && AttributesFrom(raw, position) == AttributesFrom(raw, old(position))[1..]
    {
      if position >= |raw| {
        return None;
      }
      attribute := Some(AttributeAt(raw, position));
      position := NextAt(raw, position);
    }
  }

  /** Drains the walk. */
  method Collect(m: Message) returns (attributes: seq<Attribute>)
    requires Tiles(m.raw, HEADER_SIZE)
    ensures attributes == AttributesFrom(m.raw, HEADER_SIZE)
  {
    var walk := new Attributes(m);
    attributes := [];
    while walk.position < |m.raw|
      invariant fresh(walk) && walk.raw == m.raw && walk.Valid()
      invariant attributes + AttributesFrom(m.raw, walk.position) == AttributesFrom(m.raw, HEADER_SIZE)
      decreases |AttributesFrom(m.raw, walk.position)|
    {
      var attribute := walk.Next();
      attributes := attributes + [attribute.value];
    }
  }

  /** The attributes lie back to back from the position to the end, each followed by its padding. */
  ghost predicate BackToBack(attributes: seq<Attribute>, position: nat, end: nat)
  {
    if attributes == [] then position == end
    else
      var a := attributes[0];
      a.headerStart == position && BackToBack(attributes[1..], position + 4 + Padded(|a.value|), end)
  }

  lemma {:induction false} AttributesTile(raw: seq<byte>, position: nat)
    requires Tiles(raw, position)
    ensures BackToBack(AttributesFrom(raw, position), position, |raw|)
    decreases |raw| - position
  {
    if position != |raw| {
      AttributesTile(raw, NextAt(raw, position));
    }
  }

  // ----- Decoding undoes encoding

  predicate Encodable(attributes: seq<(nat, seq<byte>)>)
  {
    forall i :: 0 <= i < |attributes| ==> attributes[i].0 < 0x1_0000 && |attributes[i].1| < 0x1_0000
  }

  function EncodeOne(kind: nat, value: seq<byte>): (wire: seq<byte>)
    requires kind < 0x1_0000 && |value| < 0x1_0000
    ensures |wire| == 4 + Padded(|value|)
  {
    ToBe16(kind) + ToBe16(|value|) + value + Zeros(Padding(|value|))
  }

  /** The length of encoded attributes in words of four bytes. */
  function Words(attributes: seq<(nat, seq<byte>)>): nat
  {
    if attributes == [] then 0 else 1 + (|attributes[0].1| + 3) / 4 + Words(attributes[1..])
  }

  function EncodeAttributes(attributes: seq<(nat, seq<byte>)>): (wire: seq<byte>)
    requires Encodable(attributes)
    ensures |wire| == 4 * Words(attributes)
  {
    if attributes == [] then []
    else EncodeOne(attributes[0].0, attributes[0].1) + EncodeAttributes(attributes[1..])
  }

  function Encode(kind: nat, transaction: seq<byte>, attributes: seq<(nat, seq<byte>)>): seq<byte>
    requires kind < 0x4000 && |transaction| == 12 && Encodable(attributes)
    requires |EncodeAttributes(attributes)| < 0x1_0000
  {
    ToBe16(kind) + ToBe16(|EncodeAttributes(attributes)|) + MAGIC_COOKIE + transaction + EncodeAttributes(attributes)
  }

  /** The same kinds, but for the alias, and values. */
  ghost predicate SameAttributes(decoded: seq<Attribute>, attributes: seq<(nat, seq<byte>)>)
  {
    && |decoded| == |attributes|
    && forall i :: 0 <= i < |attributes| ==>
         && decoded[i].kind == (if attributes[i].0 == 0x8020 then 0x0020 else attributes[i].0)
         && decoded[i].value == attributes[i].1
  }

  lemma {:induction false} AttributesReadBack(raw: seq<byte>, position: nat, attributes: seq<(nat, seq<byte>)>)
    requires Encodable(attributes) && position <= |raw| && raw[position..] == EncodeAttributes(attributes)
    ensures Tiles(raw, position) && SameAttributes(AttributesFrom(raw, position), attributes)
    decreases |attributes|
  {
    if attributes != [] {
      var (kind, value) := attributes[0];
      var one, rest := EncodeOne(kind, value), EncodeAttributes(attributes[1..]);
      var next := position + |one|;
      RestReadsBack(raw, position, one, rest);
      FirstReadsBack(raw, position, kind, value, rest);
      AttributesReadBack(raw, next, attributes[1..]);
      OneMore(raw, position, next, attributes);
    }
  }

  lemma RestReadsBack(raw: seq<byte>, position: nat, one: seq<byte>, rest: seq<byte>)
    requires position <= |raw| && raw[position..] == one + rest
    ensures position + |one| <= |raw| && raw[position + |one|..] == rest
  {
  }

  lemma OneMore(raw: seq<byte>, position: nat, next: nat, attributes: seq<(nat, seq<byte>)>)
    requires |attributes| > 0 && position + 4 <= |raw| && next == NextAt(raw, position) <= |raw|
    requires var (kind, value) := attributes[0];
             AttributeAt(raw, position) == Attribute(if kind == 0x8020 then 0x0020 else kind, value, position)
    requires Tiles(raw, next) && SameAttributes(AttributesFrom(raw, next), attributes[1..])
    ensures Tiles(raw, position) && SameAttributes(AttributesFrom(raw, position), attributes)
  {
    hide NextAt, AttributeAt;
    assert AttributesFrom(raw, position) == [AttributeAt(raw, position)] + AttributesFrom(raw, next);
    assert forall i :: 0 < i < |attributes| ==> attributes[i] == attributes[1..][i - 1];
  }

  lemma FirstReadsBack(raw: seq<byte>, position: nat, kind: nat, value: seq<byte>, rest: seq<byte>)
    requires kind < 0x1_0000 && |value| < 0x1_0000 && position <= |raw| && raw[position..] == EncodeOne(kind, value) + rest
    ensures position + 4 <= |raw| && NextAt(raw, position) == position + |EncodeOne(kind, value)| <= |raw|
    ensures AttributeAt(raw, position) == Attribute(if kind == 0x8020 then 0x0020 else kind, value, position)
  {
  }

  /** Encoding any message and decoding it gives back its type, transaction and attributes, apart
      from the one alias. */
  method EncodeThenDecode(kind: nat, transaction: seq<byte>, attributes: seq<(nat, seq<byte>)>)
    returns (message: Result<Message, Error>, decoded: seq<Attribute>)
    requires 0 < kind < 0x4000 && |transaction| == 12 && Encodable(attributes)
    requires |EncodeAttributes(attributes)| < 0x1_0000
    ensures message.Ok? && message.value.kind == kind && message.value.transaction == transaction
    ensures SameAttributes(decoded, attributes)
  {
    var raw := Encode(kind, transaction, attributes);
    HeaderReadsBack(kind, transaction, attributes);
    AttributesReadBack(raw, HEADER_SIZE, attributes);
    hide Tiles, AttributesFrom, EncodeAttributes, Encode;
    message := Decode(raw);
    decoded := Collect(message.value);
  }

  lemma HeaderBytes(kind: nat, transaction: seq<byte>, body: seq<byte>, words: nat)
    requires 0 < kind < 0x4000 && |transaction| == 12 && |body| == 4 * words < 0x1_0000
    ensures var raw := ToBe16(kind) + ToBe16(|body|) + MAGIC_COOKIE + transaction + body;
            && HeaderError(raw) == None && Be16(raw[0], raw[1]) == kind && raw[8..20] == transaction
            && raw[HEADER_SIZE..] == body
  {
  }

  lemma HeaderReadsBack(kind: nat, transaction: seq<byte>, attributes: seq<(nat, seq<byte>)>)
    requires 0 < kind < 0x4000 && |transaction| == 12 && Encodable(attributes)
    requires |EncodeAttributes(attributes)| < 0x1_0000
    ensures var raw := Encode(kind, transaction, attributes);
            && HeaderError(raw) == None && Be16(raw[0], raw[1]) == kind && raw[8..20] == transaction
            && raw[HEADER_SIZE..] == EncodeAttributes(attributes)
  {
    hide EncodeAttributes, HeaderError, ToBe16;
    HeaderBytes(kind, transaction, EncodeAttributes(attributes), Words(attributes));
  }
}
