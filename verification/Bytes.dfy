/** Bytes and big-endian integers. */
module Bytes {

  type byte = b: int | 0 <= b < 256

  function Be16(hi: byte, lo: byte): (n: nat)
    ensures n < 0x1_0000
  {
    hi * 256 + lo
  }

  function ToBe16(n: nat): (s: seq<byte>)
    requires n < 0x1_0000
    ensures |s| == 2 && Be16(s[0], s[1]) == n
  {
    [n / 256, n % 256]
  }

  function Be32(s: seq<byte>): (n: nat)
    requires |s| == 4
    ensures n < 0x1_0000_0000
  {
    Be16(s[0], s[1]) * 0x1_0000 + Be16(s[2], s[3])
  }

  function ToBe32(n: nat): (s: seq<byte>)
    requires n < 0x1_0000_0000
    ensures |s| == 4 && Be32(s) == n
  {
    ToBe16(n / 0x1_0000) + ToBe16(n % 0x1_0000)
  }

  /** The number that bytes stand for, most significant first. */
  function Number(s: seq<byte>): nat
  {
    if s == [] then 0 else Number(s[..|s| - 1]) * 256 + s[|s| - 1]
  }

  lemma NumberOf2(hi: byte, lo: byte)
    ensures Number([hi, lo]) == Be16(hi, lo)
  {
    assert [hi, lo][..1] == [hi] && [hi][..0] == [];
    assert Number([hi]) == Number([]) * 256 + hi;
  }

  lemma NumberConcat(a: seq<byte>, b: seq<byte>)
    requires |b| == 2
    ensures Number(a + b) == Number(a) * 0x1_0000 + Number(b)
  {
    NumberMore(a, b[0]);
    NumberMore(a + [b[0]], b[1]);
    assert a + b == a + [b[0]] + [b[1]] && b == [b[0], b[1]];
    NumberOf2(b[0], b[1]);
  }

  lemma NumberMore(a: seq<byte>, b: byte)
    ensures Number(a + [b]) == Number(a) * 256 + b
  {
    assert (a + [b])[..|a|] == a;
  }

  /** Four bytes stand for their number. */
  lemma NumberOf4(s: seq<byte>)
    requires |s| == 4
    ensures Number(s) == Be32(s)
  {
    NumberConcat(s[..2], s[2..]);
    assert s == s[..2] + s[2..] && s[..2] == [s[0], s[1]] && s[2..] == [s[2], s[3]];
    NumberOf2(s[0], s[1]);
    NumberOf2(s[2], s[3]);
  }

  lemma Be16Unique(hi: byte, lo: byte)
    ensures ToBe16(Be16(hi, lo)) == [hi, lo]
  {
  }

  /** No two byte strings stand for one number. */
  lemma Be32Unique(s: seq<byte>, t: seq<byte>)
    requires |s| == |t| == 4 && Be32(s) == Be32(t)
    ensures s == t
  {
    hide Be16, ToBe16, ToBe32;
    SameHalves(Be16(s[0], s[1]), Be16(s[2], s[3]), Be16(t[0], t[1]), Be16(t[2], t[3]));
    SameBytes(s[0], s[1], t[0], t[1]);
    SameBytes(s[2], s[3], t[2], t[3]);
  }

  lemma SameBytes(a: byte, b: byte, c: byte, d: byte)
    requires Be16(a, b) == Be16(c, d)
    ensures a == c && b == d
  {
  }

  lemma SameHalves(a: nat, b: nat, c: nat, d: nat)
    requires b < 0x1_0000 && d < 0x1_0000 && a * 0x1_0000 + b == c * 0x1_0000 + d
    ensures a == c && b == d
  {
  }

  function Zeros(n: nat): (s: seq<byte>)
    ensures |s| == n
  {
    seq(n, _ => 0)
  }

  /** A length rounded up to a multiple of four. */
  function Padded(length: nat): nat
  {
    (length + 3) / 4 * 4
  }

  /** The bytes that round a length up to a multiple of four. */
  function Padding(length: nat): (padding: nat)
    ensures padding < 4 && length + padding == Padded(length)
  {
    (4 - length % 4) % 4
  }

  /** The bytes stand in the message at the offset. */
  predicate Holds(message: seq<byte>, offset: nat, bytes: seq<byte>)
  {
    offset + |bytes| <= |message| && message[offset..offset + |bytes|] == bytes
  }

  lemma HoldsAt(message: seq<byte>, offset: nat, bytes: seq<byte>, i: nat)
    requires Holds(message, offset, bytes) && i < |bytes|
    ensures offset + i < |message| && message[offset + i] == bytes[i]
  {
  }

  /** The parts of what stands there stand one after the other. */
  lemma HoldsParts(message: seq<byte>, offset: nat, a: seq<byte>, b: seq<byte>)
    requires Holds(message, offset, a + b)
    ensures Holds(message, offset, a) && Holds(message, offset + |a|, b)
  {
    var all := message[offset..offset + |a + b|];
    assert message[offset..offset + |a|] == all[..|a|];
    assert message[offset + |a|..offset + |a| + |b|] == all[|a|..];
  }
}
