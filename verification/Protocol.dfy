/** The server's stream commands: repair and alive notices over a set of worker ids. */
module Protocol {
  import opened Wrappers
  import opened Bytes

  const MAX_STREAM_WORKERS: nat := 126
  const U64: nat := 0x1_0000_0000_0000_0000

  datatype StreamCommand = StreamCommand(sequence: nat, desired: nat, ids: seq<nat>)

  function Be64(s: seq<byte>): (n: nat)
    requires |s| == 8
    ensures n < U64
  {
    Be32(s[..4]) * 0x1_0000_0000 + Be32(s[4..])
  }

  function ToBe64(n: nat): (s: seq<byte>)
    requires n < U64
    ensures |s| == 8 && Be64(s) == n
  {
    var hi, lo := ToBe32(n / 0x1_0000_0000), ToBe32(n % 0x1_0000_0000);
    assert (hi + lo)[..4] == hi && (hi + lo)[4..] == lo;
    hi + lo
  }

  /** Eight bytes stand for their number, most significant first. */
  lemma NumberOf8(s: seq<byte>)
    requires |s| == 8
    ensures Be64(s) == Number(s)
  {
    hide Be32;
    NumberOf4(s[..4]);
    NumberConcat(s[..4], s[4..6]);
    NumberConcat(s[..6], s[6..]);
    NumberConcat(s[4..6], s[6..]);
    NumberOf4(s[4..]);
    assert s[..6] == s[..4] + s[4..6] && s == s[..6] + s[6..] && s[4..] == s[4..6] + s[6..];
  }

  /** What repair may rely on in a command it is given. */
  predicate WellFormed(c: StreamCommand)
  {
    && 0 < c.sequence < U64
    && 0 < c.desired <= MAX_STREAM_WORKERS
    && 0 < |c.ids| < 256
    && forall i :: 0 <= i < |c.ids| ==> 0 < c.ids[i] <= c.desired
  }

  function EncodeIds(ids: seq<nat>): (wire: seq<byte>)
    requires forall i :: 0 <= i < |ids| ==> ids[i] < 0x1_0000
    ensures |wire| == 2 * |ids|
  {
    if ids == [] then [] else EncodeIds(ids[..|ids| - 1]) + ToBe16(ids[|ids| - 1])
  }

  function Encode(prefix: seq<byte>, c: StreamCommand): seq<byte>
    requires WellFormed(c)
  {
    prefix + ToBe64(c.sequence) + ToBe16(c.desired) + [|c.ids|] + EncodeIds(c.ids)
  }

  function ReadIds(bytes: seq<byte>, n: nat): (ids: seq<nat>)
    requires 2 * n <= |bytes|
    ensures |ids| == n && forall i :: 0 <= i < n ==> ids[i] < 0x1_0000
  {
    seq(n, i requires 0 <= i < n => Be16(bytes[2 * i], bytes[2 * i + 1]))
  }

  function Parse(prefix: seq<byte>, payload: seq<byte>): Option<StreamCommand>
  {
    if !(prefix <= payload) || |payload| - |prefix| < 11 then None
    else
      var rest := payload[|prefix|..];
      var count: nat := rest[10];
      if |rest| - 11 != 2 * count then None
      else
        var c := StreamCommand(Be64(rest[..8]), Be16(rest[8], rest[9]), ReadIds(rest[11..], count));
        if WellFormed(c) then Some(c) else None
  }

  method ParseStreamCommand(prefix: seq<byte>, payload: seq<byte>) returns (r: Option<StreamCommand>)
    ensures r == Parse(prefix, payload)
  {
    hide Be16, Be64;
    if !(prefix <= payload) {
      return None;
    }
    var rest := payload[|prefix|..];
    if |rest| < 11 {
      return None;
    }
    var sequence, desired := Be64(rest[..8]), Be16(rest[8], rest[9]);
    var count: nat := rest[10];
    var bytes := rest[11..];
    if sequence == 0 || desired == 0 || desired > MAX_STREAM_WORKERS || |bytes| != 2 * count {
      return None;
    }
    var ids: seq<nat> := [];
    for i := 0 to count
      invariant ids == ReadIds(bytes, i)
      invariant forall k :: 0 <= k < i ==> 0 < ids[k] <= desired
    {
      var id := Be16(bytes[2 * i], bytes[2 * i + 1]);
      if id == 0 || id > desired {
        assert ReadIds(bytes, count)[i] == id;
        return None;
      }
      ids := ids + [id];
    }
    return if ids != [] then Some(StreamCommand(sequence, desired, ids)) else None;
  }

  lemma {:induction false} IdsReadBack(bytes: seq<byte>, ids: seq<nat>)
    requires forall i :: 0 <= i < |ids| ==> ids[i] < 0x1_0000
    requires EncodeIds(ids) <= bytes
    ensures ReadIds(bytes, |ids|) == ids
  {
    if ids != [] {
      var front, last := ids[..|ids| - 1], ids[|ids| - 1];
      assert EncodeIds(front) <= EncodeIds(ids);
      IdsReadBack(bytes, front);
      var wire := EncodeIds(ids);
      assert bytes[2 * |front|] == wire[2 * |front|] == ToBe16(last)[0];
      assert bytes[2 * |front| + 1] == wire[2 * |front| + 1] == ToBe16(last)[1];
      assert ReadIds(bytes, |ids|) == ReadIds(bytes, |front|) + [last];
    }
  }

  lemma SameHalves64(a: nat, b: nat, c: nat, d: nat)
    requires b < 0x1_0000_0000 && d < 0x1_0000_0000 && a * 0x1_0000_0000 + b == c * 0x1_0000_0000 + d
    ensures a == c && b == d
  {
  }

  lemma Be64Unique(s: seq<byte>, t: seq<byte>)
    requires |s| == |t| == 8 && Be32(s[..4]) == Be32(t[..4]) && Be32(s[4..]) == Be32(t[4..])
    ensures s == t
  {
    hide Be32;
    Be32Unique(s[..4], t[..4]);
    Be32Unique(s[4..], t[4..]);
    assert s == s[..4] + s[4..] && t == t[..4] + t[4..];
  }

  lemma {:induction false} EncodeReadIds(bytes: seq<byte>, n: nat)
    requires 2 * n <= |bytes|
    ensures EncodeIds(ReadIds(bytes, n)) == bytes[..2 * n]
  {
    if n > 0 {
      var ids := ReadIds(bytes, n);
      assert ids[..n - 1] == ReadIds(bytes, n - 1);
      Be16Unique(bytes[2 * n - 2], bytes[2 * n - 1]);
      hide Be16, ToBe16;
      EncodeReadIds(bytes, n - 1);
      assert bytes[..2 * n] == bytes[..2 * (n - 1)] + [bytes[2 * n - 2], bytes[2 * n - 1]];
    }
  }

  /** Every well-formed command is understood... */
  lemma ParseReadsBack(prefix: seq<byte>, c: StreamCommand)
    requires WellFormed(c)
    ensures Parse(prefix, Encode(prefix, c)) == Some(c)
  {
    var payload := Encode(prefix, c);
    var rest := payload[|prefix|..];
    var a, b, ids := ToBe64(c.sequence), ToBe16(c.desired), EncodeIds(c.ids);
    hide ToBe64, ToBe16, EncodeIds, Be64, Be16;
    assert rest == a + b + [|c.ids|] + ids;
    assert rest[..8] == a && rest[8] == b[0] && rest[9] == b[1] && rest[10] == |c.ids| && rest[11..] == ids;
    IdsReadBack(ids, c.ids);
  }

  lemma SequenceIs(s: seq<byte>)
    requires |s| == 8
    ensures ToBe64(Be64(s)) == s
  {
    hide Be32, ToBe64;
    var t := ToBe64(Be64(s));
    SameHalves64(Be32(s[..4]), Be32(s[4..]), Be32(t[..4]), Be32(t[4..]));
    Be64Unique(s, t);
  }

  /** ... and nothing else is: a payload is understood only when it is, byte for byte, a well-formed
      command. Repair relies on what that says: a sequence above zero and ids among the desired workers. */
  lemma OnlyWellFormedParse(prefix: seq<byte>, payload: seq<byte>)
    requires Parse(prefix, payload).Some?
    ensures WellFormed(Parse(prefix, payload).value)
    ensures payload == Encode(prefix, Parse(prefix, payload).value)
  {
    var rest := payload[|prefix|..];
    var count: nat := rest[10];
    SequenceIs(rest[..8]);
    Be16Unique(rest[8], rest[9]);
    EncodeReadIds(rest[11..], count);
    hide Be64, ToBe64, Be16, ToBe16, EncodeIds, ReadIds;
    assert rest[11..][..2 * count] == rest[11..];
    assert rest == rest[..8] + [rest[8], rest[9]] + [rest[10]] + rest[11..];
  }
}
