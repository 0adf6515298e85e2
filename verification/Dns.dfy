/** DNS queries and responses: sections 3.1, 4.1 of RFC 1035. Hosts are byte strings. */
module Dns {
  import opened Wrappers
  import opened Bytes

  const DOT: byte := 46
  const A_RECORD: nat := 1
  const AAAA_RECORD: nat := 28

  datatype Error =
    | BadHost | BadLabel | TooShort | WrongId | NotResponse | Truncated | Status(code: nat)
    | BadName | BadQuestion | BadRecord

  datatype Address = V4(octets: seq<byte>) | V6(octets: seq<byte>)

  // ----- Names

  predicate IsLabel(part: seq<byte>)
  {
    0 < |part| < 64 && forall i :: 0 <= i < |part| ==> part[i] < 128
  }

  function EncodeLabels(labels: seq<seq<byte>>): seq<byte>
    requires forall l :: l in labels ==> |l| < 64
  {
    if labels == [] then []
    else EncodeLabels(labels[..|labels| - 1]) + [|labels[|labels| - 1]|] + labels[|labels| - 1]
  }

  /** The parts between the dots. */
  function Split(host: seq<byte>): (labels: seq<seq<byte>>)
    ensures |labels| > 0
  {
    if host == [] then [[]]
    else
      var front := Split(host[..|host| - 1]);
      var last := host[|host| - 1];
      if last == DOT then front + [[]]
      else front[..|front| - 1] + [front[|front| - 1] + [last]]
  }

  /** The host without its trailing dots. */
  function TrimDots(host: seq<byte>): (trimmed: seq<byte>)
    ensures |trimmed| <= |host|
  {
    if host != [] && host[|host| - 1] == DOT then TrimDots(host[..|host| - 1]) else host
  }

  predicate IsHost(host: seq<byte>)
  {
    var trimmed := TrimDots(host);
    0 < |trimmed| <= 253 && forall l :: l in Split(trimmed) ==> IsLabel(l)
  }

  /** The labels with a dot between any two. */
  function Join(labels: seq<seq<byte>>): seq<byte>
    requires |labels| > 0
  {
    if |labels| == 1 then labels[0]
    else Join(labels[..|labels| - 1]) + [DOT] + labels[|labels| - 1]
  }

  ghost predicate NoDots(labels: seq<seq<byte>>)
  {
    forall l :: l in labels ==> DOT !in l
  }

  lemma {:induction false} SplitJoins(host: seq<byte>)
    ensures Join(Split(host)) == host && NoDots(Split(host))
  {
    if host != [] {
      var front, last := host[..|host| - 1], host[|host| - 1];
      SplitJoins(front);
      var parts := Split(front);
      var begun := parts[|parts| - 1];
      if last == DOT {
        assert (parts + [[]])[..|parts|] == parts;
      } else {
        var grown := parts[..|parts| - 1] + [begun + [last]];
        assert Split(host) == grown && grown[..|grown| - 1] == parts[..|parts| - 1];
        assert begun in parts && forall l :: l in parts[..|parts| - 1] ==> l in parts;
        assert |parts| > 1 ==> Join(parts[..|parts| - 1]) + [DOT] + (begun + [last]) == Join(parts[..|parts| - 1]) + [DOT] + begun + [last];
      }
    }
  }

  lemma SplitMore(host: seq<byte>, c: byte)
    ensures Split(host + [c]) ==
            if c == DOT then Split(host) + [[]]
            else Split(host)[..|Split(host)| - 1] + [Split(host)[|Split(host)| - 1] + [c]]
  {
    assert (host + [c])[..|host|] == host;
  }

  lemma JoinAfter(front: seq<seq<byte>>, part: seq<byte>)
    ensures Join(front + [part]) == if front == [] then part else Join(front) + [DOT] + part
  {
    assert (front + [part])[..|front|] == front;
  }

  lemma JoinMore(front: seq<seq<byte>>, part: seq<byte>, c: byte)
    ensures Join(front + [part + [c]]) == Join(front + [part]) + [c]
    ensures front != [] ==> Join(front + [[]]) == Join(front) + [DOT]
  {
    hide Join;
    JoinAfter(front, part);
    JoinAfter(front, part + [c]);
    JoinAfter(front, []);
    assert front != [] ==> Join(front) + [DOT] + (part + [c]) == Join(front) + [DOT] + part + [c];
  }

  /** Splitting is the only way to undo joining. */
  lemma {:induction false} JoinSplits(front: seq<seq<byte>>, last: seq<byte>)
    requires NoDots(front) && DOT !in last
    ensures Split(Join(front + [last])) == front + [last]
    decreases |front|, |last|
  {
    hide Split, Join;
    if last != [] {
      var part, c := last[..|last| - 1], last[|last| - 1];
      assert last == part + [c];
      JoinSplits(front, part);
      JoinMore(front, part, c);
      SplitMore(Join(front + [part]), c);
    } else if front != [] {
      var before, part := front[..|front| - 1], front[|front| - 1];
      assert front == before + [part];
      JoinSplits(before, part);
      JoinMore(front, [], DOT);
      SplitMore(Join(front), DOT);
    } else {
      NothingSplits();
      assert front + [last] == [[]];
    }
  }

  lemma NothingSplits()
    ensures Split(Join([[]])) == [[]]
  {
  }

  function Dots(n: nat): seq<byte> { seq(n, _ => DOT) }

  /** A label of a host: 1 to 63 ASCII bytes, none of them a dot. */
  predicate PlainLabel(part: seq<byte>)
  {
    1 <= |part| <= 63 && forall i :: 0 <= i < |part| ==> part[i] != DOT && part[i] < 128
  }

  /** The host is these labels, with a dot between any two and n dots at the end. */
  ghost predicate Names(host: seq<byte>, labels: seq<seq<byte>>, n: nat)
  {
    && |labels| > 0 && (forall l :: l in labels ==> PlainLabel(l))
    && host == Join(labels) + Dots(n) && |Join(labels)| <= 253
  }

  lemma {:induction false} TrimDotsTrims(host: seq<byte>)
    ensures var trimmed := TrimDots(host);
            && |trimmed| <= |host| && host == trimmed + Dots(|host| - |trimmed|)
            && (trimmed != [] ==> trimmed[|trimmed| - 1] != DOT)
  {
    if host != [] && host[|host| - 1] == DOT {
      TrimDotsTrims(host[..|host| - 1]);
    }
  }

  lemma {:induction false} TrimmedOnly(body: seq<byte>, n: nat)
    requires body == [] || body[|body| - 1] != DOT
    ensures TrimDots(body + Dots(n)) == body
  {
    var host := body + Dots(n);
    if n > 0 {
      assert host[..|host| - 1] == body + Dots(n - 1);
      TrimmedOnly(body, n - 1);
    } else {
      assert host == body;
    }
  }

  lemma {:induction false} JoinEnds(labels: seq<seq<byte>>)
    requires |labels| > 0 && labels[|labels| - 1] != []
    ensures Join(labels) != [] && Join(labels)[|Join(labels)| - 1] == labels[|labels| - 1][|labels[|labels| - 1]| - 1]
  {
  }

  /** The accepted hosts are the names, in the sense of `Names`, and those labels are encoded. */
  lemma HostsAreNames(host: seq<byte>)
    ensures IsHost(host) <==> exists labels, n: nat :: Names(host, labels, n)
    ensures IsHost(host) ==> Names(host, Split(TrimDots(host)), |host| - |TrimDots(host)|)
    ensures forall labels, n: nat :: Names(host, labels, n) ==> IsHost(host) && Split(TrimDots(host)) == labels
  {
    var trimmed := TrimDots(host);
    TrimDotsTrims(host);
    SplitJoins(trimmed);
    LabelsArePlain(Split(trimmed));
    assert IsHost(host) ==> Names(host, Split(trimmed), |host| - |trimmed|);
    forall labels, n: nat | Names(host, labels, n)
      ensures IsHost(host) && Split(TrimDots(host)) == labels
    {
      NamesAreHosts(host, labels, n);
    }
    hide Split, TrimDots, Join, IsLabel, PlainLabel;
  }

  lemma LabelsArePlain(labels: seq<seq<byte>>)
    requires NoDots(labels)
    ensures (forall l :: l in labels ==> IsLabel(l)) <==> (forall l :: l in labels ==> PlainLabel(l))
  {
    assert forall l :: l in labels ==> (IsLabel(l) <==> PlainLabel(l));
  }

  lemma NamesAreHosts(host: seq<byte>, labels: seq<seq<byte>>, n: nat)
    requires Names(host, labels, n)
    ensures IsHost(host) && Split(TrimDots(host)) == labels
  {
    var last := labels[|labels| - 1];
    assert last in labels && PlainLabel(last);
    JoinEnds(labels);
    TrimmedOnly(Join(labels), n);
    hide Split, TrimDots, Join;
    assert NoDots(labels) && labels == labels[..|labels| - 1] + [last];
    JoinSplits(labels[..|labels| - 1], last);
    LabelsArePlain(labels);
  }

  function QueryHeader(id: nat): (header: seq<byte>)
    requires id < 0x1_0000
    ensures |header| == 12
  {
    ToBe16(id) + ToBe16(0x0100) + ToBe16(1) + ToBe16(0) + ToBe16(0) + ToBe16(0)
  }

  /** One question of class IN. */
  function QueryWire(labels: seq<seq<byte>>, id: nat, recordType: nat): seq<byte>
    requires id < 0x1_0000 && recordType < 0x1_0000 && forall l :: l in labels ==> |l| < 64
  {
    QueryHeader(id) + (EncodeLabels(labels) + [0]) + ToBe16(recordType) + ToBe16(1)
  }

  /** A query carries its id, asks for recursion and has one question and nothing else. */
  lemma QuerySays(labels: seq<seq<byte>>, id: nat, recordType: nat)
    requires id < 0x1_0000 && recordType < 0x1_0000 && forall l :: l in labels ==> |l| < 64
    ensures var query := QueryWire(labels, id, recordType);
            && |query| == 12 + |EncodeLabels(labels)| + 5
            && Be16(query[0], query[1]) == id
            && query[2..12] == [1, 0, 0, 1, 0, 0, 0, 0, 0, 0]
            && query[|query| - 5] == 0 && Be16(query[|query| - 4], query[|query| - 3]) == recordType
            && query[|query| - 2..] == [0, 1]
  {
    hide EncodeLabels;
  }

  lemma NoLabels()
    ensures EncodeLabels([]) == []
  {
  }

  lemma LabelFits(part: seq<byte>)
    ensures IsLabel(part) ==> |part| < 64
  {
  }

  lemma OneMoreLabel(labels: seq<seq<byte>>, part: seq<byte>)
    requires (forall l :: l in labels ==> |l| < 64) && |part| < 64
    ensures EncodeLabels(labels + [part]) == EncodeLabels(labels) + [|part|] + part
  {
    assert (labels + [part])[..|labels|] == labels;
  }

  method BuildQuery(host: seq<byte>, id: nat, recordType: nat) returns (r: Result<seq<byte>, Error>)
    requires id < 0x1_0000 && recordType < 0x1_0000
    ensures r.Ok? <==> IsHost(host)
    ensures r.Err? ==> r.error == if 0 < |TrimDots(host)| <= 253 then BadLabel else BadHost
    ensures r.Ok? ==> r.value == QueryWire(Split(TrimDots(host)), id, recordType)
  {
    hide TrimDots, Split, EncodeLabels, QueryHeader, IsLabel, ToBe16;
    var trimmed := TrimDots(host);
    if trimmed == [] || |trimmed| > 253 {
      return Err(BadHost);
    }
    var labels := Split(trimmed);
    var query := QueryHeader(id);
    NoLabels();
    for i := 0 to |labels|
      invariant forall l :: l in labels[..i] ==> IsLabel(l) && |l| < 64
      invariant query == QueryHeader(id) + EncodeLabels(labels[..i])
    {
      var part := labels[i];
      LabelFits(part);
      if !IsLabel(part) {
        assert part in labels;
        return Err(BadLabel);
      }
      OneMoreLabel(labels[..i], part);
      assert labels[..i + 1] == labels[..i] + [part];
      query := query + [|part|] + part;
    }
    assert labels[..|labels|] == labels;
    query := query + [0] + ToBe16(recordType) + ToBe16(1);
    return Ok(query);
  }

  /** The offset after the name at an offset: labels up to a zero byte or a two-byte pointer. */
  function NameEnd(message: seq<byte>, offset: nat): (r: Result<nat, Error>)
    ensures r.Ok? ==> offset < r.value <= |message|
    decreases |message| - offset
  {
    if offset >= |message| then Err(BadName)
    else
      var length := message[offset];
      if length >= 192 then if offset + 2 <= |message| then Ok(offset + 2) else Err(BadName)
      else if length >= 64 then Err(BadName)
      else if length == 0 then Ok(offset + 1)
      else if offset + 1 + length > |message| then Err(BadName)
      else NameEnd(message, offset + 1 + length)
  }

  method SkipName(message: seq<byte>, start: nat) returns (r: Result<nat, Error>)
    ensures r == NameEnd(message, start)
  {
    var offset := start;
    while true
      invariant NameEnd(message, offset) == NameEnd(message, start)
      decreases |message| - offset
    {
      if offset >= |message| {
        return Err(BadName);
      }
      var length := message[offset];
      if length / 64 == 3 {
        return if offset + 2 <= |message| then Ok(offset + 2) else Err(BadName);
      }
      if length / 64 != 0 {
        return Err(BadName);
      }
      offset := offset + 1;
      if length == 0 {
        return Ok(offset);
      }
      offset := offset + length;
      if offset > |message| {
        return Err(BadName);
      }
    }
  }

  /** A name on the wire: labels, then the root or a compression pointer. */
  datatype Name = Name(labels: seq<seq<byte>>, pointer: Option<(byte, byte)>)

  predicate WellFormedName(n: Name)
  {
    && (forall l :: l in n.labels ==> 0 < |l| < 64)
    && (n.pointer.Some? ==> n.pointer.value.0 >= 192)
  }

  function NameTail(n: Name): seq<byte>
  {
    if n.pointer.Some? then [n.pointer.value.0, n.pointer.value.1] else [0]
  }

  function EncodeName(n: Name): (wire: seq<byte>)
    requires WellFormedName(n)
    ensures |wire| > 0
  {
    EncodeLabels(n.labels) + NameTail(n)
  }

  /** Labels are skipped one by one. */
  lemma {:induction false} LabelsSkipped(message: seq<byte>, offset: nat, labels: seq<seq<byte>>)
    requires (forall l :: l in labels ==> 0 < |l| < 64) && Holds(message, offset, EncodeLabels(labels))
    ensures NameEnd(message, offset) == NameEnd(message, offset + |EncodeLabels(labels)|)
    decreases |labels|
  {
    hide Holds, NameEnd;
    if labels != [] {
      var front, last := labels[..|labels| - 1], labels[|labels| - 1];
      assert last in labels;
      assert EncodeLabels(labels) == EncodeLabels(front) + ([|last|] + last);
      HoldsParts(message, offset, EncodeLabels(front), [|last|] + last);
      LabelsSkipped(message, offset, front);
      LabelSkipped(message, offset + |EncodeLabels(front)|, last);
    }
  }

  lemma LabelSkipped(message: seq<byte>, offset: nat, part: seq<byte>)
    requires 0 < |part| < 64 && Holds(message, offset, [|part|] + part)
    ensures NameEnd(message, offset) == NameEnd(message, offset + 1 + |part|)
  {
    HoldsAt(message, offset, [|part|] + part, 0);
    assert offset + 1 + |part| <= |message|;
  }

  /** Wherever a well-formed name stands, skipping it lands right after it. */
  lemma NameIsSkipped(message: seq<byte>, offset: nat, n: Name)
    requires WellFormedName(n) && Holds(message, offset, EncodeName(n))
    ensures NameEnd(message, offset) == Ok(offset + |EncodeName(n)|)
  {
    var labels, tail := EncodeLabels(n.labels), NameTail(n);
    HoldsParts(message, offset, labels, tail);
    LabelsSkipped(message, offset, n.labels);
    HoldsAt(message, offset + |labels|, tail, 0);
    hide EncodeLabels, Holds;
  }

  /** Skipping the name in any query that is built lands exactly on the question type. */
  method BuildAndSkip(host: seq<byte>, id: nat, recordType: nat) returns (query: seq<byte>, end: Result<nat, Error>)
    requires id < 0x1_0000 && recordType < 0x1_0000 && IsHost(host)
    ensures end == Ok(|query| - 4) && query[|query| - 4..] == ToBe16(recordType) + ToBe16(1)
  {
    var built := BuildQuery(host, id, recordType);
    query := built.value;
    ghost var labels := Split(TrimDots(host));
    assert forall l :: l in labels ==> 0 < |l| < 64;
    hide TrimDots, Split, EncodeLabels, QueryWire, NameEnd, ToBe16, IsHost, IsLabel, Holds;
    QueryHoldsName(labels, id, recordType);
    NameIsSkipped(query, 12, Name(labels, None));
    end := SkipName(query, 12);
  }

  lemma QueryHoldsName(labels: seq<seq<byte>>, id: nat, recordType: nat)
    requires id < 0x1_0000 && recordType < 0x1_0000 && forall l :: l in labels ==> 0 < |l| < 64
    ensures var query, name := QueryWire(labels, id, recordType), EncodeName(Name(labels, None));
            && Holds(query, 12, name) && |query| == 12 + |name| + 4
            && query[|query| - 4..] == ToBe16(recordType) + ToBe16(1)
  {
    hide EncodeLabels, QueryHeader, ToBe16;
    var query, name := QueryWire(labels, id, recordType), EncodeName(Name(labels, None));
    var tail := ToBe16(recordType) + ToBe16(1);
    assert query == QueryHeader(id) + name + tail;
    assert query[12..12 + |name|] == name && query[12 + |name|..] == tail;
  }

  // ----- Responses

  /** What the header must say, in the order in which it is checked. */
  function HeaderError(response: seq<byte>, id: nat): Option<Error>
  {
    if |response| < 12 then Some(TooShort)
    else
      var flags := Be16(response[2], response[3]);
      if Be16(response[0], response[1]) != id then Some(WrongId)
      else if flags < 0x8000 then Some(NotResponse)
      else if flags / 0x200 % 2 == 1 then Some(Truncated)
      else if flags % 16 != 0 then Some(Status(flags % 16))
      else None
  }

  /** What a response must be to be read at all, and how each failure is told: it is long enough, answers
      this query, is a response, is not truncated and reports no error. */
  lemma OnlyAnswersAreRead(response: seq<byte>, id: nat)
    ensures |response| < 12 ==> Parse(response, id) == Err(TooShort)
    ensures |response| >= 12 && Be16(response[0], response[1]) != id ==> Parse(response, id) == Err(WrongId)
    ensures |response| >= 12 && Be16(response[0], response[1]) == id ==>
      && (response[2] < 128 ==> Parse(response, id) == Err(NotResponse))
      && (response[2] >= 128 && response[2] / 2 % 2 == 1 ==> Parse(response, id) == Err(Truncated))
      && (response[2] >= 128 && response[2] / 2 % 2 == 0 && response[3] % 16 != 0 ==>
            Parse(response, id) == Err(Status(response[3] % 16)))
  {
    if |response| >= 12 {
      FlagBits(response[2], response[3]);
    }
    hide QuestionsEnd, AddressesFrom, Dedup;
  }

  lemma FlagBits(hi: byte, lo: byte)
    ensures Be16(hi, lo) < 0x8000 <==> hi < 128
    ensures Be16(hi, lo) / 0x200 % 2 == hi / 2 % 2 && Be16(hi, lo) % 16 == lo % 16
  {
    assert Be16(hi, lo) / 0x200 == hi / 2;
  }

  /** The offset after n questions. */
  function QuestionsEnd(response: seq<byte>, offset: nat, n: nat): Result<nat, Error>
    decreases n
  {
    if n == 0 then Ok(offset)
    else
      match NameEnd(response, offset)
      case Err(e) => Err(e)
      case Ok(end) =>
        if end + 4 > |response| then Err(BadQuestion) else QuestionsEnd(response, end + 4, n - 1)
  }

  /** The address a resource record carries, if it is one of class IN and of the right length. */
  function AddressOf(recordType: nat, recordClass: nat, data: seq<byte>): Option<Address>
  {
    if recordClass != 1 then None
    else if recordType == A_RECORD && |data| == 4 then Some(V4(data))
    else if recordType == AAAA_RECORD && |data| == 16 then Some(V6(data))
    else None
  }

  /** The rest of a resource record after its name: its address, if any, and the offset after it. */
  function RecordBody(response: seq<byte>, at: nat): (r: Result<(Option<Address>, nat), Error>)
    ensures r.Ok? ==> r.value.1 <= |response|
  {
    if at + 10 > |response| then Err(BadRecord)
    else
      var length := Be16(response[at + 8], response[at + 9]);
      if at + 10 + length > |response| then Err(BadRecord)
      else
        Ok((AddressOf(Be16(response[at], response[at + 1]), Be16(response[at + 2], response[at + 3]),
                      response[at + 10..at + 10 + length]), at + 10 + length))
  }

  function RecordAt(response: seq<byte>, offset: nat): (r: Result<(Option<Address>, nat), Error>)
    ensures r.Ok? ==> r.value.1 <= |response|
  {
    match NameEnd(response, offset)
    case Err(e) => Err(e)
    case Ok(at) => RecordBody(response, at)
  }

  function OptionalSeq<T>(o: Option<T>): seq<T> { if o.Some? then [o.value] else [] }

  /** The addresses of n resource records, in order. */
  function AddressesFrom(response: seq<byte>, offset: nat, n: nat): Result<seq<Address>, Error>
    decreases n
  {
    if n == 0 then Ok([])
    else
      match RecordAt(response, offset)
      case Err(e) => Err(e)
      case Ok(record) =>
        match AddressesFrom(response, record.1, n - 1)
        case Err(e) => Err(e)
        case Ok(rest) => Ok(OptionalSeq(record.0) + rest)
  }

  /** Each address once, where it appears first. */
  function Dedup(all: seq<Address>): seq<Address>
  {
    if all == [] then []
    else
      var front, last := all[..|all| - 1], all[|all| - 1];
      if last in front then Dedup(front) else Dedup(front) + [last]
  }

  /** Which is: the same addresses, none twice, in the order of their first appearances. */
  lemma {:induction false} DedupIsDistinct(all: seq<Address>)
    ensures forall a :: a in Dedup(all) <==> a in all
    ensures forall i, j :: 0 <= i < j < |Dedup(all)| ==> Dedup(all)[i] != Dedup(all)[j]
  {
    if all != [] {
      DedupIsDistinct(all[..|all| - 1]);
      assert all == all[..|all| - 1] + [all[|all| - 1]];
    }
  }

  lemma {:induction false} DedupKeepsPrefixes(all: seq<Address>, n: nat)
    requires n <= |all|
    ensures Dedup(all[..n]) <= Dedup(all)
  {
    if n < |all| {
      DedupKeepsPrefixes(all[..|all| - 1], n);
      assert all[..|all| - 1][..n] == all[..n];
    } else {
      assert all[..n] == all;
    }
  }

  lemma DedupAppend(all: seq<Address>, a: Address)
    ensures Dedup(all + [a]) == if a in Dedup(all) then Dedup(all) else Dedup(all) + [a]
  {
    assert (all + [a])[..|all|] == all;
    DedupIsDistinct(all);
  }

  function Parse(response: seq<byte>, id: nat): Result<seq<Address>, Error>
  {
    if HeaderError(response, id).Some? then Err(HeaderError(response, id).value)
    else
      match QuestionsEnd(response, 12, Be16(response[4], response[5]))
      case Err(e) => Err(e)
      case Ok(offset) =>
        match AddressesFrom(response, offset, Be16(response[6], response[7]))
        case Err(e) => Err(e)
        case Ok(addresses) => Ok(Dedup(addresses))
  }

  method ReadRecord(response: seq<byte>, offset: nat) returns (r: Result<(Option<Address>, nat), Error>)
    ensures r == RecordAt(response, offset)
  {
    var name := SkipName(response, offset);
    if name.Err? {
      return Err(name.error);
    }
    var at := name.value;
    if at + 10 > |response| {
      return Err(BadRecord);
    }
    var recordType, recordClass := Be16(response[at], response[at + 1]), Be16(response[at + 2], response[at + 3]);
    var length := Be16(response[at + 8], response[at + 9]);
    var dataOffset: nat := at + 10;
    var nextOffset: nat := dataOffset + length;
    if nextOffset > |response| {
      return Err(BadRecord);
    }
    var address: Option<Address> := None;
    if recordClass == 1 && recordType == A_RECORD && length == 4 {
      address := Some(V4(response[dataOffset..dataOffset + 4]));
    }
    if recordClass == 1 && recordType == AAAA_RECORD && length == 16 {
      address := Some(V6(response[dataOffset..nextOffset]));
    }
    return Ok((address, nextOffset));
  }

  method SkipQuestions(response: seq<byte>, n: nat) returns (r: Result<nat, Error>)
    ensures r == QuestionsEnd(response, 12, n)
  {
    var offset: nat := 12;
    for i := 0 to n
      invariant QuestionsEnd(response, offset, n - i) == QuestionsEnd(response, 12, n)
    {
      var name := SkipName(response, offset);
      if name.Err? {
        return Err(name.error);
      }
      offset := name.value + 4;
      if offset > |response| {
        return Err(BadQuestion);
      }
    }
    return Ok(offset);
  }

  method CollectAddresses(response: seq<byte>, from: nat, n: nat) returns (r: Result<seq<Address>, Error>)
    ensures r == match AddressesFrom(response, from, n)
                 case Err(e) => Err(e)
                 case Ok(all) => Ok(Dedup(all))
  {
    var offset, addresses := from, [];
    ghost var seen: seq<Address> := [];
    PrependMore([], [], AddressesFrom(response, from, n));
    for i := 0 to n
      invariant addresses == Dedup(seen)
      invariant AddressesFrom(response, from, n) == Prepend(seen, AddressesFrom(response, offset, n - i))
    {
      AddressesStep(response, offset, n - i);
      hide AddressesFrom, RecordAt, Dedup;
      var record := ReadRecord(response, offset);
      if record.Err? {
        return Err(record.error);
      }
      PrependMore(seen, OptionalSeq(record.value.0), AddressesFrom(response, record.value.1, n - i - 1));
      if record.value.0.Some? {
        var address := record.value.0.value;
        DedupAppend(seen, address);
        seen := seen + [address];
        if address !in addresses {
          addresses := addresses + [address];
        }
      }
      offset := record.value.1;
    }
    PrependMore(seen, [], Ok([]));
    return Ok(addresses);
  }

  lemma AddressesStep(response: seq<byte>, offset: nat, n: nat)
    requires n > 0
    ensures var record := RecordAt(response, offset);
            if record.Err? then AddressesFrom(response, offset, n) == Err(record.error)
            else AddressesFrom(response, offset, n)
                 == Prepend(OptionalSeq(record.value.0), AddressesFrom(response, record.value.1, n - 1))
  {
  }

  ghost function Prepend(seen: seq<Address>, r: Result<seq<Address>, Error>): Result<seq<Address>, Error>
  {
    if r.Err? then r else Ok(seen + r.value)
  }

  lemma PrependMore(seen: seq<Address>, more: seq<Address>, r: Result<seq<Address>, Error>)
    ensures Prepend(seen, Prepend(more, r)) == Prepend(seen + more, r)
    ensures seen + [] == seen && Prepend([], r) == r
  {
    if r.Ok? {
      assert [] + r.value == r.value;
      assert seen + (more + r.value) == seen + more + r.value;
    }
  }

  /** On any bytes at all. */
  method ParseResponse(response: seq<byte>, id: nat) returns (r: Result<seq<Address>, Error>)
    ensures r == Parse(response, id)
  {
    var bad := HeaderError(response, id);
    if bad.Some? {
      return Err(bad.value);
    }
    var offset := SkipQuestions(response, Be16(response[4], response[5]));
    if offset.Err? {
      return Err(offset.error);
    }
    r := CollectAddresses(response, offset.value, Be16(response[6], response[7]));
  }

  // ----- Well-formed responses

  datatype Question = Question(name: Name, tail: seq<byte>)

  datatype Record = Record(name: Name, recordType: nat, recordClass: nat, ttl: seq<byte>, data: seq<byte>)

  predicate WellFormedQuestion(q: Question) { WellFormedName(q.name) && |q.tail| == 4 }

  predicate WellFormedRecord(r: Record)
  {
    WellFormedName(r.name) && r.recordType < 0x1_0000 && r.recordClass < 0x1_0000 && |r.ttl| == 4 && |r.data| < 0x1_0000
  }

  function RecordFixed(r: Record): (fixed: seq<byte>)
    requires WellFormedRecord(r)
    ensures |fixed| == 10
  {
    ToBe16(r.recordType) + ToBe16(r.recordClass) + r.ttl + ToBe16(|r.data|)
  }

  function EncodeQuestions(questions: seq<Question>): seq<byte>
    requires forall i :: 0 <= i < |questions| ==> WellFormedQuestion(questions[i])
  {
    if questions == [] then []
    else
      assert WellFormedQuestion(questions[0]);
      EncodeName(questions[0].name) + (questions[0].tail + EncodeQuestions(questions[1..]))
  }

  function EncodeRecords(records: seq<Record>): seq<byte>
    requires forall i :: 0 <= i < |records| ==> WellFormedRecord(records[i])
  {
    if records == [] then []
    else
      assert WellFormedRecord(records[0]);
      EncodeName(records[0].name) + (RecordFixed(records[0]) + (records[0].data + EncodeRecords(records[1..])))
  }

  function Addresses(records: seq<Record>): seq<Address>
  {
    if records == [] then []
    else OptionalSeq(AddressOf(records[0].recordType, records[0].recordClass, records[0].data)) + Addresses(records[1..])
  }

  lemma {:induction false} QuestionsSkipped(response: seq<byte>, offset: nat, questions: seq<Question>)
    requires forall i :: 0 <= i < |questions| ==> WellFormedQuestion(questions[i])
    requires Holds(response, offset, EncodeQuestions(questions))
    ensures QuestionsEnd(response, offset, |questions|) == Ok(offset + |EncodeQuestions(questions)|)
    decreases |questions|
  {
    hide Holds, EncodeName, NameEnd, WellFormedName;
    if questions != [] {
      var q, rest := questions[0], EncodeQuestions(questions[1..]);
      var name := EncodeName(q.name);
      assert EncodeQuestions(questions) == name + (q.tail + rest);
      HoldsParts(response, offset, name, q.tail + rest);
      HoldsParts(response, offset + |name|, q.tail, rest);
      NameIsSkipped(response, offset, q.name);
      HoldsFits(response, offset + |name|, q.tail);
      QuestionsSkipped(response, offset + |name| + 4, questions[1..]);
    }
  }

  lemma HoldsAll(response: seq<byte>)
    ensures Holds(response, 0, response)
  {
  }

  lemma HoldsFits(response: seq<byte>, offset: nat, bytes: seq<byte>)
    requires Holds(response, offset, bytes)
    ensures offset + |bytes| <= |response| && response[offset..offset + |bytes|] == bytes
  {
  }

  lemma FixedReadsBack(response: seq<byte>, at: nat, r: Record)
    requires WellFormedRecord(r) && Holds(response, at, RecordFixed(r))
    ensures at + 10 <= |response|
    ensures Be16(response[at], response[at + 1]) == r.recordType
    ensures Be16(response[at + 2], response[at + 3]) == r.recordClass
    ensures Be16(response[at + 8], response[at + 9]) == |r.data|
  {
    var a, b, c := ToBe16(r.recordType), ToBe16(r.recordClass), ToBe16(|r.data|);
    hide ToBe16;
    var fixed := response[at..at + 10];
    assert fixed == a + b + r.ttl + c;
    assert fixed[0] == a[0] && fixed[1] == a[1] && fixed[2] == b[0] && fixed[3] == b[1];
    assert fixed[8] == c[0] && fixed[9] == c[1];
  }

  lemma BodyReadsBack(response: seq<byte>, at: nat, r: Record)
    requires WellFormedRecord(r) && Holds(response, at, RecordFixed(r)) && Holds(response, at + 10, r.data)
    ensures RecordBody(response, at) == Ok((AddressOf(r.recordType, r.recordClass, r.data), at + 10 + |r.data|))
  {
    FixedReadsBack(response, at, r);
    HoldsFits(response, at + 10, r.data);
    hide WellFormedRecord, RecordFixed, AddressOf, Be16, Holds;
  }

  lemma RecordReadsBack(response: seq<byte>, offset: nat, r: Record)
    requires WellFormedRecord(r) && Holds(response, offset, EncodeName(r.name))
    requires var at := offset + |EncodeName(r.name)|;
             Holds(response, at, RecordFixed(r)) && Holds(response, at + 10, r.data)
    ensures RecordAt(response, offset) ==
            Ok((AddressOf(r.recordType, r.recordClass, r.data), offset + |EncodeName(r.name)| + 10 + |r.data|))
  {
    hide EncodeName, NameEnd, WellFormedName, RecordFixed, RecordBody, AddressOf, Holds;
    NameIsSkipped(response, offset, r.name);
    BodyReadsBack(response, offset + |EncodeName(r.name)|, r);
  }

  lemma {:induction false} RecordsReadBack(response: seq<byte>, offset: nat, records: seq<Record>)
    requires forall i :: 0 <= i < |records| ==> WellFormedRecord(records[i])
    requires Holds(response, offset, EncodeRecords(records))
    ensures AddressesFrom(response, offset, |records|) == Ok(Addresses(records))
    decreases |records|
  {
    hide Holds, EncodeName, RecordAt, RecordFixed, AddressOf, WellFormedName;
    if records != [] {
      var r, rest := records[0], EncodeRecords(records[1..]);
      var name, fixed := EncodeName(r.name), RecordFixed(r);
      assert EncodeRecords(records) == name + (fixed + (r.data + rest));
      HoldsParts(response, offset, name, fixed + (r.data + rest));
      HoldsParts(response, offset + |name|, fixed, r.data + rest);
      HoldsParts(response, offset + |name| + 10, r.data, rest);
      RecordReadsBack(response, offset, r);
      RecordsReadBack(response, offset + |name| + 10 + |r.data|, records[1..]);
    }
  }

  function ResponseHeader(id: nat, flags: nat, questions: nat, answers: nat, counts: seq<byte>): (h: seq<byte>)
    requires id < 0x1_0000 && flags < 0x1_0000 && questions < 0x1_0000 && answers < 0x1_0000 && |counts| == 4
    ensures |h| == 12
    ensures Be16(h[0], h[1]) == id && Be16(h[2], h[3]) == flags && Be16(h[4], h[5]) == questions && Be16(h[6], h[7]) == answers
  {
    ToBe16(id) + ToBe16(flags) + ToBe16(questions) + ToBe16(answers) + counts
  }

  /** A response without an error, with whatever sections follow the answers. */
  function EncodeResponse(id: nat, flags: nat, questions: seq<Question>, answers: seq<Record>, counts: seq<byte>, more: seq<byte>): seq<byte>
    requires id < 0x1_0000 && flags < 0x1_0000 && |questions| < 0x1_0000 && |answers| < 0x1_0000 && |counts| == 4
    requires forall i :: 0 <= i < |questions| ==> WellFormedQuestion(questions[i])
    requires forall i :: 0 <= i < |answers| ==> WellFormedRecord(answers[i])
  {
    ResponseHeader(id, flags, |questions|, |answers|, counts) + (EncodeQuestions(questions) + (EncodeRecords(answers) + more))
  }

  /** On a well-formed response the parser returns exactly the distinct class-IN addresses of the
      answers, in the order in which they first appear. */
  lemma ParseReadsBack(id: nat, flags: nat, questions: seq<Question>, answers: seq<Record>, counts: seq<byte>, more: seq<byte>)
    requires id < 0x1_0000 && |questions| < 0x1_0000 && |answers| < 0x1_0000 && |counts| == 4
    requires 0x8000 <= flags < 0x1_0000 && flags / 0x200 % 2 == 0 && flags % 16 == 0
    requires forall i :: 0 <= i < |questions| ==> WellFormedQuestion(questions[i])
    requires forall i :: 0 <= i < |answers| ==> WellFormedRecord(answers[i])
    ensures Parse(EncodeResponse(id, flags, questions, answers, counts, more), id) == Ok(Dedup(Addresses(answers)))
  {
    hide Holds, QuestionsEnd, AddressesFrom, EncodeQuestions, EncodeRecords, Addresses, Dedup, ResponseHeader;
    hide HeaderError, Be16, WellFormedQuestion, WellFormedRecord, Parse;
    var header := ResponseHeader(id, flags, |questions|, |answers|, counts);
    var q, r := EncodeQuestions(questions), EncodeRecords(answers);
    var response := EncodeResponse(id, flags, questions, answers, counts, more);
    HoldsAll(response);
    HoldsParts(response, 0, header, q + (r + more));
    HoldsParts(response, 12, q, r + more);
    HoldsParts(response, 12 + |q|, r, more);
    HeaderReadsBack(response, id, flags, |questions|, |answers|, counts);
    QuestionsSkipped(response, 12, questions);
    RecordsReadBack(response, 12 + |q|, answers);
    ParseParts(response, id, 12 + |q|, Addresses(answers));
  }

  lemma ParseParts(response: seq<byte>, id: nat, offset: nat, addresses: seq<Address>)
    requires |response| >= 12 && HeaderError(response, id) == None
    requires QuestionsEnd(response, 12, Be16(response[4], response[5])) == Ok(offset)
    requires AddressesFrom(response, offset, Be16(response[6], response[7])) == Ok(addresses)
    ensures Parse(response, id) == Ok(Dedup(addresses))
  {
    hide QuestionsEnd, AddressesFrom, HeaderError, Be16, Dedup;
  }

  lemma HeaderReadsBack(response: seq<byte>, id: nat, flags: nat, questions: nat, answers: nat, counts: seq<byte>)
    requires id < 0x1_0000 && questions < 0x1_0000 && answers < 0x1_0000 && |counts| == 4
    requires 0x8000 <= flags < 0x1_0000 && flags / 0x200 % 2 == 0 && flags % 16 == 0
    requires Holds(response, 0, ResponseHeader(id, flags, questions, answers, counts))
    ensures HeaderError(response, id) == None
    ensures Be16(response[4], response[5]) == questions && Be16(response[6], response[7]) == answers
  {
    var header := ResponseHeader(id, flags, questions, answers, counts);
    hide ResponseHeader, Be16;
    HoldsFits(response, 0, header);
    assert forall i :: 0 <= i < 12 ==> response[i] == response[0..12][i];
  }
}
