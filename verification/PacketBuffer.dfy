/** The fixed packet buffer: 2304 bytes of storage and the range of them in use, with headroom. */
module PacketBuffers {
  import opened Bytes

  const HEADROOM: nat := 64
  const CAPACITY: nat := 2304
  const READ_AREA: nat := CAPACITY - HEADROOM

  class PacketBuffer {
    const storage: array<byte>
    var start: nat
    var end: nat

    ghost predicate Valid()
      reads this
    {
      storage.Length == CAPACITY && start <= end <= CAPACITY
    }

    function Slice(): (s: seq<byte>)
      requires Valid()
      reads this, storage
      ensures |s| == end - start
    {
      storage[start..end]
    }

    constructor ()
      ensures Valid() && fresh(storage) && start == end == HEADROOM
    {
      storage := new byte[CAPACITY](_ => 0);
      start, end := HEADROOM, HEADROOM;
    }

    /** Stores a datagram in the read area, as a socket read followed by `set_read_len` does. */
    method Receive(wire: seq<byte>) returns (ok: bool)
      requires Valid()
      modifies this, storage
      ensures Valid() && (ok <==> |wire| <= READ_AREA)
      ensures ok ==> Slice() == wire && start == HEADROOM
      ensures !ok ==> start == old(start) && end == old(end) && Slice() == old(Slice())
    {
      if |wire| > READ_AREA {
        return false;
      }
      PatchSlice(storage[..], HEADROOM, wire);
      Write(storage, HEADROOM, wire);
      start, end := HEADROOM, HEADROOM + |wire|;
      return true;
    }

    method Prepend(length: nat) returns (ok: bool)
      requires Valid()
      modifies this
      ensures Valid() && (ok <==> length <= old(start))
      ensures end == old(end) && start == old(start) - if ok then length else 0
    {
      if length > start {
        return false;
      }
      start := start - length;
      return true;
    }

    method ExtendTail(length: nat) returns (ok: bool)
      requires Valid()
      modifies this
      ensures Valid() && (ok <==> old(end) + length <= CAPACITY)
      ensures start == old(start) && end == old(end) + if ok then length else 0
    {
      if end + length > CAPACITY {
        return false;
      }
      end := end + length;
      return true;
    }

    method TrimFront(length: nat) returns (ok: bool)
      requires Valid()
      modifies this
      ensures Valid() && (ok <==> length <= old(end) - old(start))
      ensures end == old(end) && start == old(start) + if ok then length else 0
    {
      if length > end - start {
        return false;
      }
      start := start + length;
      return true;
    }

    method Truncate(length: nat) returns (ok: bool)
      requires Valid()
      modifies this
      ensures Valid() && (ok <==> length <= old(end) - old(start))
      ensures start == old(start) && end == if ok then start + length else old(end)
    {
      if length > end - start {
        return false;
      }
      end := start + length;
      return true;
    }

    method SetRange(from: nat, to: nat) returns (ok: bool)
      requires Valid()
      modifies this
      ensures Valid() && (ok <==> from <= to <= CAPACITY)
      ensures if ok then start == from && end == to else start == old(start) && end == old(end)
    {
      if from > to || to > CAPACITY {
        return false;
      }
      start, end := from, to;
      return true;
    }
  }

  /** Copies bytes into the array from a position on. */
  method Write(a: array<byte>, at: nat, bytes: seq<byte>)
    requires at + |bytes| <= a.Length
    modifies a
    ensures a[..] == Patch(old(a[..]), at, bytes)
  {
    for i := 0 to |bytes|
      invariant forall k :: 0 <= k < a.Length ==>
        a[k] == if at <= k < at + i then bytes[k - at] else old(a[k])
    {
      a[at + i] := bytes[i];
    }
  }

  /** The storage after the bytes have been copied over it. */
  ghost function Patch(storage: seq<byte>, at: nat, bytes: seq<byte>): (patched: seq<byte>)
    requires at + |bytes| <= |storage|
    ensures |patched| == |storage|
  {
    storage[..at] + bytes + storage[at + |bytes|..]
  }

  lemma PatchSlice(storage: seq<byte>, at: nat, bytes: seq<byte>)
    requires at + |bytes| <= |storage|
    ensures Patch(storage, at, bytes)[at..at + |bytes|] == bytes
  {
  }

  lemma PatchAppend(storage: seq<byte>, lo: nat, hi: nat, bytes: seq<byte>)
    requires lo <= hi && hi + |bytes| <= |storage|
    ensures Patch(storage, hi, bytes)[lo..hi + |bytes|] == storage[lo..hi] + bytes
  {
    var patched := Patch(storage, hi, bytes);
    var front, rest := storage[..hi], storage[hi + |bytes|..];
    assert patched == front + bytes + rest;
    assert patched[..hi] == front && patched[hi..hi + |bytes|] == bytes;
    assert patched[lo..hi] == front[lo..] == storage[lo..hi];
  }

  lemma PatchPrepend(storage: seq<byte>, lo: nat, hi: nat, bytes: seq<byte>)
    requires |bytes| <= lo <= hi <= |storage|
    ensures Patch(storage, lo - |bytes|, bytes)[lo - |bytes|..hi] == bytes + storage[lo..hi]
  {
    var patched := Patch(storage, lo - |bytes|, bytes);
    var front, rest := storage[..lo - |bytes|], storage[lo..];
    assert patched == front + bytes + rest;
    assert patched[lo - |bytes|..lo] == bytes && patched[lo..] == rest;
    assert patched[lo..hi] == rest[..hi - lo] == storage[lo..hi];
  }

  /** Writing a tail after the range [s, e) and a head before it. */
  lemma PatchAround(storage: seq<byte>, s: nat, e: nat, head: seq<byte>, tail: seq<byte>)
    requires |head| <= s <= e && e + |tail| <= |storage|
    ensures Patch(Patch(storage, e, tail), s - |head|, head)[s - |head|..e + |tail|] == head + storage[s..e] + tail
  {
    var once := Patch(storage, e, tail);
    PatchAppend(storage, s, e, tail);
    hide Patch;
    PatchPrepend(once, s, e + |tail|, head);
  }
}
