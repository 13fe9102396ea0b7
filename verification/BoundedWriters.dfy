/**
 Writers that keep a bounded part of what is written to them: the tail writer the last bytes, shifting
 its buffer in place, and the reject writer the first ones, refusing the rest.
 */
module BoundedWriters {
  import opened Basics

  /** The last `limit` bytes; nothing for a limit that is not positive. */
  function Tail(s: Bytes, limit: int): (r: Bytes)
    ensures |r| <= |s| && (limit >= 0 ==> |r| <= limit)
  {
    if limit <= 0 then "" else if |s| <= limit then s else s[|s| - limit..]
  }

  function Head(s: Bytes, limit: int): (r: Bytes)
    ensures |r| <= |s| && (limit >= 0 ==> |r| <= limit)
  {
    if limit <= 0 then "" else if |s| <= limit then s else s[..limit]
  }

  function Concatenation(writes: seq<Bytes>): Bytes {
    if writes == [] then "" else Concatenation(writes[..|writes| - 1]) + writes[|writes| - 1]
  }

  // ----- the tail writer

  /** What is written to a writer, as it remembers it: the bytes it holds and how many it let go. */
  datatype Held = Held(bytes: Bytes, dropped: nat)

  class BoundedTailWriter {
    const limit: int
    const data: array<char>
    var len: nat
    var dropped: nat

    ghost predicate Valid()
      reads this
    {
      data.Length == (if limit < 0 then 0 else limit) && len <= data.Length
    }

    ghost function Contents(): Held
      requires Valid()
      reads this, data
    {
      Held(data[..len], dropped)
    }

    constructor (limit: int)
      ensures Valid() && fresh(data) && this.limit == limit && Contents() == Held("", 0)
    {
      this.limit := limit;
      data := new char[if limit < 0 then 0 else limit];
      len, dropped := 0, 0;
    }

    /** Writes `value` from place `at` on. */
    method CopyIn(value: Bytes, at: nat)
      requires at + |value| <= data.Length
      modifies data
      ensures data[..at + |value|] == old(data[..at]) + value
    {
      for k := 0 to |value|
        invariant data[..at + k] == old(data[..at]) + value[..k]
      {
        data[at + k] := value[k];
        assert data[..at + k + 1] == data[..at + k] + [value[k]];
        assert value[..k + 1] == value[..k] + [value[k]];
      }
      assert value[..|value|] == value;
    }

    /** Moves the last bytes to the front, `overflow` places down, within the buffer. */
    method ShiftDown(overflow: nat)
      requires overflow <= len <= data.Length
      modifies data
      ensures data[..len - overflow] == old(data[overflow..len])
    {
      for k := 0 to len - overflow
        invariant forall j | 0 <= j < k :: data[j] == old(data[j + overflow])
        invariant forall j | k <= j < data.Length :: data[j] == old(data[j])
      {
        data[k] := data[k + overflow];
      }
    }

    /** A value that alone fills the buffer. */
    method Replace(value: Bytes)
      requires Valid() && 0 < limit <= |value|
      modifies this`len, this`dropped, data
      ensures Valid() && Contents() == Kept(limit, old(Contents()), value)
    {
      ghost var all := data[..len] + value;
      assert all[|all| - limit..] == value[|value| - limit..];
      dropped := dropped + (len + |value| - limit);
      CopyIn(value[|value| - limit..], 0);
      len := limit;
      assert data[..0] == "";
    }

    /** Drops what is held until `n` more bytes fit. */
    method MakeRoom(n: nat)
      requires Valid() && n < limit
      modifies this`len, this`dropped, data
      ensures Valid() && len + n <= limit
      ensures data[..len] == Tail(old(data[..len]), limit - n) && dropped == old(dropped) + old(len) - len
    {
      var overflow := len + n - limit;
      if overflow > 0 {
        assert data[..len][|data[..len]| - (limit - n)..] == data[overflow..len];
        ShiftDown(overflow);
        len := len - overflow;
        dropped := dropped + overflow;
      }
    }

    /** A value that fits beside at least a part of what is held. */
    method Append(value: Bytes)
      requires Valid() && |value| < limit
      modifies this`len, this`dropped, data
      ensures Valid() && Contents() == Kept(limit, old(Contents()), value)
    {
      hide Tail;
      ghost var before := data[..len];
      MakeRoom(|value|);
      ghost var room := data[..len];
      CopyIn(value, len);
      len := len + |value|;
      RoomForTail(before, value, limit);
      assert data[..len] == room + value == Tail(before + value, limit);
    }

    method Write(value: Bytes) returns (written: nat)
      requires Valid()
      modifies this`len, this`dropped, data
      ensures Valid() && written == |value|
      ensures Contents() == Kept(limit, old(Contents()), value)
    {
      written := |value|;
      if limit <= 0 {
        dropped := dropped + written;
      } else if |value| >= limit {
        Replace(value);
      } else {
        Append(value);
      }
    }

    method Snapshot() returns (bytes: Bytes, gone: nat)
      requires Valid()
      ensures Held(bytes, gone) == Contents()
    {
      bytes, gone := data[..len], dropped;
    }
  }

  /** One write: the tail of what was held and what comes, and the rest let go. */
  function Kept(limit: int, held: Held, value: Bytes): Held {
    var all := held.bytes + value;
    Held(Tail(all, limit), held.dropped + |all| - |Tail(all, limit)|)
  }

  function AllKept(limit: int, writes: seq<Bytes>): Held {
    if writes == [] then Held("", 0) else Kept(limit, AllKept(limit, writes[..|writes| - 1]), writes[|writes| - 1])
  }

  lemma RoomForTail(held: Bytes, value: Bytes, limit: int)
    requires |value| < limit
    ensures Tail(held, limit - |value|) + value == Tail(held + value, limit)
  {
    var all := held + value;
    if |all| > limit {
      assert all[|all| - limit..] == held[|all| - limit..] + value;
    }
  }

  lemma TailOfTail(a: Bytes, b: Bytes, limit: int)
    ensures Tail(Tail(a, limit) + b, limit) == Tail(a + b, limit)
  {
    if limit > 0 && |a| > limit {
      var cut := |a| - limit;
      assert (a[cut..] + b)[|b|..] == (a + b)[cut + |b|..];
    }
  }

  /**
   After any sequence of writes the writer holds exactly the last min(limit, total) bytes of their
   concatenation, and what it dropped and what it holds add up to the total.
   */
  lemma {:induction false} HoldsTheTail(limit: int, writes: seq<Bytes>)
    ensures var h := AllKept(limit, writes);
            && h.bytes == Tail(Concatenation(writes), limit)
            && h.dropped + |h.bytes| == |Concatenation(writes)|
  {
    if writes != [] {
      HoldsTheTail(limit, writes[..|writes| - 1]);
      TailOfTail(Concatenation(writes[..|writes| - 1]), writes[|writes| - 1], limit);
    }
  }

  /** Any sequence of writes to one writer. */
  method WriteAll(limit: int, writes: seq<Bytes>) returns (bytes: Bytes, gone: nat)
    ensures bytes == Tail(Concatenation(writes), limit)
    ensures gone + |bytes| == |Concatenation(writes)|
  {
    var writer := new BoundedTailWriter(limit);
    for i := 0 to |writes|
      invariant writer.Valid() && fresh(writer) && fresh(writer.data) && writer.limit == limit
      invariant writer.Contents() == AllKept(limit, writes[..i])
    {
      assert writes[..i + 1][..i] == writes[..i];
      var _ := writer.Write(writes[i]);
    }
    assert writes[..|writes|] == writes;
    bytes, gone := writer.Snapshot();
    HoldsTheTail(limit, writes);
  }

  // ----- the reject writer

  class BoundedRejectWriter {
    const limit: int
    var data: Bytes

    constructor (limit: int)
      ensures this.limit == limit && data == ""
    {
      this.limit := limit;
      data := "";
    }

    method Write(value: Bytes) returns (written: nat, ok: bool)
      modifies this`data
      ensures written <= |value| && data == old(data) + value[..written]
      ensures (ok, written) == Taken(limit, |old(data)|, |value|)
    {
      var remaining := limit - |data|;
      if remaining <= 0 {
        return 0, false;
      }
      if |value| > remaining {
        data := data + value[..remaining];
        return remaining, false;
      }
      data := data + value;
      assert value[..|value|] == value;
      return |value|, true;
    }
  }

  /** Whether a write of `n` bytes into a buffer of `held` goes well, and how many of them it takes. */
  function Taken(limit: int, held: nat, n: nat): (r: (bool, nat))
    ensures r.1 <= n && (r.0 ==> r.1 == n)
  {
    if limit - held <= 0 then (false, 0)
    else if n > limit - held then (false, limit - held)
    else (true, n)
  }

  /** The bytes held after the writes. */
  function Accepted(limit: int, writes: seq<Bytes>): Bytes {
    if writes == [] then ""
    else
      var held := Accepted(limit, writes[..|writes| - 1]);
      var value := writes[|writes| - 1];
      var taken := Taken(limit, |held|, |value|).1;
      held + value[..taken]
  }

  /**
   The reject writer holds exactly the first min(limit, total) bytes; a write that is not empty is
   refused exactly when the total passes the limit with it.
   */
  lemma {:induction false} HoldsTheHead(limit: int, writes: seq<Bytes>, value: Bytes)
    ensures Accepted(limit, writes) == Head(Concatenation(writes), limit)
    ensures value != "" ==>
              (Taken(limit, |Accepted(limit, writes)|, |value|).0 <==> |Concatenation(writes)| + |value| <= limit)
  {
    if writes != [] {
      var front, last := writes[..|writes| - 1], writes[|writes| - 1];
      HoldsTheHead(limit, front, last);
      var before := Concatenation(front);
      if 0 < limit <= |before| {
        assert (before + last)[..limit] == before[..limit];
      } else if 0 < limit < |before| + |last| {
        assert (before + last)[..limit] == before + last[..limit - |before|];
      }
    }
  }

  /** An empty write is refused exactly when the buffer is full already, though nothing of it is lost. */
  lemma EmptyWrites(limit: int, writes: seq<Bytes>)
    ensures !Taken(limit, |Accepted(limit, writes)|, 0).0 <==> |Concatenation(writes)| >= limit
  {
    HoldsTheHead(limit, writes, "");
  }

  /** Whether the i-th write goes well. */
  predicate GoesWell(limit: int, writes: seq<Bytes>, i: nat)
    requires i < |writes|
  {
    if writes[i] == "" then |Concatenation(writes[..i])| < limit else |Concatenation(writes[..i + 1])| <= limit
  }

  /** Any sequence of writes to one reject writer: what it holds, and which writes go well. */
  method WriteAllOrRefuse(limit: int, writes: seq<Bytes>) returns (bytes: Bytes, accepted: seq<bool>)
    ensures bytes == Head(Concatenation(writes), limit) && |accepted| == |writes|
    ensures forall i: nat | i < |writes| :: accepted[i] <==> GoesWell(limit, writes, i)
  {
    hide Concatenation, Accepted, Taken, Head, GoesWell;
    var writer := new BoundedRejectWriter(limit);
    accepted := [];
    NothingAccepted(limit, writes);
    for i := 0 to |writes|
      invariant fresh(writer) && writer.limit == limit && writer.data == Accepted(limit, writes[..i])
      invariant |accepted| == i && forall k: nat | k < i :: accepted[k] <==> GoesWell(limit, writes, k)
    {
      OneMoreWrite(limit, writes, i);
      var _, ok := writer.Write(writes[i]);
      accepted := accepted + [ok];
    }
    assert writes[..|writes|] == writes;
    HoldsTheHead(limit, writes, "");
    bytes := writer.data;
  }

  lemma NothingAccepted(limit: int, writes: seq<Bytes>)
    ensures Accepted(limit, writes[..0]) == ""
  {
  }

  /** What the next write of a sequence comes to. */
  lemma OneMoreWrite(limit: int, writes: seq<Bytes>, i: nat)
    requires i < |writes|
    ensures var held, value := Accepted(limit, writes[..i]), writes[i];
            && Accepted(limit, writes[..i + 1]) == held + value[..Taken(limit, |held|, |value|).1]
            && (Taken(limit, |held|, |value|).0 <==> GoesWell(limit, writes, i))
  {
    assert writes[..i + 1][..i] == writes[..i];
    HoldsTheHead(limit, writes[..i], writes[i]);
    EmptyWrites(limit, writes[..i]);
    hide Taken;
  }
}
