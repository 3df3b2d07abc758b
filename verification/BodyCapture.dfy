/** Reading a request body of unknown chunking under an exact size limit. */
module BodyCapture {
  import opened Bytes

  /** How a read or a copy ends. */
  datatype Outcome = Done | TooLarge | NoProgress | Broken

  datatype ReadStatus = More | Eof | Fail

  /** A stream that delivers its bytes in chunks of its own choosing. It may return nothing,
      up to `gaps(n)` times in a row when n bytes are left; if it `breaks`, any read may fail.
      `head` is a prefix put back in front of it, as io.MultiReader does. */
  class Stream {
    var head: seq<byte>
    var rest: seq<byte>
    var idle: nat   // empty reads in a row so far
    const gaps: nat -> nat
    const breaks: bool

    constructor (content: seq<byte>, gaps: nat -> nat, breaks: bool)
      ensures Pending() == content && head == [] && idle == 0 && this.gaps == gaps && this.breaks == breaks
    {
      head := [];
      rest := content;
      idle := 0;
      this.gaps := gaps;
      this.breaks := breaks;
    }

    /** The bytes still to come. */
    function Pending(): seq<byte>
      reads this
    {
      head + rest
    }

    /** What is left when `limit` bytes have been taken, or all. */
    function Left(limit: int): nat
      reads this
    {
      if |Pending()| > limit then |Pending()| - limit else 0
    }

    /** Asked then for one byte more, the stream says something within a hundred reads. */
    predicate Answers(limit: int)
      reads this
    {
      gaps(Left(limit)) < 100
    }

    method Read(space: nat) returns (chunk: seq<byte>, status: ReadStatus)
      requires space > 0
      modifies this
      ensures |chunk| <= space && old(Pending()) == chunk + Pending()
      ensures status.Eof? ==> Pending() == []
      ensures status.More? && chunk == [] ==> idle == old(idle) + 1 <= gaps(|Pending()|)
      ensures status.Fail? ==> breaks
    {
      if head != [] {
        var n := if |head| < space then |head| else space;
        chunk, head, status, idle := head[..n], head[n..], More, 0;
        return;
      }
      var stall: bool, fail: bool, last: bool := *, *, *;
      if stall && idle < gaps(|rest|) {
        idle := idle + 1;
        return [], More;
      }
      idle := 0;
      if fail && breaks { return [], Fail; }
      if rest == [] { return [], Eof; }
      var most := if |rest| < space then |rest| else space;
      var n :| 0 < n <= most;
      chunk, rest := rest[..n], rest[n..];
      status := More;
      if last && rest == [] { status := Eof; }
    }

    method PutBack(prefix: seq<byte>)
      modifies this`head
      ensures Pending() == prefix + old(Pending())
    {
      head := prefix + head;
      assert prefix + old(head) + rest == prefix + (old(head) + rest);
    }
  }

  /** io.Copy from an io.LimitedReader: everything up to the limit, unless the destination
      or the stream fails. */
  method CopyLimited(reader: Stream, limit: nat, dstFails: bool) returns (data: seq<byte>, r: Outcome)
    modifies reader
    ensures old(reader.Pending()) == data + reader.Pending() && |data| <= limit
    ensures r.Done? ==> |data| == limit || reader.Pending() == []
    ensures r.Done? || r.Broken?
    ensures r.Broken? ==> reader.breaks || dstFails
  {
    data := [];
    var n := limit;
    while n > 0
      invariant 0 <= n && n + |data| == limit && old(reader.Pending()) == data + reader.Pending()
      decreases |reader.Pending()|, if reader.idle <= reader.gaps(|reader.Pending()|) then reader.gaps(|reader.Pending()|) - reader.idle else 0
    {
      ghost var before := reader.Pending();
      var chunk, status := reader.Read(n);
      assert data + before == data + chunk + reader.Pending();
      if chunk != [] && dstFails {
        data := data + chunk;
        return data, Broken;
      }
      data := data + chunk;
      n := n - |chunk|;
      if status.Fail? { return data, Broken; }
      if status.Eof? { return data, Done; }
    }
    return data, Done;
  }

  /** copyBodyWithLimit: copy, then probe for one byte too many. */
  method CopyBodyWithLimit(reader: Stream, maxBytes: int, dstFails: bool) returns (data: seq<byte>, r: Outcome)
    modifies reader
    ensures r.Done? ==> data == old(reader.Pending()) && |data| <= maxBytes && reader.Pending() == []
    ensures r.TooLarge? ==> |old(reader.Pending())| > maxBytes
    ensures r.NoProgress? ==> !old(reader.Answers(maxBytes))
    ensures r.Broken? ==> reader.breaks || dstFails
  {
    if maxBytes < 0 { return [], TooLarge; }
    data, r := CopyLimited(reader, maxBytes, dstFails);
    if !r.Done? { return; }
    var emptyReads := 0;
    ghost var pending := reader.Pending();
    assert old(reader.Pending()) == data + pending;
    while true
      invariant reader.Pending() == pending && 0 <= emptyReads < 100
      invariant emptyReads <= reader.idle && (emptyReads > 0 ==> reader.idle <= reader.gaps(|pending|))
      decreases 100 - emptyReads
    {
      var extra, status := reader.Read(1);
      if extra != [] { return data, TooLarge; }
      if status.Eof? {
        assert data + [] == data;
        return data, Done;
      }
      if status.Fail? { return data, Broken; }
      if emptyReads >= 99 { return data, NoProgress; }
      emptyReads := emptyReads + 1;
    }
  }
}
