/** The replayable request body: one abstract machine, and the memory and disk storages
    that both refine it. */
module BodyStorage {
  import opened Options
  import opened Bytes

  // ----- the abstract machine

  /** Content, cursor of the shared reader, and whether it is closed. */
  datatype Body = Body(content: seq<byte>, cursor: nat, closed: bool)

  datatype Error = StorageClosed | BadSeek | BadOffset

  datatype Result<+T> = Ok(value: T) | Err(error: Error)

  datatype Whence = FromStart | FromCurrent | FromEnd

  datatype Chunk = Chunk(bytes: seq<byte>, eof: bool)

  function Tail(b: Body): seq<byte> { if b.cursor <= |b.content| then b.content[b.cursor..] else [] }

  /** A read of non-empty space: some bytes from the cursor on, end of file only when none are left. */
  ghost predicate ReadSpec(b: Body, space: nat, b': Body, r: Result<Chunk>) {
    if b.closed then b' == b && r == Err(StorageClosed)
    else
      && r.Ok? && b'.content == b.content && !b'.closed && b'.cursor == b.cursor + |r.value.bytes|
      && |r.value.bytes| <= space && r.value.bytes <= Tail(b)
      && (r.value.eof <==> Tail(b) == []) && (r.value.bytes == [] <==> Tail(b) == [])
  }

  function SeekTarget(b: Body, offset: int, whence: Whence): int {
    match whence
    case FromStart => offset
    case FromCurrent => b.cursor + offset
    case FromEnd => |b.content| + offset
  }

  function SeekSpec(b: Body, offset: int, whence: Whence): (Body, Result<int>) {
    if b.closed then (b, Err(StorageClosed))
    else if SeekTarget(b, offset, whence) < 0 then (b, Err(BadSeek))
    else (b.(cursor := SeekTarget(b, offset, whence)), Ok(SeekTarget(b, offset, whence)))
  }

  /** As many bytes as there are, end of file when that is less than asked for. */
  function ReadAtSpec(b: Body, space: nat, offset: int): Result<Chunk> {
    if b.closed then Err(StorageClosed)
    else if offset < 0 then Err(BadOffset)
    else
      var tail := if offset <= |b.content| then b.content[offset..] else [];
      Ok(if |tail| < space then Chunk(tail, true) else Chunk(tail[..space], false))
  }

  function BytesSpec(b: Body): Result<seq<byte>> { if b.closed then Err(StorageClosed) else Ok(b.content) }

  // ----- independent readers

  /** A cursor of its own over fixed content. */
  class Reader {
    const data: seq<byte>
    var pos: nat
    var open: bool

    ghost predicate Valid() reads this { pos <= |data| }

    constructor (data: seq<byte>)
      ensures Valid() && open && pos == 0 && this.data == data
    {
      this.data := data;
      pos := 0;
      open := true;
    }

    method Read(space: nat) returns (r: Result<Chunk>)
      requires Valid() && space > 0
      modifies this
      ensures Valid() && open == old(open) && old(pos) <= pos
      ensures !open ==> r == Err(StorageClosed) && pos == old(pos)
      ensures open ==> r.Ok? && r.value.bytes == data[old(pos)..pos] && |r.value.bytes| <= space
      ensures open ==> (r.value.eof <==> old(pos) == |data|) && (pos == old(pos) <==> old(pos) == |data|)
    {
      if !open { return Err(StorageClosed); }
      if pos == |data| { return Ok(Chunk([], true)); }
      var most := if |data| - pos < space then |data| - pos else space;
      var n :| 0 < n <= most;
      r := Ok(Chunk(data[pos..pos + n], false));
      pos := pos + n;
    }

    method Close()
      requires Valid()
      modifies this
      ensures Valid() && !open && pos == old(pos)
    {
      open := false;
    }
  }

  /** Reading a fresh reader to its end replays the whole content, however it is chunked. */
  method ReplayAll(reader: Reader, space: nat) returns (all: seq<byte>)
    requires reader.Valid() && reader.open && reader.pos == 0 && space > 0
    modifies reader
    ensures all == reader.data
  {
    all := [];
    while true
      invariant reader.Valid() && reader.open && all == reader.data[..reader.pos]
      decreases |reader.data| - reader.pos
    {
      var r := reader.Read(space);
      all := all + r.value.bytes;
      if r.value.eof { return; }
    }
  }

  // ----- memory

  class MemoryStorage {
    var data: Option<seq<byte>>   // dropped on close
    var index: nat                // of the bytes.Reader
    const size: nat
    ghost const content: seq<byte>

    ghost predicate Valid()
      reads this
    {
      size == |content| && (data.Some? ==> data.value == content)
    }

    ghost function View(): Body
      reads this
    {
      Body(content, index, data.None?)
    }

    constructor (data: seq<byte>)
      ensures Valid() && View() == Body(data, 0, false) && size == |data|
    {
      this.data := Some(data);
      index := 0;
      size := |data|;
      content := data;
    }

    method Read(space: nat) returns (r: Result<Chunk>)
      requires Valid() && space > 0
      modifies this
      ensures Valid() && ReadSpec(old(View()), space, View(), r)
    {
      if data.None? { return Err(StorageClosed); }
      if index >= |data.value| { return Ok(Chunk([], true)); }
      var n := if |data.value| - index < space then |data.value| - index else space;
      r := Ok(Chunk(data.value[index..index + n], false));
      index := index + n;
    }

    method Seek(offset: int, whence: Whence) returns (r: Result<int>)
      requires Valid()
      modifies this
      ensures Valid() && (View(), r) == SeekSpec(old(View()), offset, whence)
    {
      if data.None? { return Err(StorageClosed); }
      var abs := match whence
        case FromStart => offset
        case FromCurrent => index + offset
        case FromEnd => |data.value| + offset;
      if abs < 0 { return Err(BadSeek); }
      index := abs;
      return Ok(abs);
    }

    method ReadAt(space: nat, offset: int) returns (r: Result<Chunk>)
      requires Valid() && space > 0
      ensures r == ReadAtSpec(View(), space, offset)
    {
      if data.None? { return Err(StorageClosed); }
      if offset < 0 { return Err(BadOffset); }
      if offset >= |data.value| { return Ok(Chunk([], true)); }
      var tail := data.value[offset..];
      return Ok(if |tail| < space then Chunk(tail, true) else Chunk(tail[..space], false));
    }

    method Bytes() returns (r: Result<seq<byte>>)
      requires Valid()
      ensures r == BytesSpec(View())
    {
      return if data.None? then Err(StorageClosed) else Ok(data.value);
    }

    method NewReader() returns (r: Result<Reader>)
      requires Valid()
      ensures r.Ok? <==> !View().closed
      ensures r.Ok? ==> fresh(r.value) && r.value.Valid() && r.value.open && r.value.pos == 0 && r.value.data == View().content
      ensures r.Err? ==> r.error == StorageClosed
    {
      if data.None? { return Err(StorageClosed); }
      var reader := new Reader(data.value);
      return Ok(reader);
    }

    /** True the first time: that is when the counters are given back. */
    method Close() returns (first: bool)
      requires Valid()
      modifies this
      ensures Valid() && View() == old(View()).(closed := true) && first == !old(View()).closed
    {
      first := data.Some?;
      data := None;
    }
  }

  // ----- disk

  /** An open file: its bytes and its offset. Reads may come back short. */
  class File {
    const bytes: seq<byte>
    var offset: nat

    constructor (bytes: seq<byte>)
      ensures this.bytes == bytes && offset == 0
    {
      this.bytes := bytes;
      offset := 0;
    }

    method Read(space: nat) returns (c: Chunk)
      requires space > 0
      modifies this
      ensures c.eof <==> old(offset) >= |bytes|
      ensures c.eof ==> c.bytes == [] && offset == old(offset)
      ensures !c.eof ==> 0 < |c.bytes| <= space && offset == old(offset) + |c.bytes| <= |bytes| && c.bytes == bytes[old(offset)..offset]
    {
      if offset >= |bytes| { return Chunk([], true); }
      var most := if |bytes| - offset < space then |bytes| - offset else space;
      var n :| 0 < n <= most;
      c := Chunk(bytes[offset..offset + n], false);
      offset := offset + n;
    }
  }

  class DiskStorage {
    const file: File
    const size: nat
    var closed: bool
    var removed: bool   // the path is gone

    ghost predicate Valid()
      reads this
    {
      size == |file.bytes| && removed == closed
    }

    ghost function View(): Body
      reads this, file
    {
      Body(file.bytes, file.offset, closed)
    }

    constructor (bytes: seq<byte>)
      ensures Valid() && fresh(file) && View() == Body(bytes, 0, false) && size == |bytes|
    {
      file := new File(bytes);
      size := |bytes|;
      closed := false;
      removed := false;
    }

    method Read(space: nat) returns (r: Result<Chunk>)
      requires Valid() && space > 0
      modifies file
      ensures Valid() && ReadSpec(old(View()), space, View(), r)
    {
      if closed { return Err(StorageClosed); }
      var c := file.Read(space);
      return Ok(c);
    }

    method Seek(offset: int, whence: Whence) returns (r: Result<int>)
      requires Valid()
      modifies file
      ensures Valid() && (View(), r) == SeekSpec(old(View()), offset, whence)
    {
      if closed { return Err(StorageClosed); }
      var abs := match whence
        case FromStart => offset
        case FromCurrent => file.offset + offset
        case FromEnd => |file.bytes| + offset;
      if abs < 0 { return Err(BadSeek); }
      file.offset := abs;
      return Ok(abs);
    }

    method ReadAt(space: nat, offset: int) returns (r: Result<Chunk>)
      requires Valid() && space > 0
      ensures r == ReadAtSpec(View(), space, offset)
    {
      if closed { return Err(StorageClosed); }
      if offset < 0 { return Err(BadOffset); }
      var tail := if offset <= |file.bytes| then file.bytes[offset..] else [];
      return Ok(if |tail| < space then Chunk(tail, true) else Chunk(tail[..space], false));
    }

    /** Remembers the offset, reads from the start to the size, and goes back. */
    method Bytes() returns (r: Result<seq<byte>>)
      requires Valid()
      modifies file
      ensures Valid() && View() == old(View()) && r == BytesSpec(View())
    {
      if closed { return Err(StorageClosed); }
      var currentPos := file.offset;
      file.offset := 0;
      var data: seq<byte> := [];
      while |data| < size
        invariant |data| == file.offset <= size && data == file.bytes[..file.offset]
        decreases size - |data|
      {
        var c := file.Read(size - |data|);
        data := data + c.bytes;
      }
      assert data == file.bytes;
      file.offset := currentPos;
      return Ok(data);
    }

    /** Opens the path again: possible while the file is there. */
    method NewReader() returns (r: Result<Reader>)
      requires Valid()
      ensures r.Ok? <==> !View().closed
      ensures r.Ok? ==> fresh(r.value) && r.value.Valid() && r.value.open && r.value.pos == 0 && r.value.data == View().content
      ensures r.Err? ==> r.error == StorageClosed
    {
      if closed { return Err(StorageClosed); }
      var reader := new Reader(file.bytes);
      return Ok(reader);
    }

    method Close() returns (first: bool)
      requires Valid()
      modifies this
      ensures Valid() && View() == old(View()).(closed := true) && first == !old(View()).closed
    {
      first := !closed;
      if first {
        removed := true;
      }
      closed := true;
    }
  }

  // ----- what the machine promises, whichever storage runs it

  datatype Op = OpRead(space: nat) | OpSeek(offset: int, whence: Whence) | OpReadAt(space: nat, at: int) | OpBytes | OpReader | OpClose

  datatype Answer =
    | GotChunk(chunk: Result<Chunk>) | GotOffset(offset: Result<int>) | GotBytes(bytes: Result<seq<byte>>)
    | GotReader(replay: Result<seq<byte>>) | GotClosed

  /** One operation on the machine: what it may answer and where it leaves the body. */
  ghost predicate OpSpec(b: Body, op: Op, b': Body, a: Answer) {
    match op
    case OpRead(space) => a.GotChunk? && space > 0 && ReadSpec(b, space, b', a.chunk)
    case OpSeek(offset, whence) => a.GotOffset? && (b', a.offset) == SeekSpec(b, offset, whence)
    case OpReadAt(space, at) => space > 0 && b' == b && a == GotChunk(ReadAtSpec(b, space, at))
    case OpBytes => b' == b && a == GotBytes(BytesSpec(b))
    case OpReader => b' == b && a == GotReader(BytesSpec(b))
    case OpClose => b' == b.(closed := true) && a == GotClosed
  }

  ghost predicate IsHistory(bodies: seq<Body>, ops: seq<Op>, answers: seq<Answer>) {
    && |bodies| == |ops| + 1 == |answers| + 1
    && forall i | 0 <= i < |ops| :: OpSpec(bodies[i], ops[i], bodies[i + 1], answers[i])
  }

  /** No operation changes the content, and closed stays closed. */
  lemma {:induction false} ContentFixed(bodies: seq<Body>, ops: seq<Op>, answers: seq<Answer>, i: nat, j: nat)
    requires IsHistory(bodies, ops, answers) && i <= j < |bodies|
    ensures bodies[j].content == bodies[i].content && (bodies[i].closed ==> bodies[j].closed && bodies[j].cursor == bodies[i].cursor)
    decreases j - i
  {
    if i < j {
      ContentFixed(bodies, ops, answers, i, j - 1);
      assert OpSpec(bodies[j - 1], ops[j - 1], bodies[j], answers[j - 1]);
    }
  }

  predicate ReportsClosed(a: Answer) {
    match a
    case GotChunk(r) => r == Err(StorageClosed)
    case GotOffset(r) => r == Err(StorageClosed)
    case GotBytes(r) => r == Err(StorageClosed)
    case GotReader(r) => r == Err(StorageClosed)
    case GotClosed => true
  }

  /** Once closed, every later operation reports it, and closing again changes nothing. */
  lemma AfterClose(bodies: seq<Body>, ops: seq<Op>, answers: seq<Answer>, i: nat, j: nat)
    requires IsHistory(bodies, ops, answers) && i < j < |ops| && ops[i].OpClose?
    ensures ReportsClosed(answers[j]) && bodies[j + 1] == bodies[j] == bodies[i + 1]
  {
    assert OpSpec(bodies[i], ops[i], bodies[i + 1], answers[i]);
    ContentFixed(bodies, ops, answers, i + 1, j);
    assert OpSpec(bodies[j], ops[j], bodies[j + 1], answers[j]);
  }

  /** The reads from a seek to the start onward, with nothing but other readers, Bytes and
      ReadAt in between, spell a prefix of the content: those never move the cursor. */
  ghost function Delivered(ops: seq<Op>, answers: seq<Answer>): seq<byte>
    requires |ops| == |answers|
  {
    if ops == [] then []
    else
      var n := |ops| - 1;
      Delivered(ops[..n], answers[..n]) +
      if ops[n].OpRead? && answers[n].GotChunk? && answers[n].chunk.Ok? then answers[n].chunk.value.bytes else []
  }

  /** A body part of which has been delivered from the start. */
  ghost predicate Progress(b: Body, content: seq<byte>, sofar: seq<byte>) {
    !b.closed && b.content == content && b.cursor == |sofar| && sofar <= content
  }

  lemma StepProgress(b: Body, op: Op, b': Body, a: Answer, content: seq<byte>, sofar: seq<byte>)
    requires Progress(b, content, sofar) && OpSpec(b, op, b', a) && !op.OpSeek? && !op.OpClose?
    ensures Progress(b', content, sofar + if op.OpRead? && a.GotChunk? && a.chunk.Ok? then a.chunk.value.bytes else [])
  {
    if op.OpRead? {
      var bytes := a.chunk.value.bytes;
      assert bytes <= content[|sofar|..];
      assert content == sofar + content[|sofar|..];
    }
  }

  lemma {:induction false} ReplayFromStart(bodies: seq<Body>, ops: seq<Op>, answers: seq<Answer>)
    requires IsHistory(bodies, ops, answers) && !bodies[0].closed && bodies[0].cursor == 0
    requires forall i | 0 <= i < |ops| :: !ops[i].OpSeek? && !ops[i].OpClose?
    ensures Progress(bodies[|ops|], bodies[0].content, Delivered(ops, answers))
    decreases |ops|
  {
    hide OpSpec, Progress;
    if ops == [] {
      NothingYet(bodies[0]);
    } else {
      var n := |ops| - 1;
      ReplayFromStart(bodies[..n + 1], ops[..n], answers[..n]);
      assert OpSpec(bodies[n], ops[n], bodies[n + 1], answers[n]);
      StepProgress(bodies[n], ops[n], bodies[n + 1], answers[n], bodies[0].content, Delivered(ops[..n], answers[..n]));
    }
  }

  lemma NothingYet(b: Body)
    requires !b.closed && b.cursor == 0
    ensures Progress(b, b.content, [])
  {
  }

  // ----- what seeking and positioned reading mean

  /** A position is reached alike from the start, from where the cursor is and from the end. */
  lemma SeekMeaning(b: Body, p: nat)
    requires !b.closed
    ensures SeekSpec(b, p, FromStart) == (b.(cursor := p), Ok(p))
    ensures SeekSpec(b, p - b.cursor, FromCurrent) == SeekSpec(b, p, FromStart) == SeekSpec(b, p - |b.content|, FromEnd)
  {
  }

  /** No position before the start is reached, and trying moves nothing. */
  lemma SeekRefused(b: Body, back: int)
    requires !b.closed && back > 0
    ensures SeekSpec(b, -back, FromStart) == (b, Err(BadSeek))
    ensures SeekSpec(b, -(b.cursor + back), FromCurrent) == SeekSpec(b, -(|b.content| + back), FromEnd) == (b, Err(BadSeek))
  {
  }

  /** A positioned read gives the bytes from there on, as many as asked for if there are so
      many, and says end of file exactly when there are not. */
  lemma ReadAtMeaning(b: Body, space: nat, at: nat)
    requires !b.closed
    ensures ReadAtSpec(b, space, at).Ok?
    ensures var c := ReadAtSpec(b, space, at).value; var there := if at <= |b.content| then |b.content| - at else 0;
            && |c.bytes| == (if there < space then there else space) && (c.eof <==> there < space)
            && forall k | 0 <= k < |c.bytes| :: c.bytes[k] == b.content[at + k]
  {
  }
}
