/** Creating body storages: which kind, under which limit, and the counters that say what
    is in use. */
module BodyCache {
  import opened Options
  import opened Bytes
  import opened BodyCapture
  import opened BodyStorage

  // ----- counters

  datatype Counters = Counters(diskFiles: int, diskBytes: int, memBuffers: int, memBytes: int, diskHits: int, memHits: int)

  function IncrementDiskFiles(c: Counters, size: int): Counters {
    c.(diskFiles := c.diskFiles + 1, diskBytes := c.diskBytes + size)
  }

  /** A counter that would go below zero is set to zero. */
  function DecrementDiskFiles(c: Counters, size: int): Counters {
    c.(diskFiles := if c.diskFiles - 1 < 0 then 0 else c.diskFiles - 1,
       diskBytes := if c.diskBytes - size < 0 then 0 else c.diskBytes - size)
  }

  function IncrementMemoryBuffers(c: Counters, size: int): Counters {
    c.(memBuffers := c.memBuffers + 1, memBytes := c.memBytes + size)
  }

  function DecrementMemoryBuffers(c: Counters, size: int): Counters {
    c.(memBuffers := c.memBuffers - 1, memBytes := c.memBytes - size)
  }

  datatype Kind = Memory | Disk

  function Charged(c: Counters, kind: Kind, size: int): Counters {
    if kind.Disk? then IncrementDiskFiles(c, size) else IncrementMemoryBuffers(c, size)
  }

  function Released(c: Counters, kind: Kind, size: int): Counters {
    if kind.Disk? then DecrementDiskFiles(c, size) else DecrementMemoryBuffers(c, size)
  }

  function Hit(c: Counters, kind: Kind): Counters {
    if kind.Disk? then c.(diskHits := c.diskHits + 1) else c.(memHits := c.memHits + 1)
  }

  datatype Config = Config(enabled: bool, thresholdMB: int, maxSizeMB: int)

  const MB: int := 0x100000

  function ThresholdBytes(g: Config): int { g.thresholdMB * MB }
  function MaxSizeBytes(g: Config): int { g.maxSizeMB * MB }

  predicate IsDiskCacheAvailable(g: Config, c: Counters, requestSize: int) {
    g.enabled && c.diskBytes + requestSize <= MaxSizeBytes(g)
  }

  // ----- where a body is to go, in bytes

  predicate LargeEnough(g: Config, size: int) { size >= g.thresholdMB * 1048576 }

  predicate Room(g: Config, c: Counters, size: int) { g.enabled && c.diskBytes + size <= g.maxSizeMB * 1048576 }

  /** A body of known length that is large enough and has room is streamed to disk; so is one of
      unknown length with room for the limit, unless it turns out to be small. */
  predicate StreamsToDisk(g: Config, c: Counters, size: int, contentLength: int, maxBytes: int) {
    || (contentLength > 0 && LargeEnough(g, contentLength) && Room(g, c, contentLength))
    || (contentLength < 0 && maxBytes >= 0 && Room(g, c, maxBytes) && (g.thresholdMB <= 0 || LargeEnough(g, size)))
  }

  /** Any other body is buffered, and then goes to disk if it is large enough and has room. */
  predicate GoesToDisk(g: Config, c: Counters, size: int, contentLength: int, maxBytes: int) {
    || StreamsToDisk(g, c, size, contentLength, maxBytes)
    || (!(contentLength < 0 && maxBytes >= 0 && Room(g, c, maxBytes)) && LargeEnough(g, size) && Room(g, c, size))
  }

  // ----- storages of either kind

  datatype Storage = InMemory(m: MemoryStorage) | OnDisk(d: DiskStorage)

  function KindOf(s: Storage): Kind { if s.InMemory? then Memory else Disk }

  ghost function ViewOf(s: Storage): Body
    reads if s.InMemory? then {s.m as object} else {s.d, s.d.file}
  {
    match s case InMemory(m) => m.View() case OnDisk(d) => d.View()
  }

  ghost predicate ValidOf(s: Storage)
    reads if s.InMemory? then {s.m as object} else {s.d}
  {
    match s case InMemory(m) => m.Valid() case OnDisk(d) => d.Valid()
  }

  /** A storage just made, holding exactly this. */
  ghost predicate Holds(s: Storage, content: seq<byte>)
    reads if s.InMemory? then {s.m as object} else {s.d, s.d.file}
  {
    ValidOf(s) && ViewOf(s) == Body(content, 0, false)
  }

  ghost function Objects(s: Option<Storage>): set<object> {
    match s
    case None => {}
    case Some(InMemory(m)) => {m}
    case Some(OnDisk(d)) => {d, d.file}
  }

  /** Either storage performs every operation as the abstract machine allows. */
  method Perform(s: Storage, op: Op) returns (a: Answer)
    requires ValidOf(s) && (op.OpRead? || op.OpReadAt? ==> op.space > 0)
    modifies Objects(Some(s))
    ensures ValidOf(s) && OpSpec(old(ViewOf(s)), op, ViewOf(s), a)
  {
    match s
    case InMemory(m) => a := PerformInMemory(m, op);
    case OnDisk(d) => a := PerformOnDisk(d, op);
  }

  method PerformInMemory(m: MemoryStorage, op: Op) returns (a: Answer)
    requires m.Valid() && (op.OpRead? || op.OpReadAt? ==> op.space > 0)
    modifies m
    ensures m.Valid() && OpSpec(old(m.View()), op, m.View(), a)
  {
    match op
    case OpRead(space) => var r := m.Read(space); a := GotChunk(r);
    case OpSeek(offset, whence) => var r := m.Seek(offset, whence); a := GotOffset(r);
    case OpReadAt(space, at) => var r := m.ReadAt(space, at); a := GotChunk(r);
    case OpBytes => var r := m.Bytes(); a := GotBytes(r);
    case OpReader =>
      var r := m.NewReader();
      a := ReadToEnd(r);
    case OpClose => var _ := m.Close(); a := GotClosed;
  }

  method PerformOnDisk(d: DiskStorage, op: Op) returns (a: Answer)
    requires d.Valid() && (op.OpRead? || op.OpReadAt? ==> op.space > 0)
    modifies d, d.file
    ensures d.Valid() && OpSpec(old(d.View()), op, d.View(), a)
  {
    match op
    case OpRead(space) => var r := d.Read(space); a := GotChunk(r);
    case OpSeek(offset, whence) => var r := d.Seek(offset, whence); a := GotOffset(r);
    case OpReadAt(space, at) => var r := d.ReadAt(space, at); a := GotChunk(r);
    case OpBytes => var r := d.Bytes(); a := GotBytes(r);
    case OpReader =>
      var r := d.NewReader();
      a := ReadToEnd(r);
    case OpClose => var _ := d.Close(); a := GotClosed;
  }

  /** What a new reader delivers when read to its end. */
  method ReadToEnd(r: Result<Reader>) returns (a: Answer)
    requires r.Ok? ==> r.value.Valid() && r.value.open && r.value.pos == 0
    modifies if r.Ok? then {r.value} else {}
    ensures a == GotReader(match r case Ok(reader) => Ok(reader.data) case Err(e) => Err(e))
  {
    match r
    case Err(e) => a := GotReader(Err(e));
    case Ok(reader) =>
      var all := ReplayAll(reader, 512);
      a := GotReader(Ok(all));
  }

  /** So every use of a storage, of either kind, is a history of the machine. */
  method Drive(s: Storage, ops: seq<Op>) returns (ghost bodies: seq<Body>, answers: seq<Answer>)
    requires ValidOf(s) && forall i | 0 <= i < |ops| :: ops[i].OpRead? || ops[i].OpReadAt? ==> ops[i].space > 0
    modifies Objects(Some(s))
    ensures ValidOf(s) && IsHistory(bodies, ops, answers)
    ensures bodies[0] == old(ViewOf(s)) && bodies[|ops|] == ViewOf(s)
  {
    hide OpSpec;
    bodies, answers := [ViewOf(s)], [];
    for i := 0 to |ops|
      invariant ValidOf(s) && IsHistory(bodies, ops[..i], answers)
      invariant bodies[0] == old(ViewOf(s)) && bodies[i] == ViewOf(s)
    {
      var a := Perform(s, ops[i]);
      bodies, answers := bodies + [ViewOf(s)], answers + [a];
    }
    assert ops[..|ops|] == ops;
  }

  datatype Created = Stored(s: Storage) | Failed(why: Outcome)

  /** What the disk does when asked: works, cannot create a file, or cannot write it. */
  datatype DiskState = DiskWorks | CreateFails | WriteFails

  class Cache {
    var counters: Counters
    var config: Config

    constructor (config: Config)
      ensures counters == Counters(0, 0, 0, 0, 0, 0) && this.config == config
    {
      counters := Counters(0, 0, 0, 0, 0, 0);
      this.config := config;
    }

    method NewMemoryStorage(data: seq<byte>) returns (s: Storage)
      modifies this`counters
      ensures s.InMemory? && fresh(s.m) && Holds(s, data)
      ensures counters == Charged(old(counters), Memory, |data|)
    {
      counters := IncrementMemoryBuffers(counters, |data|);
      var m := new MemoryStorage(data);
      s := InMemory(m);
    }

    method NewDiskStorage(data: seq<byte>, disk: DiskState) returns (r: Option<Storage>)
      modifies this`counters
      ensures r.Some? <==> disk.DiskWorks?
      ensures r.Some? ==> r.value.OnDisk? && fresh(r.value.d) && fresh(r.value.d.file) && Holds(r.value, data)
      ensures counters == if r.Some? then Charged(old(counters), Disk, |data|) else old(counters)
    {
      if !disk.DiskWorks? { return None; }
      var d := new DiskStorage(data);
      counters := IncrementDiskFiles(counters, |data|);
      return Some(OnDisk(d));
    }

    method NewDiskStorageFromReader(reader: Stream, maxBytes: int, disk: DiskState) returns (r: Created)
      modifies this`counters, reader
      ensures r.Stored? ==> r.s.OnDisk? && fresh(r.s.d) && fresh(r.s.d.file) && Holds(r.s, old(reader.Pending()))
      ensures r.Stored? ==> |old(reader.Pending())| <= maxBytes && disk.DiskWorks?
      ensures r.Failed? && r.why.TooLarge? ==> |old(reader.Pending())| > maxBytes
      ensures r.Failed? && r.why.NoProgress? ==> !old(reader.Answers(maxBytes))
      ensures r.Failed? ==> !r.why.Done?
      ensures r.Failed? && r.why.Broken? ==> reader.breaks || !disk.DiskWorks?
      ensures counters == if r.Stored? then Charged(old(counters), Disk, |old(reader.Pending())|) else old(counters)
    {
      if disk.CreateFails? { return Failed(Broken); }
      var data, end := CopyBodyWithLimit(reader, maxBytes, disk.WriteFails?);
      if !end.Done? { return Failed(end); }
      if disk.WriteFails? { return Failed(Broken); }
      var d := new DiskStorage(data);
      counters := IncrementDiskFiles(counters, |data|);
      return Stored(OnDisk(d));
    }

    /** Disk if enabled, large enough and there is room; memory otherwise or if the disk fails. */
    method CreateBodyStorage(data: seq<byte>, disk: DiskState) returns (s: Storage)
      modifies this`counters
      ensures Holds(s, data)
      ensures s.OnDisk? ==> fresh(s.d) && fresh(s.d.file)
      ensures s.InMemory? ==> fresh(s.m)
      ensures s.OnDisk? <==> LargeEnough(config, |data|) && Room(config, old(counters), |data|) && disk.DiskWorks?
      ensures s.OnDisk? ==> IsDiskCacheAvailable(config, old(counters), |data|)
      ensures counters == Charged(old(counters), KindOf(s), |data|)
    {
      if config.enabled && |data| >= ThresholdBytes(config) && IsDiskCacheAvailable(config, counters, |data|) {
        var made := NewDiskStorage(data, disk);
        if made.Some? { return made.value; }
      }
      s := NewMemoryStorage(data);
    }

    /** The path for a stream of unknown length with room on disk: buffer up to the
        threshold, then decide. */
    method CaptureChunked(reader: Stream, maxBytes: nat, disk: DiskState) returns (r: Created)
      modifies this`counters, reader
      ensures r.Stored? ==> Holds(r.s, old(reader.Pending())) && |old(reader.Pending())| <= maxBytes
      ensures r.Stored? && r.s.OnDisk? ==> fresh(r.s.d) && fresh(r.s.d.file)
      ensures r.Stored? && r.s.InMemory? ==> fresh(r.s.m)
      ensures r.Failed? && r.why.TooLarge? ==> |old(reader.Pending())| > maxBytes
      ensures r.Failed? && r.why.NoProgress? ==> !old(reader.Answers(maxBytes))
      ensures r.Failed? ==> !r.why.Done?
      ensures r.Failed? && r.why.Broken? ==> reader.breaks || !disk.DiskWorks?
      ensures var large := config.thresholdMB <= 0 || LargeEnough(config, |old(reader.Pending())|);
              && (r.Stored? ==> (r.s.OnDisk? <==> large) && (large ==> disk.DiskWorks?))
              && (!large && !reader.breaks && old(reader.Answers(maxBytes)) && |old(reader.Pending())| <= maxBytes ==> r.Stored?)
      ensures counters == if r.Stored? then Hit(Charged(old(counters), KindOf(r.s), |old(reader.Pending())|), KindOf(r.s)) else old(counters)
    {
      var threshold := ThresholdBytes(config);
      if threshold <= 0 {
        r := NewDiskStorageFromReader(reader, maxBytes, disk);
        if r.Stored? { counters := Hit(counters, Disk); }
        return;
      }
      var prefixLimit := if maxBytes < threshold then maxBytes else threshold;
      var prefix, end := CopyLimited(reader, prefixLimit, false);
      if !end.Done? { return Failed(end); }
      if |prefix| >= threshold {
        reader.PutBack(prefix);
        r := NewDiskStorageFromReader(reader, maxBytes, disk);
        if r.Stored? { counters := Hit(counters, Disk); }
        return;
      }
      if |prefix| == maxBytes {
        ghost var pending := reader.Pending();
        var _, probe := CopyBodyWithLimit(reader, 0, false);
        if !probe.Done? { return Failed(probe); }
      }
      assert prefix == old(reader.Pending());
      var s := NewMemoryStorage(prefix);
      counters := Hit(counters, Memory);
      return Stored(s);
    }

    /** CreateBodyStorageFromReader; `checked` is the size it asked room on disk for. */
    method Capture(reader: Stream, contentLength: int, maxBytes: int, disk: DiskState) returns (r: Created, ghost checked: int)
      modifies this`counters, reader
      // whatever is stored is the whole stream and within the limit
      ensures r.Stored? ==> Holds(r.s, old(reader.Pending())) && |old(reader.Pending())| <= maxBytes
      ensures r.Failed? && r.why.TooLarge? ==> |old(reader.Pending())| > maxBytes
      ensures r.Stored? && r.s.OnDisk? ==> fresh(r.s.d) && fresh(r.s.d.file)
      ensures r.Stored? && r.s.InMemory? ==> fresh(r.s.m)
      // nothing fails but a stream that breaks, stops making progress or is too large, or a disk that fails
      ensures !reader.breaks && old(reader.Answers(maxBytes)) && disk.DiskWorks? ==>
                (r.Stored? <==> |old(reader.Pending())| <= maxBytes) && (r.Failed? ==> r.why.TooLarge?)
      // a disk that fails fails the bodies that are streamed to it, and no other
      ensures !reader.breaks && old(reader.Answers(maxBytes)) && |old(reader.Pending())| <= maxBytes ==>
                (r.Stored? <==> disk.DiskWorks? || !StreamsToDisk(config, old(counters), |old(reader.Pending())|, contentLength, maxBytes))
      // which storage it is
      ensures r.Stored? ==> (r.s.OnDisk? <==>
                disk.DiskWorks? && GoesToDisk(config, old(counters), |old(reader.Pending())|, contentLength, maxBytes))
      // the counters say what was made, or are as before
      ensures counters == if r.Stored? then Hit(Charged(old(counters), KindOf(r.s), |old(reader.Pending())|), KindOf(r.s)) else old(counters)
      // what goes to disk went through a room check, for no less than it takes if the length was honest
      ensures r.Stored? && r.s.OnDisk? ==> IsDiskCacheAvailable(config, old(counters), checked)
      ensures r.Stored? && r.s.OnDisk? && (contentLength > 0 ==> |old(reader.Pending())| <= contentLength) ==> |old(reader.Pending())| <= checked
    {
      checked := contentLength;
      if config.enabled && contentLength > 0 && contentLength >= ThresholdBytes(config) &&
         IsDiskCacheAvailable(config, counters, contentLength) {
        r := NewDiskStorageFromReader(reader, maxBytes, disk);
        if r.Stored? { counters := Hit(counters, Disk); }
        return;
      }
      if contentLength < 0 && config.enabled && maxBytes >= 0 && IsDiskCacheAvailable(config, counters, maxBytes) {
        checked := maxBytes;
        r := CaptureChunked(reader, maxBytes, disk);
        return;
      }
      var data, end := CopyBodyWithLimit(reader, maxBytes, false);
      if !end.Done? { return Failed(end), checked; }
      checked := |data|;
      var s := CreateBodyStorage(data, disk);
      counters := Hit(counters, KindOf(s));
      return Stored(s), checked;
    }

    /** Close of either storage: the first one gives the counters back, later ones do nothing. */
    method CloseStorage(s: Storage)
      requires ValidOf(s)
      modifies this`counters, if s.InMemory? then {s.m as object} else {s.d}
      ensures ValidOf(s) && ViewOf(s) == old(ViewOf(s)).(closed := true)
      ensures counters == if old(ViewOf(s)).closed then old(counters)
                          else Released(old(counters), KindOf(s), |ViewOf(s).content|)
    {
      match s
      case InMemory(m) =>
        var first := m.Close();
        if first { counters := DecrementMemoryBuffers(counters, m.size); }
      case OnDisk(d) =>
        var first := d.Close();
        if first { counters := DecrementDiskFiles(counters, d.size); }
    }
  }
}
