/** The usage counters over whole runs of creations and closes. */
module BodyLedger {
  import opened Options
  import opened Bytes
  import opened BodyCapture
  import opened BodyCache

  /** Every storage ever made, in order, and whether it is still open. */
  datatype Slot = Slot(kind: Kind, size: nat, open: bool)

  datatype Books = Books(c: Counters, slots: seq<Slot>)

  /** A storage made after a room check for `declared` bytes, from a stream (which counts a
      hit) or from bytes; a creation that failed; or a call of Close on a storage, open or not. */
  datatype Event = Made(kind: Kind, size: nat, declared: int, hit: bool) | NotMade | Closed(i: nat)

  function Post(b: Books, e: Event): Books {
    match e
    case Made(kind, size, _, hit) =>
      var c := Charged(b.c, kind, size);
      Books(if hit then Hit(c, kind) else c, b.slots + [Slot(kind, size, true)])
    case NotMade => b
    case Closed(i) =>
      if i < |b.slots| && b.slots[i].open then
        Books(Released(b.c, b.slots[i].kind, b.slots[i].size), b.slots[i := b.slots[i].(open := false)])
      else b
  }

  function OpenCount(slots: seq<Slot>, kind: Kind): nat {
    if slots == [] then 0
    else
      var s := slots[|slots| - 1];
      OpenCount(slots[..|slots| - 1], kind) + if s.open && s.kind == kind then 1 else 0
  }

  function OpenBytes(slots: seq<Slot>, kind: Kind): nat {
    if slots == [] then 0
    else
      var s := slots[|slots| - 1];
      OpenBytes(slots[..|slots| - 1], kind) + if s.open && s.kind == kind then s.size else 0
  }

  /** The counters are the number and the summed sizes of the open storages of each kind. */
  ghost predicate Balanced(b: Books) {
    && b.c.diskFiles == OpenCount(b.slots, Disk) && b.c.diskBytes == OpenBytes(b.slots, Disk)
    && b.c.memBuffers == OpenCount(b.slots, Memory) && b.c.memBytes == OpenBytes(b.slots, Memory)
  }

  lemma OpenSnoc(slots: seq<Slot>, s: Slot, kind: Kind)
    ensures OpenCount(slots + [s], kind) == OpenCount(slots, kind) + if s.open && s.kind == kind then 1 else 0
    ensures OpenBytes(slots + [s], kind) == OpenBytes(slots, kind) + if s.open && s.kind == kind then s.size else 0
  {
    assert (slots + [s])[..|slots|] == slots;
  }

  /** Closing one open storage takes exactly it out of the sums, which held it. */
  lemma {:induction false} OpenClose(slots: seq<Slot>, i: nat, kind: Kind)
    requires i < |slots| && slots[i].open
    ensures var after := slots[i := slots[i].(open := false)]; var mine := slots[i].kind == kind;
            && OpenCount(slots, kind) == OpenCount(after, kind) + (if mine then 1 else 0)
            && OpenBytes(slots, kind) == OpenBytes(after, kind) + (if mine then slots[i].size else 0)
    decreases |slots|
  {
    var n := |slots| - 1;
    var after := slots[i := slots[i].(open := false)];
    if i == n {
      assert after[..n] == slots[..n];
    } else {
      assert after[..n] == slots[..n][i := slots[i].(open := false)] && after[n] == slots[n];
      OpenClose(slots[..n], i, kind);
    }
  }

  /** Every event keeps the books balanced, and no counter is ever clamped at zero. */
  lemma PostKeeps(b: Books, e: Event)
    requires Balanced(b)
    ensures Balanced(Post(b, e))
    ensures e.Closed? && e.i < |b.slots| && b.slots[e.i].open && b.slots[e.i].kind == Disk ==>
              Post(b, e).c == b.c.(diskFiles := b.c.diskFiles - 1, diskBytes := b.c.diskBytes - b.slots[e.i].size)
  {
    match e
    case Made(kind, size, _, _) =>
      OpenSnoc(b.slots, Slot(kind, size, true), Disk);
      OpenSnoc(b.slots, Slot(kind, size, true), Memory);
    case NotMade =>
    case Closed(i) =>
      if i < |b.slots| && b.slots[i].open {
        OpenClose(b.slots, i, Disk);
        OpenClose(b.slots, i, Memory);
      }
  }

  function Run(events: seq<Event>): Books {
    if events == [] then Books(Counters(0, 0, 0, 0, 0, 0), [])
    else Post(Run(events[..|events| - 1]), events[|events| - 1])
  }

  /** Over any run the counters equal what is open. */
  lemma {:induction false} LedgerConserved(events: seq<Event>)
    ensures Balanced(Run(events))
    decreases |events|
  {
    if events != [] {
      LedgerConserved(events[..|events| - 1]);
      PostKeeps(Run(events[..|events| - 1]), events[|events| - 1]);
    }
  }

  /** The bodies taken from a stream into each kind of storage. */
  function HitCount(events: seq<Event>, kind: Kind): nat {
    if events == [] then 0
    else
      var e := events[|events| - 1];
      HitCount(events[..|events| - 1], kind) + if e.Made? && e.hit && e.kind == kind then 1 else 0
  }

  /** The hit counters count exactly those. */
  lemma {:induction false} HitsCounted(events: seq<Event>)
    ensures Run(events).c.diskHits == HitCount(events, Disk) && Run(events).c.memHits == HitCount(events, Memory)
    decreases |events|
  {
    if events != [] { HitsCounted(events[..|events| - 1]); }
  }

  /** Each disk storage of the run was made right after its room check, for no more than was asked. */
  ghost predicate Checked(g: Config, events: seq<Event>) {
    forall k | 0 <= k < |events| && events[k].Made? && events[k].kind == Disk ::
      IsDiskCacheAvailable(g, Run(events[..k]).c, events[k].declared) && events[k].size <= events[k].declared
  }

  /** Then disk usage never exceeds the configured maximum. */
  lemma {:induction false} DiskUnderCeiling(g: Config, events: seq<Event>)
    requires Checked(g, events) && 0 <= MaxSizeBytes(g)
    ensures Run(events).c.diskBytes <= MaxSizeBytes(g)
    decreases |events|
  {
    hide Post, MaxSizeBytes, Checked, Balanced;
    if events == [] {
      NothingStored();
    } else {
      var n := |events| - 1;
      CheckedPrefix(g, events);
      DiskUnderCeiling(g, events[..n]);
      LedgerConserved(events[..n]);
      PostUnderCeiling(g, Run(events[..n]), events[n]);
    }
  }

  lemma NothingStored()
    ensures Run([]).c.diskBytes == 0
  {
  }

  lemma CheckedPrefix(g: Config, events: seq<Event>)
    requires Checked(g, events) && events != []
    ensures var n := |events| - 1; var e := events[n];
            Checked(g, events[..n]) &&
            (e.Made? && e.kind == Disk ==> IsDiskCacheAvailable(g, Run(events[..n]).c, e.declared) && e.size <= e.declared)
  {
    hide IsDiskCacheAvailable, Run;
    var n := |events| - 1;
    forall k | 0 <= k < n ensures events[..n][..k] == events[..k] && events[..n][k] == events[k] { }
  }

  /** A checked storage stays under the ceiling, and closing never raises disk usage. */
  lemma PostUnderCeiling(g: Config, b: Books, e: Event)
    requires Balanced(b) && b.c.diskBytes <= MaxSizeBytes(g)
    requires e.Made? && e.kind == Disk ==> IsDiskCacheAvailable(g, b.c, e.declared) && e.size <= e.declared
    ensures Post(b, e).c.diskBytes <= MaxSizeBytes(g)
  {
    hide Balanced, MaxSizeBytes;
    PostKeeps(b, e);
  }

  // ----- the code's own calls are these events

  ghost function AllObjects(made: seq<Storage>): set<object> {
    set i, o | 0 <= i < |made| && o in Objects(Some(made[i])) :: o
  }

  ghost function SlotOf(s: Storage): Slot
    reads Objects(Some(s))
  {
    Slot(KindOf(s), |ViewOf(s).content|, !ViewOf(s).closed)
  }

  ghost function SlotsOf(made: seq<Storage>): (slots: seq<Slot>)
    reads AllObjects(made)
    ensures |slots| == |made|
  {
    seq(|made|, i requires 0 <= i < |made| reads AllObjects(made) =>
      assert Objects(Some(made[i])) <= AllObjects(made); SlotOf(made[i]))
  }

  /** Every storage is sound, and no two share a file. */
  ghost predicate Sound(made: seq<Storage>)
    reads AllObjects(made)
  {
    && (forall i | 0 <= i < |made| :: assert Objects(Some(made[i])) <= AllObjects(made); ValidOf(made[i]))
    && (forall i, j | 0 <= i < j < |made| :: Objects(Some(made[i])) !! Objects(Some(made[j])))
  }

  /** All storages a process has made, with the counters they share. */
  class Ledger {
    const cache: Cache
    var made: seq<Storage>
    ghost var events: seq<Event>   // all calls so far
    ghost var honest: bool         // no length declared so far was below the actual one

    ghost function View(): Books
      reads this, cache, AllObjects(made)
    {
      Books(cache.counters, SlotsOf(made))
    }

    /** What is there is what the calls so far leave, and every disk storage was checked for room. */
    ghost predicate Valid()
      reads this, cache, AllObjects(made)
    {
      Sound(made) && View() == Run(events) && (honest ==> Checked(cache.config, events))
    }

    constructor (config: Config)
      ensures Valid() && made == [] && events == [] && honest && fresh(cache) && cache.config == config
    {
      cache := new Cache(config);
      made, events, honest := [], [], true;
    }

    /** A body captured, or not. */
    method Capture(reader: Stream, contentLength: int, maxBytes: int, disk: DiskState) returns (r: Created)
      requires Valid()
      modifies this, cache`counters, reader
      ensures Valid() && honest == (old(honest) && (contentLength > 0 ==> |old(reader.Pending())| <= contentLength))
      ensures |events| == |old(events)| + 1 && events[..|old(events)|] == old(events)
      ensures var e := events[|old(events)|];
              if r.Stored? then e.Made? && e.hit && e.kind == KindOf(r.s) && e.size == |old(reader.Pending())| && made == old(made) + [r.s]
              else e.NotMade? && made == old(made)
    {
      hide Run, Checked, Post, Sound, SlotsOf, IsDiskCacheAvailable;
      ghost var size := |reader.Pending()|;
      ghost var fair := contentLength > 0 ==> size <= contentLength;
      ghost var checked;
      r, checked := Enter(reader, contentLength, maxBytes, disk);
      ghost var e := if r.Stored? then Made(KindOf(r.s), size, checked, true) else NotMade;
      CheckedSnoc(cache.config, events, e, honest && fair);
      RunSnoc(events, e);
      assert this !in AllObjects(made);
      events := events + [e];
      honest := honest && fair;
    }

    /** The capture itself, and the entry of what it made. */
    method Enter(reader: Stream, contentLength: int, maxBytes: int, disk: DiskState) returns (r: Created, ghost checked: int)
      requires Sound(made)
      modifies this`made, cache`counters, reader
      ensures Sound(made) && made == if r.Stored? then old(made) + [r.s] else old(made)
      ensures View() == Post(old(View()), if r.Stored? then Made(KindOf(r.s), |old(reader.Pending())|, checked, true) else NotMade)
      ensures r.Stored? && r.s.OnDisk? ==> IsDiskCacheAvailable(cache.config, old(cache.counters), checked)
      ensures r.Stored? && r.s.OnDisk? && (contentLength > 0 ==> |old(reader.Pending())| <= contentLength) ==> |old(reader.Pending())| <= checked
    {
      hide Charged, Hit, MaxSizeBytes, IsDiskCacheAvailable, Sound, SlotsOf;
      assert reader !in AllObjects(made) && cache !in AllObjects(made);
      r, checked := cache.Capture(reader, contentLength, maxBytes, disk);
      if r.Stored? {
        assert Objects(Some(r.s)) !! AllObjects(made);
        AppendSound(made, r.s);
        assert this !in AllObjects(made + [r.s]);
        made := made + [r.s];
      }
    }

    /** A storage made of bytes at hand, as for a body that was set beside the request's own. */
    method Create(data: seq<byte>, disk: DiskState) returns (s: Storage)
      requires Valid()
      modifies this, cache`counters
      ensures Valid() && honest == old(honest) && made == old(made) + [s] && Holds(s, data)
      ensures events == old(events) + [Made(KindOf(s), |data|, |data|, false)]
    {
      hide Run, Checked, Post, Sound, SlotsOf, IsDiskCacheAvailable;
      s := EnterBytes(data, disk);
      ghost var e := Made(KindOf(s), |data|, |data|, false);
      CheckedSnoc(cache.config, events, e, honest);
      RunSnoc(events, e);
      assert this !in AllObjects(made);
      events := events + [e];
    }

    method EnterBytes(data: seq<byte>, disk: DiskState) returns (s: Storage)
      requires Sound(made)
      modifies this`made, cache`counters
      ensures Sound(made) && made == old(made) + [s] && Holds(s, data)
      ensures View() == Post(old(View()), Made(KindOf(s), |data|, |data|, false))
      ensures s.OnDisk? ==> IsDiskCacheAvailable(cache.config, old(cache.counters), |data|)
    {
      hide Charged, Hit, MaxSizeBytes, IsDiskCacheAvailable, Sound, SlotsOf;
      assert cache !in AllObjects(made);
      s := cache.CreateBodyStorage(data, disk);
      assert Objects(Some(s)) !! AllObjects(made);
      AppendSound(made, s);
      assert this !in AllObjects(made + [s]);
      made := made + [s];
    }

    /** A storage closed, for the first time or again. */
    method Close(i: nat)
      requires Valid() && i < |made|
      modifies this`events, cache`counters, Objects(Some(made[i]))
      ensures Valid() && events == old(events) + [Closed(i)]
    {
      hide Released, Run, Checked, Sound, SlotsOf, IsDiskCacheAvailable;
      CloseOne(i);
      CheckedSnoc(cache.config, events, Closed(i), honest);
      RunSnoc(events, Closed(i));
      assert this !in AllObjects(made);
      events := events + [Closed(i)];
    }

    method CloseOne(i: nat)
      requires Sound(made) && i < |made|
      modifies cache`counters, Objects(Some(made[i]))
      ensures Sound(made) && View() == Post(old(View()), Closed(i))
    {
      hide Released;
      ghost var before := SlotsOf(made);
      cache.CloseStorage(made[i]);
      forall j | 0 <= j < |made| ensures ValidOf(made[j]) && SlotOf(made[j]) == if j == i then before[i].(open := false) else before[j] { }
      assert SlotsOf(made) == before[i := before[i].(open := false)];
    }

    /** So after any calls the counters are what is open, and with honest lengths the disk is
        within its ceiling. */
    lemma InBalance()
      requires Valid()
      ensures Balanced(View())
      ensures honest && 0 <= MaxSizeBytes(cache.config) ==> cache.counters.diskBytes <= MaxSizeBytes(cache.config)
    {
      LedgerConserved(events);
      if honest && 0 <= MaxSizeBytes(cache.config) { DiskUnderCeiling(cache.config, events); }
    }
  }

  lemma AppendSound(made: seq<Storage>, s: Storage)
    requires Sound(made) && ValidOf(s) && Objects(Some(s)) !! AllObjects(made)
    ensures Sound(made + [s]) && SlotsOf(made + [s]) == SlotsOf(made) + [SlotOf(s)]
  {
  }

  lemma RunSnoc(events: seq<Event>, e: Event)
    ensures Run(events + [e]) == Post(Run(events), e)
  {
    assert (events + [e])[..|events|] == events;
  }

  lemma CheckedSnoc(g: Config, events: seq<Event>, e: Event, fair: bool)
    requires fair ==> Checked(g, events)
    requires fair && e.Made? && e.kind == Disk ==> IsDiskCacheAvailable(g, Run(events).c, e.declared) && e.size <= e.declared
    ensures fair ==> Checked(g, events + [e])
  {
    forall k | 0 <= k <= |events| ensures (events + [e])[..k] == events[..k] { }
    assert events[..|events|] == events;
  }
}
