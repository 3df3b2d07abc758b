/** One request's body over its lifetime: fetched once, replayed for every retry, indexed
    once, released early or at the end, and replaced when a websocket frame arrives. */
module BodyContext {
  import opened Options
  import opened Bytes
  import opened JsonGrammar
  import opened JsonIndex
  import opened JsonScanner
  import opened BodyCapture
  import opened BodyStorage
  import opened BodyCache

  // ----- the states of a request

  /** The cached storage and what it holds. */
  datatype Slot = Slot(s: Storage, b: Body)

  /** Where the request's own body reads from. A wire is sound if it neither fails nor, when asked
      for one byte past the limit, gives nothing a hundred times in a row. */
  datatype Net = Wire(pending: seq<byte>, sound: bool, open: bool) | NoBody | Replayed(s: Storage)

  datatype State = State(slot: Option<Slot>, released: bool, legacy: Option<seq<byte>>, index: Option<seq<Field>>, net: Net)

  datatype Why = WasClosed | WasTooLarge | WasOther

  datatype Reply = Got(s: Storage) | Refused(why: Why) | Fields(fields: Option<seq<Field>>) | Did

  function FreshIndex(content: seq<byte>): Option<seq<Field>> { IndexFields(content, Span(0, |content|)) }

  /** What every step keeps. The cached index is that of the cached storage. */
  ghost predicate Sane(c: State) {
    && (c.slot.Some? ==> !c.slot.value.b.closed && !c.released)
    && (c.index.Some? ==> c.slot.Some? && c.index == FreshIndex(c.slot.value.b.content))
    && (c.slot.None? && !c.released ==> c.net.Wire?)
    && (c.net.Replayed? ==> c.slot.Some? && c.slot.value.s == c.net.s)
  }

  ghost predicate FetchSpec(c: State, limit: int, disk: DiskState, c': State, a: Reply) {
    if c.slot.Some? then
      if c.slot.value.b.closed then c' == c && a == Refused(WasClosed)
      else c' == c.(slot := Some(c.slot.value.(b := c.slot.value.b.(cursor := 0)))) && a == Got(c.slot.value.s)
    else if c.released then c' == c && a == Refused(WasClosed)
    else if c.legacy.Some? then a.Got? && c' == c.(slot := Some(Slot(a.s, Body(c.legacy.value, 0, false))))
    else
      && c.net.Wire? && c'.net.Wire? && !c'.net.open && c' == c.(slot := c'.slot, net := c'.net)
      && (a.Got? || a.Refused?) && c'.slot.Some? == a.Got?
      && (a.Got? ==> c.net.open && |c.net.pending| <= limit && c'.slot.value == Slot(a.s, Body(c.net.pending, 0, false)))
      && (a.Refused? ==> a.why != WasClosed && (a.why.WasTooLarge? ==> |c.net.pending| > limit))
      && (c.net.open && c.net.sound && disk.DiskWorks? ==>
            if |c.net.pending| <= limit then a.Got? else a == Refused(WasTooLarge))
  }

  ghost predicate IndexSpec(c: State, given: Option<Slot>, c': State, a: Reply) {
    && a == Fields(if c.index.Some? then c.index
                   else if given.None? || given.value.b.closed then None
                   else FreshIndex(given.value.b.content))
    && c' == c.(index := a.fields)
  }

  /** After a fetch, decode and leave a body that reads from the start again. */
  ghost predicate Decoded(mid: State, fetched: Reply, decodes: bool, c': State, a: Reply) {
    if !fetched.Got? || mid.slot.None? then c' == mid && a == fetched
    else if decodes then a == fetched && c' == mid.(net := Replayed(fetched.s))
    else
      && a == Refused(WasOther) && c'.slot.Some? && c' == mid.(slot := c'.slot)
      && c'.slot.value == mid.slot.value.(b := mid.slot.value.b.(cursor := c'.slot.value.b.cursor))
  }

  /** What may happen to a request's body. Use is any caller's operation on the cached
      storage; Install is the first frame of a websocket taking the body's place; Convert is a
      provider adaptor putting a body of its own in the place of the one it decoded. */
  datatype Act =
    | Fetch(disk: DiskState) | Index(given: Option<Slot>) | Unmarshal(disk: DiskState, decodes: bool, mid: State, fetched: Reply)
    | Use(op: Op, answer: Answer) | Release | Install(frame: Slot) | Convert(data: seq<byte>)

  ghost predicate Step(c: State, limit: int, act: Act, c': State, a: Reply) {
    match act
    case Fetch(disk) => FetchSpec(c, limit, disk, c', a)
    case Index(given) => IndexSpec(c, given, c', a)
    case Unmarshal(disk, decodes, mid, fetched) => FetchSpec(c, limit, disk, mid, fetched) && Decoded(mid, fetched, decodes, c', a)
    case Use(op, answer) =>
      && a == Did
      && if c.slot.None? then c' == c
         else c'.slot.Some? && c' == c.(slot := Some(c.slot.value.(b := c'.slot.value.b))) && OpSpec(c.slot.value.b, op, c'.slot.value.b, answer)
    case Release => a == Did && c' == State(None, true, None, None, NoBody)
    case Install(frame) => a == Did && c' == State(Some(frame), false, None, None, Replayed(frame.s))
    case Convert(data) => a == Did && c' == c.(legacy := Some(data), net := Wire(data, true, true))
  }

  /** The storage is closed only by a release, an index is asked of the cached storage, and
      a frame arrives open. */
  ghost predicate Proper(c: State, act: Act) {
    match act
    case Use(op, _) => !op.OpClose?
    case Index(given) => given == c.slot
    case Install(frame) => !frame.b.closed
    case _ => true
  }

  // ----- runs

  ghost predicate IsRun(limit: int, states: seq<State>, acts: seq<Act>, replies: seq<Reply>) {
    && |states| == |acts| + 1 == |replies| + 1
    && forall i | 0 <= i < |acts| :: Proper(states[i], acts[i]) && Step(states[i], limit, acts[i], states[i + 1], replies[i])
  }

  predicate Replaces(act: Act) { act.Release? || act.Install? }

  /** No act from i up to j releases or replaces the body. */
  ghost predicate Undisturbed(acts: seq<Act>, i: nat, j: nat) {
    forall k | i <= k < j && k < |acts| :: !Replaces(acts[k])
  }

  lemma FetchKeeps(c: State, limit: int, disk: DiskState, c': State, a: Reply)
    requires Sane(c) && FetchSpec(c, limit, disk, c', a)
    ensures Sane(c') && (a.Got? ==> c'.slot.Some? && c'.slot.value.s == a.s && c'.slot.value.b.cursor == 0)
    ensures c.slot.Some? ==> a == Got(c.slot.value.s) && SameBody(c, c') && c'.net == c.net
    ensures c.slot.None? && c.released ==> c' == c && a == Refused(WasClosed)
  {
    hide FreshIndex;
  }

  ghost predicate SameSlot(c: State, c': State) {
    (c.slot.None? && c'.slot.None?) || SameBody(c, c')
  }

  ghost predicate SameBody(c: State, c': State) {
    c.slot.Some? && c'.slot.Some? && c'.slot.value.s == c.slot.value.s && c'.slot.value.b.content == c.slot.value.b.content
  }

  lemma OpKeeps(b: Body, op: Op, b': Body, answer: Answer)
    requires OpSpec(b, op, b', answer) && !op.OpClose?
    ensures b'.content == b.content && b'.closed == b.closed
  {
  }

  /** One step: what is kept, and what a body that stays cached sees. */
  lemma StepKeeps(c: State, limit: int, act: Act, c': State, a: Reply)
    requires Sane(c) && Proper(c, act) && Step(c, limit, act, c', a)
    ensures Sane(c')
    ensures c.slot.Some? && !Replaces(act) ==> SameBody(c, c') && (act.Convert? || c'.net == c.net || c'.net == Replayed(c.slot.value.s))
    ensures c.slot.Some? && act.Fetch? ==> a == Got(c.slot.value.s) && c'.slot.value.b.cursor == 0 && c'.net == c.net
    ensures c.slot.Some? && act.Unmarshal? && act.decodes ==> a == Got(c.slot.value.s) && c'.slot.value.b.cursor == 0
    ensures c.slot.None? && c.released && !act.Install? ==>
              c'.slot.None? && c'.released && (act.Fetch? || act.Unmarshal? ==> a == Refused(WasClosed))
    ensures act.Index? ==> a == Fields(if c.slot.None? then None else FreshIndex(c.slot.value.b.content))
  {
    hide FetchSpec, OpSpec, FreshIndex;
    match act
    case Fetch(disk) => FetchKeeps(c, limit, disk, c', a);
    case Unmarshal(disk, decodes, mid, fetched) => FetchKeeps(c, limit, disk, mid, fetched);
    case Use(op, answer) => if c.slot.Some? { OpKeeps(c.slot.value.b, op, c'.slot.value.b, answer); }
    case _ =>
  }

  lemma {:induction false} RunSane(limit: int, states: seq<State>, acts: seq<Act>, replies: seq<Reply>, j: nat)
    requires IsRun(limit, states, acts, replies) && Sane(states[0]) && j < |states|
    ensures Sane(states[j])
  {
    hide Sane, Step, Proper;
    if j > 0 {
      RunSane(limit, states, acts, replies, j - 1);
      StepKeeps(states[j - 1], limit, acts[j - 1], states[j], replies[j - 1]);
    }
  }

  /** Until a release or a new frame, the cached storage and its content stay. */
  lemma {:induction false} BodyStays(limit: int, states: seq<State>, acts: seq<Act>, replies: seq<Reply>, i: nat, j: nat)
    requires IsRun(limit, states, acts, replies) && Sane(states[0]) && i <= j < |states|
    requires states[i].slot.Some? && Undisturbed(acts, i, j)
    ensures SameBody(states[i], states[j])
    ensures (forall k | i <= k < j :: !acts[k].Convert?) ==>
              states[j].net == states[i].net || states[j].net == Replayed(states[i].slot.value.s)
    decreases j - i
  {
    hide Sane, Step, Proper;
    if i < j {
      BodyStays(limit, states, acts, replies, i, j - 1);
      RunSane(limit, states, acts, replies, j - 1);
      assert !Replaces(acts[j - 1]);
      StepKeeps(states[j - 1], limit, acts[j - 1], states[j], replies[j - 1]);
    }
  }

  /** Once a body is cached, every later fetch returns that same storage, with the same
      content, at offset 0, and leaves the network body alone. */
  lemma FetchReplays(limit: int, states: seq<State>, acts: seq<Act>, replies: seq<Reply>, i: nat, j: nat)
    requires IsRun(limit, states, acts, replies) && Sane(states[0]) && i <= j < |acts|
    requires states[i].slot.Some? && Undisturbed(acts, i, j) && acts[j].Fetch?
    ensures replies[j] == Got(states[i].slot.value.s) && states[j + 1].net == states[j].net
    ensures states[j + 1].slot == Some(Slot(states[i].slot.value.s, Body(states[i].slot.value.b.content, 0, false)))
  {
    hide Step, Proper, FreshIndex;
    BodyStays(limit, states, acts, replies, i, j);
    RunSane(limit, states, acts, replies, j);
    StepKeeps(states[j], limit, acts[j], states[j + 1], replies[j]);
  }

  lemma {:induction false} StaysReleased(limit: int, states: seq<State>, acts: seq<Act>, replies: seq<Reply>, i: nat, j: nat)
    requires IsRun(limit, states, acts, replies) && Sane(states[0]) && i < j < |states|
    requires acts[i].Release? && forall k | i < k < j :: !acts[k].Install?
    ensures states[j].slot.None? && states[j].released
    decreases j - i
  {
    hide Sane, Proper;
    assert Step(states[i], limit, acts[i], states[i + 1], replies[i]);
    if i + 1 < j {
      hide Step;
      StaysReleased(limit, states, acts, replies, i, j - 1);
      RunSane(limit, states, acts, replies, j - 1);
      StepKeeps(states[j - 1], limit, acts[j - 1], states[j], replies[j - 1]);
    }
  }

  /** After a release every fetch reports closed, and every index fails, until a new frame. */
  lemma ClosedUntilInstalled(limit: int, states: seq<State>, acts: seq<Act>, replies: seq<Reply>, i: nat, j: nat)
    requires IsRun(limit, states, acts, replies) && Sane(states[0]) && i < j < |acts|
    requires acts[i].Release? && forall k | i < k < j :: !acts[k].Install?
    ensures acts[j].Fetch? || acts[j].Unmarshal? ==> replies[j] == Refused(WasClosed)
    ensures acts[j].Index? ==> replies[j] == Fields(None)
  {
    hide Sane, Step, Proper;
    StaysReleased(limit, states, acts, replies, i, j);
    RunSane(limit, states, acts, replies, j);
    StepKeeps(states[j], limit, acts[j], states[j + 1], replies[j]);
  }

  /** Whether answered from the cache or not, an index is a fresh index of the current storage. */
  lemma IndexIsFresh(limit: int, states: seq<State>, acts: seq<Act>, replies: seq<Reply>, j: nat)
    requires IsRun(limit, states, acts, replies) && Sane(states[0]) && j < |acts| && acts[j].Index?
    ensures replies[j] == Fields(if states[j].slot.None? then None else FreshIndex(states[j].slot.value.b.content))
  {
    hide Sane, Step, Proper, FreshIndex;
    RunSane(limit, states, acts, replies, j);
    StepKeeps(states[j], limit, acts[j], states[j + 1], replies[j]);
  }

  /** A request as it arrives. */
  function Arrived(content: seq<byte>, sound: bool): State { State(None, false, None, None, Wire(content, sound, true)) }

  /** What can be fetched is what was sent. */
  ghost predicate Origin(c: State, content: seq<byte>) {
    && (c.slot.Some? ==> c.slot.value.b.content == content)
    && (c.slot.None? && !c.released ==> c.legacy.None? && (c.net.Wire? && c.net.open ==> c.net.pending == content))
  }

  /** No frame is installed, and a conversion finds a body already cached, as one that decoded it does. */
  ghost predicate NoNewBody(c: State, act: Act) { !act.Install? && (act.Convert? ==> c.slot.Some? || c.released) }

  lemma StepOrigin(c: State, limit: int, act: Act, c': State, a: Reply, content: seq<byte>)
    requires Sane(c) && Proper(c, act) && Step(c, limit, act, c', a) && Origin(c, content) && NoNewBody(c, act)
    ensures Origin(c', content) && (a.Got? ==> c'.slot.Some? && c'.slot.value.s == a.s)
  {
    hide OpSpec, FreshIndex;
    if act.Use? && c.slot.Some? { OpKeeps(c.slot.value.b, act.op, c'.slot.value.b, act.answer); }
  }

  lemma {:induction false} RunOrigin(limit: int, states: seq<State>, acts: seq<Act>, replies: seq<Reply>, content: seq<byte>, sound: bool, j: nat)
    requires IsRun(limit, states, acts, replies) && states[0] == Arrived(content, sound) && j < |states|
    requires forall k | 0 <= k < j :: NoNewBody(states[k], acts[k])
    ensures Origin(states[j], content)
  {
    hide Step, Proper, NoNewBody;
    if j > 0 {
      hide Origin, Sane;
      RunOrigin(limit, states, acts, replies, content, sound, j - 1);
      ArrivedSane(content, sound);
      RunSane(limit, states, acts, replies, j - 1);
      StepOrigin(states[j - 1], limit, acts[j - 1], states[j], replies[j - 1], content);
    }
  }

  lemma ArrivedSane(content: seq<byte>, sound: bool)
    ensures Sane(Arrived(content, sound))
  {
  }

  /** In every run without a websocket frame, whatever is fetched, at whatever time, by
      whichever retry, is the body as it was sent; also after a conversion. */
  lemma FetchedIsSent(limit: int, states: seq<State>, acts: seq<Act>, replies: seq<Reply>, content: seq<byte>, sound: bool, j: nat)
    requires IsRun(limit, states, acts, replies) && states[0] == Arrived(content, sound) && j < |acts|
    requires forall k | 0 <= k <= j :: NoNewBody(states[k], acts[k])
    requires replies[j].Got?
    ensures states[j + 1].slot.Some? && states[j + 1].slot.value.s == replies[j].s && states[j + 1].slot.value.b.content == content
  {
    hide Step, Proper, Sane, NoNewBody;
    RunOrigin(limit, states, acts, replies, content, sound, j);
    ArrivedSane(content, sound);
    RunSane(limit, states, acts, replies, j);
    StepOrigin(states[j], limit, acts[j], states[j + 1], replies[j], content);
  }

  /** The next fetch sees a converted body exactly when no body was cached and none released,
      or when the conversion changed nothing. */
  lemma ConversionSeen(limit: int, states: seq<State>, acts: seq<Act>, replies: seq<Reply>, i: nat)
    requires IsRun(limit, states, acts, replies) && Sane(states[0]) && i + 1 < |acts| && acts[i].Convert? && acts[i + 1].Fetch?
    ensures replies[i + 1].Got? && states[i + 2].slot.Some? && states[i + 2].slot.value.b.content == acts[i].data <==>
            if states[i].slot.Some? then states[i].slot.value.b.content == acts[i].data else !states[i].released
  {
    hide Sane, FreshIndex;
    RunSane(limit, states, acts, replies, i);
    RunSane(limit, states, acts, replies, i + 1);
    assert Step(states[i], limit, acts[i], states[i + 1], replies[i]);
    assert Step(states[i + 1], limit, acts[i + 1], states[i + 2], replies[i + 1]);
    FetchKeeps(states[i + 1], limit, acts[i + 1].disk, states[i + 2], replies[i + 1]);
  }

  /** So an adaptor that decodes the body, and only then puts its own in its place, has the
      next handlers fetch the body it decoded. */
  lemma ConversionLost(limit: int, states: seq<State>, acts: seq<Act>, replies: seq<Reply>, i: nat, j: nat)
    requires IsRun(limit, states, acts, replies) && Sane(states[0]) && i + 1 < j < |acts|
    requires acts[i].Unmarshal? && acts[i].decodes && replies[i].Got? && acts[i + 1].Convert?
    requires Undisturbed(acts, i + 1, j) && acts[j].Fetch?
    ensures replies[j] == replies[i] && states[j + 1].slot.Some? && states[i + 1].slot.Some?
    ensures states[j + 1].slot.value.b.content == states[i + 1].slot.value.b.content
  {
    hide Sane, FreshIndex;
    RunSane(limit, states, acts, replies, i);
    assert Step(states[i], limit, acts[i], states[i + 1], replies[i]);
    FetchKeeps(states[i], limit, acts[i].disk, acts[i].mid, acts[i].fetched);
    FetchReplays(limit, states, acts, replies, i + 1, j);
  }

  // ----- the code

  datatype RequestBody = FromWire(stream: Stream) | Drained | FromStorage(s: Storage)

  method SeekStart(s: Storage) returns (ok: bool)
    requires ValidOf(s)
    modifies Objects(Some(s))
    ensures ValidOf(s) && ok == !old(ViewOf(s)).closed
    ensures ViewOf(s) == if ok then old(ViewOf(s)).(cursor := 0) else old(ViewOf(s))
  {
    match s
    case InMemory(m) => var r := m.Seek(0, FromStart); return r.Ok?;
    case OnDisk(d) => var r := d.Seek(0, FromStart); return r.Ok?;
  }

  /** A decoder pulling from the storage as often as it likes. */
  method ReadOn(s: Storage)
    requires ValidOf(s) && !ViewOf(s).closed
    modifies Objects(Some(s))
    ensures ValidOf(s) && ViewOf(s) == old(ViewOf(s)).(cursor := ViewOf(s).cursor)
  {
    var times: nat :| true;
    for k := 0 to times
      invariant ValidOf(s) && ViewOf(s) == old(ViewOf(s)).(cursor := ViewOf(s).cursor)
    {
      match s
      case InMemory(m) => var _ := m.Read(512);
      case OnDisk(d) => var _ := d.Read(512);
    }
  }

  method IndexTopLevelJSONObject(s: Storage, window: Window) returns (r: Option<seq<Field>>)
    requires ValidOf(s)
    ensures r == if ViewOf(s).closed then None else FreshIndex(ViewOf(s).content)
  {
    match s
    case InMemory(m) =>
      if m.data.None? { return None; }
      var source := new Source(m.data.value);
      r := IndexJSONObject(source, Span(0, m.size), window);
    case OnDisk(d) =>
      if d.closed { return None; }
      var source := new Source(d.file.bytes);
      r := IndexJSONObject(source, Span(0, d.size), window);
  }

  /** What a fetch costs: the first one makes a storage of the kind its size asks for and charges
      it; only a body off the network counts as a hit. Any other fetch costs nothing. */
  ghost predicate Costs(c: State, a: Reply, g: Config, contentLength: int, limit: int, disk: DiskState, before: Counters, after: Counters) {
    if c.slot.Some? || !a.Got? then after == before
    else
      var kind := KindOf(a.s);
      if c.legacy.Some? then
        var size := |c.legacy.value|;
        && after == Charged(before, kind, size)
        && (kind.Disk? <==> disk.DiskWorks? && LargeEnough(g, size) && Room(g, before, size))
      else
        c.net.Wire? &&
        var size := |c.net.pending|;
        && after == Hit(Charged(before, kind, size), kind)
        && (kind.Disk? <==> disk.DiskWorks? && GoesToDisk(g, before, size, contentLength, limit))
  }

  /** What is in use, whatever was hit. */
  function Usage(c: Counters): Counters { c.(diskHits := 0, memHits := 0) }

  /** In use is what was before the request, and the cached body. */
  ghost predicate Standing(base: Counters, now: Counters, slot: Option<Slot>) {
    && base.diskFiles >= 0 && base.diskBytes >= 0
    && Usage(now) == match slot
                     case None => Usage(base)
                     case Some(x) => Usage(Charged(base, KindOf(x.s), |x.b.content|))
  }

  lemma FetchStands(base: Counters, c: State, limit: int, disk: DiskState, c': State, a: Reply, g: Config, contentLength: int, before: Counters, after: Counters)
    requires Sane(c) && FetchSpec(c, limit, disk, c', a) && Costs(c, a, g, contentLength, limit, disk, before, after)
    ensures Standing(base, before, c.slot) ==> Standing(base, after, c'.slot)
  {
    hide FreshIndex, LargeEnough, Room, GoesToDisk;
  }

  /** A body whose cursor alone has moved. */
  lemma SameStands(base: Counters, now: Counters, slot: Option<Slot>, slot': Option<Slot>)
    requires slot.Some? <==> slot'.Some?
    requires slot.Some? ==> slot.value.s == slot'.value.s && slot.value.b.content == slot'.value.b.content
    ensures Standing(base, now, slot) ==> Standing(base, now, slot')
  {
  }

  lemma DecodedStands(base: Counters, now: Counters, mid: State, fetched: Reply, decodes: bool, c': State, a: Reply)
    requires Decoded(mid, fetched, decodes, c', a)
    ensures Standing(base, now, mid.slot) ==> Standing(base, now, c'.slot)
  {
    SameStands(base, now, mid.slot, c'.slot);
  }

  lemma FrameStands(base: Counters, x: Slot, before: Counters, after: Counters)
    requires Standing(base, before, None) && after == Charged(before, KindOf(x.s), |x.b.content|)
    ensures Standing(base, after, Some(x))
  {
  }

  lemma ReleaseStands(base: Counters, x: Slot, before: Counters)
    requires Standing(base, before, Some(x))
    ensures Standing(base, Released(before, KindOf(x.s), |x.b.content|), None)
  {
  }

  class Context {
    const cache: Cache
    const maxMB: int
    var storage: Option<Storage>
    var released: bool
    var legacy: Option<seq<byte>>
    var index: Option<seq<Field>>
    var body: RequestBody
    var bodyOpen: bool
    var contentLength: int

    function MaxBytes(): (limit: int)
      ensures maxMB <= 0 ==> limit == 134217728
      ensures maxMB > 0 ==> limit == maxMB * 1048576
    {
      (if maxMB <= 0 then 128 else maxMB) * MB
    }

    ghost function Frame(): set<object>
      reads this
    {
      Objects(storage) + if body.FromWire? then {body.stream} else {}
    }

    ghost function View(): State
      reads this, Frame()
    {
      State(match storage case None => None case Some(s) => Some(Slot(s, ViewOf(s))), released, legacy, index,
            match body
            case FromWire(w) => Wire(w.Pending(), !w.breaks && w.Answers(MaxBytes()), bodyOpen)
            case Drained => NoBody
            case FromStorage(s) => Replayed(s))
    }

    ghost predicate Valid()
      reads this, Frame()
    {
      (storage.Some? ==> ValidOf(storage.value)) && Sane(View())
    }

    constructor (cache: Cache, maxMB: int, stream: Stream, contentLength: int)
      ensures Valid() && View() == Arrived(stream.Pending(), !stream.breaks && stream.Answers(MaxBytes()))
      ensures this.cache == cache && this.maxMB == maxMB && this.contentLength == contentLength && body == FromWire(stream)
    {
      this.cache := cache;
      this.maxMB := maxMB;
      storage, released, legacy, index := None, false, None, None;
      body, bodyOpen := FromWire(stream), true;
      this.contentLength := contentLength;
    }

    method GetRequestBody(disk: DiskState) returns (r: Reply)
      requires Valid()
      modifies this, cache`counters, Frame()
      ensures Valid() && FetchSpec(old(View()), MaxBytes(), disk, View(), r)
      ensures if old(storage).Some? then storage == old(storage) else fresh(Objects(storage))
      ensures body == old(body)
      ensures Costs(old(View()), r, cache.config, contentLength, MaxBytes(), disk, old(cache.counters), cache.counters)
      ensures contentLength == old(contentLength)
    {
      hide FreshIndex, Charged, Hit, LargeEnough, Room, GoesToDisk;
      if storage.Some? {
        var ok := SeekStart(storage.value);
        return if ok then Got(storage.value) else Refused(WasClosed);
      }
      if released { return Refused(WasClosed); }
      if legacy.Some? {
        var s := cache.CreateBodyStorage(legacy.value, disk);
        storage := Some(s);
        return Got(s);
      }
      r := FetchWire(disk);
    }

    /** The first fetch: takes the stream off the network. */
    method FetchWire(disk: DiskState) returns (r: Reply)
      requires Valid() && storage.None? && !released && legacy.None?
      modifies this, cache`counters, Frame()
      ensures Valid() && FetchSpec(old(View()), MaxBytes(), disk, View(), r)
      ensures if old(storage).Some? then storage == old(storage) else fresh(Objects(storage))
      ensures body == old(body)
      ensures Costs(old(View()), r, cache.config, contentLength, MaxBytes(), disk, old(cache.counters), cache.counters)
      ensures contentLength == old(contentLength)
    {
      hide FreshIndex, Charged, Hit, LargeEnough, Room, GoesToDisk;
      if !bodyOpen { return Refused(WasOther); }
      var made, _ := cache.Capture(body.stream, contentLength, MaxBytes(), disk);
      bodyOpen := false;
      if made.Failed? { return Refused(if made.why.TooLarge? then WasTooLarge else WasOther); }
      storage := Some(made.s);
      return Got(made.s);
    }

    method GetOrIndexJSONBodyFields(given: Option<Storage>, window: Window) returns (r: Reply)
      requires (storage.Some? ==> ValidOf(storage.value)) && (given.Some? ==> ValidOf(given.value))
      modifies this`index
      ensures IndexSpec(old(View()), match given case None => None case Some(s) => Some(Slot(s, ViewOf(s))), View(), r)
    {
      hide FreshIndex;
      if index.Some? { return Fields(index); }
      if given.None? { return Fields(None); }
      var found := IndexTopLevelJSONObject(given.value, window);
      if found.None? { return Fields(None); }
      index := found;
      return Fields(found);
    }

    /** Closes the storage, gives its counters back, and drops every reference to the body. */
    method ReleaseBodyStorage()
      requires Valid()
      modifies this, cache`counters, Frame()
      ensures Valid() && View() == State(None, true, None, None, NoBody) && contentLength == old(contentLength)
      ensures old(storage).Some? ==> ValidOf(old(storage).value) && ViewOf(old(storage).value).closed
      ensures cache.counters == match old(storage)
                                case None => old(cache.counters)
                                case Some(s) => Released(old(cache.counters), KindOf(s), |old(ViewOf(s)).content|)
    {
      if storage.Some? { cache.CloseStorage(storage.value); }
      storage, legacy, released, index := None, None, true, None;
      body := Drained;
    }

    /** The first frame of a websocket takes the body's place. */
    method InstallFrame(frame: Storage, size: int)
      requires Valid() && ValidOf(frame) && !ViewOf(frame).closed
      modifies this
      ensures Valid() && View() == State(Some(Slot(frame, old(ViewOf(frame)))), false, None, None, Replayed(frame))
      ensures contentLength == size
    {
      storage, released, legacy, index := Some(frame), false, None, None;
      body, contentLength := FromStorage(frame), size;
    }

    /** Cursor and lifecycle of UnmarshalBodyReusable: `decodes` is what the decoder makes of the bytes. */
    method UnmarshalBodyReusable(disk: DiskState, json: bool, decodes: bool)
      returns (r: Reply, ghost mid: State, ghost fetched: Reply)
      requires Valid()
      modifies this, cache`counters, Frame()
      ensures Valid() && FetchSpec(old(View()), MaxBytes(), disk, mid, fetched) && Decoded(mid, fetched, decodes, View(), r)
      ensures fresh(Frame() - old(Frame()))
      ensures Costs(old(View()), fetched, cache.config, contentLength, MaxBytes(), disk, old(cache.counters), cache.counters)
      ensures contentLength == old(contentLength)
    {
      hide FreshIndex, FetchSpec, Costs;
      r := GetRequestBody(disk);
      mid, fetched := View(), r;
      FetchKeeps(old(View()), MaxBytes(), disk, mid, fetched);
      if r.Got? {
        r := Decode(r.s, json, decodes);
      }
      assert Decoded(mid, fetched, decodes, View(), r);
    }

    method Decode(s: Storage, json: bool, decodes: bool) returns (r: Reply)
      requires Valid() && storage == Some(s) && ViewOf(s).cursor == 0
      modifies this, Objects(storage)
      ensures Valid() && Decoded(old(View()), Got(s), decodes, View(), r)
      ensures contentLength == old(contentLength)
      ensures storage == old(storage) && (body == old(body) || body == FromStorage(s))
    {
      hide FreshIndex;
      if s.OnDisk? && json {
        var _ := SeekStart(s);
        ReadOn(s);
        if !decodes { return Refused(WasOther); }
      } else if !decodes { return Refused(WasOther); }
      var _ := SeekStart(s);
      body := FromStorage(s);
      return Got(s);
    }

    /** A provider adaptor's own body, after it decoded the one that came. */
    method ConvertBody(data: seq<byte>)
      requires Valid()
      modifies this
      ensures Valid() && View() == old(View()).(legacy := Some(data), net := Wire(data, true, true))
      ensures storage == old(storage) && body.FromWire? && fresh(body.stream) && contentLength == old(contentLength)
    {
      var buffer := new Stream(data, _ => 0, false);
      legacy, body, bodyOpen := Some(data), FromWire(buffer), true;
    }

    /** One call on the request, which is one step of a run. */
    method Call(call: Call) returns (r: Reply, ghost act: Act)
      requires Valid() && Callable(call)
      modifies this, cache`counters, Frame()
      ensures Valid() && fresh(Frame() - old(Frame()))
      ensures Proper(old(View()), act) && Step(old(View()), MaxBytes(), act, View(), r)
      ensures (act.Install? ==> old(View()).slot.None?) ==> forall base |
                Standing(base, old(cache.counters), old(View()).slot) :: Standing(base, cache.counters, View().slot)
    {
      hide FreshIndex, FetchSpec, OpSpec, Sane, Standing, Costs;
      ghost var was, had := View(), cache.counters;
      match call
      case DoFetch(disk) =>
        r := GetRequestBody(disk);
        act := Fetch(disk);
        forall base | Standing(base, had, was.slot) ensures Standing(base, cache.counters, View().slot) {
          FetchStands(base, was, MaxBytes(), disk, View(), r, cache.config, contentLength, had, cache.counters);
        }
      case DoIndex(window) =>
        act := Index(View().slot);
        r := GetOrIndexJSONBodyFields(storage, window);
        StepKeeps(was, MaxBytes(), act, View(), r);
      case DoUnmarshal(disk, json, decodes) =>
        ghost var mid, fetched;
        r, mid, fetched := UnmarshalBodyReusable(disk, json, decodes);
        act := Unmarshal(disk, decodes, mid, fetched);
        forall base | Standing(base, had, was.slot) ensures Standing(base, cache.counters, View().slot) {
          FetchStands(base, was, MaxBytes(), disk, mid, fetched, cache.config, contentLength, had, cache.counters);
          DecodedStands(base, cache.counters, mid, fetched, decodes, View(), r);
        }
      case DoUse(op) =>
        r, act := UseStorage(op);
        forall base | Standing(base, had, was.slot) ensures Standing(base, cache.counters, View().slot) {
          SameStands(base, had, was.slot, View().slot);
        }
      case DoRelease =>
        ReleaseBodyStorage();
        r, act := Did, Release;
        forall base | Standing(base, had, was.slot) ensures Standing(base, cache.counters, None) {
          if was.slot.Some? { ReleaseStands(base, was.slot.value, had); }
        }
      case DoInstall(data, disk) =>
        r, act := ReceiveFrame(data, disk);
        forall base | was.slot.None? && Standing(base, had, None) ensures Standing(base, cache.counters, View().slot) {
          FrameStands(base, View().slot.value, had, cache.counters);
        }
      case DoConvert(data) =>
        ConvertBody(data);
        r, act := Did, Convert(data);
    }

    /** A frame as it comes in, in memory or on disk, and its installation. */
    method ReceiveFrame(data: seq<byte>, disk: DiskState) returns (r: Reply, ghost act: Act)
      requires Valid()
      modifies this, cache`counters
      ensures Valid() && fresh(Frame() - old(Frame()))
      ensures act.Install? && Proper(old(View()), act) && Step(old(View()), MaxBytes(), act, View(), r)
      ensures View().slot == Some(Slot(act.frame.s, Body(data, 0, false))) && contentLength == |data|
      ensures storage.Some? && cache.counters == Charged(old(cache.counters), KindOf(storage.value), |data|)
      ensures KindOf(storage.value).Disk? <==> disk.DiskWorks? && LargeEnough(cache.config, |data|) && Room(cache.config, old(cache.counters), |data|)
    {
      hide FreshIndex, FetchSpec, OpSpec, Sane;
      var frame := cache.CreateBodyStorage(data, disk);
      InstallFrame(frame, |data|);
      r, act := Did, Install(Slot(frame, Body(data, 0, false)));
    }

    method UseStorage(op: Op) returns (r: Reply, ghost act: Act)
      requires Valid() && Callable(DoUse(op))
      modifies Objects(storage)
      ensures Valid() && act.Use? && Proper(old(View()), act) && Step(old(View()), MaxBytes(), act, View(), r)
      ensures SameSlot(old(View()), View())
    {
      hide FreshIndex, OpSpec;
      if storage.None? { return Did, Use(op, GotClosed); }
      ghost var before := ViewOf(storage.value);
      var a := Perform(storage.value, op);
      OpKeeps(before, op, ViewOf(storage.value), a);
      return Did, Use(op, a);
    }
  }

  datatype Call =
    | DoFetch(disk: DiskState) | DoIndex(window: Window) | DoUnmarshal(disk: DiskState, json: bool, decodes: bool)
    | DoUse(op: Op) | DoRelease | DoInstall(data: seq<byte>, disk: DiskState) | DoConvert(data: seq<byte>)

  /** Reads have space, and nobody but the context closes its storage. */
  predicate Callable(call: Call) {
    call.DoUse? ==> !call.op.OpClose? && (call.op.OpRead? || call.op.OpReadAt? ==> call.op.space > 0)
  }

  /** No frame is installed over a cached body. */
  ghost predicate FramesFirst(states: seq<State>, acts: seq<Act>)
    requires |states| == |acts| + 1
  {
    forall i | 0 <= i < |acts| :: acts[i].Install? ==> states[i].slot.None?
  }

  lemma FramesBefore(states: seq<State>, acts: seq<Act>, state: State, act: Act)
    requires |states| == |acts| + 1
    ensures FramesFirst(states + [state], acts + [act]) <==>
              FramesFirst(states, acts) && (act.Install? ==> states[|acts|].slot.None?)
  {
    var n := |acts|;
    if FramesFirst(states + [state], acts + [act]) {
      forall i | 0 <= i < n && acts[i].Install? ensures states[i].slot.None? { assert (acts + [act])[i] == acts[i]; }
      assert (acts + [act])[n] == act;
    }
  }

  /** Any calls one after the other are a run. */
  method Drive(c: Context, calls: seq<Call>) returns (ghost states: seq<State>, ghost acts: seq<Act>, replies: seq<Reply>)
    requires c.Valid() && forall i | 0 <= i < |calls| :: Callable(calls[i])
    modifies c, c.cache`counters, c.Frame()
    ensures c.Valid() && |acts| == |calls| && IsRun(c.MaxBytes(), states, acts, replies)
    ensures FramesFirst(states, acts) ==> forall base |
              Standing(base, old(c.cache.counters), old(c.View()).slot) :: Standing(base, c.cache.counters, c.View().slot)
    ensures fresh(c.Frame() - old(c.Frame()))
    ensures states[0] == old(c.View()) && states[|calls|] == c.View()
  {
    hide Proper, Step, Sane, Callable, Standing, FramesFirst;
    states, acts, replies := [c.View()], [], [];
    for i := 0 to |calls|
      invariant c.Valid() && |acts| == i && IsRun(c.MaxBytes(), states, acts, replies)
      invariant states[0] == old(c.View()) && states[i] == c.View()
      invariant fresh(c.Frame() - old(c.Frame()))
      invariant FramesFirst(states, acts) ==> forall base |
                  Standing(base, old(c.cache.counters), old(c.View()).slot) :: Standing(base, c.cache.counters, c.View().slot)
    {
      ghost var act;
      var r;
      r, act := c.Call(calls[i]);
      FramesBefore(states, acts, c.View(), act);
      states, acts, replies := states + [c.View()], acts + [act], replies + [r];
    }
  }

  /** Whatever calls a request makes, once it is released as much is in use as before it
      came, unless a frame was installed over a cached body. */
  method Serve(cache: Cache, maxMB: int, stream: Stream, contentLength: int, calls: seq<Call>)
      returns (ghost states: seq<State>, ghost acts: seq<Act>, replies: seq<Reply>)
    requires cache.counters.diskFiles >= 0 && cache.counters.diskBytes >= 0
    requires forall i | 0 <= i < |calls| :: Callable(calls[i])
    modifies cache`counters, stream
    ensures |acts| == |calls| && |states| == |acts| + 1
    ensures FramesFirst(states, acts) ==> Usage(cache.counters) == Usage(old(cache.counters))
  {
    hide Callable, FramesFirst;
    var c := new Context(cache, maxMB, stream, contentLength);
    ghost var base := cache.counters;
    assert Standing(base, base, c.View().slot);
    states, acts, replies := Drive(c, calls);
    ghost var had, was := cache.counters, c.View();
    assert FramesFirst(states, acts) ==> Standing(base, had, was.slot);
    c.ReleaseBodyStorage();
    if FramesFirst(states, acts) && was.slot.Some? { ReleaseStands(base, was.slot.value, had); }
  }
}
