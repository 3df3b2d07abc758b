/** Managing the keys of a multi-key channel: the index maps for status, disabling time and
    reason, and how they follow the keys when some are deleted. */
module MultiKey {
  import opened Options

  const ENABLED: int := 1
  const MANUALLY_DISABLED: int := 2
  const AUTO_DISABLED: int := 3

  /** One key with all that is recorded about it. */
  datatype Record = Record(key: string, status: int, time: Option<int>, reason: Option<string>)

  function Lookup<T>(m: map<int, T>, i: int): Option<T> { if i in m then Some(m[i]) else None }

  function Effective(status: map<int, int>, i: int): int { if i in status then status[i] else ENABLED }

  ghost predicate InRange<T>(m: map<int, T>, n: int) { forall i | i in m :: 0 <= i < n }

  function RecordAt(keys: seq<string>, status: map<int, int>, time: map<int, int>, reason: map<int, string>, i: int): Record
    requires 0 <= i < |keys|
  {
    Record(keys[i], Effective(status, i), Lookup(time, i), Lookup(reason, i))
  }

  function Records(keys: seq<string>, status: map<int, int>, time: map<int, int>, reason: map<int, string>): (r: seq<Record>)
    ensures |r| == |keys|
  {
    seq(|keys|, i requires 0 <= i < |keys| => RecordAt(keys, status, time, reason, i))
  }

  function Without(rs: seq<Record>, k: int): seq<Record> {
    if 0 <= k < |rs| then rs[..k] + rs[k + 1..] else rs
  }

  /** The survivors of delete_disabled_keys, in order; an enabled one loses stale time and reason. */
  function NotAutoDisabled(rs: seq<Record>): seq<Record> {
    if rs == [] then []
    else
      var r := rs[|rs| - 1];
      NotAutoDisabled(rs[..|rs| - 1]) +
      if r.status == AUTO_DISABLED then [] else if r.status == ENABLED then [r.(time := None, reason := None)] else [r]
  }

  /** The lists being rebuilt by a deletion loop. */
  datatype Rebuilt = Rebuilt(keys: seq<string>, status: map<int, int>, time: map<int, int>, reason: map<int, string>)

  ghost predicate Holds(b: Rebuilt, rs: seq<Record>) {
    && Records(b.keys, b.status, b.time, b.reason) == rs
    && InRange(b.status, |b.keys|) && InRange(b.time, |b.keys|) && InRange(b.reason, |b.keys|)
  }

  function Put<T>(m: map<int, T>, i: int, v: Option<T>): map<int, T> { if v.Some? then m[i := v.value] else m }

  /** Appending one survivor at the running index. */
  lemma PushHolds(b: Rebuilt, rs: seq<Record>, key: string, status: Option<int>, time: Option<int>, reason: Option<string>)
    requires Holds(b, rs)
    ensures var n := |b.keys|;
            Holds(Rebuilt(b.keys + [key], Put(b.status, n, status), Put(b.time, n, time), Put(b.reason, n, reason)),
                  rs + [Record(key, if status.Some? then status.value else ENABLED, time, reason)])
  {
    var n := |b.keys|;
    var b' := Rebuilt(b.keys + [key], Put(b.status, n, status), Put(b.time, n, time), Put(b.reason, n, reason));
    var rs' := Records(b'.keys, b'.status, b'.time, b'.reason);
    forall i | 0 <= i < n ensures rs'[i] == rs[i] {
      assert rs[i] == RecordAt(b.keys, b.status, b.time, b.reason, i);
    }
    assert rs' == rs + [Record(key, if status.Some? then status.value else ENABLED, time, reason)];
  }

  function EnabledCount(rs: seq<Record>): (n: nat)
    ensures n <= |rs|
  {
    if rs == [] then 0 else EnabledCount(rs[..|rs| - 1]) + if rs[|rs| - 1].status == ENABLED then 1 else 0
  }

  lemma EnabledMore(rs: seq<Record>, i: nat)
    requires i < |rs|
    ensures EnabledCount(rs[..i + 1]) == EnabledCount(rs[..i]) + if rs[i].status == ENABLED then 1 else 0
  {
    assert rs[..i + 1][..i] == rs[..i];
  }

  class ChannelKeys {
    var keys: seq<string>
    var size: int
    var status: map<int, int>
    var time: map<int, int>
    var reason: map<int, string>

    /** The size is the number of keys, and every index is that of a key. */
    ghost predicate Valid()
      reads this
    {
      size == |keys| && InRange(status, size) && InRange(time, size) && InRange(reason, size)
    }

    ghost function View(): seq<Record>
      reads this
    {
      Records(keys, status, time, reason)
    }

    constructor (keys: seq<string>)
      ensures Valid() && View() == Records(keys, map[], map[], map[])
    {
      this.keys := keys;
      size := |keys|;
      status, time, reason := map[], map[], map[];
    }

    /** As loaded from the channel's row. */
    constructor Load(keys: seq<string>, size: int, status: map<int, int>, time: map<int, int>, reason: map<int, string>)
      ensures this.keys == keys && this.size == size && this.status == status && this.time == time && this.reason == reason
    {
      this.keys, this.size, this.status, this.time, this.reason := keys, size, status, time, reason;
    }

    method DisableKey(keyIndex: int) returns (ok: bool)
      requires Valid()
      modifies this
      ensures Valid() && keys == old(keys) && (ok <==> 0 <= keyIndex < |old(keys)|)
      ensures View() == if ok then old(View())[keyIndex := old(View())[keyIndex].(status := MANUALLY_DISABLED)] else old(View())
    {
      if keyIndex < 0 || keyIndex >= size { return false; }
      status := status[keyIndex := MANUALLY_DISABLED];
      return true;
    }

    method EnableKey(keyIndex: int) returns (ok: bool)
      requires Valid()
      modifies this
      ensures Valid() && keys == old(keys) && (ok <==> 0 <= keyIndex < |old(keys)|)
      ensures View() == if ok then old(View())[keyIndex := Record(old(keys)[keyIndex], ENABLED, None, None)] else old(View())
    {
      if keyIndex < 0 || keyIndex >= size { return false; }
      status := status - {keyIndex};
      time := time - {keyIndex};
      reason := reason - {keyIndex};
      return true;
    }

    method EnableAllKeys() returns (count: nat)
      requires Valid()
      modifies this
      ensures Valid() && keys == old(keys) && View() == Records(old(keys), map[], map[], map[]) && count == |old(status)|
    {
      count := |status|;
      status, time, reason := map[], map[], map[];
    }

    method DisableAllKeys() returns (count: nat)
      requires Valid()
      modifies this
      ensures Valid() && keys == old(keys) && |View()| == |old(View())|
      ensures forall i | 0 <= i < |View()| ::
                View()[i] == if old(View())[i].status == ENABLED then old(View())[i].(status := MANUALLY_DISABLED) else old(View())[i]
      ensures count == EnabledCount(old(View())) && (count == 0 ==> View() == old(View()))
    {
      count := 0;
      ghost var rs := View();
      for i := 0 to size
        invariant Valid() && keys == old(keys) && time == old(time) && reason == old(reason)
        invariant forall j | 0 <= j < |keys| :: Effective(status, j) ==
                    if j < i && Effective(old(status), j) == ENABLED then MANUALLY_DISABLED else Effective(old(status), j)
        invariant count == EnabledCount(rs[..i]) <= i && (count == 0 ==> forall j | 0 <= j < i :: Effective(old(status), j) != ENABLED)
      {
        EnabledMore(rs, i);
        if Effective(status, i) == ENABLED {
          status := status[i := MANUALLY_DISABLED];
          count := count + 1;
        }
      }
      assert rs[..size] == rs;
    }

    /** Deletes one key unless it is the last; all others keep order, status, time and reason. */
    method DeleteKey(keyIndex: int) returns (ok: bool)
      requires Valid()
      modifies this
      ensures Valid() && (ok <==> 0 <= keyIndex < |old(keys)| && |old(keys)| > 1)
      ensures View() == if ok then Without(old(View()), keyIndex) else old(View())
    {
      if keyIndex < 0 || keyIndex >= size { return false; }
      ghost var rs := View();
      var b := Rebuilt([], map[], map[], map[]);
      for i := 0 to |keys|
        invariant unchanged(this) && Holds(b, Sofar(rs, keyIndex, i))
      {
        SofarStep(rs, keyIndex, i);
        if i == keyIndex { continue; }
        var newIndex := |b.keys|;
        var s := if i in status && status[i] != ENABLED then Some(status[i]) else None;
        PushHolds(b, Sofar(rs, keyIndex, i), keys[i], s, Lookup(time, i), Lookup(reason, i));
        assert rs[i] == Record(keys[i], if s.Some? then s.value else ENABLED, Lookup(time, i), Lookup(reason, i));
        b := Rebuilt(b.keys + [keys[i]], Put(b.status, newIndex, s), Put(b.time, newIndex, Lookup(time, i)), Put(b.reason, newIndex, Lookup(reason, i)));
      }
      assert Sofar(rs, keyIndex, |rs|) == Without(rs, keyIndex);
      if |b.keys| == 0 { return false; }
      Replace(b);
      return true;
    }

    method Replace(b: Rebuilt)
      requires exists rs :: Holds(b, rs)
      modifies this
      ensures Valid() && Holds(b, View()) && keys == b.keys
    {
      keys := b.keys;
      size := |b.keys|;
      status, time, reason := b.status, b.time, b.reason;
    }

    /** Deletes every automatically disabled key; nothing changes if there is none. */
    method DeleteDisabledKeys() returns (deleted: nat)
      requires Valid()
      modifies this
      ensures Valid() && deleted == |old(View())| - |NotAutoDisabled(old(View()))|
      ensures View() == if deleted == 0 then old(View()) else NotAutoDisabled(old(View()))
    {
      deleted := 0;
      ghost var rs := View();
      var b := Rebuilt([], map[], map[], map[]);
      for i := 0 to |keys|
        invariant unchanged(this) && Holds(b, NotAutoDisabled(rs[..i])) && deleted == i - |b.keys|
      {
        var s := Effective(status, i);
        assert rs[..i + 1][..i] == rs[..i] && rs[i] == RecordAt(keys, status, time, reason, i);
        if s == AUTO_DISABLED {
          deleted := deleted + 1;
        } else {
          var newIndex := |b.keys|;
          var st := if s != ENABLED then Some(s) else None;
          var t := if s != ENABLED then Lookup(time, i) else None;
          var r := if s != ENABLED then Lookup(reason, i) else None;
          PushHolds(b, NotAutoDisabled(rs[..i]), keys[i], st, t, r);
          b := Rebuilt(b.keys + [keys[i]], Put(b.status, newIndex, st), Put(b.time, newIndex, t), Put(b.reason, newIndex, r));
        }
      }
      assert rs[..|keys|] == rs;
      if deleted == 0 { return; }
      Replace(b);
    }

    /** The status list, and how many keys have each status. */
    method ListKeys() returns (all: seq<Shown>, counts: Counts)
      requires Valid()
      ensures all == ShownAll(View()) && counts == CountsOf(all)
    {
      hide Filtered;
      all, counts := [], Counts(0, 0, 0);
      NoneCounted();
      ghost var rs := View();
      for i := 0 to |keys|
        invariant all == ShownAll(rs[..i]) && counts == CountsOf(all)
      {
        assert rs[..i + 1][..i] == rs[..i] && rs[i] == RecordAt(keys, status, time, reason, i);
        var s := Effective(status, i);
        var t, r := 0, "";
        if s != ENABLED {
          if i in time { t := time[i]; }
          if i in reason { r := reason[i]; }
        }
        if s == ENABLED { counts := counts.(enabled := counts.enabled + 1); }
        if s == MANUALLY_DISABLED { counts := counts.(manual := counts.manual + 1); }
        if s == AUTO_DISABLED { counts := counts.(auto := counts.auto + 1); }
        CountOneMore(all, Shown(i, s, t, r, Preview(keys[i])));
        all := all + [Shown(i, s, t, r, Preview(keys[i]))];
      }
      assert rs[..|keys|] == rs;
    }

    /** One page of the status list, and the number of pages. */
    method GetKeyStatus(page: int, pageSize: int, filter: Option<int>)
        returns (list: seq<Shown>, total: nat, totalPages: nat, counts: Counts)
      requires Valid()
      ensures counts == CountsOf(ShownAll(View()))
      ensures var all := Filtered(ShownAll(View()), filter); var sz := if pageSize <= 0 then 50 else pageSize;
              && total == |all| && totalPages == PageCount(|all|, sz)
              && list == Page(all, if page <= 0 then 1 else if page > totalPages then totalPages else page, sz)
    {
      hide ShownAll, Filtered, Page, PageCount, CountsOf;
      var p, sz := page, pageSize;
      if p <= 0 { p := 1; }
      if sz <= 0 { sz := 50; }
      var all;
      all, counts := ListKeys();
      var filtered := FilterList(all, filter);
      total := |filtered|;
      list, totalPages := PickPage(filtered, p, sz);
    }
  }

  method PickPage(filtered: seq<Shown>, page: int, size: int) returns (list: seq<Shown>, totalPages: nat)
    requires page >= 1 && size > 0
    ensures totalPages == PageCount(|filtered|, size) >= 1
    ensures list == Page(filtered, if page > totalPages then totalPages else page, size)
  {
    hide PageCount, Offset;
    var p := page;
    totalPages := PageCount(|filtered|, size);
    if p > totalPages { p := totalPages; }
    var start := Offset(p, size);
    var end := start + size;
    if end > |filtered| { end := |filtered|; }
    list := [];
    if start < |filtered| { list := filtered[start..end]; }
  }

  method FilterList(all: seq<Shown>, filter: Option<int>) returns (filtered: seq<Shown>)
    ensures filtered == Filtered(all, filter)
  {
    filtered := [];
    if filter.Some? {
      for i := 0 to |all|
        invariant filtered == Filtered(all[..i], filter)
      {
        assert all[..i + 1][..i] == all[..i];
        if all[i].status == filter.value { filtered := filtered + [all[i]]; }
      }
      assert all[..|all|] == all;
    } else {
      filtered := all;
      NoFilter(all);
    }
  }

  /** What a deletion of key k has kept of the first i records. */
  ghost function Sofar(rs: seq<Record>, k: int, i: nat): seq<Record>
    requires 0 <= k < |rs| && i <= |rs|
  {
    if i <= k then rs[..i] else rs[..k] + rs[k + 1..i]
  }

  lemma SofarStep(rs: seq<Record>, k: int, i: nat)
    requires 0 <= k < |rs| && i < |rs|
    ensures Sofar(rs, k, i + 1) == if i == k then Sofar(rs, k, i) else Sofar(rs, k, i) + [rs[i]]
  {
  }

  // ----- the status list

  datatype Shown = Shown(index: int, status: int, time: int, reason: string, preview: string)

  function Preview(key: string): string { if |key| > 10 then key[..10] + "..." else key }

  function ShownAll(rs: seq<Record>): seq<Shown> {
    if rs == [] then []
    else
      var n := |rs| - 1;
      var r := rs[n];
      var disabled := r.status != ENABLED;
      ShownAll(rs[..n]) + [Shown(n, r.status, if disabled && r.time.Some? then r.time.value else 0,
                                 if disabled && r.reason.Some? then r.reason.value else "", Preview(r.key))]
  }

  /** Entry i is key i, with its effective status, and time and reason only if disabled. */
  lemma {:induction false} StatusListed(rs: seq<Record>, i: nat)
    requires i < |rs|
    ensures |ShownAll(rs)| == |rs| && ShownAll(rs)[i].index == i && ShownAll(rs)[i].status == rs[i].status
    ensures ShownAll(rs)[i].preview == Preview(rs[i].key)
    ensures rs[i].status == ENABLED ==> ShownAll(rs)[i].time == 0 && ShownAll(rs)[i].reason == ""
    ensures rs[i].status != ENABLED && rs[i].time.Some? ==> ShownAll(rs)[i].time == rs[i].time.value
    ensures rs[i].status != ENABLED && rs[i].reason.Some? ==> ShownAll(rs)[i].reason == rs[i].reason.value
    decreases |rs|
  {
    var n := |rs| - 1;
    if n > 0 { StatusListed(rs[..n], if i < n then i else 0); }
  }

  function Filtered(list: seq<Shown>, filter: Option<int>): seq<Shown> {
    if list == [] then []
    else
      var n := |list| - 1;
      Filtered(list[..n], filter) + if filter.None? || list[n].status == filter.value then [list[n]] else []
  }

  /** How many keys are enabled, disabled by hand and disabled automatically, whatever the filter. */
  datatype Counts = Counts(enabled: nat, manual: nat, auto: nat)

  function CountsOf(list: seq<Shown>): Counts {
    Counts(|Filtered(list, Some(ENABLED))|, |Filtered(list, Some(MANUALLY_DISABLED))|, |Filtered(list, Some(AUTO_DISABLED))|)
  }

  lemma NoneCounted()
    ensures CountsOf([]) == Counts(0, 0, 0)
  {
  }

  lemma CountOneMore(list: seq<Shown>, x: Shown)
    ensures var c := CountsOf(list);
            CountsOf(list + [x]) == Counts(c.enabled + (if x.status == ENABLED then 1 else 0),
                                           c.manual + (if x.status == MANUALLY_DISABLED then 1 else 0),
                                           c.auto + (if x.status == AUTO_DISABLED then 1 else 0))
  {
    assert (list + [x])[..|list|] == list;
  }

  lemma {:induction false} NoFilter(list: seq<Shown>)
    ensures Filtered(list, None) == list
    decreases |list|
  {
    if list != [] { NoFilter(list[..|list| - 1]); }
  }

  function PageCount(total: nat, size: int): (n: nat)
    requires size > 0
    ensures n >= 1
  {
    if (total + size - 1) / size == 0 then 1 else (total + size - 1) / size
  }

  /** Where a page starts. */
  function Offset(page: int, size: int): (start: nat)
    requires page >= 1 && size > 0
  {
    (page - 1) * size
  }

  function Page(list: seq<Shown>, page: int, size: int): seq<Shown>
    requires page >= 1 && size > 0
  {
    var start := Offset(page, size);
    var end := if start + size > |list| then |list| else start + size;
    if start < |list| then list[start..end] else []
  }

  function Pages(list: seq<Shown>, upTo: nat, size: int): seq<Shown>
    requires size > 0
  {
    if upTo == 0 then [] else Pages(list, upTo - 1, size) + Page(list, upTo, size)
  }

  lemma OffsetNext(page: int, size: int)
    requires page >= 1 && size > 0
    ensures Offset(page + 1, size) == Offset(page, size) + size && Offset(1, size) == 0
  {
  }

  lemma {:induction false} PagesPrefix(list: seq<Shown>, upTo: nat, size: int)
    requires size > 0
    ensures Pages(list, upTo, size) == list[..if Offset(upTo + 1, size) > |list| then |list| else Offset(upTo + 1, size)]
    decreases upTo
  {
    hide Offset;
    OffsetNext(1, size);
    if upTo > 0 {
      PagesPrefix(list, upTo - 1, size);
      OffsetNext(upTo, size);
      PageAppended(list, upTo, size);
    }
  }

  lemma PageAppended(list: seq<Shown>, p: int, size: int)
    requires p >= 1 && size > 0 && Offset(p + 1, size) == Offset(p, size) + size
    ensures var a, b := Offset(p, size), Offset(p + 1, size);
            list[..if a > |list| then |list| else a] + Page(list, p, size) == list[..if b > |list| then |list| else b]
  {
    hide Offset;
  }

  /** The pages one after the other are the filtered list. */
  lemma PagesComplete(list: seq<Shown>, size: int)
    requires size > 0
    ensures Pages(list, PageCount(|list|, size), size) == list
  {
    hide Offset, PageCount;
    PagesPrefix(list, PageCount(|list|, size), size);
    CeilingCovers(|list|, size);
    assert list[..|list|] == list;
  }

  lemma CeilingCovers(total: nat, size: int)
    requires size > 0
    ensures Offset(PageCount(total, size) + 1, size) >= total
  {
    var q := (total + size - 1) / size;
    assert q * size + (total + size - 1) % size == total + size - 1;
    assert Offset(q + 1, size) == q * size;
  }

  /** Deleting the automatically disabled keys keeps the others, in order, with their status. */
  lemma {:induction false} SurvivorsKept(rs: seq<Record>)
    ensures var out := NotAutoDisabled(rs);
            && (forall i | 0 <= i < |out| :: out[i].status != AUTO_DISABLED)
            && Outline(out) == KeptOutline(rs)
    decreases |rs|
  {
    if rs != [] {
      var n := |rs| - 1;
      SurvivorsKept(rs[..n]);
      var head := NotAutoDisabled(rs[..n]);
      var out := NotAutoDisabled(rs);
      assert out == head || out == head + [out[|head|]];
    }
  }

  /** Keys with status alone. */
  function Outline(rs: seq<Record>): seq<(string, int)> { seq(|rs|, i requires 0 <= i < |rs| => (rs[i].key, rs[i].status)) }

  function KeptOutline(rs: seq<Record>): seq<(string, int)> {
    if rs == [] then []
    else
      var r := rs[|rs| - 1];
      KeptOutline(rs[..|rs| - 1]) + if r.status == AUTO_DISABLED then [] else [(r.key, r.status)]
  }

  // ----- what the records and the lists made of them mean

  /** A key without a status is enabled; 1, 2 and 3 are enabled, disabled by hand and
      disabled automatically. */
  lemma RecordMeaning(keys: seq<string>, status: map<int, int>, time: map<int, int>, reason: map<int, string>, i: nat)
    requires i < |keys|
    ensures ENABLED == 1 && MANUALLY_DISABLED == 2 && AUTO_DISABLED == 3
    ensures var r := Records(keys, status, time, reason)[i];
            && r.key == keys[i] && r.status == (if i in status then status[i] else 1)
            && (if i in time then r.time == Some(time[i]) else r.time == None)
            && (if i in reason then r.reason == Some(reason[i]) else r.reason == None)
  {
  }

  /** Deleting one key moves the later ones up by one and no other. */
  lemma WithoutMeaning(rs: seq<Record>, k: nat, i: nat)
    requires k < |rs| && i < |rs| - 1
    ensures |Without(rs, k)| == |rs| - 1 && Without(rs, k)[i] == rs[if i < k then i else i + 1]
  {
  }

  ghost predicate Increasing(ps: seq<nat>) { forall i, j | 0 <= i < j < |ps| :: ps[i] < ps[j] }

  /** Which statuses will do: any but automatically disabled, or one. */
  datatype Want = NotAuto | Exactly(status: int)

  predicate Wants(w: Want, status: int) { if w.NotAuto? then status != 3 else status == w.status }

  /** Exactly the positions of the statuses that will do, in order. */
  ghost predicate Selects(ps: seq<nat>, statuses: seq<int>, w: Want) {
    && Increasing(ps) && (forall i | 0 <= i < |ps| :: ps[i] < |statuses|)
    && forall k | 0 <= k < |statuses| :: Wants(w, statuses[k]) <==> k in ps
  }

  lemma SelectsMore(ps: seq<nat>, statuses: seq<int>, s: int, w: Want)
    requires Selects(ps, statuses, w)
    ensures Selects(if Wants(w, s) then ps + [|statuses|] else ps, statuses + [s], w)
  {
    hide Wants;
    var n := |statuses|;
    if Wants(w, s) {
      var qs := ps + [n];
      assert forall k | 0 <= k < n :: k in qs <==> k in ps;
      assert qs[|ps|] == n;
    } else {
      assert n !in ps;
    }
  }

  function Statuses(rs: seq<Record>): (r: seq<int>)
    ensures |r| == |rs|
  {
    seq(|rs|, i requires 0 <= i < |rs| => rs[i].status)
  }

  function ShownStatuses(list: seq<Shown>): (r: seq<int>)
    ensures |r| == |list|
  {
    seq(|list|, i requires 0 <= i < |list| => list[i].status)
  }

  /** The elements of a list at some positions. */
  ghost predicate Picked<T>(out: seq<T>, list: seq<T>, ps: seq<nat>) {
    |out| == |ps| && forall i | 0 <= i < |ps| :: ps[i] < |list| && out[i] == list[ps[i]]
  }

  lemma PickedMore<T>(out: seq<T>, list: seq<T>, ps: seq<nat>, x: T)
    requires Picked(out, list, ps)
    ensures Picked(out, list + [x], ps) && Picked(out + [x], list + [x], ps + [|list|])
  {
  }

  /** A survivor as it is kept: an enabled one without what may be left of its time and reason. */
  function AsKept(r: Record): Record { if r.status == 1 then Record(r.key, 1, None, None) else r }

  function AllAsKept(rs: seq<Record>): (out: seq<Record>)
    ensures |out| == |rs|
  {
    seq(|rs|, i requires 0 <= i < |rs| => AsKept(rs[i]))
  }

  /** Exactly the keys that are not automatically disabled survive, in order: a disabled one
      with its time and reason, an enabled one without what may be left of them. */
  lemma {:induction false} SurvivorPositions(rs: seq<Record>) returns (ps: seq<nat>)
    ensures Selects(ps, Statuses(rs), NotAuto) && Picked(NotAutoDisabled(rs), AllAsKept(rs), ps)
    decreases |rs|
  {
    hide Selects, Picked, Statuses, AllAsKept, NotAutoDisabled;
    if rs == [] {
      ps := [];
      NothingLeft();
    } else {
      var n := |rs| - 1;
      ps := SurvivorPositions(rs[..n]);
      SurvivorStep(rs, n);
      SelectsMore(ps, Statuses(rs[..n]), rs[n].status, NotAuto);
      PickedMore(NotAutoDisabled(rs[..n]), AllAsKept(rs[..n]), ps, AsKept(rs[n]));
      if rs[n].status != 3 { ps := ps + [n]; }
    }
  }

  lemma NothingLeft()
    ensures Selects([], Statuses([]), NotAuto) && Picked(NotAutoDisabled([]), AllAsKept([]), [])
  {
  }

  lemma SurvivorStep(rs: seq<Record>, n: nat)
    requires |rs| == n + 1
    ensures Statuses(rs[..n]) + [rs[n].status] == Statuses(rs) && AllAsKept(rs[..n]) + [AsKept(rs[n])] == AllAsKept(rs)
    ensures NotAutoDisabled(rs) == if rs[n].status == 3 then NotAutoDisabled(rs[..n]) else NotAutoDisabled(rs[..n]) + [AsKept(rs[n])]
  {
    hide Statuses, AllAsKept, NotAutoDisabled, AsKept;
    StatusesMore(rs, n);
    AsKeptMore(rs, n);
    SurvivorsMore(rs, n);
  }

  lemma StatusesMore(rs: seq<Record>, n: nat)
    requires |rs| == n + 1
    ensures Statuses(rs[..n]) + [rs[n].status] == Statuses(rs)
  {
  }

  lemma AsKeptMore(rs: seq<Record>, n: nat)
    requires |rs| == n + 1
    ensures AllAsKept(rs[..n]) + [AsKept(rs[n])] == AllAsKept(rs)
  {
    hide AsKept;
  }

  lemma SurvivorsMore(rs: seq<Record>, n: nat)
    requires |rs| == n + 1
    ensures NotAutoDisabled(rs) == if rs[n].status == 3 then NotAutoDisabled(rs[..n]) else NotAutoDisabled(rs[..n]) + [AsKept(rs[n])]
  {
    var head := NotAutoDisabled(rs[..n]);
    assert head + [] == head;
    assert rs != [] && rs[|rs| - 1] == rs[n] && rs[..|rs| - 1] == rs[..n];
  }

  /** The filtered list is exactly the entries of the wanted status, in order. */
  lemma {:induction false} FilteredPositions(list: seq<Shown>, wanted: int) returns (ps: seq<nat>)
    ensures Selects(ps, ShownStatuses(list), Exactly(wanted)) && Picked(Filtered(list, Some(wanted)), list, ps)
    decreases |list|
  {
    hide Selects, Picked, ShownStatuses, Filtered;
    if list == [] {
      ps := [];
      NothingListed(wanted);
    } else {
      var n := |list| - 1;
      ps := FilteredPositions(list[..n], wanted);
      FilteredStep(list, n, wanted);
      SelectsMore(ps, ShownStatuses(list[..n]), list[n].status, Exactly(wanted));
      PickedMore(Filtered(list[..n], Some(wanted)), list[..n], ps, list[n]);
      if list[n].status == wanted { ps := ps + [n]; }
    }
  }

  lemma NothingListed(wanted: int)
    ensures Selects([], ShownStatuses([]), Exactly(wanted)) && Picked(Filtered([], Some(wanted)), [], [])
  {
  }

  lemma FilteredStep(list: seq<Shown>, n: nat, wanted: int)
    requires |list| == n + 1
    ensures ShownStatuses(list[..n]) + [list[n].status] == ShownStatuses(list) && list[..n] + [list[n]] == list
    ensures Filtered(list, Some(wanted)) ==
            if list[n].status == wanted then Filtered(list[..n], Some(wanted)) + [list[n]] else Filtered(list[..n], Some(wanted))
  {
    hide ShownStatuses, Filtered;
    ShownStatusesMore(list, n);
    FilteredMore(list, n, wanted);
    LastBack(list, n);
  }

  lemma LastBack<T>(list: seq<T>, n: nat)
    requires |list| == n + 1
    ensures list[..n] + [list[n]] == list
  {
  }

  lemma ShownStatusesMore(list: seq<Shown>, n: nat)
    requires |list| == n + 1
    ensures ShownStatuses(list[..n]) + [list[n].status] == ShownStatuses(list)
  {
  }

  lemma FilteredMore(list: seq<Shown>, n: nat, wanted: int)
    requires |list| == n + 1
    ensures Filtered(list, Some(wanted)) ==
            if list[n].status == wanted then Filtered(list[..n], Some(wanted)) + [list[n]] else Filtered(list[..n], Some(wanted))
  {
    var head := Filtered(list[..n], Some(wanted));
    assert head + [] == head;
    assert list != [] && list[|list| - 1] == list[n] && list[..|list| - 1] == list[..n];
  }

  /** There are as many pages as are needed, and one at least; all but the last are full. */
  lemma PagesNeeded(list: seq<Shown>, size: int, p: int)
    requires size > 0 && 1 <= p <= PageCount(|list|, size)
    ensures p < PageCount(|list|, size) ==> |Page(list, p, size)| == size
    ensures list != [] ==> Page(list, p, size) != []
    ensures list == [] ==> PageCount(|list|, size) == 1
  {
    NoPageToSpare(|list|, size, p);
    hide PageCount;
    OffsetNext(p, size);
    hide Offset;
  }

  lemma NoPageToSpare(total: nat, size: int, p: int)
    requires size > 0 && 1 <= p <= PageCount(total, size)
    ensures total > 0 ==> Offset(p, size) < total
    ensures p < PageCount(total, size) ==> Offset(p + 1, size) < total
    ensures total == 0 ==> PageCount(total, size) == 1
  {
    var q := (total + size - 1) / size;
    assert q * size + (total + size - 1) % size == total + size - 1;
    if total == 0 { SmallQuotient(size); }
    if p <= q {
      assert (p - 1) * size <= (q - 1) * size by { Monotone(p - 1, q - 1, size); }
      assert (q - 1) * size == q * size - size;
    }
    if p < q {
      assert p * size <= (q - 1) * size by { Monotone(p, q - 1, size); }
      assert Offset(p + 1, size) == p * size;
    }
  }

  lemma SmallQuotient(size: int)
    requires size > 0
    ensures (size - 1) / size == 0
  {
  }

  lemma Monotone(a: int, b: int, size: int)
    requires a <= b && size > 0
    ensures a * size <= b * size
  {
  }

  /** A preview is the key itself, or its first ten characters and three dots. */
  lemma PreviewMeaning(key: string)
    ensures |key| <= 10 ==> Preview(key) == key
    ensures |key| > 10 ==> |Preview(key)| == 13 && Preview(key)[10..] == "..." && Preview(key)[..10] <= key
  {
  }
}
