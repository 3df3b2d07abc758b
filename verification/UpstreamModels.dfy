/** Detecting and applying upstream model changes of a channel. */
module UpstreamModels {
  import opened DelimitedText

  type Model = string

  // ----- names

  function TrimSpace(s: string): (r: string)
    ensures |r| <= |s|
    ensures r != "" ==> !IsSpace(r[0]) && !IsSpace(r[|r| - 1])
  {
    if s == "" then ""
    else if IsSpace(s[0]) then TrimSpace(s[1..])
    else if IsSpace(s[|s| - 1]) then TrimSpace(s[..|s| - 1])
    else s
  }

  ghost predicate IsName(m: Model) { m != "" && TrimSpace(m) == m }

  ghost predicate Distinct(ms: seq<Model>) { forall i, j | 0 <= i < j < |ms| :: ms[i] != ms[j] }

  function Members(ms: seq<Model>): (r: set<Model>)
    ensures forall m :: m in r <==> m in ms
  {
    set m | m in ms
  }

  /** lo.Filter */
  function Filter(ms: seq<Model>, keep: Model -> bool): (r: seq<Model>)
    ensures forall m :: m in r <==> m in ms && keep(m)
    ensures Distinct(ms) ==> Distinct(r)
    ensures |r| <= |ms|
  {
    if ms == [] then []
    else
      var n := |ms| - 1;
      var r := Filter(ms[..n], keep);
      assert ms == ms[..n] + [ms[n]];
      if keep(ms[n]) then r + [ms[n]] else r
  }

  /** Trimmed, without empties and without repetitions, first occurrences in order. */
  function NormalizeModelNames(ms: seq<Model>): (r: seq<Model>)
    ensures Distinct(r)
    ensures forall m :: m in r <==> m != "" && exists i :: 0 <= i < |ms| && TrimSpace(ms[i]) == m
  {
    if ms == [] then []
    else
      var n := |ms| - 1;
      var r := NormalizeModelNames(ms[..n]);
      var t := TrimSpace(ms[n]);
      assert forall i | 0 <= i < n :: ms[..n][i] == ms[i];
      if t == "" || t in r then r else r + [t]
  }

  function MergeModelNames(base: seq<Model>, appended: seq<Model>): seq<Model> {
    var b := NormalizeModelNames(base);
    b + Filter(NormalizeModelNames(appended), m => m !in b)
  }

  function SubtractModelNames(base: seq<Model>, removed: seq<Model>): seq<Model> {
    var r := NormalizeModelNames(removed);
    Filter(NormalizeModelNames(base), m => m !in r)
  }

  function IntersectModelNames(base: seq<Model>, allowed: seq<Model>): seq<Model> {
    var a := NormalizeModelNames(allowed);
    Filter(NormalizeModelNames(base), m => m in a)
  }

  function ApplySelectedModelChanges(origin: seq<Model>, add: seq<Model>, remove: seq<Model>): seq<Model> {
    var a := NormalizeModelNames(add);
    var r := SubtractModelNames(NormalizeModelNames(remove), a);
    SubtractModelNames(MergeModelNames(origin, a), r)
  }

  // ----- laws of names

  lemma {:induction false} TrimFixed(s: string)
    requires s == "" || (!IsSpace(s[0]) && !IsSpace(s[|s| - 1]))
    ensures TrimSpace(s) == s
  {
  }

  /** Normalized names are names. */
  lemma NormalNames(ms: seq<Model>, m: Model)
    requires m in NormalizeModelNames(ms)
    ensures IsName(m)
  {
    var i :| 0 <= i < |ms| && TrimSpace(ms[i]) == m;
    TrimFixed(m);
  }

  /** A list of distinct names is its own normal form. */
  lemma {:induction false} NormalFixed(ms: seq<Model>)
    requires Distinct(ms) && forall i | 0 <= i < |ms| :: IsName(ms[i])
    ensures NormalizeModelNames(ms) == ms
    decreases |ms|
  {
    if ms != [] {
      var n := |ms| - 1;
      NormalFixed(ms[..n]);
      assert ms == ms[..n] + [ms[n]];
    }
  }

  lemma NormalTwice(ms: seq<Model>)
    ensures NormalizeModelNames(NormalizeModelNames(ms)) == NormalizeModelNames(ms)
  {
    var r := NormalizeModelNames(ms);
    forall i | 0 <= i < |r| ensures IsName(r[i]) { NormalNames(ms, r[i]); }
    NormalFixed(r);
  }

  ghost predicate Clean(ms: seq<Model>) { Distinct(ms) && forall i | 0 <= i < |ms| :: IsName(ms[i]) }

  lemma NormalClean(ms: seq<Model>)
    ensures Clean(NormalizeModelNames(ms))
  {
    var r := NormalizeModelNames(ms);
    forall i | 0 <= i < |r| ensures IsName(r[i]) { NormalNames(ms, r[i]); }
  }

  lemma FilterClean(ms: seq<Model>, keep: Model -> bool)
    requires Clean(ms)
    ensures Clean(Filter(ms, keep))
  {
    var r := Filter(ms, keep);
    forall i | 0 <= i < |r| ensures IsName(r[i]) { assert r[i] in ms; }
  }

  lemma MergeMeaning(base: seq<Model>, appended: seq<Model>)
    ensures var r := MergeModelNames(base, appended);
            Clean(r) && forall m :: m in r <==> m in NormalizeModelNames(base) || m in NormalizeModelNames(appended)
  {
    var b := NormalizeModelNames(base);
    var a := NormalizeModelNames(appended);
    NormalClean(base);
    NormalClean(appended);
    FilterClean(a, m => m !in b);
    var f := Filter(a, m => m !in b);
    var r := b + f;
    assert forall i | 0 <= i < |f| :: f[i] in f;
    assert forall i | 0 <= i < |b| :: b[i] in b;
  }

  lemma SubtractMeaning(base: seq<Model>, removed: seq<Model>)
    ensures var r := SubtractModelNames(base, removed);
            Clean(r) && forall m :: m in r <==> m in NormalizeModelNames(base) && m !in NormalizeModelNames(removed)
  {
    NormalClean(base);
    var rm := NormalizeModelNames(removed);
    FilterClean(NormalizeModelNames(base), m => m !in rm);
  }

  lemma IntersectMeaning(base: seq<Model>, allowed: seq<Model>)
    ensures var r := IntersectModelNames(base, allowed);
            Clean(r) && forall m :: m in r <==> m in NormalizeModelNames(base) && m in NormalizeModelNames(allowed)
  {
    NormalClean(base);
    var al := NormalizeModelNames(allowed);
    FilterClean(NormalizeModelNames(base), m => m in al);
  }

  /** For any selection: no repetitions, and exactly origin plus added, less removed unless added. */
  lemma ApplyMeaning(origin: seq<Model>, add: seq<Model>, remove: seq<Model>)
    ensures var r := ApplySelectedModelChanges(origin, add, remove);
            && Clean(r)
            && forall m :: m in r <==>
                 (m in NormalizeModelNames(origin) || m in NormalizeModelNames(add)) &&
                 !(m in NormalizeModelNames(remove) && m !in NormalizeModelNames(add))
  {
    hide MergeModelNames, SubtractModelNames, Clean, NormalizeModelNames;
    var a := NormalizeModelNames(add);
    var rm := NormalizeModelNames(remove);
    NormalTwice(add);
    NormalTwice(remove);
    var r := SubtractModelNames(rm, a);
    SubtractMeaning(rm, a);
    var merged := MergeModelNames(origin, a);
    MergeMeaning(origin, a);
    CleanFixed(merged);
    CleanFixed(r);
    SubtractMeaning(merged, r);
  }

  lemma CleanFixed(ms: seq<Model>)
    requires Clean(ms)
    ensures NormalizeModelNames(ms) == ms
  {
    NormalFixed(ms);
  }

  // ----- detection

  const REGEX: string := "regex:"

  predicate HasRegex(m: Model) { REGEX <= m }

  /** Whether an ignore entry covers a model; what a regular expression matches is left open. */
  predicate Covers(entry: Model, m: Model, matches: (string, Model) -> bool) {
    if HasRegex(entry) then matches(TrimSpace(entry[|REGEX|..]), m) else entry == m
  }

  predicate Ignored(ignored: seq<Model>, m: Model, matches: (string, Model) -> bool) {
    exists i | 0 <= i < |ignored| :: Covers(ignored[i], m, matches)
  }

  datatype Pending = Pending(add: seq<Model>, remove: seq<Model>)

  function Collect(local: seq<Model>, upstream: seq<Model>, ignored: seq<Model>, mapping: map<Model, Model>, matches: (string, Model) -> bool): Pending {
    var l := NormalizeModelNames(local);
    var u := NormalizeModelNames(upstream);
    var ig := NormalizeModelNames(ignored);
    var add := Filter(u, m => m !in l && m !in mapping.Values && !Ignored(ig, m, matches));
    var remove := Filter(l, m => m !in mapping.Keys && m !in u);
    Pending(NormalizeModelNames(add), NormalizeModelNames(remove))
  }

  lemma CollectMeaning(local: seq<Model>, upstream: seq<Model>, ignored: seq<Model>, mapping: map<Model, Model>, matches: (string, Model) -> bool)
    ensures var p := Collect(local, upstream, ignored, mapping, matches);
            && Clean(p.add) && Clean(p.remove)
            && (forall m :: m in p.add <==>
                  m in NormalizeModelNames(upstream) && m !in NormalizeModelNames(local) && m !in mapping.Values &&
                  !Ignored(NormalizeModelNames(ignored), m, matches))
            && (forall m :: m in p.remove <==>
                  m in NormalizeModelNames(local) && m !in mapping.Keys && m !in NormalizeModelNames(upstream))
  {
    hide NormalizeModelNames, Ignored;
    var l := NormalizeModelNames(local);
    var u := NormalizeModelNames(upstream);
    var ig := NormalizeModelNames(ignored);
    NormalClean(local);
    NormalClean(upstream);
    var keepAdd := m => m !in l && m !in mapping.Values && !Ignored(ig, m, matches);
    var keepRemove := m => m !in mapping.Keys && m !in u;
    FilterClean(u, keepAdd);
    FilterClean(l, keepRemove);
    CleanFixed(Filter(u, keepAdd));
    CleanFixed(Filter(l, keepRemove));
    assert Collect(local, upstream, ignored, mapping, matches) == Pending(Filter(u, keepAdd), Filter(l, keepRemove));
  }

  // ----- the same, as the loops do it

  method MergeLoop(base: seq<Model>, appended: seq<Model>) returns (merged: seq<Model>)
    ensures merged == MergeModelNames(base, appended)
  {
    hide NormalizeModelNames, Filter;
    merged := NormalizeModelNames(base);
    var b := merged;
    var seen := Members(merged);
    var more := NormalizeModelNames(appended);
    NormalClean(appended);
    ghost var keep := m => m !in b;
    FilterNothing(keep);
    for i := 0 to |more|
      invariant merged == b + Filter(more[..i], keep)
      invariant forall m :: m in seen <==> m in b || m in more[..i]
    {
      var model := more[i];
      FilterSnoc(more, i, keep);
      if model in seen { continue; }
      seen := seen + {model};
      merged := merged + [model];
    }
    assert more[..|more|] == more;
  }

  lemma FilterNothing(keep: Model -> bool)
    ensures Filter([], keep) == []
  {
  }

  lemma FilterSnoc(ms: seq<Model>, i: nat, keep: Model -> bool)
    requires i < |ms| && Clean(ms)
    ensures Filter(ms[..i + 1], keep) == Filter(ms[..i], keep) + (if keep(ms[i]) then [ms[i]] else [])
    ensures ms[i] !in ms[..i] && ms[..i + 1] == ms[..i] + [ms[i]]
  {
    hide IsName, Filter;
    var s := ms[..i + 1];
    assert s[..i] == ms[..i] && s[i] == ms[i] && |s| == i + 1;
    hide Distinct;
    FilterLast(s, i, keep);
  }

  lemma FilterLast(ms: seq<Model>, n: nat, keep: Model -> bool)
    requires |ms| == n + 1
    ensures Filter(ms, keep) == Filter(ms[..n], keep) + if keep(ms[n]) then [ms[n]] else []
  {
    hide Distinct;
  }

  /** collectPendingUpstreamModelChangesFromModels, with its sets built in loops. */
  method CollectLoop(localModels: seq<Model>, upstreamModels: seq<Model>, ignoredModels: seq<Model>, mapping: map<Model, Model>,
                     matches: (string, Model) -> bool) returns (p: Pending)
    ensures p == Collect(localModels, upstreamModels, ignoredModels, mapping, matches)
  {
    hide NormalizeModelNames, Ignored;
    var local := NormalizeModelNames(localModels);
    var upstream := NormalizeModelNames(upstreamModels);
    var localSet := Members(local);
    var upstreamSet := Members(upstream);
    var ignored := NormalizeModelNames(ignoredModels);
    var sources: set<Model>, targets: set<Model> := {}, {};
    var left := mapping.Keys;
    while left != {}
      invariant left <= mapping.Keys && sources == mapping.Keys - left
      invariant targets == set s | s in mapping && s !in left :: mapping[s]
      decreases left
    {
      var source :| source in left;
      left := left - {source};
      sources := sources + {source};
      targets := targets + {mapping[source]};
    }
    var covered := localSet + targets;
    assert targets == mapping.Values;
    var keepAdd := m => m !in covered && !Ignored(ignored, m, matches);
    var keepRemove := m => m !in sources && m !in upstreamSet;
    FilterSame(upstream, keepAdd, m => m !in local && m !in mapping.Values && !Ignored(ignored, m, matches));
    FilterSame(local, keepRemove, m => m !in mapping.Keys && m !in upstream);
    p := Pending(NormalizeModelNames(Filter(upstream, keepAdd)), NormalizeModelNames(Filter(local, keepRemove)));
  }

  lemma {:induction false} FilterSame(ms: seq<Model>, f: Model -> bool, g: Model -> bool)
    requires forall m :: f(m) == g(m)
    ensures Filter(ms, f) == Filter(ms, g)
    decreases |ms|
  {
    if ms != [] { FilterSame(ms[..|ms| - 1], f, g); }
  }

  // ----- the channel's comma-separated list

  function GetModels(models: string): seq<Model> { Parts(models, ',') }

  ghost predicate CommaFree(ms: seq<string>) { forall i | 0 <= i < |ms| :: ms[i] != "" && ',' !in ms[i] }

  /** Writing a list of comma-free names and reading it back. */
  lemma ReadsBack(ms: seq<string>)
    requires CommaFree(ms)
    ensures GetModels(Join(ms, ',')) == ms
  {
    ListRoundTrip(ms, ',');
  }

  /** Trimming a piece of a split list leaves no comma in it. */
  lemma {:induction false} TrimSubstring(s: string, c: char)
    requires c !in s
    ensures c !in TrimSpace(s)
    decreases |s|
  {
    if s != "" {
      if IsSpace(s[0]) { TrimSubstring(s[1..], c); }
      else if IsSpace(s[|s| - 1]) { TrimSubstring(s[..|s| - 1], c); }
    }
  }

  lemma LocalCommaFree(models: string, m: Model)
    requires m in NormalizeModelNames(GetModels(models))
    ensures ',' !in m && m != ""
  {
    hide Split, Trim, TrimSpace;
    var ms := GetModels(models);
    var i :| 0 <= i < |ms| && TrimSpace(ms[i]) == m;
    TrimSubstring(ms[i], ',');
  }

  // ----- applying

  class Channel {
    var models: string
    var ignored: seq<Model>
    var detected: seq<Model>
    var removed: seq<Model>

    constructor (models: string, ignored: seq<Model>)
      ensures this.models == models && this.ignored == ignored && detected == [] && removed == []
    {
      this.models := models;
      this.ignored := ignored;
      detected := [];
      removed := [];
    }

    /** A check: what is pending is recorded for the administrator to choose from; with
        automatic synchronisation the additions are made at once. */
    method Detect(upstream: seq<Model>, mapping: map<Model, Model>, matches: (string, Model) -> bool, autoSync: bool)
      modifies this`models, this`detected, this`removed
      ensures var p := Collect(GetModels(old(models)), upstream, ignored, mapping, matches); var now := autoSync && p.add != [];
              && removed == p.remove && detected == (if now then [] else p.add)
              && models == if now then AutoMerged(old(models), p.add) else old(models)
    {
      hide NormalizeModelNames, GetModels, MergeModelNames;
      var p := CollectLoop(GetModels(models), upstream, ignored, mapping, matches);
      if autoSync && |p.add| > 0 {
        var origin := NormalizeModelNames(GetModels(models));
        var merged := MergeLoop(origin, p.add);
        if |merged| > |origin| { models := Join(merged, ','); }
        detected := [];
      } else {
        detected := p.add;
      }
      removed := p.remove;
    }

    /** applyChannelUpstreamModelUpdates, up to the database writes. */
    method Apply(addInput: seq<Model>, ignoreInput: seq<Model>, removeInput: seq<Model>)
        returns (added: seq<Model>, dropped: seq<Model>, changed: bool)
      modifies this
      ensures added == IntersectModelNames(addInput, NormalizeModelNames(old(detected)))
      ensures dropped == SubtractModelNames(IntersectModelNames(removeInput, NormalizeModelNames(old(removed))), added)
      ensures models == AppliedModels(old(models), added, dropped)
      ensures var origin := NormalizeModelNames(GetModels(old(models)));
              changed <==> ApplySelectedModelChanges(origin, added, dropped) != origin
      ensures ignored == AppliedIgnored(old(ignored), IntersectModelNames(ignoreInput, NormalizeModelNames(old(detected))), added)
      ensures detected == SubtractModelNames(NormalizeModelNames(old(detected)), added + IntersectModelNames(ignoreInput, NormalizeModelNames(old(detected))))
      ensures removed == SubtractModelNames(NormalizeModelNames(old(removed)), dropped)
    {
      hide NormalizeModelNames, GetModels, IntersectModelNames, SubtractModelNames, MergeModelNames, ApplySelectedModelChanges, Join;
      var pendingAdd := NormalizeModelNames(detected);
      var pendingRemove := NormalizeModelNames(removed);
      added := IntersectModelNames(addInput, pendingAdd);
      var ignoring := IntersectModelNames(ignoreInput, pendingAdd);
      dropped := IntersectModelNames(removeInput, pendingRemove);
      dropped := SubtractModelNames(dropped, added);
      var origin := NormalizeModelNames(GetModels(models));
      var next := ApplySelectedModelChanges(origin, added, dropped);
      changed := origin != next;
      if changed { models := Join(next, ','); }
      ignored := MergeLoop(ignored, ignoring);
      if |added| > 0 { ignored := SubtractModelNames(ignored, added); }
      detected := SubtractModelNames(pendingAdd, added + ignoring);
      removed := SubtractModelNames(pendingRemove, dropped);
    }
  }

  function AutoMerged(models: string, added: seq<Model>): string {
    var origin := NormalizeModelNames(GetModels(models));
    var merged := MergeModelNames(origin, added);
    if |merged| > |origin| then Join(merged, ',') else models
  }

  function AppliedModels(models: string, added: seq<Model>, dropped: seq<Model>): string {
    var origin := NormalizeModelNames(GetModels(models));
    var next := ApplySelectedModelChanges(origin, added, dropped);
    if origin != next then Join(next, ',') else models
  }

  function AppliedIgnored(ignored: seq<Model>, ignoring: seq<Model>, added: seq<Model>): seq<Model> {
    var merged := MergeModelNames(ignored, ignoring);
    if |added| > 0 then SubtractModelNames(merged, added) else merged
  }

  /** No added model stays ignored by name. */
  lemma AddedNotIgnored(ignored: seq<Model>, ignoring: seq<Model>, added: seq<Model>, m: Model)
    requires m in NormalizeModelNames(added)
    ensures m !in AppliedIgnored(ignored, ignoring, added)
  {
    hide MergeModelNames, SubtractModelNames;
    SubtractMeaning(MergeModelNames(ignored, ignoring), added);
  }

  /** The list after applying, as the next check reads it. */
  lemma AppliedReads(models: string, added: seq<Model>, dropped: seq<Model>)
    requires Clean(added) && Clean(dropped) && CommaFree(added)
    ensures var local' := NormalizeModelNames(GetModels(AppliedModels(models, added, dropped)));
            forall m :: m in local' <==>
              (m in NormalizeModelNames(GetModels(models)) || m in added) && !(m in dropped && m !in added)
  {
    hide GetModels, NormalizeModelNames, ApplySelectedModelChanges, Join, CommaFree;
    var origin := NormalizeModelNames(GetModels(models));
    var next := ApplySelectedModelChanges(origin, added, dropped);
    NormalTwice(GetModels(models));
    CleanFixed(added);
    CleanFixed(dropped);
    ApplyMeaning(origin, added, dropped);
    CleanFixed(next);
    if origin != next {
      NextCommaFree(models, next, added);
      ReadsBack(next);
    }
  }

  lemma NextCommaFree(models: string, next: seq<Model>, added: seq<Model>)
    requires CommaFree(added) && Clean(next)
    requires forall m :: m in next ==> m in NormalizeModelNames(GetModels(models)) || m in added
    ensures CommaFree(next)
  {
    hide NormalizeModelNames, GetModels;
    forall i | 0 <= i < |next| ensures next[i] != "" && ',' !in next[i] {
      if next[i] in added {
        var j :| 0 <= j < |added| && added[j] == next[i];
      } else {
        LocalCommaFree(models, next[i]);
      }
    }
  }

  /** Some ignored entry other than the added names covers the model. */
  ghost predicate StillIgnored(ignored: seq<Model>, added: seq<Model>, m: Model, matches: (string, Model) -> bool) {
    exists i | 0 <= i < |ignored| :: ignored[i] !in added && Covers(ignored[i], m, matches)
  }

  /** What is ignored after applying: what an entry that was not added covers. */
  lemma IgnoredAfter(ignored: seq<Model>, added: seq<Model>, m: Model, matches: (string, Model) -> bool)
    requires Clean(added)
    ensures Ignored(NormalizeModelNames(AppliedIgnored(ignored, [], added)), m, matches) <==>
            StillIgnored(NormalizeModelNames(ignored), added, m, matches)
  {
    hide MergeModelNames, SubtractModelNames, NormalizeModelNames, Covers;
    var before := NormalizeModelNames(ignored);
    var after := AppliedIgnored(ignored, [], added);
    NothingNormal();
    CleanFixed(added);
    var merged := MergeModelNames(ignored, []);
    MergeMeaning(ignored, []);
    CleanFixed(merged);
    SubtractMeaning(merged, added);
    CleanFixed(after);
    assert forall e :: e in after <==> e in before && e !in added;
    if i :| 0 <= i < |before| && before[i] !in added && Covers(before[i], m, matches) {
      assert before[i] in after;
      var j :| 0 <= j < |after| && after[j] == before[i];
    }
    if j :| 0 <= j < |after| && Covers(after[j], m, matches) {
      assert after[j] in before;
    }
  }

  lemma NothingNormal()
    ensures NormalizeModelNames([]) == []
  {
  }

  /** No added name holds a comma, and no new model is ignored only by patterns that are
      themselves being added as models. */
  ghost predicate Settles(models: string, upstream: seq<Model>, ignored: seq<Model>, mapping: map<Model, Model>, matches: (string, Model) -> bool) {
    var added := Collect(GetModels(models), upstream, ignored, mapping, matches).add;
    && (forall m | m in added :: ',' !in m)
    && (forall m | m in NormalizeModelNames(upstream) && m !in NormalizeModelNames(GetModels(models)) && m !in mapping.Values && m !in added ::
          StillIgnored(NormalizeModelNames(ignored), added, m, matches))
  }

  /** Detect, apply everything, detect again: nothing is pending exactly then. */
  lemma DetectApplyFixpoint(models: string, upstream: seq<Model>, ignored: seq<Model>, mapping: map<Model, Model>, matches: (string, Model) -> bool)
    ensures var p := Collect(GetModels(models), upstream, ignored, mapping, matches);
            var again := Collect(GetModels(AppliedModels(models, p.add, p.remove)), upstream, AppliedIgnored(ignored, [], p.add), mapping, matches);
            again == Pending([], []) <==> Settles(models, upstream, ignored, mapping, matches)
  {
    hide GetModels, NormalizeModelNames, Collect, AppliedModels, AppliedIgnored, Ignored, StillIgnored;
    var p := Collect(GetModels(models), upstream, ignored, mapping, matches);
    var models' := AppliedModels(models, p.add, p.remove);
    var ignored' := AppliedIgnored(ignored, [], p.add);
    var again := Collect(GetModels(models'), upstream, ignored', mapping, matches);
    CollectMeaning(GetModels(models), upstream, ignored, mapping, matches);
    CollectMeaning(GetModels(models'), upstream, ignored', mapping, matches);
    if forall m | m in p.add :: ',' !in m {
      AddCommaFree(p.add);
      AppliedReads(models, p.add, p.remove);
      forall m ensures m !in again.remove { }
      NoMembers(again.remove);
      forall m ensures Ignored(NormalizeModelNames(ignored'), m, matches) <==> StillIgnored(NormalizeModelNames(ignored), p.add, m, matches) {
        IgnoredAfter(ignored, p.add, m, matches);
      }
      if forall m :: m !in again.add { NoMembers(again.add); }
    } else {
      var m :| m in p.add && ',' in m;
      CommaPendsAgain(models', upstream, ignored, p.add, m, matches);
    }
  }

  /** Without names that look like patterns, only a comma keeps the cycle from settling. */
  lemma PlainNamesSettle(models: string, upstream: seq<Model>, ignored: seq<Model>, mapping: map<Model, Model>, matches: (string, Model) -> bool)
    requires forall m | m in NormalizeModelNames(upstream) :: !HasRegex(m)
    ensures Settles(models, upstream, ignored, mapping, matches) <==>
            forall m | m in Collect(GetModels(models), upstream, ignored, mapping, matches).add :: ',' !in m
  {
    hide GetModels, NormalizeModelNames, Collect;
    var added := Collect(GetModels(models), upstream, ignored, mapping, matches).add;
    CollectMeaning(GetModels(models), upstream, ignored, mapping, matches);
    var before := NormalizeModelNames(ignored);
    forall m | m in NormalizeModelNames(upstream) && m !in added && Ignored(before, m, matches) ensures StillIgnored(before, added, m, matches) {
      var i :| 0 <= i < |before| && Covers(before[i], m, matches);
    }
  }

  /** The list after automatic additions, as the next check reads it. */
  lemma AutoReads(models: string, added: seq<Model>)
    requires Clean(added) && CommaFree(added)
    ensures forall m :: m in NormalizeModelNames(GetModels(AutoMerged(models, added))) <==>
              m in NormalizeModelNames(GetModels(models)) || m in added
  {
    hide GetModels, NormalizeModelNames, Join, CommaFree;
    var origin := NormalizeModelNames(GetModels(models));
    var merged := MergeModelNames(origin, added);
    NormalTwice(GetModels(models));
    CleanFixed(added);
    MergeMeaning(origin, added);
    CleanFixed(merged);
    if |merged| > |origin| {
      NextCommaFree(models, merged, added);
      ReadsBack(merged);
    } else {
      assert merged == origin;
    }
  }

  /** Check with automatic additions and check again: nothing is to be added exactly when no
      added name holds a comma, and then what is to be removed is what it was. */
  lemma AutoSyncSettles(models: string, upstream: seq<Model>, ignored: seq<Model>, mapping: map<Model, Model>, matches: (string, Model) -> bool)
    ensures var p := Collect(GetModels(models), upstream, ignored, mapping, matches);
            var again := Collect(GetModels(AutoMerged(models, p.add)), upstream, ignored, mapping, matches);
            && (again.add == [] <==> forall m | m in p.add :: ',' !in m)
            && (again.add == [] ==> forall m :: m in again.remove <==> m in p.remove)
  {
    hide GetModels, NormalizeModelNames, Collect, AutoMerged, Ignored;
    var p := Collect(GetModels(models), upstream, ignored, mapping, matches);
    var models' := AutoMerged(models, p.add);
    var again := Collect(GetModels(models'), upstream, ignored, mapping, matches);
    CollectMeaning(GetModels(models), upstream, ignored, mapping, matches);
    CollectMeaning(GetModels(models'), upstream, ignored, mapping, matches);
    if forall m | m in p.add :: ',' !in m {
      AddCommaFree(p.add);
      AutoReads(models, p.add);
      NoMembers(again.add);
    } else {
      var m :| m in p.add && ',' in m;
      if m in NormalizeModelNames(GetModels(models')) { LocalCommaFree(models', m); }
      assert m in again.add;
    }
  }

  lemma AddCommaFree(add: seq<Model>)
    requires Clean(add) && forall m | m in add :: ',' !in m
    ensures CommaFree(add)
  {
  }

  lemma NoMembers(ms: seq<Model>)
    requires forall m :: m !in ms
    ensures ms == []
  {
    if ms != [] { SomeMember(ms); }
  }

  lemma SomeMember(ms: seq<Model>)
    requires ms != []
    ensures exists m :: m in ms
  {
    assert ms[0] in ms;
  }

  /** A name with a comma is never read back from the list, and adding it does not make it ignored. */
  lemma CommaPendsAgain(models': string, upstream: seq<Model>, ignored: seq<Model>, added: seq<Model>, m: Model, matches: (string, Model) -> bool)
    requires Clean(added) && m in added && ',' in m && !Ignored(NormalizeModelNames(ignored), m, matches)
    ensures m !in NormalizeModelNames(GetModels(models'))
    ensures !Ignored(NormalizeModelNames(AppliedIgnored(ignored, [], added)), m, matches)
  {
    hide GetModels, NormalizeModelNames, MergeModelNames, SubtractModelNames, Covers;
    if m in NormalizeModelNames(GetModels(models')) { LocalCommaFree(models', m); }
    var after := AppliedIgnored(ignored, [], added);
    NothingNormal();
    MergeMeaning(ignored, []);
    CleanFixed(MergeModelNames(ignored, []));
    SubtractMeaning(MergeModelNames(ignored, []), added);
    CleanFixed(after);
    IgnoredMore(after, NormalizeModelNames(ignored), m, matches);
  }

  lemma IgnoredMore(few: seq<Model>, many: seq<Model>, m: Model, matches: (string, Model) -> bool)
    requires forall e :: e in few ==> e in many
    ensures Ignored(few, m, matches) ==> Ignored(many, m, matches)
  {
    hide Covers;
    if i :| 0 <= i < |few| && Covers(few[i], m, matches) {
      assert few[i] in many;
    }
  }

  // ----- the three calls

  lemma {:induction false} FilterAll(ms: seq<Model>, keep: Model -> bool)
    requires forall m | m in ms :: keep(m)
    ensures Filter(ms, keep) == ms
    decreases |ms|
  {
    if ms != [] {
      var n := |ms| - 1;
      assert ms == ms[..n] + [ms[n]];
      FilterAll(ms[..n], keep);
    }
  }

  /** Selecting everything pending selects exactly that. */
  lemma SelectAll(p: Pending)
    requires Clean(p.add) && Clean(p.remove) && forall m | m in p.remove :: m !in p.add
    ensures IntersectModelNames(p.add, NormalizeModelNames(p.add)) == p.add
    ensures IntersectModelNames([], NormalizeModelNames(p.add)) == []
    ensures SubtractModelNames(IntersectModelNames(p.remove, NormalizeModelNames(p.remove)), p.add) == p.remove
  {
    hide NormalizeModelNames, Filter, Clean;
    CleanFixed(p.add);
    CleanFixed(p.remove);
    NothingNormal();
    FilterAll(p.add, m => m in p.add);
    FilterNothing(m => m in p.add);
    FilterAll(p.remove, m => m in p.remove);
    FilterAll(p.remove, m => m !in p.add);
  }

  /** A check, everything applied, and another check: nothing is pending then exactly if the
      cycle settles. */
  method DetectApplyDetect(c: Channel, upstream: seq<Model>, mapping: map<Model, Model>, matches: (string, Model) -> bool)
    modifies c
    ensures c.detected == [] && c.removed == [] <==> Settles(old(c.models), upstream, old(c.ignored), mapping, matches)
  {
    hide GetModels, NormalizeModelNames, Collect, AppliedModels, AppliedIgnored, Settles, IntersectModelNames, SubtractModelNames;
    ghost var p := Collect(GetModels(c.models), upstream, c.ignored, mapping, matches);
    CollectMeaning(GetModels(c.models), upstream, c.ignored, mapping, matches);
    SelectAll(p);
    DetectApplyFixpoint(c.models, upstream, c.ignored, mapping, matches);
    c.Detect(upstream, mapping, matches, false);
    var added, dropped, _ := c.Apply(c.detected, [], c.removed);
    c.Detect(upstream, mapping, matches, false);
  }

  // ----- two cycles that do not settle

  lemma PlainlyNormal(ms: seq<Model>)
    requires Distinct(ms) && forall i | 0 <= i < |ms| :: ms[i] != "" && !IsSpace(ms[i][0]) && !IsSpace(ms[i][|ms[i]| - 1])
    ensures NormalizeModelNames(ms) == ms
  {
    CleanFixed(ms);
  }

  /** A name with a comma is pending again. */
  lemma CommaNeverSettles(matches: (string, Model) -> bool)
    ensures !Settles("", ["a,b"], [], map[], matches)
  {
    assert GetModels("") == [];
    assert "a,b"[1] == ',';
    PlainlyNormal(["a,b"]);
    NothingNormal();
    hide GetModels, NormalizeModelNames, Collect;
    CollectMeaning(GetModels(""), ["a,b"], [], map[], matches);
    assert ["a,b"][0] == "a,b";
  }

  /** A model whose name is an ignored pattern is added, the pattern is forgotten, and what
      it covered is pending. */
  lemma PatternForgotten(e: Model, m: Model, matches: (string, Model) -> bool)
    requires NormalizeModelNames([e, m]) == [e, m] && NormalizeModelNames([e]) == [e]
    requires Covers(e, m, matches) && !Covers(e, e, matches)
    ensures !Settles("", [e, m], [e], map[], matches)
  {
    hide NormalizeModelNames, Collect, Covers, Settles;
    var p := Collect(GetModels(""), [e, m], [e], map[], matches);
    NothingNormal();
    LoneEntry(e, e, [], matches);
    LoneEntry(e, m, p.add, matches);
    hide GetModels, Ignored, StillIgnored, Clean;
    CollectMeaning(GetModels(""), [e, m], [e], map[], matches);
    assert [e, m][0] == e && [e, m][1] == m;
    assert e in p.add && m !in p.add;
    SettledStill("", [e, m], [e], m, matches);
  }

  lemma LoneEntry(e: Model, m: Model, added: seq<Model>, matches: (string, Model) -> bool)
    ensures GetModels("") == []
    ensures Ignored([e], m, matches) <==> Covers(e, m, matches)
    ensures e in added ==> !StillIgnored([e], added, m, matches)
  {
    hide Covers;
    if Covers(e, m, matches) { assert Covers([e][0], m, matches); }
  }

  lemma SettledStill(models: string, upstream: seq<Model>, ignored: seq<Model>, m: Model, matches: (string, Model) -> bool)
    ensures var added := Collect(GetModels(models), upstream, ignored, map[], matches).add;
            Settles(models, upstream, ignored, map[], matches) &&
            m in NormalizeModelNames(upstream) && m !in NormalizeModelNames(GetModels(models)) && m !in added ==>
              StillIgnored(NormalizeModelNames(ignored), added, m, matches)
  {
    hide NormalizeModelNames, Collect, StillIgnored, GetModels;
  }

  lemma AnchoredPatternForgotten(matches: (string, Model) -> bool)
    requires matches("^b", "b") && !matches("^b", "regex:^b")
    ensures !Settles("", ["regex:^b", "b"], ["regex:^b"], map[], matches)
  {
    AnchorCovers(matches);
    AnchorNames();
    hide Settles, NormalizeModelNames, Covers;
    PatternForgotten("regex:^b", "b", matches);
  }

  lemma AnchorCovers(matches: (string, Model) -> bool)
    ensures Covers("regex:^b", "b", matches) == matches("^b", "b") && Covers("regex:^b", "regex:^b", matches) == matches("^b", "regex:^b")
  {
    assert "regex:^b"[|REGEX|..] == "^b" && TrimSpace("^b") == "^b";
  }

  lemma AnchorNames()
    ensures NormalizeModelNames(["regex:^b", "b"]) == ["regex:^b", "b"] && NormalizeModelNames(["regex:^b"]) == ["regex:^b"]
  {
    hide NormalizeModelNames, TrimSpace;
    PlainlyNormal(["regex:^b", "b"]);
    PlainlyNormal(["regex:^b"]);
  }
}
