/** Applying any selection of the pending upstream changes: the next check finds exactly
    what was left pending. */
module UpstreamSelection {
  import opened DelimitedText
  import opened UpstreamModels

  // ----- filters

  lemma {:induction false} FilterAgree(ms: seq<Model>, f: Model -> bool, g: Model -> bool)
    requires forall m | m in ms :: f(m) == g(m)
    ensures Filter(ms, f) == Filter(ms, g)
    decreases |ms|
  {
    if ms != [] {
      var n := |ms| - 1;
      assert ms == ms[..n] + [ms[n]];
      FilterAgree(ms[..n], f, g);
    }
  }

  lemma {:induction false} FilterTwice(ms: seq<Model>, f: Model -> bool, g: Model -> bool)
    ensures Filter(Filter(ms, f), g) == Filter(ms, m => f(m) && g(m))
    decreases |ms|
  {
    if ms != [] {
      var n := |ms| - 1;
      FilterTwice(ms[..n], f, g);
      var r := Filter(ms[..n], f);
      if f(ms[n]) { assert (r + [ms[n]])[..|r|] == r; }
    }
  }

  lemma {:induction false} FilterAppend(a: seq<Model>, b: seq<Model>, f: Model -> bool)
    ensures Filter(a + b, f) == Filter(a, f) + Filter(b, f)
    decreases |b|
  {
    hide Filter, Distinct;
    if b == [] {
      assert a + b == a;
      NothingFiltered(f);
    } else {
      var n := |b| - 1;
      FilterAppend(a, b[..n], f);
      FilterLast(b, n, f);
      AppendLast(a, b, n);
      FilterLast(a + b, |a| + n, f);
      Regroup(Filter(a, f), Filter(b[..n], f), if f(b[n]) then [b[n]] else []);
    }
  }

  lemma NothingFiltered(f: Model -> bool)
    ensures Filter([], f) == []
  {
  }

  lemma AppendLast(a: seq<Model>, b: seq<Model>, n: nat)
    requires |b| == n + 1
    ensures (a + b)[..|a| + n] == a + b[..n] && (a + b)[|a| + n] == b[n]
  {
  }

  lemma Regroup(x: seq<Model>, y: seq<Model>, z: seq<Model>)
    ensures x + y + z == x + (y + z)
  {
  }

  lemma FilterNone(ms: seq<Model>, f: Model -> bool)
    requires forall m | m in ms :: !f(m)
    ensures Filter(ms, f) == []
  {
    NoMembers(Filter(ms, f));
  }

  // ----- a selection

  /** What is made of the administrator's input, and what is then left pending. */
  datatype Choice = Choice(added: seq<Model>, ignoring: seq<Model>, dropped: seq<Model>)

  function Chosen(p: Pending, addInput: seq<Model>, ignoreInput: seq<Model>, removeInput: seq<Model>): Choice {
    var added := IntersectModelNames(addInput, NormalizeModelNames(p.add));
    Choice(added, IntersectModelNames(ignoreInput, NormalizeModelNames(p.add)),
           SubtractModelNames(IntersectModelNames(removeInput, NormalizeModelNames(p.remove)), added))
  }

  function LeftPending(p: Pending, c: Choice): Pending {
    Pending(SubtractModelNames(NormalizeModelNames(p.add), c.added + c.ignoring), SubtractModelNames(NormalizeModelNames(p.remove), c.dropped))
  }

  /** The circumstances of a check. */
  datatype Setting = Setting(models: string, upstream: seq<Model>, ignored: seq<Model>, mapping: map<Model, Model>, matches: (string, Model) -> bool)

  function Check(s: Setting): Pending { Collect(GetModels(s.models), s.upstream, s.ignored, s.mapping, s.matches) }

  /** The circumstances after applying. */
  function Applied(s: Setting, c: Choice): Setting {
    s.(models := AppliedModels(s.models, c.added, c.dropped), ignored := AppliedIgnored(s.ignored, c.ignoring, c.added))
  }

  predicate IsIgnored(s: Setting, m: Model) { Ignored(NormalizeModelNames(s.ignored), m, s.matches) }

  /** Offered upstream, and neither listed nor the target of a mapping. */
  predicate IsNew(s: Setting, m: Model) {
    m in NormalizeModelNames(s.upstream) && m !in NormalizeModelNames(GetModels(s.models)) && m !in s.mapping.Values
  }

  /** An entry of the ignored list as it will be covers the model. */
  ghost predicate CoveredAfter(s: Setting, c: Choice, m: Model) {
    exists e :: (e in NormalizeModelNames(s.ignored) || e in c.ignoring) && e !in c.added && Covers(e, m, s.matches)
  }

  /** No pattern is forgotten and none newly ignored by its name: a new model is covered
      afterwards if it was before or was chosen to be, and was not added. */
  ghost predicate IgnoresAsChosen(s: Setting, c: Choice) {
    forall m | IsNew(s, m) :: CoveredAfter(s, c, m) <==> (IsIgnored(s, m) || m in c.ignoring) && m !in c.added
  }

  predicate NoCommas(ms: seq<Model>) { forall m | m in ms :: ',' !in m }

  /** A choice as Apply makes it. */
  ghost predicate Sensible(p: Pending, c: Choice) {
    && Clean(p.add) && Clean(p.remove) && Clean(c.added) && Clean(c.ignoring) && Clean(c.dropped)
    && (forall m | m in c.added :: m in p.add) && (forall m | m in c.ignoring :: m in p.add) && (forall m | m in c.dropped :: m in p.remove)
  }

  lemma ChosenSensible(s: Setting, addInput: seq<Model>, ignoreInput: seq<Model>, removeInput: seq<Model>)
    ensures Sensible(Check(s), Chosen(Check(s), addInput, ignoreInput, removeInput))
  {
    hide NormalizeModelNames, Collect, GetModels, IntersectModelNames, SubtractModelNames, Clean;
    var p := Check(s);
    CollectMeaning(GetModels(s.models), s.upstream, s.ignored, s.mapping, s.matches);
    CleanFixed(p.add);
    CleanFixed(p.remove);
    IntersectMeaning(addInput, p.add);
    IntersectMeaning(ignoreInput, p.add);
    IntersectMeaning(removeInput, p.remove);
    var rm := IntersectModelNames(removeInput, p.remove);
    CleanFixed(rm);
    SubtractMeaning(rm, IntersectModelNames(addInput, p.add));
  }

  lemma IgnoredExactly(s: Setting, c: Choice, m: Model)
    requires Clean(c.added) && Clean(c.ignoring)
    ensures IsIgnored(Applied(s, c), m) <==> CoveredAfter(s, c, m)
  {
    hide MergeModelNames, SubtractModelNames, NormalizeModelNames, Covers, Clean, AppliedModels;
    var before := NormalizeModelNames(s.ignored);
    var after := AppliedIgnored(s.ignored, c.ignoring, c.added);
    CleanFixed(c.added);
    CleanFixed(c.ignoring);
    var merged := MergeModelNames(s.ignored, c.ignoring);
    MergeMeaning(s.ignored, c.ignoring);
    CleanFixed(merged);
    SubtractMeaning(merged, c.added);
    CleanFixed(after);
    assert forall e :: e in after <==> (e in before || e in c.ignoring) && e !in c.added;
    if e :| (e in before || e in c.ignoring) && e !in c.added && Covers(e, m, s.matches) {
      assert e in after;
      var i :| 0 <= i < |after| && after[i] == e;
    }
    if i :| 0 <= i < |after| && Covers(after[i], m, s.matches) {
      assert after[i] in after;
    }
  }

  // ----- the list as it is read again

  lemma ReadsAsNext(models: string, added: seq<Model>, dropped: seq<Model>)
    requires Clean(added) && Clean(dropped) && CommaFree(added)
    ensures NormalizeModelNames(GetModels(AppliedModels(models, added, dropped))) ==
            ApplySelectedModelChanges(NormalizeModelNames(GetModels(models)), added, dropped)
  {
    hide GetModels, NormalizeModelNames, ApplySelectedModelChanges, Join, CommaFree;
    var origin := NormalizeModelNames(GetModels(models));
    var next := ApplySelectedModelChanges(origin, added, dropped);
    NormalTwice(GetModels(models));
    CleanFixed(added);
    CleanFixed(dropped);
    ApplyMeaning(origin, added, dropped);
    CleanFixed(next);
    if origin != next {
      NextCommaFree(models, next, added);
      ReadsBack(next);
    }
  }

  /** The next list, as two filters. */
  lemma NextList(origin: seq<Model>, added: seq<Model>, dropped: seq<Model>)
    requires Clean(origin) && Clean(added) && Clean(dropped)
    ensures ApplySelectedModelChanges(origin, added, dropped) ==
            Filter(origin + Filter(added, m => m !in origin), m => !(m in dropped && m !in added))
  {
    hide NormalizeModelNames, Clean, Filter;
    CleanFixed(origin);
    CleanFixed(added);
    CleanFixed(dropped);
    var r := SubtractModelNames(dropped, added);
    SubtractMeaning(dropped, added);
    CleanFixed(r);
    var merged := MergeModelNames(origin, added);
    MergeMeaning(origin, added);
    CleanFixed(merged);
    FilterAgree(merged, m => m !in r, m => !(m in dropped && m !in added));
  }

  /** What the check finds, as filters. */
  lemma CheckFilters(s: Setting)
    ensures var l, u := NormalizeModelNames(GetModels(s.models)), NormalizeModelNames(s.upstream);
            && Check(s).add == Filter(u, m => m !in l && m !in s.mapping.Values && !IsIgnored(s, m))
            && Check(s).remove == Filter(l, m => m !in s.mapping.Keys && m !in u)
  {
    hide NormalizeModelNames, GetModels, Ignored;
    var l, u, ig := NormalizeModelNames(GetModels(s.models)), NormalizeModelNames(s.upstream), NormalizeModelNames(s.ignored);
    NormalClean(GetModels(s.models));
    NormalClean(s.upstream);
    FilterAgree(u, m => m !in l && m !in s.mapping.Values && !Ignored(ig, m, s.matches), m => m !in l && m !in s.mapping.Values && !IsIgnored(s, m));
    FilterClean(u, m => m !in l && m !in s.mapping.Values && !Ignored(ig, m, s.matches));
    FilterClean(l, m => m !in s.mapping.Keys && m !in u);
    CleanFixed(Filter(u, m => m !in l && m !in s.mapping.Values && !Ignored(ig, m, s.matches)));
    CleanFixed(Filter(l, m => m !in s.mapping.Keys && m !in u));
  }

  lemma LeftFilters(p: Pending, c: Choice)
    requires Sensible(p, c)
    ensures LeftPending(p, c) == Pending(Filter(p.add, m => m !in c.added && m !in c.ignoring), Filter(p.remove, m => m !in c.dropped))
  {
    hide Clean, Filter;
    CleanFixed(p.add);
    CleanFixed(p.remove);
    CleanFixed(c.dropped);
    BothNormal(p, c);
    hide NormalizeModelNames;
    var both := NormalizeModelNames(c.added + c.ignoring);
    FilterAgree(p.add, m => m !in both, m => m !in c.added && m !in c.ignoring);
  }

  lemma BothNormal(p: Pending, c: Choice)
    requires Clean(c.added) && Clean(c.ignoring)
    ensures forall m :: m in NormalizeModelNames(c.added + c.ignoring) <==> m in c.added || m in c.ignoring
  {
    var both := c.added + c.ignoring;
    assert forall i | 0 <= i < |both| :: both[i] == (if i < |c.added| then c.added[i] else c.ignoring[i - |c.added|]) && IsName(both[i]);
    forall m ensures m in NormalizeModelNames(both) <==> m in c.added || m in c.ignoring {
      if i :| 0 <= i < |c.added| && c.added[i] == m { assert both[i] == m; }
      if i :| 0 <= i < |c.ignoring| && c.ignoring[i] == m { assert both[|c.added| + i] == m; }
    }
  }

  // ----- the next check

  /** The next check finds what was left pending, and nothing that was added is ignored. */
  ghost predicate Settled(s: Setting, c: Choice) {
    Check(Applied(s, c)) == LeftPending(Check(s), c) && forall m | m in c.added :: !IsIgnored(Applied(s, c), m)
  }

  function Listed(s: Setting): seq<Model> { NormalizeModelNames(GetModels(s.models)) }

  /** Offered models are listed afterwards if they were before or were added. */
  lemma ListedAfter(s: Setting, c: Choice)
    requires Sensible(Check(s), c) && NoCommas(c.added)
    ensures Listed(Applied(s, c)) == ApplySelectedModelChanges(Listed(s), c.added, c.dropped)
    ensures forall m | m in NormalizeModelNames(s.upstream) :: m in Listed(Applied(s, c)) <==> m in Listed(s) || m in c.added
  {
    hide NormalizeModelNames, GetModels, Collect, Clean, AppliedIgnored, ApplySelectedModelChanges, AppliedModels, CommaFree;
    AddCommaFree(c.added);
    CollectMeaning(GetModels(s.models), s.upstream, s.ignored, s.mapping, s.matches);
    ReadsAsNext(s.models, c.added, c.dropped);
    AppliedReads(s.models, c.added, c.dropped);
  }

  lemma AddSettles(s: Setting, c: Choice)
    requires Sensible(Check(s), c) && NoCommas(c.added) && IgnoresAsChosen(s, c)
    ensures Check(Applied(s, c)).add == LeftPending(Check(s), c).add
  {
    hide NormalizeModelNames, GetModels, Clean, Filter, AppliedModels, AppliedIgnored, CoveredAfter, Ignored, Sensible, LeftPending, Check, IsIgnored;
    var s' := Applied(s, c);
    var l, u, l' := Listed(s), NormalizeModelNames(s.upstream), Listed(s');
    ListedAfter(s, c);
    CheckFilters(s);
    CheckFilters(s');
    SensibleParts(Check(s), c);
    LeftFilters(Check(s), c);
    var f := m => m !in l && m !in s.mapping.Values && !IsIgnored(s, m);
    var g := m => m !in c.added && m !in c.ignoring;
    FilterTwice(u, f, g);
    var f' := m => m !in l' && m !in s.mapping.Values && !IsIgnored(s', m);
    forall m | m in u ensures f'(m) == (f(m) && g(m)) {
      IgnoredExactly(s, c, m);
    }
    FilterAgree(u, f', m => f(m) && g(m));
  }

  lemma SensibleParts(p: Pending, c: Choice)
    requires Sensible(p, c)
    ensures Clean(c.added) && Clean(c.ignoring) && Clean(c.dropped)
    ensures (forall m | m in c.added :: m in p.add) && (forall m | m in c.ignoring :: m in p.add) && (forall m | m in c.dropped :: m in p.remove)
  {
    hide Clean;
  }

  lemma RemoveSettles(s: Setting, c: Choice)
    requires Sensible(Check(s), c) && NoCommas(c.added)
    ensures Check(Applied(s, c)).remove == LeftPending(Check(s), c).remove
  {
    hide NormalizeModelNames, GetModels, Clean, Filter, AppliedModels, AppliedIgnored, Ignored, Sensible, LeftPending, Check, IsIgnored, ApplySelectedModelChanges;
    var s' := Applied(s, c);
    var l, u := Listed(s), NormalizeModelNames(s.upstream);
    ListedAfter(s, c);
    CheckFilters(s);
    CheckFilters(s');
    SensibleParts(Check(s), c);
    LeftFilters(Check(s), c);
    AddedOffered(s, c);
    NormalClean(GetModels(s.models));
    NextList(l, c.added, c.dropped);
    var h := m => m !in s.mapping.Keys && m !in u;
    var k := m => !(m in c.dropped && m !in c.added);
    var tail := Filter(c.added, m => m !in l);
    var kh := m => k(m) && h(m);
    FilterTwice(l + tail, k, h);
    FilterAppend(l, tail, kh);
    TailOffered(c.added, l, u);
    FilterNone(tail, kh);
    assert Filter(l, kh) + [] == Filter(l, kh);
    var d := m => m !in c.dropped;
    FilterTwice(l, h, d);
    FilterAgree(l, kh, m => h(m) && d(m));
  }

  lemma AddedOffered(s: Setting, c: Choice)
    requires forall m | m in c.added :: m in Check(s).add
    ensures forall m | m in c.added :: m in NormalizeModelNames(s.upstream)
  {
    hide NormalizeModelNames, GetModels, Collect, Ignored, Clean;
    CollectMeaning(GetModels(s.models), s.upstream, s.ignored, s.mapping, s.matches);
  }

  lemma TailOffered(added: seq<Model>, l: seq<Model>, u: seq<Model>)
    requires forall m | m in added :: m in u
    ensures forall m | m in Filter(added, m => m !in l) :: m in u
  {
  }

  /** What the check after a selection finds to be added, and what was left, by their members. */
  lemma AddMembers(s: Setting, c: Choice, m: Model)
    requires Sensible(Check(s), c) && IsNew(s, m)
    ensures m in Check(Applied(s, c)).add <==> m !in Listed(Applied(s, c)) && !CoveredAfter(s, c, m)
    ensures m in LeftPending(Check(s), c).add <==> !IsIgnored(s, m) && m !in c.added && m !in c.ignoring
  {
    hide NormalizeModelNames, GetModels, Clean, AppliedModels, AppliedIgnored, CoveredAfter, Ignored, Sensible, LeftPending, Collect;
    var s' := Applied(s, c);
    SensibleParts(Check(s), c);
    LeftFilters(Check(s), c);
    CollectMeaning(GetModels(s.models), s.upstream, s.ignored, s.mapping, s.matches);
    CollectMeaning(GetModels(s'.models), s'.upstream, s'.ignored, s'.mapping, s'.matches);
    IgnoredExactly(s, c, m);
  }

  lemma AddedNew(s: Setting, c: Choice, m: Model)
    requires Sensible(Check(s), c) && m in c.added
    ensures IsNew(s, m) && !IsIgnored(s, m)
  {
    hide NormalizeModelNames, GetModels, Collect, Ignored, Clean;
    CollectMeaning(GetModels(s.models), s.upstream, s.ignored, s.mapping, s.matches);
  }

  lemma SettledNeeds(s: Setting, c: Choice)
    requires Sensible(Check(s), c) && Settled(s, c)
    ensures NoCommas(c.added) && IgnoresAsChosen(s, c)
  {
    hide NormalizeModelNames, GetModels, Clean, AppliedModels, CoveredAfter, Ignored, LeftPending, Check, IsIgnored, IsNew, Sensible, Applied, Listed;
    var s' := Applied(s, c);
    SensibleParts(Check(s), c);
    forall m | m in c.added ensures ',' !in m {
      AddedNew(s, c, m);
      AddMembers(s, c, m);
      IgnoredExactly(s, c, m);
      assert m in Listed(s');
      ListedCommaFree(s', m);
    }
    ListedNew(s, c);
    forall m | IsNew(s, m) ensures CoveredAfter(s, c, m) <==> (IsIgnored(s, m) || m in c.ignoring) && m !in c.added {
      AddMembers(s, c, m);
      IgnoredExactly(s, c, m);
    }
  }

  lemma ListedCommaFree(s: Setting, m: Model)
    requires m in Listed(s)
    ensures ',' !in m
  {
    hide GetModels, NormalizeModelNames;
    LocalCommaFree(s.models, m);
  }

  lemma ListedNew(s: Setting, c: Choice)
    requires Sensible(Check(s), c) && NoCommas(c.added)
    ensures forall m | IsNew(s, m) :: m in Listed(Applied(s, c)) <==> m in c.added
  {
    hide NormalizeModelNames, GetModels, Clean, Check, Sensible, Applied;
    ListedAfter(s, c);
  }

  /** For any selection from what is pending: the next check finds exactly what was left, and
      nothing added is ignored, exactly when no added name holds a comma and no pattern is
      forgotten or newly ignored by its name. */
  lemma SelectionSettles(s: Setting, addInput: seq<Model>, ignoreInput: seq<Model>, removeInput: seq<Model>)
    ensures var c := Chosen(Check(s), addInput, ignoreInput, removeInput);
            Settled(s, c) <==> NoCommas(c.added) && IgnoresAsChosen(s, c)
  {
    hide Chosen, Check, NoCommas, Applied, LeftPending, IsIgnored, CoveredAfter, Sensible, IsNew;
    var c := Chosen(Check(s), addInput, ignoreInput, removeInput);
    ChosenSensible(s, addInput, ignoreInput, removeInput);
    if Settled(s, c) { SettledNeeds(s, c); }
    if NoCommas(c.added) && IgnoresAsChosen(s, c) {
      AddSettles(s, c);
      RemoveSettles(s, c);
      forall m | m in c.added ensures !IsIgnored(Applied(s, c), m) {
        AddedNew(s, c, m);
        SensibleParts(Check(s), c);
        IgnoredExactly(s, c, m);
      }
    }
  }

  /** Without names that look like patterns, only a comma stands in the way. */
  lemma PlainSelection(s: Setting, addInput: seq<Model>, ignoreInput: seq<Model>, removeInput: seq<Model>)
    requires forall m | m in NormalizeModelNames(s.upstream) :: !HasRegex(m)
    ensures IgnoresAsChosen(s, Chosen(Check(s), addInput, ignoreInput, removeInput))
  {
    hide NormalizeModelNames, Chosen, GetModels, Collect, HasRegex, Clean, Ignored, CoveredAfter;
    var p := Check(s);
    var c := Chosen(p, addInput, ignoreInput, removeInput);
    ChosenSensible(s, addInput, ignoreInput, removeInput);
    CollectMeaning(GetModels(s.models), s.upstream, s.ignored, s.mapping, s.matches);
    forall m | IsNew(s, m) ensures CoveredAfter(s, c, m) <==> (IsIgnored(s, m) || m in c.ignoring) && m !in c.added {
      NamesCoverThemselves(s, c, m);
    }
  }

  lemma NamesCoverThemselves(s: Setting, c: Choice, m: Model)
    requires forall e | e in c.added || e in c.ignoring :: !HasRegex(e)
    requires m in c.added ==> !IsIgnored(s, m)
    ensures CoveredAfter(s, c, m) <==> (IsIgnored(s, m) || m in c.ignoring) && m !in c.added
  {
    hide NormalizeModelNames, HasRegex;
    var before := NormalizeModelNames(s.ignored);
    if i :| 0 <= i < |before| && Covers(before[i], m, s.matches) {
      assert before[i] in before;
    }
    if m in c.ignoring { assert Covers(m, m, s.matches); }
    if e :| (e in before || e in c.ignoring) && e !in c.added && Covers(e, m, s.matches) {
      if e in before { var i :| 0 <= i < |before| && before[i] == e; }
    }
  }

  /** The three calls on a channel: a check, any selection applied, another check. */
  method DetectSelectDetect(c: Channel, upstream: seq<Model>, mapping: map<Model, Model>, matches: (string, Model) -> bool,
                            addInput: seq<Model>, ignoreInput: seq<Model>, removeInput: seq<Model>)
      returns (added: seq<Model>, left: Pending)
    modifies c
    ensures var s := Setting(old(c.models), upstream, old(c.ignored), mapping, matches);
            var choice := Chosen(Check(s), addInput, ignoreInput, removeInput);
            && added == choice.added && left == LeftPending(Check(s), choice)
            && (Pending(c.detected, c.removed) == left && (forall m | m in added :: !Ignored(NormalizeModelNames(c.ignored), m, matches)) <==>
                NoCommas(added) && IgnoresAsChosen(s, choice))
  {
    hide GetModels, NormalizeModelNames, Collect, AppliedModels, AppliedIgnored, IntersectModelNames, SubtractModelNames, IgnoresAsChosen, NoCommas, Ignored;
    ghost var s := Setting(c.models, upstream, c.ignored, mapping, matches);
    SelectionSettles(s, addInput, ignoreInput, removeInput);
    c.Detect(upstream, mapping, matches, false);
    var dropped, changed;
    added, dropped, changed := c.Apply(addInput, ignoreInput, removeInput);
    left := Pending(c.detected, c.removed);
    c.Detect(upstream, mapping, matches, false);
  }
}
