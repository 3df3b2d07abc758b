/** What tidying a list of model names means: white space taken from the ends and nowhere
    else, each name kept once, where it first stood. */
module ModelNames {
  import opened DelimitedText
  import opened UpstreamModels

  /** Trimming takes away white space at the ends, and nothing else. */
  lemma {:induction false} TrimTakesSpace(s: string) returns (a: string, b: string)
    ensures s == a + TrimSpace(s) + b && AllSpace(a) && AllSpace(b)
    decreases |s|
  {
    hide IsSpace;
    if s == "" || (!IsSpace(s[0]) && !IsSpace(s[|s| - 1])) {
      a, b := "", "";
      assert a + s + b == s;
    } else if IsSpace(s[0]) {
      var a', b' := TrimTakesSpace(s[1..]);
      a, b := [s[0]] + a', b';
      FrontGrows(s, a', TrimSpace(s[1..]), b');
    } else {
      var a', b' := TrimTakesSpace(s[..|s| - 1]);
      a, b := a', b' + [s[|s| - 1]];
      BackGrows(s, a', TrimSpace(s[..|s| - 1]), b');
    }
  }

  /** No white space at either end. */
  predicate Tidy(m: string) { m != "" && !IsSpace(m[0]) && !IsSpace(m[|m| - 1]) }

  /** So any white space around a name goes. */
  lemma {:induction false} TrimsToName(w1: string, m: string, w2: string)
    requires AllSpace(w1) && AllSpace(w2) && Tidy(m)
    ensures TrimSpace(w1 + m + w2) == m
    decreases |w1| + |w2|
  {
    hide IsSpace;
    var s := w1 + m + w2;
    if w1 != "" {
      assert s[1..] == w1[1..] + m + w2;
      TrimsToName(w1[1..], m, w2);
    } else if w2 != "" {
      assert s == m + w2 && s[|s| - 1] == w2[|w2| - 1];
      assert s[..|s| - 1] == w1 + m + w2[..|w2| - 1];
      TrimsToName(w1, m, w2[..|w2| - 1]);
    } else {
      assert s == m;
    }
  }

  lemma {:induction false} TrimsToNothing(w: string)
    requires AllSpace(w)
    ensures TrimSpace(w) == ""
    decreases |w|
  {
    hide IsSpace;
    if w != "" { TrimsToNothing(w[1..]); }
  }

  /** A text is some white space, a tidy name, and some more; or white space only. */
  ghost predicate Names(s: string, m: string) {
    Tidy(m) && exists w1, w2 :: AllSpace(w1) && AllSpace(w2) && w1 + m + w2 == s
  }

  lemma NamesTrimmed(s: string, m: string)
    ensures Names(s, m) <==> m != "" && TrimSpace(s) == m
  {
    if m != "" && TrimSpace(s) == m {
      var a, b := TrimTakesSpace(s);
      assert a + m + b == s;
    }
    if Names(s, m) {
      var w1, w2 :| AllSpace(w1) && AllSpace(w2) && w1 + m + w2 == s;
      TrimsToName(w1, m, w2);
    }
  }

  /** The tidied list holds exactly the names that some entry spells, whatever white space is
      around it. */
  lemma TidiedExactly(ms: seq<Model>, m: Model)
    ensures m in NormalizeModelNames(ms) <==> exists i :: 0 <= i < |ms| && Names(ms[i], m)
  {
    hide Names, TrimSpace;
    forall i | 0 <= i < |ms| ensures Names(ms[i], m) <==> m != "" && TrimSpace(ms[i]) == m { NamesTrimmed(ms[i], m); }
  }

  /** Names stand in the order in which they were first spelled. */
  lemma {:induction false} TidiedInOrder(ms: seq<Model>, i: nat, j: nat) returns (k: nat)
    requires i < j < |NormalizeModelNames(ms)|
    ensures var r := NormalizeModelNames(ms);
            k < |ms| && Names(ms[k], r[i]) && forall l | 0 <= l <= k :: !Names(ms[l], r[j])
    decreases |ms|
  {
    hide Names, TrimSpace;
    var r := NormalizeModelNames(ms);
    var n := |ms| - 1;
    var head := NormalizeModelNames(ms[..n]);
    assert r == head || r == head + [TrimSpace(ms[n])];
    assert forall l | 0 <= l < n :: ms[..n][l] == ms[l];
    if j < |head| {
      k := TidiedInOrder(ms[..n], i, j);
      forall l | 0 <= l <= k ensures !Names(ms[l], r[j]) { assert ms[..n][l] == ms[l]; }
    } else {
      TidiedExactly(ms[..n], head[i]);
      TidiedExactly(ms[..n], r[j]);
      assert head[i] in head && r[j] !in head;
      k :| 0 <= k < n && Names(ms[..n][k], head[i]);
      forall l | 0 <= l <= k ensures !Names(ms[l], r[j]) { assert ms[..n][l] == ms[l]; }
    }
  }

  // ----- order in the lists made of others

  ghost predicate Before(ms: seq<Model>, x: Model, y: Model) {
    exists i, j :: 0 <= i < j < |ms| && ms[i] == x && ms[j] == y
  }

  /** Filtering keeps the order. */
  lemma {:induction false} FilterKeepsOrder(ms: seq<Model>, keep: Model -> bool, x: Model, y: Model)
    ensures Before(Filter(ms, keep), x, y) <==> Before(ms, x, y) && keep(x) && keep(y)
    decreases |ms|
  {
    hide Distinct;
    if ms != [] {
      var n := |ms| - 1;
      var head := Filter(ms[..n], keep);
      FilterKeepsOrder(ms[..n], keep, x, y);
      BeforeLast(ms, n, x, y);
      if keep(ms[n]) {
        assert (head + [ms[n]])[..|head|] == head;
        BeforeLast(head + [ms[n]], |head|, x, y);
      }
    }
  }

  lemma BeforeLast(ms: seq<Model>, n: nat, x: Model, y: Model)
    requires |ms| == n + 1
    ensures Before(ms, x, y) <==> Before(ms[..n], x, y) || (x in ms[..n] && y == ms[n])
  {
    var head := ms[..n];
    if i, j :| 0 <= i < j < |head| && head[i] == x && head[j] == y { assert ms[i] == x && ms[j] == y; }
    if i, j :| 0 <= i < j < |ms| && ms[i] == x && ms[j] == y { assert head[i] == x; if j < n { assert head[j] == y; } }
    if x in head && y == ms[n] {
      var i :| 0 <= i < |head| && head[i] == x;
      assert ms[i] == x && ms[n] == y;
    }
  }

  /** A merged list is the base and then what is new of the other, each in its own order. */
  lemma MergeInOrder(base: seq<Model>, appended: seq<Model>, x: Model, y: Model)
    ensures NormalizeModelNames(base) <= MergeModelNames(base, appended)
    ensures var tail := MergeModelNames(base, appended)[|NormalizeModelNames(base)|..];
            Before(tail, x, y) <==> Before(NormalizeModelNames(appended), x, y) && x !in NormalizeModelNames(base) && y !in NormalizeModelNames(base)
  {
    hide NormalizeModelNames, Before, Filter;
    var b := NormalizeModelNames(base);
    FilterKeepsOrder(NormalizeModelNames(appended), m => m !in b, x, y);
    assert MergeModelNames(base, appended)[|b|..] == Filter(NormalizeModelNames(appended), m => m !in b);
  }

  /** What is subtracted from or intersected keeps its order. */
  lemma RestInOrder(base: seq<Model>, others: seq<Model>, x: Model, y: Model)
    ensures Before(SubtractModelNames(base, others), x, y) <==>
            Before(NormalizeModelNames(base), x, y) && x !in NormalizeModelNames(others) && y !in NormalizeModelNames(others)
    ensures Before(IntersectModelNames(base, others), x, y) <==>
            Before(NormalizeModelNames(base), x, y) && x in NormalizeModelNames(others) && y in NormalizeModelNames(others)
  {
    hide NormalizeModelNames, Before, Filter;
    var o := NormalizeModelNames(others);
    FilterKeepsOrder(NormalizeModelNames(base), m => m !in o, x, y);
    FilterKeepsOrder(NormalizeModelNames(base), m => m in o, x, y);
  }

  // ----- ignored entries

  /** An ignored entry is a pattern, written after a mark and with any white space around it,
      or a name. */
  lemma EntryCovers(w1: string, p: string, w2: string, m: Model, matches: (string, Model) -> bool)
    requires AllSpace(w1) && AllSpace(w2) && Tidy(p)
    ensures Covers("regex:" + (w1 + p + w2), m, matches) == matches(p, m)
  {
    TrimsToName(w1, p, w2);
    var tail := w1 + p + w2;
    assert ("regex:" + tail)[6..] == tail;
  }

  lemma NameCovers(e: Model, m: Model, matches: (string, Model) -> bool)
    requires |e| < 6 || e[..6] != "regex:"
    ensures Covers(e, m, matches) <==> e == m
  {
  }
}
