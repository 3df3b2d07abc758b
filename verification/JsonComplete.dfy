/** The scanner accepts all JSON within its depth, and finds exactly the spans of the
    syntax tree: so a text has one tree shape, and the scanner returns it. */
module JsonComplete {
  import opened Options
  import opened Bytes
  import opened JsonGrammar
  import opened JsonParse
  import opened JsonSound

  /** What may come after a number without becoming part of it. */
  ghost predicate Ends(s: seq<byte>, j: nat) { j >= |s| || IsDelimiter(s[j]) }

  lemma WsSkipped(s: seq<byte>, i: nat, w: seq<byte>)
    requires AllWs(w) && At(s, i, w) && (i + |w| < |s| ==> !IsWs(s[i + |w|]))
    ensures SkipWs(s, i) == i + |w|
  {
    assert forall k {:trigger w[k]} | 0 <= k < |w| :: s[i + k] == w[k] && IsWs(w[k]);
    assert forall k | i <= k < i + |w| :: w[k - i] == s[k];
  }

  lemma DigitsSkipped(s: seq<byte>, i: nat, t: seq<byte>)
    requires AllDigits(t) && At(s, i, t) && (i + |t| < |s| ==> !IsDigit(s[i + |t|]))
    ensures SkipDigits(s, i) == i + |t|
  {
    assert forall k {:trigger t[k]} | 0 <= k < |t| :: s[i + k] == t[k] && IsDigit(t[k]);
    assert forall k | i <= k < i + |t| :: t[k - i] == s[k];
  }

  lemma AtTail(s: seq<byte>, i: nat, t: seq<byte>, n: nat)
    requires At(s, i, t) && n <= |t|
    ensures At(s, i + n, t[n..])
  {
    assert t == t[..n] + t[n..];
    AtSplit(s, i, t[..n], t[n..]);
  }

  lemma {:induction false} StringTailComplete(s: seq<byte>, i: nat, body: seq<byte>)
    requires IsStringBody(body) && At(s, i, body) && i + |body| < |s| && s[i + |body|] == QUOTE
    ensures ScanStringTail(s, i) == Some(i + |body| + 1)
    decreases |body|
  {
    if body != [] {
      assert s[i] == body[0];
      var step := if body[0] != BACKSLASH then 1 else if |body| >= 2 && IsShortEscape(body[1]) && IsStringBody(body[2..]) then 2 else 6;
      AtTail(s, i, body, step);
      StringTailComplete(s, i + step, body[step..]);
      if step > 1 { assert s[i + 1] == body[1]; }
      if step == 6 {
        HexRun4(s, i + 2);
        assert s[i + 2] == body[2] && s[i + 3] == body[3] && s[i + 4] == body[4] && s[i + 5] == body[5];
      }
    }
  }

  lemma StringComplete(s: seq<byte>, i: nat, body: seq<byte>)
    requires IsStringBody(body) && FitsQuoted(body, s, i)
    ensures ScanString(s, i) == Some(i + |body| + 2)
  {
    StringTailComplete(s, i + 1, body);
  }

  lemma IntComplete(s: seq<byte>, i: nat, t: seq<byte>)
    requires IsIntText(t) && At(s, i, t) && (i + |t| < |s| ==> !IsDigit(s[i + |t|]))
    ensures ScanInt(s, i) == Some(i + |t|)
  {
    assert s[i] == t[0] && IsDigit(t[0]);
    if t[0] != ZERO {
      AtTail(s, i, t, 1);
      DigitsSkipped(s, i + 1, t[1..]);
    }
  }

  lemma FracComplete(s: seq<byte>, i: nat, t: seq<byte>)
    requires IsFracText(t) && At(s, i, t)
    requires i + |t| < |s| ==> !IsDigit(s[i + |t|]) && s[i + |t|] != DOT
    ensures ScanFrac(s, i) == Some(i + |t|)
  {
    if t != [] {
      assert s[i] == t[0] && s[i + 1] == t[1] && t[1..][0] == t[1];
      AtTail(s, i, t, 2);
      assert t[2..] == t[1..][1..];
      DigitsSkipped(s, i + 2, t[2..]);
    }
  }

  lemma ExpComplete(s: seq<byte>, i: nat, t: seq<byte>)
    requires IsExpText(t) && At(s, i, t)
    requires i + |t| < |s| ==> !IsDigit(s[i + |t|]) && s[i + |t|] != SMALL_E && s[i + |t|] != BIG_E
    ensures ScanExp(s, i) == Some(i + |t|)
  {
    if t != [] {
      assert s[i] == t[0] && s[i + 1] == t[1];
      var d := if t[1] == PLUS || t[1] == MINUS then 2 else 1;
      assert s[i + d] == t[d] && t[d..][0] == t[d];
      AtTail(s, i, t, d + 1);
      var digits := t[d..];
      assert t[d + 1..] == digits[1..];
      DigitsSkipped(s, i + d + 1, t[d + 1..]);
    }
  }

  lemma NumberComplete(s: seq<byte>, i: nat, n: Number)
    requires WfNumber(n) && At(s, i, NumberText(n)) && Ends(s, i + |NumberText(n)|)
    ensures ScanNumber(s, i) == Some(i + |NumberText(n)|)
  {
    hide IsIntText, ScanInt, ScanFrac, ScanExp;
    var j, k, m := NumberParts(s, i, n);
    assert j + |n.whole| == k && k + |n.frac| == m && m + |n.exp| == i + |NumberText(n)|;
    if n.exp != [] { assert s[m] == n.exp[0]; }
    if n.frac != [] { assert s[k] == n.frac[0]; }
    IntComplete(s, j, n.whole);
    FracComplete(s, k, n.frac);
    ExpComplete(s, m, n.exp);
  }

  lemma NumberParts(s: seq<byte>, i: nat, n: Number) returns (j: nat, k: nat, m: nat)
    requires WfNumber(n) && At(s, i, NumberText(n))
    ensures i < |s| && j == (if s[i] == MINUS then i + 1 else i) && k == j + |n.whole| && m == k + |n.frac|
    ensures At(s, j, n.whole) && At(s, k, n.frac) && At(s, m, n.exp)
    ensures m + |n.exp| == i + |NumberText(n)|
  {
    var sign := if n.neg then [MINUS] else [];
    AtSplit3(s, i, sign + n.whole, n.frac, n.exp);
    AtSplit(s, i, sign, n.whole);
    assert n.whole[0] == s[i + |sign|];
    assert n.neg ==> sign[0] == s[i];
    j := i + |sign|;
    k := j + |n.whole|;
    m := k + |n.frac|;
  }

  /** A value laid out at i starts with a byte that tells what it is. */
  lemma FitsFirst(v: Json, s: seq<byte>, i: nat)
    requires Wf(v) && Fits(v, s, i)
    ensures i < |s| && StartsValue(v, s[i]) && !IsWs(s[i]) && Len(v) > 0
  {
    FirstByte(v);
    Layout(v, s, i);
    TextLen(v);
    assert Text(v)[0] == s[i];
  }

  lemma {:induction false} ValueComplete(s: seq<byte>, i: nat, v: Json, room: int)
    requires Wf(v) && Fits(v, s, SkipWs(s, i)) && (v.Num? ==> Ends(s, SkipWs(s, i) + Len(v)))
    ensures var j := SkipWs(s, i); ScanValue(s, i, room) == if Deep(v) <= room then Some(Span(j, j + Len(v))) else None
    decreases v, 3
  {
    hide Wf, Fits, Deep, Len, Ends, StartsValue, ScanValueAt;
    var j := SkipWs(s, i);
    FitsFirst(v, s, j);
    if room >= 0 { ValueAtComplete(s, j, v, room); }
  }

  lemma {:induction false} ValueAtComplete(s: seq<byte>, j: nat, v: Json, room: int)
    requires j < |s| && room >= 0 && Wf(v) && Fits(v, s, j) && (v.Num? ==> Ends(s, j + Len(v)))
    ensures ScanValueAt(s, j, room) == if Deep(v) <= room then Some(j + Len(v)) else None
    decreases v, 2
  {
    hide At, ScanColl, IsStringBody, WfNumber, FitsQuoted, WfItems, FitsItems, DeepItems, AllWs, NumberText, Ends;
    FitsFirst(v, s, j);
    match v
    case Str(body) => StringComplete(s, j, body);
    case Num(n) => NumberComplete(s, j, n);
    case Word(w) => AtSlice(s, j, w);
    case Empty(kind, _) => CollComplete(kind, s, j, v, room - 1);
    case Full(kind, _) => CollComplete(kind, s, j, v, room - 1);
  }

  lemma {:induction false} CollComplete(kind: Kind, s: seq<byte>, i: nat, v: Json, room: int)
    requires IsColl(v, kind) && Wf(v) && Fits(v, s, i)
    ensures ScanColl(kind, s, i, room) == if Deep(v) - 1 <= room then Some(Scanned(CollEntries(v, i), i + Len(v))) else None
    decreases v, 1
  {
    hide At, AllWs, WfItems, FitsItems, DeepItems, ScanItems, Entries, LenItems;
    if v.Empty? {
      WsSkipped(s, i + 1, v.gap);
    } else {
      FirstItem(kind, s, i + 1, v.items);
      ItemsComplete(kind, s, i + 1, v.items, room);
      ItemsFromGap(kind, s, i + 1, room);
    }
  }

  /** After the whitespace that leads up to the first item stands no closing bracket. */
  lemma FirstItem(kind: Kind, s: seq<byte>, i: nat, items: Items)
    requires WfItems(kind, items) && FitsItems(items, s, i)
    ensures var j := SkipWs(s, i); j < |s| && s[j] != Close(kind)
  {
    hide At, AllWs, Wf, Fits, FitsLabel, LenLabel, Len, StartsValue;
    assert WfItem(kind, items.item) && FitsItem(items.item, s, i);
    ItemStart(kind, s, i, items.item);
  }

  lemma ItemStart(kind: Kind, s: seq<byte>, i: nat, it: Item)
    requires WfItem(kind, it) && FitsItem(it, s, i)
    ensures SkipWs(s, i) == i + |it.lead| < |s| && s[SkipWs(s, i)] != Close(kind)
  {
    hide At, AllWs, Wf, Fits, Len, IsStringBody;
    if it.name.NoLabel? {
      FitsFirst(it.value, s, i + |it.lead|);
    }
    WsSkipped(s, i, it.lead);
  }

  lemma LabelComplete(kind: Kind, s: seq<byte>, i: nat, it: Item)
    requires WfItem(kind, it) && FitsItem(it, s, i)
    ensures var k := i + |it.lead|; var r := ScanLabel(kind, s, i);
            r.Some? && r.value.key == LabelSpan(it.name, k) && SkipWs(s, r.value.end) == k + LenLabel(it.name)
  {
    hide At, AllWs, Wf, Fits, FitsLabel, StartsValue, Len, ScanString;
    ItemStart(kind, s, i, it);
    var k := i + |it.lead|;
    if it.name.Label? {
      FitsFirst(it.value, s, k + LenLabel(it.name));
      KeyComplete(s, k, it.name);
    }
  }

  lemma KeyComplete(s: seq<byte>, k: nat, l: Label)
    requires l.Label? && WfLabel(Object, l) && FitsLabel(l, s, k)
    requires k + LenLabel(l) < |s| && !IsWs(s[k + LenLabel(l)])
    ensures ScanString(s, k) == Some(k + |l.key| + 2)
    ensures var c := SkipWs(s, k + |l.key| + 2); c < |s| && s[c] == COLON && SkipWs(s, c + 1) == k + LenLabel(l)
  {
    hide At, AllWs, IsStringBody, FitsQuoted, ScanString;
    StringComplete(s, k, l.key);
    WsSkipped(s, k + |l.key| + 2, l.before);
    WsSkipped(s, k + |l.key| + 2 + |l.before| + 1, l.after);
  }

  /** The byte just after the value of an item ends it, if a separator follows the item. */
  lemma ItemEnds(kind: Kind, s: seq<byte>, i: nat, it: Item)
    requires WfItem(kind, it) && FitsItem(it, s, i)
    requires var e := i + LenItem(it); e < |s| && (s[e] == COMMA || s[e] == Close(kind))
    ensures var v := i + |it.lead| + LenLabel(it.name) + Len(it.value);
            Ends(s, v) && SkipWs(s, v) == i + LenItem(it)
  {
    hide Wf, Fits, FitsLabel, WfLabel, LenLabel, Len;
    var v := i + |it.lead| + LenLabel(it.name) + Len(it.value);
    WsSkipped(s, v, it.trail);
    if it.trail != [] { assert it.trail[0] == s[v]; }
  }

  lemma {:induction false} ItemComplete(kind: Kind, s: seq<byte>, i: nat, it: Item, room: int)
    requires WfItem(kind, it) && FitsItem(it, s, i)
    requires var e := i + LenItem(it); e < |s| && (s[e] == COMMA || s[e] == Close(kind))
    ensures ScanItem(kind, s, i, room) ==
            if Deep(it.value) + 1 <= room then Some(ScannedItem(ItemEntry(it, i), i + LenItem(it))) else None
    decreases it, 4
  {
    hide At, AllWs, Wf, Fits, Deep, Len, FitsLabel, WfLabel, ScanLabel, ScanValue, Ends, LenLabel;
    LabelComplete(kind, s, i, it);
    ItemEnds(kind, s, i, it);
    ValueComplete(s, ScanLabel(kind, s, i).value.end, it.value, room - 1);
  }

  lemma {:induction false} ItemsComplete(kind: Kind, s: seq<byte>, i: nat, items: Items, room: int)
    requires WfItems(kind, items) && FitsItems(items, s, i)
    requires var e := i + LenItems(items); e < |s| && s[e] == Close(kind)
    ensures ScanItems(kind, s, i, room) ==
            if DeepItems(items) + 1 <= room then Some(Scanned(Entries(items, i), i + LenItems(items) + 1)) else None
    decreases items, 5
  {
    hide At, WfItem, FitsItem, LenItem, ItemEntry, Deep, ScanItem;
    ItemComplete(kind, s, i, items.item, room);
    if items.More? {
      ItemsComplete(kind, s, i + LenItem(items.item) + 1, items.rest, room);
    }
  }
}
