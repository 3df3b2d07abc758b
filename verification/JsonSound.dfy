/** Everything the scanner accepts is JSON, and its spans are those of the syntax tree. */
module JsonSound {
  import opened Options
  import opened Bytes
  import opened JsonGrammar
  import opened JsonParse

  lemma Slice(s: seq<byte>, i: nat, j: nat) returns (w: seq<byte>)
    requires i <= j <= |s|
    ensures w == s[i..j] && |w| == j - i && At(s, i, w)
  {
    w := s[i..j];
  }

  /** The whitespace skipped from i. */
  lemma WsGap(s: seq<byte>, i: nat) returns (w: seq<byte>)
    requires i <= |s|
    ensures AllWs(w) && At(s, i, w) && i + |w| == SkipWs(s, i)
  {
    w := s[i..SkipWs(s, i)];
  }

  lemma HexRun4(s: seq<byte>, i: nat)
    ensures HexRun(s, i, 4) <==> i + 4 <= |s| && IsHex(s[i]) && IsHex(s[i + 1]) && IsHex(s[i + 2]) && IsHex(s[i + 3])
  {
    assert HexRun(s, i, 4) == (i < |s| && IsHex(s[i]) && HexRun(s, i + 1, 3));
    assert HexRun(s, i + 1, 3) == (i + 1 < |s| && IsHex(s[i + 1]) && HexRun(s, i + 2, 2));
    assert HexRun(s, i + 2, 2) == (i + 2 < |s| && IsHex(s[i + 2]) && HexRun(s, i + 3, 1));
    assert HexRun(s, i + 3, 1) == (i + 3 < |s| && IsHex(s[i + 3]) && HexRun(s, i + 4, 0));
  }

  lemma {:induction false} StringTailSound(s: seq<byte>, i: nat) returns (body: seq<byte>)
    requires ScanStringTail(s, i).Some?
    ensures IsStringBody(body) && ScanStringTail(s, i) == Some(i + |body| + 1)
    ensures At(s, i, body) && i + |body| < |s| && s[i + |body|] == QUOTE
    decreases |s| - i
  {
    if s[i] == QUOTE {
      body := [];
    } else {
      var step := if s[i] != BACKSLASH then 1 else if IsShortEscape(s[i + 1]) then 2 else 6;
      if step == 6 { HexRun4(s, i + 2); }
      var rest := StringTailSound(s, i + step);
      var head := Slice(s, i, i + step);
      body := head + rest;
      assert body[step..] == rest;
      AtSplit(s, i, head, rest);
    }
  }

  lemma StringSound(s: seq<byte>, i: nat) returns (body: seq<byte>)
    requires ScanString(s, i).Some?
    ensures IsStringBody(body) && FitsQuoted(body, s, i) && ScanString(s, i) == Some(i + |body| + 2)
  {
    body := StringTailSound(s, i + 1);
  }

  lemma IntSound(s: seq<byte>, i: nat) returns (t: seq<byte>)
    requires ScanInt(s, i).Some?
    ensures IsIntText(t) && At(s, i, t) && ScanInt(s, i) == Some(i + |t|)
  {
    t := Slice(s, i, ScanInt(s, i).value);
  }

  lemma FracSound(s: seq<byte>, i: nat) returns (t: seq<byte>)
    requires i <= |s| && ScanFrac(s, i).Some?
    ensures IsFracText(t) && At(s, i, t) && ScanFrac(s, i) == Some(i + |t|)
  {
    t := Slice(s, i, ScanFrac(s, i).value);
    if t != [] { assert forall k | 0 <= k < |t| - 1 :: t[1..][k] == s[i + 1 + k]; }
  }

  lemma ExpSound(s: seq<byte>, i: nat) returns (t: seq<byte>)
    requires i <= |s| && ScanExp(s, i).Some?
    ensures IsExpText(t) && At(s, i, t) && ScanExp(s, i) == Some(i + |t|)
  {
    t := Slice(s, i, ScanExp(s, i).value);
    if t != [] {
      assert forall k | 0 <= k < |t| - 1 :: t[1..][k] == s[i + 1 + k];
      assert forall k | 0 <= k < |t| - 2 :: t[2..][k] == s[i + 2 + k];
    }
  }

  lemma NumberSound(s: seq<byte>, i: nat) returns (n: Number)
    requires ScanNumber(s, i).Some?
    ensures WfNumber(n) && At(s, i, NumberText(n)) && ScanNumber(s, i) == Some(i + |NumberText(n)|)
  {
    hide At, IsIntText, IsFracText, IsExpText, ScanInt, ScanFrac, ScanExp;
    var neg := i < |s| && s[i] == MINUS;
    var j := if neg then i + 1 else i;
    var whole := IntSound(s, j);
    var frac := FracSound(s, j + |whole|);
    var exp := ExpSound(s, j + |whole| + |frac|);
    n := NumberGlue(s, i, neg, whole, frac, exp);
  }

  lemma NumberGlue(s: seq<byte>, i: nat, neg: bool, whole: seq<byte>, frac: seq<byte>, exp: seq<byte>) returns (n: Number)
    requires neg ==> i < |s| && s[i] == MINUS
    requires var j := if neg then i + 1 else i;
             At(s, j, whole) && At(s, j + |whole|, frac) && At(s, j + |whole| + |frac|, exp)
    ensures n == Number(neg, whole, frac, exp) && At(s, i, NumberText(n))
  {
    n := Number(neg, whole, frac, exp);
    var sign := if neg then [MINUS] else [];
    AtSplit3(s, i, sign + whole, frac, exp);
    AtSplit(s, i, sign, whole);
  }

  lemma {:induction false} ValueSound(s: seq<byte>, i: nat, room: int) returns (v: Json)
    requires ScanValue(s, i, room).Some?
    ensures Wf(v) && Deep(v) <= room
    ensures var j := SkipWs(s, i); Fits(v, s, j) && ScanValue(s, i, room) == Some(Span(j, j + Len(v)))
    decreases |s| - i, 3
  {
    v := ValueAtSound(s, SkipWs(s, i), room);
  }

  lemma {:induction false} ValueAtSound(s: seq<byte>, j: nat, room: int) returns (v: Json)
    requires room >= 0 && j < |s| && ScanValueAt(s, j, room).Some?
    ensures Wf(v) && Deep(v) <= room && Fits(v, s, j) && ScanValueAt(s, j, room) == Some(j + Len(v))
    decreases |s| - j, 2
  {
    if s[j] == QUOTE {
      var body := StringSound(s, j);
      v := Str(body);
    } else if s[j] == LBRACE {
      v := CollSound(Object, s, j, room - 1);
    } else if s[j] == LBRACKET {
      v := CollSound(Array, s, j, room - 1);
    } else if s[j] == 0x74 || s[j] == 0x66 || s[j] == 0x6E {
      v := WordSound(s, j);
    } else {
      var n := NumberSound(s, j);
      v := Num(n);
    }
  }

  lemma WordSound(s: seq<byte>, j: nat) returns (v: Json)
    requires j < |s| && (s[j] == 0x74 || s[j] == 0x66 || s[j] == 0x6E) && ScanValueAt(s, j, 0).Some?
    ensures v.Word? && Wf(v) && Fits(v, s, j) && forall room :: ScanValueAt(s, j, room) == Some(j + Len(v))
  {
    var w := if s[j] == 0x74 then TRUE_WORD else if s[j] == 0x66 then FALSE_WORD else NULL_WORD;
    AtSlice(s, j, w);
    v := Word(w);
  }

  /** The entries a container's text gives when it starts at i. */
  ghost function CollEntries(v: Json, i: nat): seq<Entry>
    requires v.Empty? || v.Full?
  {
    if v.Empty? then [] else Entries(v.items, i + 1)
  }

  ghost predicate IsColl(v: Json, kind: Kind) { (v.Empty? || v.Full?) && v.kind == kind }

  lemma {:induction false} CollSound(kind: Kind, s: seq<byte>, i: nat, room: int) returns (v: Json)
    requires ScanColl(kind, s, i, room).Some?
    ensures IsColl(v, kind) && Wf(v) && Deep(v) - 1 <= room && Fits(v, s, i)
    ensures ScanColl(kind, s, i, room) == Some(Scanned(CollEntries(v, i), i + Len(v)))
    decreases |s| - i, 1
  {
    hide At, WfItems, FitsItems, DeepItems, ScanItems, LenItems, Entries, AllWs;
    var j := SkipWs(s, i + 1);
    if j < |s| && s[j] == Close(kind) {
      v := EmptyCollSound(kind, s, i);
    } else {
      ItemsFromGap(kind, s, i + 1, room);
      var items := ItemsSound(kind, s, i + 1, room);
      v := Full(kind, items);
    }
  }

  /** Scanning items may start before or after the whitespace that leads up to the first one. */
  lemma ItemsFromGap(kind: Kind, s: seq<byte>, i: nat, room: int)
    ensures ScanItems(kind, s, SkipWs(s, i), room) == ScanItems(kind, s, i, room)
  {
    hide ScanValue, ScanLabel, SkipWs;
    LabelFromGap(kind, s, i);
    assert ScanItem(kind, s, SkipWs(s, i), room) == ScanItem(kind, s, i, room);
  }

  lemma LabelFromGap(kind: Kind, s: seq<byte>, i: nat)
    ensures ScanLabel(kind, s, SkipWs(s, i)) == ScanLabel(kind, s, i)
  {
    hide ScanString;
    assert SkipWs(s, SkipWs(s, i)) == SkipWs(s, i);
  }

  lemma EmptyCollSound(kind: Kind, s: seq<byte>, i: nat) returns (v: Json)
    requires i < |s| && s[i] == Open(kind)
    requires var j := SkipWs(s, i + 1); j < |s| && s[j] == Close(kind)
    ensures v.Empty? && v.kind == kind && Wf(v) && Fits(v, s, i) && SkipWs(s, i + 1) + 1 == i + Len(v)
  {
    var gap := WsGap(s, i + 1);
    v := Empty(kind, gap);
  }

  /** Everything of an item before its value, with the whitespace that leads up to the value. */
  lemma LabelSound(kind: Kind, s: seq<byte>, i: nat) returns (lead: seq<byte>, l: Label)
    requires i <= |s| && ScanLabel(kind, s, i).Some?
    ensures AllWs(lead) && At(s, i, lead) && WfLabel(kind, l)
    ensures var pre := i + |lead|; var r := ScanLabel(kind, s, i).value;
            FitsLabel(l, s, pre) && r.key == LabelSpan(l, pre) && SkipWs(s, r.end) == pre + LenLabel(l)
  {
    lead := WsGap(s, i);
    if kind.Array? {
      l := NoLabel;
    } else {
      l := KeySound(s, i + |lead|);
    }
  }

  lemma KeySound(s: seq<byte>, k: nat) returns (l: Label)
    requires ScanString(s, k).Some?
    requires var c := SkipWs(s, ScanString(s, k).value); c < |s| && s[c] == COLON
    ensures l.Label? && WfLabel(Object, l) && FitsLabel(l, s, k)
    ensures ScanString(s, k) == Some(k + |l.key| + 2)
    ensures SkipWs(s, SkipWs(s, ScanString(s, k).value) + 1) == k + LenLabel(l)
  {
    var key := StringSound(s, k);
    var before := WsGap(s, k + |key| + 2);
    var after := WsGap(s, k + |key| + 2 + |before| + 1);
    l := Label(key, before, after);
  }

  lemma {:induction false} ItemSound(kind: Kind, s: seq<byte>, i: nat, room: int) returns (it: Item)
    requires i <= |s| && ScanItem(kind, s, i, room).Some?
    ensures ItemFound(it, kind, s, i, room)
    ensures ScanItem(kind, s, i, room) == Some(ScannedItem(ItemEntry(it, i), i + LenItem(it)))
    decreases |s| - i, 4
  {
    hide At, Wf, WfLabel, Fits, FitsLabel, Deep, ScanValue, ScanLabel, LenLabel, Len, AllWs;
    var lead, l := LabelSound(kind, s, i);
    var v := ValueSound(s, ScanLabel(kind, s, i).value.end, room - 1);
    var trail := WsGap(s, i + |lead| + LenLabel(l) + Len(v));
    it := Item(lead, l, v, trail);
  }

  lemma {:induction false} ItemsSound(kind: Kind, s: seq<byte>, i: nat, room: int) returns (items: Items)
    requires i <= |s| && ScanItems(kind, s, i, room).Some?
    ensures ItemsFound(items, kind, s, i, room)
    ensures ScanItems(kind, s, i, room) == Some(Scanned(Entries(items, i), i + LenItems(items) + 1))
    decreases |s| - i, 5
  {
    hide Wf, WfItem, WfItems, Fits, FitsItem, FitsItems, Deep, DeepItems, ScanValue, ScanItem, ScanLabel, Entries, ItemEntry, LenItem, LenItems, Len;
    var it := ItemSound(kind, s, i, room);
    var j := i + LenItem(it);
    if s[j] == COMMA {
      ghost var r := ScanItems(kind, s, j + 1, room);
      assert ScanItems(kind, s, i, room) == Prepend([ItemEntry(it, i)], r);
      var rest := ItemsSound(kind, s, j + 1, room);
      items := ConsFound(it, rest, kind, s, i, room);
    } else {
      items := OneFound(it, kind, s, i, room);
    }
  }

  lemma OneFound(it: Item, kind: Kind, s: seq<byte>, i: nat, room: int) returns (items: Items)
    requires ItemFound(it, kind, s, i, room)
    requires var j := i + LenItem(it); j < |s| && s[j] == Close(kind)
    ensures ItemsFound(items, kind, s, i, room) && LenItems(items) == LenItem(it)
    ensures Entries(items, i) == [ItemEntry(it, i)]
  {
    items := One(it);
  }

  ghost predicate ItemFound(it: Item, kind: Kind, s: seq<byte>, i: nat, room: int) {
    WfItem(kind, it) && Deep(it.value) + 1 <= room && FitsItem(it, s, i)
  }

  ghost predicate ItemsFound(items: Items, kind: Kind, s: seq<byte>, i: nat, room: int) {
    var e := i + LenItems(items);
    WfItems(kind, items) && DeepItems(items) + 1 <= room && FitsItems(items, s, i) && e < |s| && s[e] == Close(kind)
  }

  lemma ConsFound(it: Item, rest: Items, kind: Kind, s: seq<byte>, i: nat, room: int) returns (items: Items)
    requires ItemFound(it, kind, s, i, room)
    requires var j := i + LenItem(it); j < |s| && s[j] == COMMA && ItemsFound(rest, kind, s, j + 1, room)
    ensures ItemsFound(items, kind, s, i, room) && LenItems(items) == LenItem(it) + 1 + LenItems(rest)
    ensures Entries(items, i) == [ItemEntry(it, i)] + Entries(rest, i + LenItem(it) + 1)
  {
    items := More(it, rest);
  }
}
