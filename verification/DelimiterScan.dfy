/** common/json.go: finding the end of a value with a stack of open delimiters instead
    of a grammar. On JSON the two algorithms end every value at the same byte. */
module DelimiterScan {
  import opened Options
  import opened Bytes
  import opened JsonGrammar
  import opened JsonParse
  import opened JsonSound
  import opened JsonComplete

  // ----- what the loops compute

  function StringEndFrom(s: seq<byte>, i: nat): (r: Option<nat>)
    ensures r.Some? ==> i < r.value <= |s|
    decreases |s| - i
  {
    if i >= |s| then None
    else if s[i] == QUOTE then Some(i + 1)
    else if s[i] != BACKSLASH then StringEndFrom(s, i + 1)
    else if i + 1 >= |s| then None
    else StringEndFrom(s, i + 2)
  }

  function StringEnd(s: seq<byte>, i: nat): (r: Option<nat>)
    ensures r.Some? ==> i + 1 < r.value <= |s|
  {
    if i >= |s| || s[i] != QUOTE then None else StringEndFrom(s, i + 1)
  }

  predicate IsOpen(b: byte) { b == LBRACE || b == LBRACKET }
  predicate IsClose(b: byte) { b == RBRACE || b == RBRACKET }
  predicate Pairs(open: byte, close: byte) { !(open == LBRACE && close != RBRACE) && !(open == LBRACKET && close != RBRACKET) }

  function StackScan(s: seq<byte>, i: nat, stack: seq<byte>): (r: Option<nat>)
    requires stack != []
    ensures r.Some? ==> i < r.value <= |s|
    decreases |s| - i
  {
    if i >= |s| then None
    else if s[i] == QUOTE then
      match StringEnd(s, i)
      case None => None
      case Some(e) => StackScan(s, e, stack)
    else if IsOpen(s[i]) then StackScan(s, i + 1, stack + [s[i]])
    else if IsClose(s[i]) then
      if !Pairs(stack[|stack| - 1], s[i]) then None
      else if |stack| == 1 then Some(i + 1)
      else StackScan(s, i + 1, stack[..|stack| - 1])
    else StackScan(s, i + 1, stack)
  }

  function SkipScalar(s: seq<byte>, i: nat): (r: nat)
    ensures i <= r && (r <= |s| || r == i)
    ensures forall k | i <= k < r :: k < |s| && !IsDelimiter(s[k])
    ensures r < |s| ==> IsDelimiter(s[r])
    decreases |s| - i
  {
    if i < |s| && !IsDelimiter(s[i]) then SkipScalar(s, i + 1) else i
  }

  function ValueEnd(s: seq<byte>, i: nat): (r: Option<nat>) {
    if i >= |s| then None
    else if s[i] == QUOTE then StringEnd(s, i)
    else if IsOpen(s[i]) then StackScan(s, i + 1, [s[i]])
    else
      var e := SkipScalar(s, i);
      if e == i then None else Some(e)
  }

  // ----- the loops

  method SkipJSONWhitespace(s: seq<byte>, i: nat) returns (r: nat)
    ensures r == SkipWs(s, i)
  {
    r := i;
    while r < |s|
      invariant SkipWs(s, r) == SkipWs(s, i)
      decreases |s| - r
    {
      if !IsWs(s[r]) { return; }
      r := r + 1;
    }
  }

  method ScanJSONStringEnd(s: seq<byte>, start: nat) returns (r: Option<nat>)
    ensures r == StringEnd(s, start)
  {
    if start >= |s| || s[start] != QUOTE { return None; }
    var i := start + 1;
    while i < |s|
      invariant StringEndFrom(s, i) == StringEnd(s, start)
      decreases |s| - i
    {
      if s[i] == BACKSLASH {
        i := i + 1;
        if i >= |s| { return None; }
      } else if s[i] == QUOTE {
        return Some(i + 1);
      }
      i := i + 1;
    }
    return None;
  }

  method ScanJSONValueEnd(s: seq<byte>, start: nat) returns (r: Option<nat>)
    ensures r == ValueEnd(s, start)
  {
    if start >= |s| { return None; }
    if s[start] == QUOTE {
      r := ScanJSONStringEnd(s, start);
    } else if IsOpen(s[start]) {
      r := ScanContainerEnd(s, start);
    } else {
      var i := start;
      while i < |s| && !IsDelimiter(s[i])
        invariant start <= i && SkipScalar(s, i) == SkipScalar(s, start)
        decreases |s| - i
      {
        i := i + 1;
      }
      return if i == start then None else Some(i);
    }
  }

  method ScanContainerEnd(s: seq<byte>, start: nat) returns (r: Option<nat>)
    requires start < |s| && IsOpen(s[start])
    ensures r == StackScan(s, start + 1, [s[start]])
  {
    var stack := [s[start]];
    var i := start + 1;
    while i < |s|
      invariant stack != [] && StackScan(s, i, stack) == StackScan(s, start + 1, [s[start]])
      decreases |s| - i
    {
      if s[i] == QUOTE {
        var end := ScanJSONStringEnd(s, i);
        if end.None? { return None; }
        i := end.value - 1;
      } else if IsOpen(s[i]) {
        stack := stack + [s[i]];
      } else if IsClose(s[i]) {
        var open := stack[|stack| - 1];
        if !Pairs(open, s[i]) { return None; }
        stack := stack[..|stack| - 1];
        if |stack| == 0 { return Some(i + 1); }
      }
      i := i + 1;
    }
    return None;
  }

  // ----- agreement with the grammar

  lemma {:induction false} StringEndAgrees(s: seq<byte>, i: nat, body: seq<byte>)
    requires IsStringBody(body) && At(s, i, body) && i + |body| < |s| && s[i + |body|] == QUOTE
    ensures StringEndFrom(s, i) == Some(i + |body| + 1)
    decreases |body|
  {
    if body != [] {
      assert s[i] == body[0];
      var step := if body[0] != BACKSLASH then 1 else if |body| >= 2 && IsShortEscape(body[1]) && IsStringBody(body[2..]) then 2 else 6;
      AtTail(s, i, body, step);
      StringEndAgrees(s, i + step, body[step..]);
      if step == 6 {
        assert s[i + 2] == body[2] && s[i + 3] == body[3] && s[i + 4] == body[4] && s[i + 5] == body[5];
        assert StringEndFrom(s, i + 2) == StringEndFrom(s, i + 3) == StringEndFrom(s, i + 4);
        assert StringEndFrom(s, i + 4) == StringEndFrom(s, i + 5) == StringEndFrom(s, i + 6);
      }
    }
  }

  lemma QuotedEnd(s: seq<byte>, i: nat, body: seq<byte>)
    requires IsStringBody(body) && FitsQuoted(body, s, i)
    ensures StringEnd(s, i) == Some(i + |body| + 2)
  {
    StringEndAgrees(s, i + 1, body);
  }

  predicate IsPlain(b: byte) { b != QUOTE && !IsOpen(b) && !IsClose(b) }

  /** A run of plain bytes leaves the stack as it is. */
  lemma {:induction false} PlainRun(s: seq<byte>, i: nat, t: seq<byte>, stack: seq<byte>)
    requires stack != [] && At(s, i, t) && forall k | 0 <= k < |t| :: IsPlain(t[k])
    ensures StackScan(s, i, stack) == StackScan(s, i + |t|, stack)
    decreases |t|
  {
    if t != [] {
      assert s[i] == t[0];
      AtTail(s, i, t, 1);
      PlainRun(s, i + 1, t[1..], stack);
    }
  }

  lemma WsNeutral(s: seq<byte>, i: nat, w: seq<byte>, stack: seq<byte>)
    requires stack != [] && At(s, i, w) && AllWs(w)
    ensures StackScan(s, i, stack) == StackScan(s, i + |w|, stack)
  {
    assert forall k | 0 <= k < |w| :: IsWs(w[k]) ==> IsPlain(w[k]);
    PlainRun(s, i, w, stack);
  }

  /** Bytes that occur in numbers: no delimiter of any kind. */
  predicate IsNumberByte(b: byte) {
    IsDigit(b) || b == DOT || b == SMALL_E || b == BIG_E || b == PLUS || b == MINUS
  }

  ghost predicate NumberBytesOnly(t: seq<byte>) { forall k | 0 <= k < |t| :: IsNumberByte(t[k]) }

  lemma NumberBytesConcat(a: seq<byte>, b: seq<byte>)
    requires NumberBytesOnly(a) && NumberBytesOnly(b)
    ensures NumberBytesOnly(a + b)
  {
    hide IsNumberByte;
  }

  lemma NumberBytes(n: Number)
    requires WfNumber(n)
    ensures forall k | 0 <= k < |NumberText(n)| :: IsPlain(NumberText(n)[k]) && !IsDelimiter(NumberText(n)[k])
    ensures |NumberText(n)| > 0 && IsDigit(NumberText(n)[|NumberText(n)| - 1])
  {
    hide IsIntText, IsFracText, IsExpText;
    var sign := if n.neg then [MINUS] else [];
    WholeBytes(n.whole);
    FracBytes(n.frac);
    ExpBytes(n.exp);
    NumberBytesConcat(sign, n.whole);
    NumberBytesConcat(sign + n.whole, n.frac);
    NumberBytesConcat(sign + n.whole + n.frac, n.exp);
    assert NumberBytesOnly(NumberText(n));
  }

  lemma WholeBytes(t: seq<byte>)
    requires IsIntText(t)
    ensures t != [] && forall k | 0 <= k < |t| :: IsDigit(t[k])
  {
  }

  lemma FracBytes(t: seq<byte>)
    requires IsFracText(t)
    ensures forall k | 0 <= k < |t| :: IsDigit(t[k]) || t[k] == DOT
    ensures t != [] ==> IsDigit(t[|t| - 1])
  {
    if t != [] { assert forall k | 1 <= k < |t| :: t[k] == t[1..][k - 1]; }
  }

  lemma ExpBytes(t: seq<byte>)
    requires IsExpText(t)
    ensures forall k | 0 <= k < |t| :: IsDigit(t[k]) || t[k] == SMALL_E || t[k] == BIG_E || t[k] == PLUS || t[k] == MINUS
    ensures t != [] ==> IsDigit(t[|t| - 1])
  {
    if t != [] {
      assert forall k | 1 <= k < |t| :: t[k] == t[1..][k - 1];
      assert forall k | 2 <= k < |t| :: t[k] == t[2..][k - 2];
    }
  }

  /** The text of a whole value leaves the stack as it was. */
  lemma {:induction false} ValueNeutral(v: Json, s: seq<byte>, i: nat, stack: seq<byte>)
    requires stack != [] && Wf(v) && Fits(v, s, i)
    ensures StackScan(s, i, stack) == StackScan(s, i + Len(v), stack)
    decreases v, 3
  {
    hide At, AllWs, IsStringBody, FitsQuoted, WfNumber, NumberText, WfItems, FitsItems, LenItems;
    match v
    case Str(body) => StringNeutral(s, i, body, stack);
    case Num(n) =>
      NumberBytes(n);
      PlainRun(s, i, NumberText(n), stack);
    case Word(w) => PlainRun(s, i, w, stack);
    case Empty(kind, gap) =>
      EnterBracket(kind, s, i, stack);
      WsNeutral(s, i + 1, gap, stack + [Open(kind)]);
      LeaveBracket(kind, s, i + 1 + |gap|, stack);
    case Full(kind, items) =>
      EnterBracket(kind, s, i, stack);
      ItemsNeutral(kind, items, s, i + 1, stack + [Open(kind)]);
      LeaveBracket(kind, s, i + 1 + LenItems(items), stack);
  }

  lemma StringNeutral(s: seq<byte>, i: nat, body: seq<byte>, stack: seq<byte>)
    requires stack != [] && IsStringBody(body) && FitsQuoted(body, s, i)
    ensures StackScan(s, i, stack) == StackScan(s, i + |body| + 2, stack)
  {
    QuotedEnd(s, i, body);
    hide StringEnd, At;
  }

  lemma EnterBracket(kind: Kind, s: seq<byte>, i: nat, stack: seq<byte>)
    requires stack != [] && i < |s| && s[i] == Open(kind)
    ensures StackScan(s, i, stack) == StackScan(s, i + 1, stack + [Open(kind)])
  {
  }

  lemma LeaveBracket(kind: Kind, s: seq<byte>, i: nat, stack: seq<byte>)
    requires stack != [] && i < |s| && s[i] == Close(kind)
    ensures StackScan(s, i, stack + [Open(kind)]) == StackScan(s, i + 1, stack)
  {
    assert (stack + [Open(kind)])[..|stack|] == stack;
  }

  lemma LabelNeutral(kind: Kind, l: Label, s: seq<byte>, i: nat, stack: seq<byte>)
    requires stack != [] && WfLabel(kind, l) && FitsLabel(l, s, i)
    ensures StackScan(s, i, stack) == StackScan(s, i + LenLabel(l), stack)
  {
    hide At, AllWs, IsStringBody, FitsQuoted;
    if l.Label? {
      var e := i + |l.key| + 2;
      var c := e + |l.before|;
      StringNeutral(s, i, l.key, stack);
      WsNeutral(s, e, l.before, stack);
      PlainByte(s, c, stack);
      WsNeutral(s, c + 1, l.after, stack);
    }
  }

  lemma PlainByte(s: seq<byte>, i: nat, stack: seq<byte>)
    requires stack != [] && i < |s| && IsPlain(s[i])
    ensures StackScan(s, i, stack) == StackScan(s, i + 1, stack)
  {
  }

  lemma {:induction false} ItemNeutral(kind: Kind, it: Item, s: seq<byte>, i: nat, stack: seq<byte>)
    requires stack != [] && WfItem(kind, it) && FitsItem(it, s, i)
    ensures StackScan(s, i, stack) == StackScan(s, i + LenItem(it), stack)
    decreases it, 4
  {
    hide At, AllWs, Wf, Fits, Len, LenLabel, WfLabel, FitsLabel, StackScan;
    var k := i + |it.lead|;
    var v := k + LenLabel(it.name);
    WsNeutral(s, i, it.lead, stack);
    LabelNeutral(kind, it.name, s, k, stack);
    ValueNeutral(it.value, s, v, stack);
    WsNeutral(s, v + Len(it.value), it.trail, stack);
  }

  lemma {:induction false} ItemsNeutral(kind: Kind, items: Items, s: seq<byte>, i: nat, stack: seq<byte>)
    requires stack != [] && WfItems(kind, items) && FitsItems(items, s, i)
    ensures StackScan(s, i, stack) == StackScan(s, i + LenItems(items), stack)
    decreases items, 5
  {
    hide WfItem, FitsItem, LenItem, StackScan;
    ItemNeutral(kind, items.item, s, i, stack);
    if items.More? {
      var j := i + LenItem(items.item);
      PlainByte(s, j, stack);
      ItemsNeutral(kind, items.rest, s, j + 1, stack);
    }
  }

  lemma ContainerEnd(kind: Kind, v: Json, s: seq<byte>, i: nat)
    requires IsColl(v, kind) && Wf(v) && Fits(v, s, i)
    ensures StackScan(s, i + 1, [Open(kind)]) == Some(i + Len(v))
  {
    hide At, AllWs, WfItems, FitsItems, LenItems;
    if v.Empty? {
      WsNeutral(s, i + 1, v.gap, [Open(kind)]);
      LastBracket(kind, s, i + 1 + |v.gap|);
    } else {
      ItemsNeutral(kind, v.items, s, i + 1, [Open(kind)]);
      LastBracket(kind, s, i + 1 + LenItems(v.items));
    }
  }

  lemma LastBracket(kind: Kind, s: seq<byte>, i: nat)
    requires i < |s| && s[i] == Close(kind)
    ensures StackScan(s, i, [Open(kind)]) == Some(i + 1)
  {
  }

  lemma ScalarEnd(s: seq<byte>, i: nat, t: seq<byte>)
    requires t != [] && At(s, i, t) && Ends(s, i + |t|) && forall k | 0 <= k < |t| :: !IsDelimiter(t[k])
    ensures SkipScalar(s, i) == i + |t|
  {
    assert forall k | i <= k < i + |t| :: t[k - i] == s[k];
  }

  /** The delimiter-stack scan ends every JSON value where the recursive parser does. */
  lemma ValueEndAgrees(v: Json, s: seq<byte>, i: nat)
    requires Wf(v) && Fits(v, s, i) && Ends(s, i + Len(v))
    ensures ValueEnd(s, i) == Some(i + Len(v))
  {
    hide At, AllWs, IsStringBody, FitsQuoted, WfNumber, NumberText, WfItems, FitsItems, LenItems, StackScan, StringEnd, Ends;
    FitsFirst(v, s, i);
    match v
    case Str(body) => QuotedEnd(s, i, body);
    case Num(n) =>
      NumberBytes(n);
      ScalarEnd(s, i, NumberText(n));
    case Word(w) => ScalarEnd(s, i, w);
    case Empty(kind, _) => ContainerEnd(kind, v, s, i);
    case Full(kind, _) => ContainerEnd(kind, v, s, i);
  }

  // ----- where a scan ends, on any input

  /** A container ends at the bracket that closes its first one. */
  lemma {:induction false} StackEnds(s: seq<byte>, i: nat, stack: seq<byte>)
    requires stack != [] && StackScan(s, i, stack).Some?
    ensures var e := StackScan(s, i, stack).value; IsClose(s[e - 1]) && Pairs(stack[0], s[e - 1])
    decreases |s| - i
  {
    hide IsOpen, IsClose, Pairs;
    if s[i] == QUOTE {
      StackEnds(s, StringEnd(s, i).value, stack);
    } else if IsOpen(s[i]) {
      StackEnds(s, i + 1, stack + [s[i]]);
    } else if IsClose(s[i]) {
      if |stack| > 1 { StackEnds(s, i + 1, stack[..|stack| - 1]); }
    } else {
      StackEnds(s, i + 1, stack);
    }
  }

  lemma {:induction false} StringEnds(s: seq<byte>, i: nat)
    requires StringEndFrom(s, i).Some?
    ensures s[StringEndFrom(s, i).value - 1] == QUOTE
    decreases |s| - i
  {
    if s[i] != QUOTE { StringEnds(s, if s[i] == BACKSLASH then i + 2 else i + 1); }
  }

  /** A value found ends with the bracket of its kind, with a quotation mark, or before a
      delimiter or the end of the input, with none inside. */
  lemma ValueEndMeaning(s: seq<byte>, i: nat)
    requires ValueEnd(s, i).Some?
    ensures var e := ValueEnd(s, i).value;
            && i < e <= |s|
            && (s[i] == LBRACE ==> s[e - 1] == RBRACE) && (s[i] == LBRACKET ==> s[e - 1] == RBRACKET)
            && (s[i] == QUOTE ==> s[e - 1] == QUOTE)
            && (s[i] != QUOTE && s[i] != LBRACE && s[i] != LBRACKET ==>
                  (forall k | i <= k < e :: !IsDelimiter(s[k])) && (e < |s| ==> IsDelimiter(s[e])))
  {
    hide StackScan, StringEndFrom;
    if s[i] == QUOTE {
      StringEnds(s, i + 1);
    } else if IsOpen(s[i]) {
      StackEnds(s, i + 1, [s[i]]);
    }
  }
}
