/** Lists kept as text with a separator: the models and the keys of a channel. */
module DelimitedText {

  /** unicode.IsSpace */
  predicate IsSpace(c: char) {
    || '\t' <= c <= '\r' || c == ' ' || c == '\U{85}' || c == '\U{A0}' || c == '\U{1680}' || '\U{2000}' <= c <= '\U{200A}'
    || c == '\U{2028}' || c == '\U{2029}' || c == '\U{202F}' || c == '\U{205F}' || c == '\U{3000}'
  }

  /** strings.Split. */
  function Split(s: string, sep: char): (r: seq<string>)
    ensures r != [] && forall i | 0 <= i < |r| :: sep !in r[i]
  {
    if s == "" then [""]
    else
      var r := Split(s[1..], sep);
      if s[0] == sep then [""] + r else [[s[0]] + r[0]] + r[1..]
  }

  /** strings.Join. */
  function Join(parts: seq<string>, sep: char): string {
    if parts == [] then "" else if |parts| == 1 then parts[0] else parts[0] + [sep] + Join(parts[1..], sep)
  }

  /** strings.Trim of one character. */
  function Trim(s: string, sep: char): (r: string)
    ensures r == "" || (r[0] != sep && r[|r| - 1] != sep)
  {
    if s == "" then ""
    else if s[0] == sep then Trim(s[1..], sep)
    else if s[|s| - 1] == sep then Trim(s[..|s| - 1], sep)
    else s
  }

  /** How both lists are read. */
  function Parts(text: string, sep: char): seq<string> { if text == "" then [] else Split(Trim(text, sep), sep) }

  /** No part holds the separator, and neither end of the list is empty. */
  ghost predicate WellSeparated(parts: seq<string>, sep: char) {
    parts == [] || (Free(parts, sep) && parts[0] != "" && parts[|parts| - 1] != "")
  }

  ghost predicate Free(parts: seq<string>, sep: char) { forall i | 0 <= i < |parts| :: sep !in parts[i] }

  lemma {:induction false} SplitAlone(a: string, sep: char)
    requires sep !in a
    ensures Split(a, sep) == [a]
    decreases |a|
  {
    if a != "" {
      SplitAlone(a[1..], sep);
      assert [a[0]] + a[1..] == a;
    }
  }

  lemma {:induction false} SplitFirst(a: string, rest: string, sep: char)
    requires sep !in a
    ensures Split(a + [sep] + rest, sep) == [a] + Split(rest, sep)
    decreases |a|
  {
    var s := a + [sep] + rest;
    if a == "" {
      assert s[1..] == rest;
    } else {
      assert s[1..] == a[1..] + [sep] + rest;
      SplitFirst(a[1..], rest, sep);
      assert [a[0]] + a[1..] == a;
    }
  }

  lemma {:induction false} SplitJoin(parts: seq<string>, sep: char)
    requires parts != [] && Free(parts, sep)
    ensures Split(Join(parts, sep), sep) == parts
    decreases |parts|
  {
    if |parts| == 1 {
      SplitAlone(parts[0], sep);
    } else {
      SplitJoin(parts[1..], sep);
      SplitFirst(parts[0], Join(parts[1..], sep), sep);
    }
  }

  lemma {:induction false} JoinEnd(parts: seq<string>, sep: char)
    requires parts != [] && parts[|parts| - 1] != "" && sep !in parts[|parts| - 1]
    ensures Join(parts, sep) != "" && Join(parts, sep)[|Join(parts, sep)| - 1] != sep
    decreases |parts|
  {
    var last := parts[|parts| - 1];
    assert last[|last| - 1] in last;
    if |parts| > 1 { JoinEnd(parts[1..], sep); }
  }

  lemma {:induction false} SplitEnds(u: string, sep: char)
    requires u != "" && u[|u| - 1] != sep
    ensures Split(u, sep)[|Split(u, sep)| - 1] != ""
    decreases |u|
  {
    if |u| > 1 { SplitEnds(u[1..], sep); }
  }

  /** Writing a list and reading it back gives the list exactly when it is well separated. */
  lemma ListRoundTrip(parts: seq<string>, sep: char)
    ensures Parts(Join(parts, sep), sep) == parts <==> WellSeparated(parts, sep)
  {
    var t := Join(parts, sep);
    if parts != [] && WellSeparated(parts, sep) {
      JoinEnd(parts, sep);
      assert parts[0][0] in parts[0] && t[0] == parts[0][0];
      SplitJoin(parts, sep);
    }
    if parts != [] && Parts(t, sep) == parts {
      var u := Trim(t, sep);
      if u != "" { SplitEnds(u, sep); }
    }
  }

  // ----- what each of them does, whatever the text

  ghost predicate AllSpace(s: string) { forall i | 0 <= i < |s| :: IsSpace(s[i]) }

  /** The code points that count as white space, by number. */
  const SPACES: seq<int> :=
    [0x09, 0x0A, 0x0B, 0x0C, 0x0D, 0x20, 0x85, 0xA0, 0x1680, 0x2000, 0x2001, 0x2002, 0x2003, 0x2004, 0x2005, 0x2006,
     0x2007, 0x2008, 0x2009, 0x200A, 0x2028, 0x2029, 0x202F, 0x205F, 0x3000]

  lemma SpacesExactly(c: char)
    ensures IsSpace(c) <==> c as int in SPACES
  {
    var n := c as int;
    if 0x2000 <= n <= 0x200A { assert SPACES[9 + (n - 0x2000)] == n; }
    if 0x09 <= n <= 0x0D { assert SPACES[n - 0x09] == n; }
    assert SPACES[5] == 0x20 && SPACES[6] == 0x85 && SPACES[7] == 0xA0 && SPACES[8] == 0x1680;
    assert SPACES[20] == 0x2028 && SPACES[21] == 0x2029 && SPACES[22] == 0x202F && SPACES[23] == 0x205F && SPACES[24] == 0x3000;
  }

  /** Splitting and joining again gives any text back. */
  lemma {:induction false} SplitInverse(s: string, sep: char)
    ensures Join(Split(s, sep), sep) == s
    decreases |s|
  {
    if s != "" {
      var r := Split(s[1..], sep);
      SplitInverse(s[1..], sep);
      if s[0] == sep {
        assert ([""] + r)[1..] == r;
        assert s == "" + [sep] + s[1..];
      } else {
        JoinFirst(s[0], r, sep);
        assert s == [s[0]] + s[1..];
      }
    }
  }

  lemma JoinFirst(c: char, r: seq<string>, sep: char)
    requires r != []
    ensures Join([[c] + r[0]] + r[1..], sep) == [c] + Join(r, sep)
  {
    var q := [[c] + r[0]] + r[1..];
    assert q[1..] == r[1..];
    if |r| > 1 { assert [c] + r[0] + [sep] + Join(r[1..], sep) == [c] + (r[0] + [sep] + Join(r[1..], sep)); }
  }

  /** Trimming takes separators away, and nothing else. */
  lemma {:induction false} TrimTakesOnly(s: string, sep: char) returns (a: string, b: string)
    ensures s == a + Trim(s, sep) + b
    ensures (forall i | 0 <= i < |a| :: a[i] == sep) && (forall i | 0 <= i < |b| :: b[i] == sep)
    decreases |s|
  {
    hide Trim;
    TrimStep(s, sep);
    if s == "" || (s[0] != sep && s[|s| - 1] != sep) {
      a, b := "", "";
      NothingTaken(s, sep);
    } else if s[0] == sep {
      var a', b' := TrimTakesOnly(s[1..], sep);
      a, b := [sep] + a', b';
      FrontGrows(s, a', Trim(s[1..], sep), b');
    } else {
      var a', b' := TrimTakesOnly(s[..|s| - 1], sep);
      a, b := a', b' + [sep];
      BackGrows(s, a', Trim(s[..|s| - 1], sep), b');
    }
  }

  lemma NothingTaken(s: string, sep: char)
    requires Trim(s, sep) == s
    ensures s == "" + Trim(s, sep) + ""
  {
  }

  lemma TrimStep(s: string, sep: char)
    ensures Trim(s, sep) == if s == "" then "" else if s[0] == sep then Trim(s[1..], sep)
                            else if s[|s| - 1] == sep then Trim(s[..|s| - 1], sep) else s
  {
  }

  lemma FrontGrows(s: string, a: string, t: string, b: string)
    requires s != "" && s[1..] == a + t + b
    ensures s == [s[0]] + a + t + b
  {
    assert s == [s[0]] + s[1..];
  }

  lemma BackGrows(s: string, a: string, t: string, b: string)
    requires s != "" && s[..|s| - 1] == a + t + b
    ensures s == a + t + (b + [s[|s| - 1]])
  {
    assert s == s[..|s| - 1] + [s[|s| - 1]];
  }
}
