/** The stored row of a multi-key channel: a management action loads it, changes the lists
    and writes it back, the keys as one text. */
module KeyStore {
  import opened Options
  import opened DelimitedText
  import opened MultiKey

  const NEWLINE: char := '\n'

  datatype Row = Row(text: string, size: int, status: map<int, int>, time: map<int, int>, reason: map<int, string>)

  /** What decoding a text as a JSON array yields: its elements, or none. */
  type Parser = string -> Option<seq<string>>

  /** A text without its leading white space. */
  function Ink(s: string): string { if s != "" && IsSpace(s[0]) then Ink(s[1..]) else s }

  predicate Bracketed(text: string) { Ink(text) != "" && Ink(text)[0] == '[' }

  /** A text that looks like an array and decodes as one. */
  predicate IsArray(text: string, parse: Parser) { Bracketed(text) && parse(text).Some? }

  function GetKeys(text: string, parse: Parser): seq<string> {
    if IsArray(text, parse) then parse(text).value else Parts(text, NEWLINE)
  }

  /** The number of keys as Update counts them: an empty array is taken for a line. */
  function Recount(text: string, parse: Parser): nat {
    if IsArray(text, parse) && parse(text).value != [] then |parse(text).value| else |Parts(text, NEWLINE)|
  }

  predicate IsEmptyArray(text: string, parse: Parser) { IsArray(text, parse) && parse(text).value == [] }

  /** Update: an empty text leaves the stored one as it is, the size is counted again, and
      a status beyond it is dropped. */
  function Save(row: Row, text: string, b: Rebuilt, parse: Parser): Row {
    var kept := if text != "" then text else row.text;
    var n := Recount(kept, parse);
    Row(kept, n, map i | i in b.status && i < n :: b.status[i], b.time, b.reason)
  }

  ghost function RecordsOf(row: Row, parse: Parser): seq<Record> {
    Records(GetKeys(row.text, parse), row.status, row.time, row.reason)
  }

  /** The size is the number of keys, and every index is that of a key. */
  ghost predicate Indexed(row: Row, parse: Parser) {
    var n := |GetKeys(row.text, parse)|;
    row.size == n && InRange(row.status, n) && InRange(row.time, n) && InRange(row.reason, n)
  }

  // ----- the text

  /** Keys that are read back as they are written: as the elements of the array the text
      happens to be, or on lines, without line breaks in them or an empty one at either end. */
  ghost predicate Rereads(keys: seq<string>, parse: Parser) {
    var text := Join(keys, NEWLINE);
    if IsArray(text, parse) then parse(text).value == keys else WellSeparated(keys, NEWLINE)
  }

  lemma KeysRoundTrip(keys: seq<string>, parse: Parser)
    ensures GetKeys(Join(keys, NEWLINE), parse) == keys <==> Rereads(keys, parse)
  {
    hide IsArray;
    ListRoundTrip(keys, NEWLINE);
  }

  function TotalLength(keys: seq<string>): nat { if keys == [] then 0 else |keys[0]| + TotalLength(keys[1..]) }

  /** What decoding an array cannot do: the elements, the commas between them and the two
      brackets all have their place in the text. */
  ghost predicate Decodes(parse: Parser) {
    forall text | parse(text).Some? && parse(text).value != [] ::
      TotalLength(parse(text).value) + |parse(text).value| + 1 <= |text|
  }

  lemma {:induction false} JoinLength(keys: seq<string>)
    requires keys != []
    ensures |Join(keys, NEWLINE)| == TotalLength(keys) + |keys| - 1
    decreases |keys|
  {
    if |keys| > 1 { JoinLength(keys[1..]); }
  }

  /** So keys are read back exactly when they are well separated and their text is no array:
      one that is never has the keys themselves for elements. */
  lemma RereadsExact(keys: seq<string>, parse: Parser)
    requires Decodes(parse) && keys != []
    ensures Rereads(keys, parse) <==> WellSeparated(keys, NEWLINE) && !IsArray(Join(keys, NEWLINE), parse)
  {
    JoinLength(keys);
  }

  /** Saving counts the keys right exactly when the text stored is not an empty array. */
  lemma SaveCounts(row: Row, text: string, b: Rebuilt, parse: Parser)
    ensures var saved := Save(row, text, b, parse);
            saved.size == |GetKeys(saved.text, parse)| <==> !IsEmptyArray(saved.text, parse)
  {
    hide Bracketed;
    SomeParts(text);
    SomeParts(row.text);
  }

  lemma SomeParts(text: string)
    ensures Bracketed(text) ==> Parts(text, NEWLINE) != []
  {
  }

  /** An empty array has no keys and is counted as one. */
  lemma EmptyArrayCounted(parse: Parser)
    requires parse("[]") == Some([])
    ensures GetKeys("[]", parse) == [] && Recount("[]", parse) == 1
  {
    assert Bracketed("[]");
    assert "[]"[1..] == "]" && "]"[1..] == "";
    SplitAlone("[]", NEWLINE);
  }

  // ----- the actions on a row

  datatype Action = Disable(i: int) | Enable(i: int) | EnableAll | DisableAll | Delete(i: int) | DeleteDisabled

  function Enabled(rs: seq<Record>): (out: seq<Record>)
    ensures |out| == |rs|
  {
    seq(|rs|, i requires 0 <= i < |rs| => Record(rs[i].key, ENABLED, None, None))
  }

  function Disabled(rs: seq<Record>): (out: seq<Record>)
    ensures |out| == |rs|
  {
    seq(|rs|, i requires 0 <= i < |rs| => if rs[i].status == ENABLED then rs[i].(status := MANUALLY_DISABLED) else rs[i])
  }

  predicate Deletes(act: Action) { act.Delete? || act.DeleteDisabled? }

  /** What a deletion leaves of the keys. The last key is not deleted by its index. */
  function Survivors(rs: seq<Record>, act: Action): seq<Record> {
    match act
    case Delete(i) => if |rs| > 1 then Without(rs, i) else rs
    case DeleteDisabled => NotAutoDisabled(rs)
    case _ => rs
  }

  /** What each action is to do to the list of keys. When every key is automatically disabled,
      deleting those would leave an empty text, which is not stored: all come back enabled. */
  function Applied(rs: seq<Record>, act: Action): seq<Record> {
    match act
    case Disable(i) => if 0 <= i < |rs| then rs[i := rs[i].(status := MANUALLY_DISABLED)] else rs
    case Enable(i) => if 0 <= i < |rs| then rs[i := Record(rs[i].key, ENABLED, None, None)] else rs
    case EnableAll => Enabled(rs)
    case DisableAll => Disabled(rs)
    case _ =>
      var out := Survivors(rs, act);
      if |out| == |rs| then rs else if out == [] then Enabled(rs) else out
  }

  function KeysOf(rs: seq<Record>): (keys: seq<string>)
    ensures |keys| == |rs|
  {
    seq(|rs|, i requires 0 <= i < |rs| => rs[i].key)
  }

  /** A deletion that leaves some keys and drops some must leave keys that read back. */
  ghost predicate Fits(rs: seq<Record>, act: Action, parse: Parser) {
    Deletes(act) ==> var out := Survivors(rs, act); |out| == |rs| || out == [] || Rereads(KeysOf(out), parse)
  }

  /** A row written back with other lists: the keys joined into text, or the text as it was. */
  ghost predicate WrittenBack(row: Row, rs: seq<Record>, row': Row, parse: Parser) {
    exists b :: Holds(b, rs) && row' == Save(row, Join(b.keys, NEWLINE), b, parse)
  }

  lemma HeldKeys(b: Rebuilt, rs: seq<Record>)
    requires Holds(b, rs)
    ensures KeysOf(rs) == b.keys
  {
    assert forall i | 0 <= i < |rs| :: rs[i] == RecordAt(b.keys, b.status, b.time, b.reason, i);
  }

  lemma CountAgrees(row: Row, parse: Parser)
    requires GetKeys(row.text, parse) != [] || !IsEmptyArray(row.text, parse)
    ensures Recount(row.text, parse) == |GetKeys(row.text, parse)|
  {
    hide Bracketed;
    SomeParts(row.text);
  }

  /** Writing back lists of the same keys. */
  lemma SaveLists(row: Row, b: Rebuilt, parse: Parser, rs: seq<Record>)
    requires Indexed(row, parse) && Holds(b, rs) && b.keys == GetKeys(row.text, parse)
    ensures var row' := Save(row, row.text, b, parse);
            && RecordsOf(row', parse) == rs
            && (Indexed(row', parse) <==> !IsEmptyArray(row.text, parse))
  {
    SaveCounts(row, row.text, b, parse);
    hide GetKeys, IsArray;
    var row' := Save(row, row.text, b, parse);
    assert row'.text == row.text;
    if IsEmptyArray(row.text, parse) {
      EmptyKeys(row.text, parse);
      EmptyMaps(b);
    } else {
      CountAgrees(row, parse);
      assert row'.status == b.status;
    }
  }

  lemma EmptyKeys(text: string, parse: Parser)
    requires IsEmptyArray(text, parse)
    ensures GetKeys(text, parse) == []
  {
  }

  lemma SameRecords(keys: seq<string>, other: seq<string>, b: Rebuilt)
    ensures Records(keys, b.status, b.time, b.reason) == Records(other, b.status, b.time, b.reason) ==> keys == other
  {
    var rs, os := Records(keys, b.status, b.time, b.reason), Records(other, b.status, b.time, b.reason);
    if rs == os {
      forall i | 0 <= i < |keys| ensures keys[i] == other[i] { assert rs[i].key == keys[i] && os[i].key == other[i]; }
    }
  }

  /** Writing back fewer keys, at least one: the row is as it should be exactly when they read back. */
  lemma SaveKeys(row: Row, parse: Parser, rs: seq<Record>, row': Row)
    requires Indexed(row, parse) && WrittenBack(row, rs, row', parse) && 0 < |rs| < |GetKeys(row.text, parse)|
    ensures Indexed(row', parse) && RecordsOf(row', parse) == rs <==> Rereads(KeysOf(rs), parse)
  {
    hide GetKeys, Recount, Rereads, IsArray;
    var b :| Holds(b, rs) && row' == Save(row, Join(b.keys, NEWLINE), b, parse);
    HeldKeys(b, rs);
    KeysRoundTrip(b.keys, parse);
    var keys' := GetKeys(row'.text, parse);
    if Rereads(b.keys, parse) {
      NotNothing(b.keys, parse);
      assert row'.text == Join(b.keys, NEWLINE);
      CountAgrees(row', parse);
      assert row'.status == b.status;
    }
    if Indexed(row', parse) && RecordsOf(row', parse) == rs {
      assert |keys'| == |b.keys|;
      assert row'.status == b.status;
      SameRecords(keys', b.keys, b);
      assert row'.text != row.text;
    }
  }

  lemma NotNothing(keys: seq<string>, parse: Parser)
    requires GetKeys(Join(keys, NEWLINE), parse) == keys != []
    ensures Join(keys, NEWLINE) != ""
  {
  }

  /** Writing back no key at all: the stored text stays, and nothing is recorded about its keys. */
  lemma SaveNone(row: Row, parse: Parser, row': Row)
    requires Indexed(row, parse) && WrittenBack(row, [], row', parse) && GetKeys(row.text, parse) != []
    ensures Indexed(row', parse) && RecordsOf(row', parse) == Enabled(RecordsOf(row, parse))
  {
    hide GetKeys, Recount;
    var b :| Holds(b, []) && row' == Save(row, Join(b.keys, NEWLINE), b, parse);
    HeldKeys(b, []);
    EmptyMaps(b);
    CountAgrees(row, parse);
    assert RecordsOf(row', parse) == Enabled(RecordsOf(row, parse));
  }

  lemma EmptyMaps(b: Rebuilt)
    requires b.keys == [] && InRange(b.status, 0) && InRange(b.time, 0) && InRange(b.reason, 0)
    ensures b.status == map[] && b.time == map[] && b.reason == map[]
  {
    assert forall i :: i !in b.status && i !in b.time && i !in b.reason;
  }

  /** The actions that keep the keys. Only an empty array is counted wrong by them, and only
      the action that always saves. */
  method Mark(row: Row, act: Action, parse: Parser) returns (row': Row)
    requires Indexed(row, parse) && !Deletes(act)
    ensures row'.text == row.text && RecordsOf(row', parse) == Applied(RecordsOf(row, parse), act)
    ensures Indexed(row', parse) <==> !(act.EnableAll? && IsEmptyArray(row.text, parse))
  {
    var c := new ChannelKeys.Load(GetKeys(row.text, parse), row.size, row.status, row.time, row.reason);
    ghost var rs := RecordsOf(row, parse);
    if IsEmptyArray(row.text, parse) { EmptyKeys(row.text, parse); }
    hide GetKeys, IsArray, IsEmptyArray, Records;
    match act {
      case Disable(i) =>
        var ok := c.DisableKey(i);
        if !ok { return row; }
      case Enable(i) =>
        var ok := c.EnableKey(i);
        if !ok { return row; }
        assert c.View() == Applied(rs, act) by { KeyOf(row, parse, i); }
      case EnableAll =>
        var _ := c.EnableAllKeys();
        AllEnabled(row, parse);
      case DisableAll =>
        var count := c.DisableAllKeys();
        assert c.View() == Disabled(rs);
        if count == 0 { return row; }
    }
    SaveLists(row, Rebuilt(c.keys, c.status, c.time, c.reason), parse, c.View());
    row' := Save(row, row.text, Rebuilt(c.keys, c.status, c.time, c.reason), parse);
  }

  lemma KeyOf(row: Row, parse: Parser, i: int)
    requires 0 <= i < |GetKeys(row.text, parse)|
    ensures RecordsOf(row, parse)[i].key == GetKeys(row.text, parse)[i]
  {
  }

  lemma AllEnabled(row: Row, parse: Parser)
    ensures Records(GetKeys(row.text, parse), map[], map[], map[]) == Enabled(RecordsOf(row, parse))
  {
  }

  /** The actions that delete keys: nothing, or the survivors written back. The row is as it
      should be exactly when they fit. */
  method Shrink(row: Row, act: Action, parse: Parser) returns (row': Row)
    requires Indexed(row, parse) && Deletes(act)
    ensures var rs := RecordsOf(row, parse); var out := Survivors(rs, act);
            if |out| == |rs| then row' == row else WrittenBack(row, out, row', parse)
    ensures Indexed(row', parse) && RecordsOf(row', parse) == Applied(RecordsOf(row, parse), act) <==> Fits(RecordsOf(row, parse), act, parse)
    ensures Indexed(row', parse) && !IsEmptyArray(row.text, parse) ==> !IsEmptyArray(row'.text, parse)
  {
    var c := new ChannelKeys.Load(GetKeys(row.text, parse), row.size, row.status, row.time, row.reason);
    ghost var rs := RecordsOf(row, parse);
    SurvivorCount(rs, act);
    hide GetKeys, Save, Records, NotAutoDisabled, Rereads, IsArray;
    if act.Delete? {
      var ok := c.DeleteKey(act.i);
      if !ok { return row; }
    } else {
      var deleted := c.DeleteDisabledKeys();
      if deleted == 0 { return row; }
    }
    var b := Rebuilt(c.keys, c.status, c.time, c.reason);
    row' := Save(row, Join(c.keys, NEWLINE), b, parse);
    SaveCounts(row, Join(c.keys, NEWLINE), b, parse);
    ghost var out := Survivors(rs, act);
    assert Holds(b, out);
    assert WrittenBack(row, out, row', parse);
    if out == [] { SaveNone(row, parse, row'); } else { SaveKeys(row, parse, out, row'); }
  }

  lemma SurvivorCount(rs: seq<Record>, act: Action)
    ensures |Survivors(rs, act)| <= |rs|
  {
    NoneDropped(rs);
  }

  /** One management action on the stored row: the size is the number of keys, every index is
      that of a key, and the lists are as the action says, exactly if the survivors of a
      deletion read back and the text is not an empty array being saved. */
  method Manage(row: Row, act: Action, parse: Parser) returns (row': Row)
    requires Indexed(row, parse)
    ensures Indexed(row', parse) && RecordsOf(row', parse) == Applied(RecordsOf(row, parse), act) <==>
            Fits(RecordsOf(row, parse), act, parse) && !(act.EnableAll? && IsEmptyArray(row.text, parse))
    ensures !Deletes(act) ==> row'.text == row.text && RecordsOf(row', parse) == Applied(RecordsOf(row, parse), act)
    ensures var rs := RecordsOf(row, parse); var out := Survivors(rs, act);
            Deletes(act) ==> if |out| == |rs| then row' == row else WrittenBack(row, out, row', parse)
    ensures Indexed(row', parse) && !IsEmptyArray(row.text, parse) ==> !IsEmptyArray(row'.text, parse)
  {
    hide Indexed, RecordsOf, Applied, IsEmptyArray;
    if Deletes(act) {
      row' := Shrink(row, act, parse);
    } else {
      row' := Mark(row, act, parse);
    }
  }

  function AppliedAll(rs: seq<Record>, acts: seq<Action>): seq<Record> {
    if acts == [] then rs else Applied(AppliedAll(rs, acts[..|acts| - 1]), acts[|acts| - 1])
  }

  /** Any run of actions whose deletions leave keys that read back: the size stays the number
      of keys, all indices stay in range, and the stored lists are those of the actions one
      after the other. */
  method ManageAll(row: Row, acts: seq<Action>, parse: Parser) returns (row': Row)
    requires Indexed(row, parse) && !IsEmptyArray(row.text, parse)
    requires forall i | 0 <= i < |acts| :: Fits(AppliedAll(RecordsOf(row, parse), acts[..i]), acts[i], parse)
    ensures Indexed(row', parse) && RecordsOf(row', parse) == AppliedAll(RecordsOf(row, parse), acts)
  {
    hide Indexed, RecordsOf, Applied, Fits, IsEmptyArray;
    row' := row;
    for i := 0 to |acts|
      invariant Indexed(row', parse) && RecordsOf(row', parse) == AppliedAll(RecordsOf(row, parse), acts[..i])
      invariant !IsEmptyArray(row'.text, parse)
    {
      assert acts[..i + 1][..i] == acts[..i];
      row' := Manage(row', acts[i], parse);
    }
    assert acts[..|acts|] == acts;
  }

  lemma {:induction false} NoneDropped(rs: seq<Record>)
    ensures |NotAutoDisabled(rs)| <= |rs| && (|NotAutoDisabled(rs)| == |rs| ==> Outline(NotAutoDisabled(rs)) == Outline(rs))
    ensures NotAutoDisabled(rs) == [] <==> forall i | 0 <= i < |rs| :: rs[i].status == AUTO_DISABLED
    decreases |rs|
  {
    if rs != [] {
      var n := |rs| - 1;
      NoneDropped(rs[..n]);
      assert Outline(rs) == Outline(rs[..n]) + [(rs[n].key, rs[n].status)];
      assert forall i | 0 <= i < n :: rs[..n][i] == rs[i];
    }
  }

  /** Deleting the automatically disabled keys leaves exactly the others, with their status,
      exactly when there are others. */
  lemma DeleteDisabledExact(rs: seq<Record>)
    ensures Outline(Applied(rs, DeleteDisabled)) == KeptOutline(rs) <==>
            rs == [] || exists i | 0 <= i < |rs| :: rs[i].status != AUTO_DISABLED
  {
    hide NotAutoDisabled, KeptOutline;
    SurvivorsKept(rs);
    NoneDropped(rs);
    if rs != [] && NotAutoDisabled(rs) == [] {
      assert |Outline(Enabled(rs))| == |rs| && |Outline(NotAutoDisabled(rs))| == 0;
    }
  }

  /** Where there are none, every deleted key comes back, enabled. */
  lemma AllComeBack()
    ensures Applied([Record("k", AUTO_DISABLED, Some(5), Some("quota"))], DeleteDisabled) == [Record("k", ENABLED, None, None)]
  {
    var rs := [Record("k", AUTO_DISABLED, Some(5), Some("quota"))];
    NoneDropped(rs);
  }

  // ----- what goes wrong where keys do not read back

  const BLANK: Row := Row("a\n\nb", 3, map[1 := MANUALLY_DISABLED], map[1 := 7], map[])

  lemma BlankJoined()
    ensures Join(["a", "", "b"], NEWLINE) == BLANK.text
  {
    var keys := ["a", "", "b"];
    assert keys[1..] == ["", "b"] && keys[1..][1..] == ["b"];
    assert Join(["b"], NEWLINE) == "b" && Join(["", "b"], NEWLINE) == "\nb";
  }

  lemma BlankKeys(parse: Parser)
    ensures GetKeys(BLANK.text, parse) == ["a", "", "b"] && Indexed(BLANK, parse)
  {
    BlankOpen();
    BlankJoined();
    hide Join, Parts, Bracketed;
    BlankSeparated();
    ListRoundTrip(["a", "", "b"], NEWLINE);
  }

  lemma BlankOpen()
    ensures !Bracketed(BLANK.text)
  {
  }

  lemma BlankSeparated()
    ensures WellSeparated(["a", "", "b"], NEWLINE)
  {
  }

  /** The last of three keys is deleted and a blank one is left at the end: one key is read
      back, the size is one, and the time recorded for the second key is out of range. */
  lemma BlankLineLost(row': Row, parse: Parser)
    requires WrittenBack(BLANK, Survivors(RecordsOf(BLANK, parse), Delete(2)), row', parse)
    ensures GetKeys(row'.text, parse) == ["a"] && row'.size == 1 && 1 in row'.time && 1 !in row'.status && !Indexed(row', parse)
  {
    hide Join, GetKeys, Recount;
    BlankKeys(parse);
    var rs := RecordsOf(BLANK, parse);
    var out := Survivors(rs, Delete(2));
    assert rs[1].time == Some(7) && rs[0].key == "a" && rs[1].key == "";
    assert |out| == 2 && out[0] == rs[0] && out[1] == rs[1];
    var b :| Holds(b, out) && row' == Save(BLANK, Join(b.keys, NEWLINE), b, parse);
    HeldKeys(b, out);
    assert b.keys == ["a", ""];
    assert RecordAt(b.keys, b.status, b.time, b.reason, 1) == out[1];
    LoneLine(parse);
  }

  lemma LoneLine(parse: Parser)
    ensures Join(["a", ""], NEWLINE) == "a\n" && GetKeys("a\n", parse) == ["a"] && Recount("a\n", parse) == 1
  {
    assert ["a", ""][1..] == [""];
    assert "a\n"[..1] == "a";
    assert Trim("a\n", NEWLINE) == "a";
    SplitAlone("a", NEWLINE);
  }

  /** A key with a line break, as an array of indented objects can hold, does not read back. */
  lemma BrokenKey(parse: Parser)
    ensures GetKeys(Join(["{\n}", "k"], NEWLINE), parse) != ["{\n}", "k"]
  {
    var keys := ["{\n}", "k"];
    assert Join(keys[1..], NEWLINE) == "k";
    assert Join(keys, NEWLINE)[0] == '{';
    KeysRoundTrip(keys, parse);
    assert keys[0][1] == NEWLINE;
  }

  // ----- texts that look like arrays

  /** A text looks like an array exactly if a square bracket is the first thing in it but
      white space. */
  lemma {:induction false} BracketedExactly(text: string)
    ensures Bracketed(text) <==> exists w, rest :: AllSpace(w) && text == w + ("[" + rest)
    decreases |text|
  {
    if Bracketed(text) {
      var w, rest := BracketFound(text);
    }
    forall w, rest | AllSpace(w) && text == w + ("[" + rest) ensures Bracketed(text) {
      BracketSeen(w, rest);
    }
  }

  lemma {:induction false} BracketFound(text: string) returns (w: string, rest: string)
    requires Bracketed(text)
    ensures AllSpace(w) && text == w + ("[" + rest)
    decreases |text|
  {
    if IsSpace(text[0]) {
      var w', rest' := BracketFound(text[1..]);
      w, rest := [text[0]] + w', rest';
      assert text == [text[0]] + text[1..];
    } else {
      w, rest := "", text[1..];
      assert text == [text[0]] + text[1..];
    }
  }

  lemma {:induction false} BracketSeen(w: string, rest: string)
    requires AllSpace(w)
    ensures Bracketed(w + ("[" + rest))
    decreases |w|
  {
    var text := w + ("[" + rest);
    if w != "" {
      assert text[1..] == w[1..] + ("[" + rest);
      BracketSeen(w[1..], rest);
    } else {
      assert text == "[" + rest;
    }
  }
}
