/** The price-difference report: local prices against those of several upstream channels. */
module RatioSync {

  // ----- values

  /** A price, ratio, mode or expression as the sources deliver it. Literal is a json.Number,
      with the value its text parses to. */
  datatype Value =
    | Null | Float(r: real) | Single(r: real) | Whole(n: int, wide: bool)
    | Literal(text: string, parsed: ParsedNumber) | Text(s: string) | Flag(b: bool)

  datatype ParsedNumber = Parsed(r: real) | NotANumber

  const SAME: Value := Text("same")

  const EPSILON: real := 0.000000001

  function NearlyEqual(a: real, b: real): (r: bool)
    ensures r <==> -EPSILON < a - b < EPSILON
  {
    if a > b then a - b < EPSILON else b - a < EPSILON
  }

  predicate ValuesEqual(a: Value, b: Value) {
    if a.Float? && b.Float? then NearlyEqual(a.r, b.r) else a == b
  }

  const FIELDS: seq<string> :=
    ["model_ratio", "completion_ratio", "cache_ratio", "create_cache_ratio", "image_ratio",
     "audio_ratio", "audio_completion_ratio", "model_price", "billing_mode", "billing_expr"]

  predicate Numeric(field: string) { field in FIELDS[..8] }

  function AsFloat64(v: Value): ParsedNumber {
    match v
    case Float(r) => Parsed(r)
    case Single(r) => Parsed(r)
    case Whole(n, _) => Parsed(n as real)
    case Literal(_, parsed) => parsed
    case _ => NotANumber
  }

  function NormalizeSyncValue(field: string, v: Value): Value {
    if Numeric(field) && AsFloat64(v).Parsed? then Float(AsFloat64(v).r) else v
  }

  // ----- the report as a specification

  /** Per field, the value of each model. */
  type Prices = map<string, map<string, Value>>

  datatype Channel = Channel(name: string, data: Prices)

  datatype Item = Item(current: Value, upstreams: map<string, Value>, confidence: map<string, bool>)

  type Report = map<string, map<string, Item>>

  predicate Has(d: Report, m: string, f: string) { m in d && f in d[m] }

  function ValueMap(data: Prices, f: string): map<string, Value> { if f in data then data[f] else map[] }

  predicate Supplies(data: Prices, m: string, f: string) { m in ValueMap(data, f) }

  /** The normalised value, or none. */
  function Normal(data: Prices, m: string, f: string): Value {
    if Supplies(data, m, f) then NormalizeSyncValue(f, ValueMap(data, f)[m]) else Null
  }

  predicate Known(data: Prices, m: string) { exists f :: f in FIELDS && Supplies(data, m, f) }

  /** What the report shows for one channel: its value, or that it is the same as the local one. */
  function Shown(lv: Value, data: Prices, m: string, f: string): Value {
    if Supplies(data, m, f) then
      if ValuesEqual(lv, Normal(data, m, f)) then SAME else Normal(data, m, f)
    else if lv == Null then SAME else Null
  }

  function Column(lv: Value, channels: seq<Channel>, m: string, f: string): map<string, Value> {
    if channels == [] then map[]
    else
      var ch := channels[|channels| - 1];
      Column(lv, channels[..|channels| - 1], m, f)[ch.name := Shown(lv, ch.data, m, f)]
  }

  /** A model ratio of 37.5 with a completion ratio of 1 is a placeholder. */
  predicate Trusted(data: Prices, m: string) {
    !(&& Supplies(data, m, "model_ratio") && Supplies(data, m, "completion_ratio")
      && (var x, y := AsFloat64(ValueMap(data, "model_ratio")[m]), AsFloat64(ValueMap(data, "completion_ratio")[m]);
          x.Parsed? && y.Parsed? && NearlyEqual(x.r, 37.5) && NearlyEqual(y.r, 1.0)))
  }

  function Trust(channels: seq<Channel>, m: string): map<string, bool> {
    if channels == [] then map[]
    else
      var ch := channels[|channels| - 1];
      Trust(channels[..|channels| - 1], m)[ch.name := Trusted(ch.data, m)]
  }

  /** A first-pass entry: a channel differs from the local value, or supplies one where there is none. */
  ghost predicate Included(local: Prices, channels: seq<Channel>, m: string, f: string) {
    var lv := Normal(local, m, f);
    exists k | 0 <= k < |channels| :: Supplies(channels[k].data, m, f) && (lv == Null || !ValuesEqual(lv, Normal(channels[k].data, m, f)))
  }

  ghost predicate Entry(local: Prices, channels: seq<Channel>, m: string, f: string) {
    f in FIELDS && Included(local, channels, m, f)
  }

  ghost function ItemOf(local: Prices, channels: seq<Channel>, m: string, f: string): Item {
    var lv := Normal(local, m, f);
    Item(lv, Column(lv, channels, m, f), Trust(channels, m))
  }

  predicate Real(item: Item, name: string) {
    name in item.upstreams && item.upstreams[name] != Null && item.upstreams[name] != SAME
  }

  /** The first-pass report. */
  ghost predicate Drafted(d: Report, local: Prices, channels: seq<Channel>) {
    && (forall m, f :: Has(d, m, f) <==> Entry(local, channels, m, f))
    && (forall m, f :: Has(d, m, f) ==> d[m][f] == ItemOf(local, channels, m, f))
  }

  ghost predicate NoEmptyRows(d: Report) { forall m | m in d :: d[m] != map[] }

  ghost predicate HasDiff(d: Report, name: string) { exists m, f :: Has(d, m, f) && Real(d[m][f], name) }

  ghost predicate DiffNames(d: Report, names: set<string>) { forall n :: n in names <==> HasDiff(d, n) }

  function Restrict(item: Item, names: set<string>): Item {
    Item(item.current, map n | n in item.upstreams && n in names :: item.upstreams[n],
                       map n | n in item.confidence && n in names :: item.confidence[n])
  }

  ghost predicate Stays(item: Item) { exists n :: n in item.upstreams && item.upstreams[n] != SAME }

  /** The second pass: channels without any difference are dropped, then entries that show none. */
  ghost predicate Pruned(d: Report, names: set<string>, d': Report) {
    && (forall m, f :: Has(d', m, f) <==> Has(d, m, f) && Stays(Restrict(d[m][f], names)))
    && (forall m, f :: Has(d', m, f) ==> d'[m][f] == Restrict(d[m][f], names))
  }

  function AddRow(d: Report, m: string, row: map<string, Item>): Report { if row == map[] then d else d[m := row] }

  lemma RowAdded(d: Report, m: string, row: map<string, Item>)
    requires m !in d
    ensures forall x, f :: Has(AddRow(d, m, row), x, f) <==> if x == m then f in row else Has(d, x, f)
    ensures forall x, f :: Has(AddRow(d, m, row), x, f) ==> AddRow(d, m, row)[x][f] == if x == m then row[f] else d[x][f]
    ensures NoEmptyRows(d) ==> NoEmptyRows(AddRow(d, m, row))
    ensures forall x :: x in AddRow(d, m, row) ==> x == m || x in d
  {
  }

  // ----- the passes

  method CollectModels(local: Prices, channels: seq<Channel>) returns (models: set<string>)
    ensures forall m :: m in models <==> Known(local, m) || exists k | 0 <= k < |channels| :: Known(channels[k].data, m)
  {
    models := ModelsOf(local);
    for i := 0 to |channels|
      invariant forall m :: m in models <==> Known(local, m) || exists k | 0 <= k < i :: Known(channels[k].data, m)
    {
      var more := ModelsOf(channels[i].data);
      models := models + more;
    }
  }

  method ModelsOf(data: Prices) returns (models: set<string>)
    ensures forall m :: m in models <==> Known(data, m)
  {
    models := {};
    for i := 0 to |FIELDS|
      invariant forall m :: m in models <==> exists k | 0 <= k < i :: Supplies(data, m, FIELDS[k])
    {
      models := models + ValueMap(data, FIELDS[i]).Keys;
    }
  }

  method CheckTrust(channels: seq<Channel>, m: string) returns (trust: map<string, bool>)
    ensures trust == Trust(channels, m)
  {
    trust := map[];
    for i := 0 to |channels|
      invariant trust == Trust(channels[..i], m)
    {
      assert channels[..i + 1][..i] == channels[..i];
      var ratios, completions := ValueMap(channels[i].data, "model_ratio"), ValueMap(channels[i].data, "completion_ratio");
      var good := true;
      if |ratios| > 0 && |completions| > 0 && m in ratios && m in completions {
        var x, y := AsFloat64(ratios[m]), AsFloat64(completions[m]);
        if x.Parsed? && y.Parsed? && NearlyEqual(x.r, 37.5) && NearlyEqual(y.r, 1.0) { good := false; }
      }
      trust := trust[channels[i].name := good];
    }
    assert channels[..|channels|] == channels;
  }

  predicate Unlike(lv: Value, data: Prices, m: string, f: string) {
    Supplies(data, m, f) && !ValuesEqual(lv, Normal(data, m, f))
  }

  /** One model and field against one channel. */
  method CompareOne(lv: Value, data: Prices, m: string, f: string) returns (uv: Value, supplied: bool, differs: bool)
    ensures uv == Shown(lv, data, m, f) && supplied == Supplies(data, m, f)
    ensures lv != Null ==> differs == Unlike(lv, data, m, f)
  {
    uv, supplied, differs := Null, false, false;
    if m in ValueMap(data, f) {
      uv := NormalizeSyncValue(f, ValueMap(data, f)[m]);
      supplied := true;
      if lv != Null && !ValuesEqual(lv, uv) {
        differs := true;
      } else if ValuesEqual(lv, uv) {
        uv := SAME;
      }
    }
    if uv == Null && lv == Null { uv := SAME; }
    if lv == Null && uv != Null && uv != SAME { differs := true; }
  }

  /** One model and field against every channel. */
  method CompareField(local: Prices, channels: seq<Channel>, m: string, f: string) returns (item: Item, wanted: bool)
    ensures item == ItemOf(local, channels, m, f) && (wanted <==> Included(local, channels, m, f))
  {
    var lv := Null;
    if m in ValueMap(local, f) { lv := NormalizeSyncValue(f, ValueMap(local, f)[m]); }
    assert lv == Normal(local, m, f);
    var upstreams, hasUpstream, hasDifference := map[], false, false;
    hide Shown, Supplies, Normal, ValuesEqual, NormalizeSyncValue, Trust;
    for i := 0 to |channels|
      invariant upstreams == Column(lv, channels[..i], m, f)
      invariant hasUpstream <==> exists k | 0 <= k < i :: Supplies(channels[k].data, m, f)
      invariant lv != Null ==> (hasDifference <==> exists k | 0 <= k < i :: Unlike(lv, channels[k].data, m, f))
    {
      hide Unlike;
      assert channels[..i + 1][..i] == channels[..i];
      var uv, supplied, differs := CompareOne(lv, channels[i].data, m, f);
      hasUpstream := hasUpstream || supplied;
      hasDifference := hasDifference || differs;
      upstreams := upstreams[channels[i].name := uv];
    }
    assert channels[..|channels|] == channels;
    var trust := CheckTrust(channels, m);
    item := Item(lv, upstreams, trust);
    wanted := if lv != Null then hasDifference else hasUpstream;
  }

  method CompareModel(local: Prices, channels: seq<Channel>, m: string) returns (row: map<string, Item>)
    ensures forall f :: f in row <==> Entry(local, channels, m, f)
    ensures forall f | f in row :: row[f] == ItemOf(local, channels, m, f)
  {
    hide Included, ItemOf;
    row := map[];
    for i := 0 to |FIELDS|
      invariant forall f :: f in row <==> f in FIELDS[..i] && Included(local, channels, m, f)
      invariant forall f | f in row :: row[f] == ItemOf(local, channels, m, f)
    {
      var item, wanted := CompareField(local, channels, m, FIELDS[i]);
      if wanted { row := row[FIELDS[i] := item]; }
      assert FIELDS[..i + 1] == FIELDS[..i] + [FIELDS[i]];
    }
    assert FIELDS[..|FIELDS|] == FIELDS;
  }

  lemma EntryKnown(local: Prices, channels: seq<Channel>, m: string, f: string)
    requires Entry(local, channels, m, f)
    ensures exists k | 0 <= k < |channels| :: Known(channels[k].data, m)
  {
    var k :| 0 <= k < |channels| && Supplies(channels[k].data, m, f);
    assert Known(channels[k].data, m);
  }

  lemma NoRows()
    ensures NoEmptyRows(map[])
  {
  }

  method Draft(local: Prices, channels: seq<Channel>) returns (d: Report)
    ensures Drafted(d, local, channels) && NoEmptyRows(d)
  {
    hide Entry, ItemOf, Known, AddRow, NoEmptyRows;
    var models := CollectModels(local, channels);
    d := map[];
    NoRows();
    var rest := models;
    while rest != {}
      invariant rest <= models
      invariant forall m, f :: Has(d, m, f) <==> m in models && m !in rest && Entry(local, channels, m, f)
      invariant forall m, f :: Has(d, m, f) ==> d[m][f] == ItemOf(local, channels, m, f)
      invariant NoEmptyRows(d) && forall m | m in rest :: m !in d
      decreases rest
    {
      var m :| m in rest;
      rest := rest - {m};
      var row := CompareModel(local, channels, m);
      RowAdded(d, m, row);
      d := AddRow(d, m, row);
    }
    forall m, f | Entry(local, channels, m, f) ensures m in models { EntryKnown(local, channels, m, f); }
  }

  method RowDiffs(row: map<string, Item>) returns (names: set<string>)
    ensures forall n :: n in names <==> exists f | f in row :: Real(row[f], n)
  {
    names := {};
    var rest := row.Keys;
    while rest != {}
      invariant rest <= row.Keys
      invariant forall n :: n in names <==> exists f | f in row && f !in rest :: Real(row[f], n)
      decreases rest
    {
      var f :| f in rest;
      rest := rest - {f};
      names := names + set n | n in row[f].upstreams && Real(row[f], n);
    }
  }

  method DiffChannels(d: Report) returns (names: set<string>)
    ensures DiffNames(d, names)
  {
    names := {};
    var rest := d.Keys;
    while rest != {}
      invariant rest <= d.Keys
      invariant forall n :: n in names <==> exists m, f :: Has(d, m, f) && m !in rest && Real(d[m][f], n)
      decreases rest
    {
      hide Real;
      var m :| m in rest;
      rest := rest - {m};
      var more := RowDiffs(d[m]);
      forall n ensures n in more <==> exists f :: Has(d, m, f) && Real(d[m][f], n) {
        if n in more { var f :| f in d[m] && Real(d[m][f], n); assert Has(d, m, f); }
      }
      names := names + more;
    }
  }

  method PruneRow(row: map<string, Item>, names: set<string>) returns (kept: map<string, Item>)
    ensures forall f :: f in kept <==> f in row && Stays(Restrict(row[f], names))
    ensures forall f | f in kept :: kept[f] == Restrict(row[f], names)
  {
    kept := row;
    var rest := row.Keys;
    while rest != {}
      invariant rest <= row.Keys
      invariant forall f :: f in kept <==> f in row && (f in rest || Stays(Restrict(row[f], names)))
      invariant forall f | f in kept :: kept[f] == if f in rest then row[f] else Restrict(row[f], names)
      decreases rest
    {
      hide Restrict;
      var f :| f in rest;
      rest := rest - {f};
      var item := Restrict(kept[f], names);
      var allSame := forall n | n in item.upstreams :: item.upstreams[n] == SAME;
      if |item.upstreams| == 0 || allSame {
        kept := kept - {f};
      } else {
        kept := kept[f := item];
      }
    }
  }

  method Prune(d: Report, names: set<string>) returns (d': Report)
    ensures Pruned(d, names, d') && NoEmptyRows(d')
  {
    hide AddRow, NoEmptyRows;
    d' := map[];
    NoRows();
    var rest := d.Keys;
    while rest != {}
      invariant rest <= d.Keys
      invariant forall m, f :: Has(d', m, f) <==> Has(d, m, f) && m !in rest && Stays(Restrict(d[m][f], names))
      invariant forall m, f :: Has(d', m, f) ==> d'[m][f] == Restrict(d[m][f], names)
      invariant NoEmptyRows(d') && forall m | m in rest :: m !in d'
      decreases rest
    {
      hide Restrict, Stays;
      var m :| m in rest;
      rest := rest - {m};
      var kept := PruneRow(d[m], names);
      RowAdded(d', m, kept);
      d' := AddRow(d', m, kept);
    }
  }

  ghost predicate IsReport(r: Report, local: Prices, channels: seq<Channel>) {
    exists d, names: set<string> :: Drafted(d, local, channels) && DiffNames(d, names) && Pruned(d, names, r)
  }

  /** buildDifferences. */
  method BuildDifferences(local: Prices, channels: seq<Channel>) returns (r: Report)
    ensures IsReport(r, local, channels) && NoEmptyRows(r)
  {
    hide Drafted, Pruned, HasDiff;
    var d := Draft(local, channels);
    var names := DiffChannels(d);
    r := Prune(d, names);
  }

  // ----- what the report means

  ghost predicate DistinctNames(channels: seq<Channel>) {
    forall i, j | 0 <= i < j < |channels| :: channels[i].name != channels[j].name
  }

  /** A channel's value differs from the local one, or there is no local one. */
  predicate Differs(local: Prices, ch: Channel, m: string, f: string) {
    && f in FIELDS && Supplies(ch.data, m, f)
    && (Normal(local, m, f) == Null || !ValuesEqual(Normal(local, m, f), Normal(ch.data, m, f)))
  }

  /** It differs by a value the report can show: not a null, nor the text that marks sameness. */
  predicate Visible(local: Prices, ch: Channel, m: string, f: string) {
    Differs(local, ch, m, f) && Normal(ch.data, m, f) != Null && Normal(ch.data, m, f) != SAME
  }

  ghost predicate VisibleSomewhere(local: Prices, ch: Channel) { exists m, f :: Visible(local, ch, m, f) }

  ghost predicate DiffersAt(local: Prices, channels: seq<Channel>, m: string, f: string) {
    exists k | 0 <= k < |channels| :: Differs(local, channels[k], m, f)
  }

  /** Some listed channel shows more than sameness there. */
  ghost predicate Telling(local: Prices, channels: seq<Channel>, m: string, f: string) {
    exists k | 0 <= k < |channels| :: VisibleSomewhere(local, channels[k]) && Shown(Normal(local, m, f), channels[k].data, m, f) != SAME
  }

  lemma {:induction false} ColumnNames(lv: Value, channels: seq<Channel>, m: string, f: string, n: string)
    ensures n in Column(lv, channels, m, f) <==> exists k | 0 <= k < |channels| :: channels[k].name == n
    decreases |channels|
  {
    hide Shown;
    if channels != [] {
      var last := |channels| - 1;
      ColumnNames(lv, channels[..last], m, f, n);
      if k :| 0 <= k < last && channels[k].name == n { assert channels[..last][k].name == n; }
    }
  }

  lemma {:induction false} ColumnValue(lv: Value, channels: seq<Channel>, m: string, f: string, k: nat)
    requires DistinctNames(channels) && k < |channels|
    ensures channels[k].name in Column(lv, channels, m, f)
    ensures Column(lv, channels, m, f)[channels[k].name] == Shown(lv, channels[k].data, m, f)
    decreases |channels|
  {
    hide Shown;
    var last := |channels| - 1;
    if k < last {
      assert channels[..last][k] == channels[k];
      ColumnValue(lv, channels[..last], m, f, k);
    }
  }

  /** A channel's shown value is real exactly when its difference is visible. */
  lemma ShownMeaning(local: Prices, ch: Channel, m: string, f: string)
    requires f in FIELDS
    ensures var v := Shown(Normal(local, m, f), ch.data, m, f);
            && (Visible(local, ch, m, f) <==> v != Null && v != SAME)
            && (Visible(local, ch, m, f) ==> v == Normal(ch.data, m, f))
  {
    hide NormalizeSyncValue;
  }

  /** In a first-pass entry, a channel's value is real exactly when it visibly differs there. */
  lemma RealMeaning(local: Prices, channels: seq<Channel>, k: nat, m: string, f: string)
    requires DistinctNames(channels) && k < |channels| && f in FIELDS
    ensures var item := ItemOf(local, channels, m, f); var n := channels[k].name;
            && n in item.upstreams && item.upstreams[n] == Shown(Normal(local, m, f), channels[k].data, m, f)
            && (Real(item, n) <==> Visible(local, channels[k], m, f))
  {
    hide Column, Normal, Shown, Visible;
    ShownMeaning(local, channels[k], m, f);
    ColumnValue(Normal(local, m, f), channels, m, f, k);
  }

  lemma EntryMeaning(local: Prices, channels: seq<Channel>, m: string, f: string)
    ensures Entry(local, channels, m, f) <==> DiffersAt(local, channels, m, f)
  {
    hide Normal, ValuesEqual, Supplies;
  }

  lemma VisibleIn(local: Prices, channels: seq<Channel>, k: nat, m: string, f: string)
    requires k < |channels| && Visible(local, channels[k], m, f)
    ensures f in FIELDS && DiffersAt(local, channels, m, f)
  {
    hide Normal, ValuesEqual, Supplies;
  }

  /** A channel counts as differing exactly when it visibly differs somewhere. */
  lemma HasDiffMeaning(d: Report, local: Prices, channels: seq<Channel>, k: nat)
    requires Drafted(d, local, channels) && DistinctNames(channels) && k < |channels|
    ensures HasDiff(d, channels[k].name) <==> VisibleSomewhere(local, channels[k])
  {
    hide Real, Visible, DistinctNames, ItemOf, Included, DiffersAt;
    var n := channels[k].name;
    if HasDiff(d, n) {
      var m, f :| Has(d, m, f) && Real(d[m][f], n);
      assert Entry(local, channels, m, f);
      RealMeaning(local, channels, k, m, f);
    }
    if VisibleSomewhere(local, channels[k]) {
      var m, f :| Visible(local, channels[k], m, f);
      VisibleIn(local, channels, k, m, f);
      RealMeaning(local, channels, k, m, f);
      EntryMeaning(local, channels, m, f);
      assert Has(d, m, f);
    }
  }

  /** Restricted to the differing channels, an entry lists exactly those, and stays if one
      of them has something to show. */
  lemma KeptMeaning(d: Report, names: set<string>, local: Prices, channels: seq<Channel>, m: string, f: string)
    requires Drafted(d, local, channels) && DistinctNames(channels) && Has(d, m, f) && DiffNames(d, names)
    ensures Stays(Restrict(d[m][f], names)) <==> Telling(local, channels, m, f)
    ensures forall k | 0 <= k < |channels| :: channels[k].name in Restrict(d[m][f], names).upstreams <==> VisibleSomewhere(local, channels[k])
  {
    hide DistinctNames, Included, HasDiff, VisibleSomewhere, Shown, Normal, Column, Trust;
    var item := d[m][f];
    assert Entry(local, channels, m, f) && item == ItemOf(local, channels, m, f);
    forall k | 0 <= k < |channels|
      ensures channels[k].name in item.upstreams && item.upstreams[channels[k].name] == Shown(Normal(local, m, f), channels[k].data, m, f)
      ensures channels[k].name in names <==> VisibleSomewhere(local, channels[k])
    {
      RealMeaning(local, channels, k, m, f);
      HasDiffMeaning(d, local, channels, k);
    }
    var kept := Restrict(item, names);
    if n :| n in kept.upstreams && kept.upstreams[n] != SAME {
      ColumnNames(item.current, channels, m, f, n);
      var k :| 0 <= k < |channels| && channels[k].name == n;
    }
    if k :| 0 <= k < |channels| && VisibleSomewhere(local, channels[k]) && Shown(Normal(local, m, f), channels[k].data, m, f) != SAME {
      assert channels[k].name in kept.upstreams;
    }
  }

  /** Exactly which entries survive, whatever the channels supply: those where a channel
      differs and a channel with a visible difference somewhere has something to show. A
      channel is listed in them exactly when it has such a difference. */
  lemma ReportExact(r: Report, local: Prices, channels: seq<Channel>)
    requires IsReport(r, local, channels) && DistinctNames(channels)
    ensures forall m, f :: Has(r, m, f) <==> DiffersAt(local, channels, m, f) && Telling(local, channels, m, f)
    ensures forall m, f, k | Has(r, m, f) && 0 <= k < |channels| ::
              channels[k].name in r[m][f].upstreams <==> VisibleSomewhere(local, channels[k])
    ensures forall m, f, k | Has(r, m, f) && 0 <= k < |channels| && channels[k].name in r[m][f].upstreams ::
              r[m][f].upstreams[channels[k].name] == Shown(Normal(local, m, f), channels[k].data, m, f)
  {
    hide Included, HasDiff, DiffNames, DistinctNames, DiffersAt, VisibleSomewhere, Telling, ItemOf, Stays, Shown, Normal, Entry;
    var d, names: set<string> :| Drafted(d, local, channels) && DiffNames(d, names) && Pruned(d, names, r);
    forall m, f ensures Has(r, m, f) <==> DiffersAt(local, channels, m, f) && Telling(local, channels, m, f) {
      EntryMeaning(local, channels, m, f);
      if Has(d, m, f) { KeptMeaning(d, names, local, channels, m, f); }
    }
    forall m, f, k | Has(r, m, f) && 0 <= k < |channels|
      ensures channels[k].name in r[m][f].upstreams <==> VisibleSomewhere(local, channels[k])
      ensures channels[k].name in r[m][f].upstreams ==>
                r[m][f].upstreams[channels[k].name] == Shown(Normal(local, m, f), channels[k].data, m, f)
    {
      KeptMeaning(d, names, local, channels, m, f);
      EntryField(local, channels, m, f);
      RealMeaning(local, channels, k, m, f);
    }
  }

  lemma EntryField(local: Prices, channels: seq<Channel>, m: string, f: string)
    requires Entry(local, channels, m, f)
    ensures f in FIELDS
  {
  }

  /** No channel supplies a null, or the text that marks sameness. */
  ghost predicate Plain(channels: seq<Channel>) {
    forall k, m, f | 0 <= k < |channels| && Supplies(channels[k].data, m, f) ::
      Normal(channels[k].data, m, f) != Null && Normal(channels[k].data, m, f) != SAME
  }

  ghost predicate DiffersSomewhere(local: Prices, ch: Channel) { exists m, f :: Differs(local, ch, m, f) }

  /** With such channels every difference is visible, so an entry is in the report exactly
      when some channel differs there, and lists exactly the channels that differ somewhere. */
  lemma PlainReport(r: Report, local: Prices, channels: seq<Channel>)
    requires IsReport(r, local, channels) && DistinctNames(channels) && Plain(channels)
    ensures forall m, f :: Has(r, m, f) <==> DiffersAt(local, channels, m, f)
    ensures forall m, f, k | Has(r, m, f) && 0 <= k < |channels| ::
              channels[k].name in r[m][f].upstreams <==> DiffersSomewhere(local, channels[k])
  {
    hide IsReport, DistinctNames, Shown, Normal, ValuesEqual, Supplies;
    ReportExact(r, local, channels);
    forall k, m, f | 0 <= k < |channels| ensures Differs(local, channels[k], m, f) <==> Visible(local, channels[k], m, f) { }
    forall m, f | DiffersAt(local, channels, m, f) ensures Telling(local, channels, m, f) {
      var k :| 0 <= k < |channels| && Differs(local, channels[k], m, f);
      assert Visible(local, channels[k], m, f);
      ShownMeaning(local, channels[k], m, f);
    }
    forall k | 0 <= k < |channels| ensures VisibleSomewhere(local, channels[k]) <==> DiffersSomewhere(local, channels[k]) {
      if m, f :| Differs(local, channels[k], m, f) { assert Visible(local, channels[k], m, f); }
      if m, f :| Visible(local, channels[k], m, f) { assert Differs(local, channels[k], m, f); }
    }
  }

  /** Without that assumption it fails: a null that differs from the local price is lost. */
  lemma NullIsLost(r: Report)
    requires IsReport(r, map["model_ratio" := map["a" := Float(1.0)]], [Channel("c", map["model_ratio" := map["a" := Null]])])
    ensures DiffersAt(map["model_ratio" := map["a" := Float(1.0)]], [Channel("c", map["model_ratio" := map["a" := Null]])], "a", "model_ratio")
    ensures !Has(r, "a", "model_ratio")
  {
    var local: Prices := map["model_ratio" := map["a" := Float(1.0)]];
    var ch := Channel("c", map["model_ratio" := map["a" := Null]]);
    assert Differs(local, [ch][0], "a", "model_ratio") by { assert FIELDS[0] == "model_ratio"; }
    assert forall m, f | Supplies(ch.data, m, f) :: Normal(ch.data, m, f) == Null;
    hide IsReport, Normal, Supplies, Shown, Differs;
    ReportExact(r, local, [ch]);
  }
}
