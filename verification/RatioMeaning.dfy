/** The price-difference report in terms of the prices as delivered: when two of them are
    alike, and what the report says for given data. */
module RatioMeaning {
  import opened RatioSync

  // ----- prices as delivered

  predicate RatioField(f: string) {
    f in {"model_ratio", "completion_ratio", "cache_ratio", "create_cache_ratio", "image_ratio", "audio_ratio", "audio_completion_ratio", "model_price"}
  }

  predicate TextField(f: string) { f in {"billing_mode", "billing_expr"} }

  /** A value is this number, however it is delivered. */
  predicate IsNumber(v: Value, x: real) {
    || v == Float(x) || v == Single(x) || (v.Whole? && v.n as real == x) || (v.Literal? && v.parsed == Parsed(x))
  }

  predicate Given(data: Prices, m: string, f: string, v: Value) { f in data && m in data[f] && data[f][m] == v }

  predicate Close(x: real, y: real) { -0.000000001 < x - y < 0.000000001 }

  /** Ratios and prices are alike when they are numbers less than 1e-9 apart, or the same and
      no numbers; anything else when it is the same, or two floats that close. */
  ghost predicate Alike(f: string, a: Value, b: Value) {
    if RatioField(f) then
      || (exists x, y :: IsNumber(a, x) && IsNumber(b, y) && Close(x, y))
      || (a == b && forall x :: !IsNumber(a, x))
    else a == b || (a.Float? && b.Float? && Close(a.r, b.r))
  }

  // ----- what alike means for particular values

  /** The same number is alike in every form; numbers 1e-9 apart or more are not. */
  lemma NumbersAlike(f: string, a: Value, b: Value, x: real, y: real)
    requires RatioField(f) && IsNumber(a, x) && IsNumber(b, y)
    ensures Alike(f, a, b) <==> Close(x, y)
  {
    forall z | IsNumber(a, z) ensures z == x { }
    forall z | IsNumber(b, z) ensures z == y { }
  }

  lemma TextsAlike(f: string, s: string, t: string)
    requires RatioField(f) || TextField(f)
    ensures Alike(f, Text(s), Text(t)) <==> s == t
  {
    assert forall x :: !IsNumber(Text(s), x);
  }

  lemma FieldNames(f: string)
    ensures f in FIELDS <==> RatioField(f) || TextField(f)
    ensures Numeric(f) <==> RatioField(f)
  {
    assert FIELDS[0] == "model_ratio" && FIELDS[1] == "completion_ratio" && FIELDS[2] == "cache_ratio" && FIELDS[3] == "create_cache_ratio";
    assert FIELDS[4] == "image_ratio" && FIELDS[5] == "audio_ratio" && FIELDS[6] == "audio_completion_ratio" && FIELDS[7] == "model_price";
    assert FIELDS[8] == "billing_mode" && FIELDS[9] == "billing_expr";
    FirstEight(f);
  }

  lemma FirstEight(f: string)
    ensures f in FIELDS[..8] <==> exists i :: 0 <= i < 8 && FIELDS[i] == f
  {
    if i :| 0 <= i < 8 && FIELDS[i] == f { assert FIELDS[..8][i] == f; }
  }

  lemma NumberRead(v: Value, x: real)
    ensures IsNumber(v, x) <==> AsFloat64(v) == Parsed(x)
  {
  }

  /** What is compared: a ratio's number as a float, anything else as it is. */
  lemma NormalMeaning(f: string, v: Value, x: real)
    ensures RatioField(f) && IsNumber(v, x) ==> NormalizeSyncValue(f, v) == Float(x)
    ensures !RatioField(f) || (forall y :: !IsNumber(v, y)) ==> NormalizeSyncValue(f, v) == v
  {
    FieldNames(f);
    hide Numeric;
    NumberRead(v, x);
    if AsFloat64(v).Parsed? { NumberRead(v, AsFloat64(v).r); }
  }

  lemma SomeNumber(v: Value) returns (x: real)
    ensures IsNumber(v, x) || forall y :: !IsNumber(v, y)
  {
    x := 0.0;
    if AsFloat64(v).Parsed? { x := AsFloat64(v).r; }
    forall y ensures IsNumber(v, y) <==> AsFloat64(v) == Parsed(y) { NumberRead(v, y); }
  }

  lemma EqualExactly(f: string, a: Value, b: Value)
    ensures ValuesEqual(NormalizeSyncValue(f, a), NormalizeSyncValue(f, b)) <==> Alike(f, a, b)
  {
    var x := SomeNumber(a);
    var y := SomeNumber(b);
    NormalMeaning(f, a, x);
    NormalMeaning(f, b, y);
    hide NormalizeSyncValue;
    if RatioField(f) && IsNumber(a, x) && IsNumber(b, y) {
      NumbersAlike(f, a, b, x, y);
    } else if RatioField(f) && IsNumber(a, x) {
      NotAlike(f, a, b, x);
      NoFloat(b);
    } else if RatioField(f) && IsNumber(b, y) {
      NotAlike(f, b, a, y);
      NoFloat(a);
    } else if RatioField(f) {
      NoFloat(a);
    }
  }

  lemma FloatIsNumber(r: real)
    ensures IsNumber(Float(r), r)
  {
  }

  lemma NoFloat(v: Value)
    requires forall y :: !IsNumber(v, y)
    ensures !v.Float?
  {
    match v
    case Float(r) => FloatIsNumber(r);
    case _ =>
  }

  lemma NotAlike(f: string, a: Value, b: Value, x: real)
    requires RatioField(f) && IsNumber(a, x) && forall y :: !IsNumber(b, y)
    ensures !Alike(f, a, b) && !Alike(f, b, a)
  {
  }

  // ----- what a channel says about a price

  /** There is a local price. */
  ghost predicate HasLocal(local: Prices, m: string, f: string) { exists v :: v != Null && Given(local, m, f, v) }

  /** A channel gives a price where there is none, or one that is not alike. */
  ghost predicate GivesOther(local: Prices, data: Prices, m: string, f: string) {
    (RatioField(f) || TextField(f)) &&
    exists v :: Given(data, m, f, v) && (!HasLocal(local, m, f) || exists lv :: Given(local, m, f, lv) && !Alike(f, lv, v))
  }

  lemma NormalGiven(data: Prices, m: string, f: string)
    ensures Supplies(data, m, f) <==> exists v :: Given(data, m, f, v)
    ensures forall v | Given(data, m, f, v) :: Normal(data, m, f) == NormalizeSyncValue(f, v)
    ensures Normal(data, m, f) == Null <==> !HasLocal(data, m, f)
  {
    if Supplies(data, m, f) {
      var v := data[f][m];
      assert Given(data, m, f, v);
      var x := SomeNumber(v);
      NormalMeaning(f, v, x);
      hide NormalizeSyncValue;
    }
  }

  lemma DiffersExactly(local: Prices, ch: Channel, m: string, f: string)
    ensures Differs(local, ch, m, f) <==> GivesOther(local, ch.data, m, f)
  {
    FieldNames(f);
    NormalGiven(local, m, f);
    NormalGiven(ch.data, m, f);
    hide Normal, NormalizeSyncValue, Supplies, ValuesEqual, Alike, RatioField, TextField;
    forall v, lv | Given(ch.data, m, f, v) && Given(local, m, f, lv)
      ensures ValuesEqual(Normal(local, m, f), Normal(ch.data, m, f)) <==> Alike(f, lv, v)
    {
      EqualExactly(f, lv, v);
    }
  }

  // ----- the report

  /** No channel gives a null, or the text that marks sameness. */
  ghost predicate PlainData(channels: seq<Channel>) {
    forall k, m, f, v | 0 <= k < |channels| && Given(channels[k].data, m, f, v) :: v != Null && v != Text("same")
  }

  lemma PlainExactly(channels: seq<Channel>)
    requires PlainData(channels)
    ensures Plain(channels)
  {
    forall k, m, f | 0 <= k < |channels| && Supplies(channels[k].data, m, f)
      ensures Normal(channels[k].data, m, f) != Null && Normal(channels[k].data, m, f) != SAME
    {
      var v := channels[k].data[f][m];
      assert Given(channels[k].data, m, f, v);
      var x := SomeNumber(v);
      NormalMeaning(f, v, x);
    }
  }

  ghost predicate OtherSomewhere(local: Prices, ch: Channel) { exists m, f :: GivesOther(local, ch.data, m, f) }

  ghost predicate SomeOther(local: Prices, channels: seq<Channel>, m: string, f: string) {
    exists k | 0 <= k < |channels| :: GivesOther(local, channels[k].data, m, f)
  }

  /** An entry is reported exactly where some channel gives another price, and lists exactly
      the channels that give another price somewhere. */
  lemma ReportMeaning(r: Report, local: Prices, channels: seq<Channel>)
    requires IsReport(r, local, channels) && DistinctNames(channels) && PlainData(channels)
    ensures forall m, f :: Has(r, m, f) <==> SomeOther(local, channels, m, f)
    ensures forall m, f, k | Has(r, m, f) && 0 <= k < |channels| ::
              channels[k].name in r[m][f].upstreams <==> OtherSomewhere(local, channels[k])
  {
    PlainExactly(channels);
    PlainReport(r, local, channels);
    hide IsReport, DistinctNames, Plain, PlainData, Differs, GivesOther;
    forall m, f, k | 0 <= k < |channels| ensures Differs(local, channels[k], m, f) <==> GivesOther(local, channels[k].data, m, f) {
      DiffersExactly(local, channels[k], m, f);
    }
    forall m, f ensures DiffersAt(local, channels, m, f) <==> SomeOther(local, channels, m, f) { }
    forall k | 0 <= k < |channels| ensures DiffersSomewhere(local, channels[k]) <==> OtherSomewhere(local, channels[k]) { }
  }

  /** Channels with the local prices: nothing to report. */
  lemma SameDataEmpty(r: Report, local: Prices, channels: seq<Channel>)
    requires IsReport(r, local, channels) && NoEmptyRows(r) && DistinctNames(channels)
    requires forall k | 0 <= k < |channels| :: channels[k].data == local
    ensures r == map[]
  {
    ReportExact(r, local, channels);
    hide IsReport, DistinctNames, Shown, Normal;
    forall k | 0 <= k < |channels| ensures !VisibleSomewhere(local, channels[k]) {
      forall m, f ensures !Visible(local, channels[k], m, f) { NothingVisible(local, channels[k], m, f); }
    }
    if r != map[] { SomeEntry(r); }
  }

  lemma SomeEntry(r: Report)
    requires NoEmptyRows(r) && r != map[]
    ensures exists m, f :: Has(r, m, f)
  {
    var m :| m in r;
    var f :| f in r[m];
    assert Has(r, m, f);
  }

  lemma NothingVisible(local: Prices, ch: Channel, m: string, f: string)
    requires ch.data == local
    ensures !Visible(local, ch, m, f)
  {
    hide NormalizeSyncValue;
  }

  /** What is shown for a listed channel: its own price where it is another, the mark of
      sameness where it is alike or neither has one, nothing where only the local side has one. */
  lemma ShownMeans(local: Prices, ch: Channel, m: string, f: string)
    requires f in FIELDS
    ensures var shown := Shown(Normal(local, m, f), ch.data, m, f);
            && (forall v, x | Given(ch.data, m, f, v) && GivesOther(local, ch.data, m, f) && v != Null ::
                  (RatioField(f) && IsNumber(v, x) ==> shown == Float(x)) && ((forall y :: !IsNumber(v, y)) ==> shown == v))
            && (forall v | Given(ch.data, m, f, v) && !GivesOther(local, ch.data, m, f) :: shown == Text("same"))
            && ((forall v :: !Given(ch.data, m, f, v)) ==> shown == if HasLocal(local, m, f) then Null else Text("same"))
  {
    DiffersExactly(local, ch, m, f);
    NormalGiven(local, m, f);
    NormalGiven(ch.data, m, f);
    hide GivesOther, Alike, RatioField, HasLocal, NormalizeSyncValue, ValuesEqual, Supplies, Normal;
    forall v, x | Given(ch.data, m, f, v) ensures RatioField(f) && IsNumber(v, x) ==> NormalizeSyncValue(f, v) == Float(x) { NormalMeaning(f, v, x); }
    forall v | Given(ch.data, m, f, v) ensures (forall y :: !IsNumber(v, y)) ==> NormalizeSyncValue(f, v) == v { NormalMeaning(f, v, 0.0); }
    hide IsNumber;
    if Normal(local, m, f) == Null { NullIsNull(local, ch, m, f); }
  }

  /** Where there is no local price, only a null is alike. */
  lemma NullIsNull(local: Prices, ch: Channel, m: string, f: string)
    requires Normal(local, m, f) == Null
    ensures ValuesEqual(Null, Normal(ch.data, m, f)) <==> Normal(ch.data, m, f) == Null
  {
    hide Normal;
  }

  // ----- confidence

  /** A model ratio of 37.5 with a completion ratio of 1, however delivered. */
  ghost predicate Placeholder(data: Prices, m: string) {
    exists a, b, x, y :: Given(data, m, "model_ratio", a) && IsNumber(a, x) && Close(x, 37.5) &&
                         Given(data, m, "completion_ratio", b) && IsNumber(b, y) && Close(y, 1.0)
  }

  lemma TrustedExactly(data: Prices, m: string)
    ensures Trusted(data, m) <==> !Placeholder(data, m)
  {
    if !Trusted(data, m) {
      var a, b := data["model_ratio"][m], data["completion_ratio"][m];
      assert Given(data, m, "model_ratio", a) && Given(data, m, "completion_ratio", b);
      assert IsNumber(a, AsFloat64(a).r) && IsNumber(b, AsFloat64(b).r);
    }
    if Placeholder(data, m) {
      var a, b, x, y :| Given(data, m, "model_ratio", a) && IsNumber(a, x) && Close(x, 37.5) &&
                        Given(data, m, "completion_ratio", b) && IsNumber(b, y) && Close(y, 1.0);
    }
  }

  lemma {:induction false} TrustValue(channels: seq<Channel>, m: string, k: nat)
    requires DistinctNames(channels) && k < |channels|
    ensures channels[k].name in Trust(channels, m) && Trust(channels, m)[channels[k].name] == Trusted(channels[k].data, m)
    decreases |channels|
  {
    hide Trusted;
    var last := |channels| - 1;
    if k < last {
      assert channels[..last][k] == channels[k];
      TrustValue(channels[..last], m, k);
    }
  }

  lemma {:induction false} TrustNames(channels: seq<Channel>, m: string, n: string)
    ensures n in Trust(channels, m) <==> exists k | 0 <= k < |channels| :: channels[k].name == n
    decreases |channels|
  {
    hide Trusted;
    if channels != [] {
      var last := |channels| - 1;
      TrustNames(channels[..last], m, n);
      if k :| 0 <= k < last && channels[k].name == n { assert channels[..last][k].name == n; }
    }
  }

  /** An entry lists nothing but channels, and gives a confidence for those listed and no other. */
  lemma ListedAlike(r: Report, local: Prices, channels: seq<Channel>, m: string, f: string, n: string)
    requires IsReport(r, local, channels) && Has(r, m, f)
    ensures n in r[m][f].confidence <==> n in r[m][f].upstreams
    ensures n in r[m][f].upstreams ==> exists k | 0 <= k < |channels| :: channels[k].name == n
  {
    hide Included, HasDiff, Stays, Trust, Column, Normal;
    var d, names: set<string> :| Drafted(d, local, channels) && DiffNames(d, names) && Pruned(d, names, r);
    assert Has(d, m, f) && d[m][f] == ItemOf(local, channels, m, f);
    hide Drafted, Pruned, DiffNames;
    TrustNames(channels, m, n);
    ColumnNames(Normal(local, m, f), channels, m, f, n);
  }

  /** The confidence given for a listed channel, and the local price given as the current one. */
  lemma ConfidenceMeaning(r: Report, local: Prices, channels: seq<Channel>, m: string, f: string, k: nat)
    requires IsReport(r, local, channels) && DistinctNames(channels) && Has(r, m, f) && k < |channels|
    ensures r[m][f].current == Normal(local, m, f)
    ensures channels[k].name in r[m][f].upstreams ==>
              channels[k].name in r[m][f].confidence && (r[m][f].confidence[channels[k].name] <==> !Placeholder(channels[k].data, m))
  {
    hide Included, HasDiff, DistinctNames, Stays, Trust, Trusted, Column, Normal, Placeholder;
    var d, names: set<string> :| Drafted(d, local, channels) && DiffNames(d, names) && Pruned(d, names, r);
    assert Has(d, m, f) && d[m][f] == ItemOf(local, channels, m, f);
    hide Drafted, Pruned, DiffNames;
    TrustValue(channels, m, k);
    TrustedExactly(channels[k].data, m);
  }
}
