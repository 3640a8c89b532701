/**
 * The screening helpers of `tests/stock_recommend_re.py`: correction and validation of
 * exchange-prefixed codes, cleaning and checking of the financial-indicator table, the
 * stock list with its cache and ordered fallback across sources, the kline window, and
 * the final selection rule (fundamental thresholds, 250-day average, MACD golden cross,
 * volume surge) over indicator values that are already computed.
 */
module StockRecommendRe {
  import opened Common
  import opened Text
  import opened Sorting

  // ---------------------------------------------------------------------------------------
  // CONFIG

  const MinDays: nat := 250
  const RoeThreshold: real := 0.08
  const ProfitGrowthThreshold: real := 0.15
  const CashFlowThreshold: real := 0.5
  const DebtRatioThreshold: real := 0.6
  const DividendYieldThreshold: real := 0.05
  const VolumeIncreaseRatio: real := 1.2

  // ---------------------------------------------------------------------------------------
  // Stock code correction (get_financial_data, first part)

  predicate IsExchange(p: string) { p == "sh" || p == "sz" || p == "bj" }

  /**
   * `_STOCK_CODE_PATTERN.match(s)` for `^(sh|sz|bj)\d{6}$`: an exchange, six digits, then the
   * end of the text, where Python's `$` also accepts a single final newline.
   */
  predicate MatchesCodePattern(s: string)
    // the pattern proper, or the pattern followed by the one newline `$` lets through
    ensures MatchesCodePattern(s) <==> IsPrefixedCode(s) || (|s| == 9 && s[8] == '\n' && IsPrefixedCode(s[..8]))
  {
    (|s| == 8 || (|s| == 9 && s[8] == '\n'))
    && IsExchange(s[..2])
    && forall i :: 2 <= i < 8 ==> IsAsciiDigit(s[i])
  }

  /** An exchange and six digits, and nothing else. */
  predicate IsPrefixedCode(s: string) {
    |s| == 8 && IsExchange(s[..2]) && forall i :: 2 <= i < 8 ==> IsAsciiDigit(s[i])
  }

  /** `prefix_mapping`, in its insertion order: the leading characters and their exchange. */
  const PrefixMapping: seq<(seq<string>, string)> := [(["6", "9"], "sh"), (["0", "3"], "sz"), (["4", "8"], "bj")]

  /** `s.startswith(prefixes)` for a tuple of prefixes. */
  predicate StartsWithAny(s: string, prefixes: seq<string>) {
    exists k :: 0 <= k < |prefixes| && StartsWith(s, prefixes[k])
  }

  /** The exchange a bare code belongs to, by its first character. */
  function ExchangeFor(s: string): (r: Option<string>)
    ensures r.Some? ==> IsExchange(r.value)
    ensures r.Some? <==> s != [] && s[0] in {'0', '3', '4', '6', '8', '9'}
  {
    if s == [] then None
    else if s[0] == '6' || s[0] == '9' then Some("sh")
    else if s[0] == '0' || s[0] == '3' then Some("sz")
    else if s[0] == '4' || s[0] == '8' then Some("bj")
    else None
  }

  /** The code `get_financial_data` goes on with, or `None` where it logs and returns `None`. */
  function CorrectedCode(s: string): (r: Option<string>)
    ensures r.Some? ==> MatchesCodePattern(r.value)
    ensures MatchesCodePattern(s) ==> r == Some(s)
    ensures r.Some? && r.value != s ==> ExchangeFor(s).Some? && r.value == ExchangeFor(s).value + s
  {
    if MatchesCodePattern(s) then Some(s)
    else if ExchangeFor(s).None? then None
    else if MatchesCodePattern(ExchangeFor(s).value + s) then Some(ExchangeFor(s).value + s)
    else None
  }

  /** A bare code: six digits, optionally followed by the one newline `$` tolerates. */
  predicate IsBareCode(s: string) {
    (|s| == 6 || (|s| == 7 && s[6] == '\n')) && forall i :: 0 <= i < 6 ==> IsAsciiDigit(s[i])
  }

  /**
   * A code survives correction exactly when it already carries an exchange, or it is a bare
   * code whose first digit is 0, 3, 4, 6, 8 or 9.
   */
  lemma CorrectedCodeAccepts(s: string)
    ensures CorrectedCode(s).Some? <==>
      MatchesCodePattern(s) || (IsBareCode(s) && s[0] in {'0', '3', '4', '6', '8', '9'})
  {
    if !MatchesCodePattern(s) && ExchangeFor(s).Some? {
      var t := ExchangeFor(s).value + s;
      assert |t| == |s| + 2 && t[..2] == ExchangeFor(s).value;
      assert forall i :: 0 <= i < |s| ==> t[i + 2] == s[i];
      if MatchesCodePattern(t) {
        assert forall i :: 0 <= i < 6 ==> IsAsciiDigit(s[i]) by {
          forall i | 0 <= i < 6 ensures IsAsciiDigit(s[i]) { assert t[i + 2] == s[i]; }
        }
      }
    }
  }

  /** A seven-digit code gets an exchange prefix and then fails the second check. */
  lemma SevenDigitsRejected()
    ensures CorrectedCode("6001330") == None
  {
    assert !MatchesCodePattern("6001330");
    assert ExchangeFor("6001330") == Some("sh");
    assert !MatchesCodePattern("sh6001330") by { assert "sh6001330"[8] == '0'; }
  }

  /** Correcting a corrected code leaves it as it is. */
  lemma CorrectedCodeIdempotent(s: string)
    requires CorrectedCode(s).Some?
    ensures CorrectedCode(CorrectedCode(s).value) == CorrectedCode(s)
  {
  }

  /**
   * The `for prefixes, prefix in prefix_mapping.items(): ... break / else: return None`
   * scan and the re-validation after it.
   */
  method CorrectStockCode(stockCode: string) returns (r: Option<string>)
    ensures r == CorrectedCode(stockCode)
  {
    if MatchesCodePattern(stockCode) {
      return Some(stockCode);
    }
    var code := stockCode;
    var found := false;
    var i := 0;
    while i < |PrefixMapping|
      invariant 0 <= i <= |PrefixMapping|
      invariant !found && code == stockCode
      invariant forall j :: 0 <= j < i ==> !StartsWithAny(stockCode, PrefixMapping[j].0)
    {
      if StartsWithAny(stockCode, PrefixMapping[i].0) {
        ghost var k :| 0 <= k < |PrefixMapping[i].0| && StartsWith(stockCode, PrefixMapping[i].0[k]);
        assert stockCode[0] == PrefixMapping[i].0[k][0];
        assert ExchangeFor(stockCode) == Some(PrefixMapping[i].1);
        code := PrefixMapping[i].1 + stockCode;
        found := true;
        break;
      }
      i := i + 1;
    }
    if !found {
      assert ExchangeFor(stockCode).None? by {
        if stockCode != [] {
          assert !StartsWith(stockCode, PrefixMapping[0].0[0]) && !StartsWith(stockCode, PrefixMapping[0].0[1]);
          assert !StartsWith(stockCode, PrefixMapping[1].0[0]) && !StartsWith(stockCode, PrefixMapping[1].0[1]);
          assert !StartsWith(stockCode, PrefixMapping[2].0[0]) && !StartsWith(stockCode, PrefixMapping[2].0[1]);
          assert stockCode[..1] == [stockCode[0]];
        }
      }
      return None;
    }
    if !MatchesCodePattern(code) {
      return None;
    }
    return Some(code);
  }

  // ---------------------------------------------------------------------------------------
  // Indicator table (get_financial_data, second part)

  const NameColumn: string := "指标名称"
  const ValueColumn: string := "指标值"

  /** `_REQUIRED_INDICATORS`. */
  const RequiredIndicators: seq<string> :=
    ["ROE(净资产收益率·摊薄)", "净利润增长率", "经营活动产生的现金流量净额/EBIT", "资产负债率", "股息率"]

  /** One row of `ak.stock_financial_analysis_indicator`: the text of its name and value cells. */
  datatype FinanceRow = FinanceRow(name: string, value: string)

  /** The fetched frame: its column labels and, per row, the two cells this code reads. */
  datatype FinanceFrame = FinanceFrame(columns: set<string>, rows: seq<FinanceRow>)

  /** A cleaned row: the stripped name and the value text, or `None` for NaN. */
  datatype Indicator = Indicator(name: string, value: Option<string>)

  /** The texts `replace({'--': nan, '-': nan, 'nan': nan})` maps to NaN. */
  predicate IsMissingMarker(s: string) { s == "--" || s == "-" || s == "nan" }

  /**
   * The cleaning chain of `指标值`: remove '%' and '％', then ',', then map the missing
   * markers to NaN (`None`). The numeric conversion that follows is not modelled.
   */
  function CleanValue(raw: string): (v: Option<string>)
    ensures v.Some? ==> forall i :: 0 <= i < |v.value| ==> v.value[i] !in {'%', '％', ','}
    ensures v.Some? ==> !IsMissingMarker(v.value)
    ensures v.Some? ==> |v.value| <= |raw|
    ensures (forall i :: 0 <= i < |raw| ==> raw[i] !in {'%', '％', ','}) && !IsMissingMarker(raw) ==> v == Some(raw)
    // the two passes remove the three characters at once; only the missing markers become NaN
    ensures v.None? <==> IsMissingMarker(RemoveChars(raw, CleanedChars))
    ensures v.Some? ==> v.value == RemoveChars(raw, CleanedChars)
  {
    var t := RemoveChars(RemoveChars(raw, {'%', '％'}), {','});
    RemoveCharsTwice(raw, {'%', '％'}, {','});
    assert {'%', '％'} + {','} == {'%', '％', ','};
    if IsMissingMarker(t) then None else Some(t)
  }

  const CleanedChars: set<char> := {'%', '％', ','}

  predicate IsClean(t: string) { forall i :: 0 <= i < |t| ==> t[i] !in CleanedChars }

  /** A trailing percent sign, in either width, is removed and the number kept. */
  lemma CleanValueDropsPercent(t: string, pct: char)
    requires pct == '%' || pct == '％'
    requires IsClean(t) && !IsMissingMarker(t)
    ensures CleanValue(t + [pct]) == Some(t)
  {
    RemoveCharsAppend(t, [pct], CleanedChars);
    RemoveCharsOne(pct, CleanedChars);
    assert RemoveChars(t, CleanedChars) == t;
    assert RemoveChars([pct], CleanedChars) == [];
    assert RemoveChars(t + [pct], CleanedChars) == t;
  }

  /** A thousands separator is removed and the digits on both sides are joined. */
  lemma CleanValueDropsSeparator(a: string, b: string)
    requires IsClean(a) && IsClean(b) && !IsMissingMarker(a + b)
    ensures CleanValue(a + "," + b) == Some(a + b)
  {
    RemoveCharsAppend(a + ",", b, CleanedChars);
    RemoveCharsAppend(a, ",", CleanedChars);
    RemoveCharsOne(',', CleanedChars);
    assert RemoveChars(a, CleanedChars) == a && RemoveChars(b, CleanedChars) == b;
    assert RemoveChars(",", CleanedChars) == [];
    assert RemoveChars(a + ",", CleanedChars) == a;
    assert RemoveChars(a + "," + b, CleanedChars) == a + b;
  }

  /** The missing markers become NaN, also once a percent sign is removed. */
  lemma CleanValueMissing()
    ensures CleanValue("--") == None
    ensures CleanValue("-%") == None
  {
    RemoveCharsAppend("-", "%", CleanedChars);
    RemoveCharsOne('%', CleanedChars);
    assert "-" + "%" == "-%";
  }

  /** Cleaning a cleaned value changes nothing. */
  lemma CleanValueIdempotent(raw: string)
    requires CleanValue(raw).Some?
    ensures CleanValue(CleanValue(raw).value) == CleanValue(raw)
  {
  }

  /** The names present after stripping (`set(df['指标名称'])`). */
  function IndicatorNames(rows: seq<Indicator>): set<string> {
    set r | r in rows :: r.name
  }

  /** `df.empty`: no rows or no columns. */
  predicate IsEmptyFrame(f: FinanceFrame) { |f.rows| == 0 || |f.columns| == 0 }

  /** The cleaned table: every row with its name stripped and its value cleaned, in order. */
  function CleanRows(rows: seq<FinanceRow>): (r: seq<Indicator>)
    ensures |r| == |rows|
    ensures forall i :: 0 <= i < |rows| ==> r[i] == Indicator(Strip(rows[i].name), CleanValue(rows[i].value))
  {
    if rows == [] then [] else [Indicator(Strip(rows[0].name), CleanValue(rows[0].value))] + CleanRows(rows[1..])
  }

  /**
   * `get_financial_data`, given what the provider returns for the corrected code (`None`
   * when it returns nothing): correction, the empty check, the column check, cleaning and
   * the indicator check, in that order.
   */
  method GetFinancialData(stockCode: string, fetched: Option<FinanceFrame>) returns (r: Option<seq<Indicator>>)
    ensures CorrectedCode(stockCode).None? ==> r.None?
    ensures r.Some? ==> fetched.Some? && !IsEmptyFrame(fetched.value)
    ensures r.Some? ==> NameColumn in fetched.value.columns && ValueColumn in fetched.value.columns
    ensures r.Some? ==> forall k :: 0 <= k < |RequiredIndicators| ==> RequiredIndicators[k] in IndicatorNames(r.value)
    ensures r.Some? ==> r.value == CleanRows(fetched.value.rows)
    ensures (CorrectedCode(stockCode).Some? && fetched.Some? && !IsEmptyFrame(fetched.value)
             && NameColumn in fetched.value.columns && ValueColumn in fetched.value.columns
             && forall k :: 0 <= k < |RequiredIndicators| ==> RequiredIndicators[k] in IndicatorNames(CleanRows(fetched.value.rows)))
            ==> r.Some?
  {
    var code := CorrectStockCode(stockCode);
    if code.None? {
      return None;
    }
    if fetched.None? || IsEmptyFrame(fetched.value) {
      return None;
    }
    var df := fetched.value;
    if !(NameColumn in df.columns && ValueColumn in df.columns) {
      return None;
    }
    var cleaned := CleanRows(df.rows);
    var existing := IndicatorNames(cleaned);
    if !(forall k :: 0 <= k < |RequiredIndicators| ==> RequiredIndicators[k] in existing) {
      return None;
    }
    return Some(cleaned);
  }

  // ---------------------------------------------------------------------------------------
  // Stock list (get_stock_list)

  /** A frame as labelled columns and rows of cell texts, by position. */
  datatype ListFrame = ListFrame(columns: seq<string>, rows: seq<seq<string>>)

  /** Every row has one cell per column, as in any DataFrame. */
  predicate Rectangular(f: ListFrame) {
    forall i :: 0 <= i < |f.rows| ==> |f.rows[i]| == |f.columns|
  }

  predicate IsEmptyList(f: ListFrame) { |f.rows| == 0 || |f.columns| == 0 }

  predicate HasCodeAndName(columns: seq<string>) { "code" in columns && "name" in columns }

  /** A source of `data_sources`: its label, its `col_map`, and what its call returned (`None` for `None` or a raise). */
  datatype DataSource = DataSource(sourceName: string, colMap: seq<(string, string)>, fetched: Option<ListFrame>)

  /** The pickled cache file: its modification time and its contents. */
  datatype CacheFile = CacheFile(mtime: real, frame: ListFrame)

  datatype Listing = Listing(code: string, name: string)

  /** `col_map.get(c, c)`. */
  function RenameColumn(colMap: seq<(string, string)>, c: string): string {
    if colMap == [] then c else if colMap[0].0 == c then colMap[0].1 else RenameColumn(colMap[1..], c)
  }

  /** `df.rename(columns=col_map)`. */
  function Rename(f: ListFrame, colMap: seq<(string, string)>): (g: ListFrame)
    ensures |g.columns| == |f.columns| && g.rows == f.rows
    ensures forall i :: 0 <= i < |f.columns| ==> g.columns[i] == RenameColumn(colMap, f.columns[i])
  {
    ListFrame(seq(|f.columns|, i requires 0 <= i < |f.columns| => RenameColumn(colMap, f.columns[i])), f.rows)
  }

  /** `xs.index(x)`: where `x` first occurs. */
  function IndexOf(xs: seq<string>, x: string): (k: nat)
    requires x in xs
    ensures k < |xs| && xs[k] == x
    ensures forall j :: 0 <= j < k ==> xs[j] != x
  {
    if xs[0] == x then 0 else 1 + IndexOf(xs[1..], x)
  }

  /** A source the loop accepts: something returned, not empty, and `code`, `name` after renaming. */
  predicate Usable(src: DataSource) {
    src.fetched.Some? && !IsEmptyList(src.fetched.value) && HasCodeAndName(Rename(src.fetched.value, src.colMap).columns)
  }

  /** `stock_df[['code', 'name']]` after renaming. */
  function ProjectListings(f: ListFrame): (r: seq<Listing>)
    requires Rectangular(f) && HasCodeAndName(f.columns)
    ensures |r| == |f.rows|
    // listing i holds row i's cells under the `code` and `name` labels
    ensures forall i :: 0 <= i < |r| ==>
      r[i].code == f.rows[i][IndexOf(f.columns, "code")] && r[i].name == f.rows[i][IndexOf(f.columns, "name")]
  {
    var ci, ni := IndexOf(f.columns, "code"), IndexOf(f.columns, "name");
    seq(|f.rows|, i requires 0 <= i < |f.rows| => Listing(f.rows[i][ci], f.rows[i][ni]))
  }

  function Codes(rows: seq<Listing>): set<string> {
    set r | r in rows :: r.code
  }

  /** `drop_duplicates('code')`: a left-to-right pass that skips codes already seen. */
  function DedupFrom(rows: seq<Listing>, seen: set<string>): seq<Listing> {
    if rows == [] then []
    else if rows[0].code in seen then DedupFrom(rows[1..], seen)
    else [rows[0]] + DedupFrom(rows[1..], seen + {rows[0].code})
  }

  function DedupByCode(rows: seq<Listing>): (r: seq<Listing>)
    ensures |r| <= |rows| && Codes(r) == Codes(rows)
  {
    DedupKeepsFirst(rows);
    KeepFirstCodes(rows);
    DedupFrom(rows, {})
  }

  /**
   * The rows that are the first occurrence of their code, defined from the last row back:
   * a row stays exactly when no earlier row has its code.
   */
  function KeepFirst(rows: seq<Listing>): (r: seq<Listing>)
    ensures |r| <= |rows|
  {
    if rows == [] then []
    else
      var init := rows[..|rows| - 1];
      var last := rows[|rows| - 1];
      if last.code in Codes(init) then KeepFirst(init) else KeepFirst(init) + [last]
  }

  /** The kept rows cover every code of the input. */
  lemma {:induction false} KeepFirstCodes(rows: seq<Listing>)
    ensures Codes(KeepFirst(rows)) == Codes(rows)
  {
    if rows != [] {
      var init := rows[..|rows| - 1];
      var last := rows[|rows| - 1];
      var prev := KeepFirst(init);
      KeepFirstCodes(init);
      assert rows == init + [last];
      assert Codes(rows) == Codes(init) + {last.code};
      if last.code !in Codes(init) {
        assert Codes(prev + [last]) == Codes(prev) + {last.code};
      }
    }
  }

  /** The kept rows come from the input. */
  lemma {:induction false} KeepFirstFromInput(rows: seq<Listing>)
    ensures forall x :: x in KeepFirst(rows) ==> x in rows
  {
    if rows != [] {
      var init := rows[..|rows| - 1];
      KeepFirstFromInput(init);
      assert rows == init + [rows[|rows| - 1]];
    }
  }

  /** The kept rows have distinct codes. */
  lemma {:induction false} KeepFirstDistinct(rows: seq<Listing>)
    ensures forall i, j :: 0 <= i < j < |KeepFirst(rows)| ==> KeepFirst(rows)[i].code != KeepFirst(rows)[j].code
  {
    if rows != [] {
      var init := rows[..|rows| - 1];
      var last := rows[|rows| - 1];
      var prev := KeepFirst(init);
      KeepFirstDistinct(init);
      KeepFirstCodes(init);
      if last.code !in Codes(init) {
        var r := prev + [last];
        assert KeepFirst(rows) == r;
        forall i | 0 <= i < |prev| ensures r[i].code != last.code {
          assert r[i] == prev[i] && prev[i] in prev;
        }
      }
    }
  }

  /** Every row `KeepFirst` keeps is the earliest row with its code. */
  lemma {:induction false} KeepFirstIsFirstOccurrence(rows: seq<Listing>, i: nat)
    requires i < |KeepFirst(rows)|
    ensures exists k :: 0 <= k < |rows| && rows[k] == KeepFirst(rows)[i]
                        && forall j :: 0 <= j < k ==> rows[j].code != rows[k].code
  {
    var init := rows[..|rows| - 1];
    var last := rows[|rows| - 1];
    assert rows == init + [last];
    var prev := KeepFirst(init);
    if i < |prev| {
      assert KeepFirst(rows)[i] == prev[i];
      KeepFirstIsFirstOccurrence(init, i);
      var k :| 0 <= k < |init| && init[k] == prev[i] && forall j :: 0 <= j < k ==> init[j].code != init[k].code;
      assert rows[k] == init[k];
    } else {
      assert last.code !in Codes(init) && KeepFirst(rows)[i] == last;
      var k := |rows| - 1;
      forall j | 0 <= j < k ensures rows[j].code != rows[k].code {
        assert rows[j] == init[j] && init[j] in init;
      }
    }
  }

  /** Appending a row to the input of the pass appends it to the output unless its code was seen. */
  lemma {:induction false} DedupFromSnoc(rows: seq<Listing>, x: Listing, seen: set<string>)
    ensures DedupFrom(rows + [x], seen) ==
      DedupFrom(rows, seen) + (if x.code in seen + Codes(rows) then [] else [x])
  {
    if rows == [] {
      assert [] + [x] == [x];
    } else {
      assert (rows + [x])[0] == rows[0] && (rows + [x])[1..] == rows[1..] + [x];
      assert Codes(rows) == {rows[0].code} + Codes(rows[1..]) by { assert rows == [rows[0]] + rows[1..]; }
      if rows[0].code in seen {
        DedupFromSnoc(rows[1..], x, seen);
      } else {
        DedupFromSnoc(rows[1..], x, seen + {rows[0].code});
      }
    }
  }

  /** `drop_duplicates('code')` keeps exactly the first occurrence of every code, in input order. */
  lemma {:induction false} DedupKeepsFirst(rows: seq<Listing>)
    ensures DedupFrom(rows, {}) == KeepFirst(rows)
  {
    if rows != [] {
      var init := rows[..|rows| - 1];
      assert rows == init + [rows[|rows| - 1]];
      DedupKeepsFirst(init);
      DedupFromSnoc(init, rows[|rows| - 1], {});
    }
  }

  /** The first usable source at or after `from`. */
  function FirstUsable(sources: seq<DataSource>, from: nat): (r: Option<nat>)
    requires from <= |sources|
    ensures r.None? <==> forall k :: from <= k < |sources| ==> !Usable(sources[k])
    ensures r.Some? ==> from <= r.value < |sources| && Usable(sources[r.value])
                        && forall k :: from <= k < r.value ==> !Usable(sources[k])
    decreases |sources| - from
  {
    if from == |sources| then None
    else if Usable(sources[from]) then Some(from)
    else FirstUsable(sources, from + 1)
  }

  /** `stock_df[['code', 'name']]` of a usable source, after renaming and before deduplication. */
  function SourceListings(src: DataSource): seq<Listing>
    requires Usable(src) && Rectangular(src.fetched.value)
  {
    ProjectListings(Rename(src.fetched.value, src.colMap))
  }

  /** The frame a usable source yields: `code`, `name`, first occurrence of each code. */
  function FreshList(src: DataSource): (f: ListFrame)
    requires Usable(src) && Rectangular(src.fetched.value)
    ensures f.columns == ["code", "name"] && Rectangular(f)
    ensures |f.rows| == |KeepFirst(SourceListings(src))|
    ensures forall i :: 0 <= i < |f.rows| ==>
      f.rows[i] == [KeepFirst(SourceListings(src))[i].code, KeepFirst(SourceListings(src))[i].name]
  {
    var listings := DedupByCode(SourceListings(src));
    DedupKeepsFirst(SourceListings(src));
    ListFrame(["code", "name"], seq(|listings|, i requires 0 <= i < |listings| => [listings[i].code, listings[i].name]))
  }

  /** The codes of the list `get_stock_list` builds from a source are the codes of the source. */
  lemma FreshListCodes(src: DataSource)
    requires Usable(src) && Rectangular(src.fetched.value)
    ensures var f := FreshList(src); (set i | 0 <= i < |f.rows| :: f.rows[i][0]) == Codes(SourceListings(src))
  {
    var f, l := FreshList(src), SourceListings(src);
    var kept := KeepFirst(l);
    KeepFirstCodes(l);
    forall c | c in Codes(kept) ensures c in (set i | 0 <= i < |f.rows| :: f.rows[i][0]) {
      var x :| x in kept && x.code == c;
      var i :| 0 <= i < |kept| && kept[i] == x;
      assert f.rows[i][0] == c;
    }
  }

  /** No code appears twice in the list `get_stock_list` builds from a source. */
  lemma FreshListDistinct(src: DataSource)
    requires Usable(src) && Rectangular(src.fetched.value)
    ensures var f := FreshList(src); forall i, j :: 0 <= i < j < |f.rows| ==> f.rows[i][0] != f.rows[j][0]
  {
    var l := SourceListings(src);
    var f, kept := FreshList(src), KeepFirst(l);
    forall i, j | 0 <= i < j < |f.rows| ensures f.rows[i][0] != f.rows[j][0] {
      KeepFirstDistinct(l);
      assert f.rows[i][0] == kept[i].code && f.rows[j][0] == kept[j].code;
    }
  }

  /** Each row of the list `get_stock_list` builds is the first of the source's rows with its code. */
  lemma FreshListFirstOccurrences(src: DataSource)
    requires Usable(src) && Rectangular(src.fetched.value)
    ensures var f, l := FreshList(src), SourceListings(src);
      forall i :: 0 <= i < |f.rows| ==>
        exists k :: 0 <= k < |l| && f.rows[i] == [l[k].code, l[k].name]
                    && forall j :: 0 <= j < k ==> l[j].code != l[k].code
  {
    var f, l := FreshList(src), SourceListings(src);
    var kept := KeepFirst(l);
    forall i | 0 <= i < |f.rows|
      ensures exists k :: 0 <= k < |l| && f.rows[i] == [l[k].code, l[k].name]
                          && forall j :: 0 <= j < k ==> l[j].code != l[k].code
    {
      KeepFirstIsFirstOccurrence(l, i);
      var k :| 0 <= k < |l| && l[k] == kept[i] && forall j :: 0 <= j < k ==> l[j].code != l[k].code;
      assert f.rows[i] == [l[k].code, l[k].name];
    }
  }

  /** The cache is used when younger than a day and it has `code` and `name` columns. */
  predicate CacheUsable(cache: Option<CacheFile>, now: real) {
    cache.Some? && now - cache.value.mtime < 86400.0 && HasCodeAndName(cache.value.frame.columns)
  }

  /** The three sources of `get_stock_list`, in order, given what each call returned. */
  function DataSources(primary: Option<ListFrame>, shenzhen: Option<ListFrame>, spot: Option<ListFrame>): seq<DataSource> {
    [DataSource("AKShare主源", [], primary),
     DataSource("深交所", [("证券代码", "code"), ("证券简称", "name")], shenzhen),
     DataSource("腾讯财经", [("代码", "code"), ("名称", "name")], spot)]
  }

  /**
   * `get_stock_list` (one call, without the tenacity retry): the cache when it is usable,
   * otherwise the first usable source, written back to the cache; `ConnectionError` when
   * every source fails.
   */
  method GetStockList(cache: Option<CacheFile>, now: real, sources: seq<DataSource>)
    returns (r: Result<ListFrame, string>, written: Option<ListFrame>)
    requires forall k :: 0 <= k < |sources| && sources[k].fetched.Some? ==> Rectangular(sources[k].fetched.value)
    ensures CacheUsable(cache, now) ==> r == Ok(cache.value.frame) && written.None?
    ensures !CacheUsable(cache, now) ==> (r.Ok? <==> FirstUsable(sources, 0).Some?)
    ensures !CacheUsable(cache, now) && r.Ok? ==> r.value == FreshList(sources[FirstUsable(sources, 0).value]) && written == Some(r.value)
    ensures r.Err? ==> r.error == "ConnectionError" && written.None?
  {
    if cache.Some? && now - cache.value.mtime < 86400.0 {
      if HasCodeAndName(cache.value.frame.columns) {
        return Ok(cache.value.frame), None;
      }
    }
    var i := 0;
    while i < |sources|
      invariant 0 <= i <= |sources|
      invariant FirstUsable(sources, 0) == FirstUsable(sources, i)
    {
      var source := sources[i];
      if source.fetched.None? || IsEmptyList(source.fetched.value) {
        i := i + 1;
        continue;
      }
      var stockDf := Rename(source.fetched.value, source.colMap);
      if !HasCodeAndName(stockDf.columns) {
        i := i + 1;
        continue;
      }
      var listing := FreshList(source);
      return Ok(listing), Some(listing);
    }
    return Err("ConnectionError"), None;
  }

  // ---------------------------------------------------------------------------------------
  // Kline window (get_stock_kline)

  /** A day of `ak.stock_zh_a_hist` after renaming: date (as a day number), close, volume. */
  datatype KlineRow = KlineRow(date: int, close: real, volume: real)

  function DateKey(row: KlineRow): real { row.date as real }

  /**
   * `get_stock_kline`: `None` below `min_days` rows; otherwise the rows sorted by date and
   * the last `2 * min_days` of them.
   */
  function KlineWindow(rows: seq<KlineRow>): (r: Option<seq<KlineRow>>)
    ensures r.None? <==> |rows| < MinDays
    ensures r.Some? ==> MinDays <= |r.value| <= 2 * MinDays
    ensures r.Some? ==> |r.value| == if |rows| < 2 * MinDays then |rows| else 2 * MinDays
    ensures r.Some? ==> SortedBy(r.value, DateKey)
    ensures r.Some? ==> multiset(r.value) <= multiset(rows)
    // the rows it drops are never later than a row it keeps
    ensures r.Some? ==> forall x, y :: x in multiset(rows) - multiset(r.value) && y in r.value ==> x.date <= y.date
  {
    if |rows| < MinDays then None
    else
      var sorted := SortBy(rows, DateKey);
      var n := if |sorted| < 2 * MinDays then |sorted| else 2 * MinDays;
      SortedTail(sorted, DateKey, n);
      Some(sorted[|sorted| - n..])
  }

  // ---------------------------------------------------------------------------------------
  // Selection rule (analyze_stock)

  /** The fundamentals `analyze_stock` reads, already averaged (ROE and growth over 3, cash flow over 5). */
  datatype Fundamentals = Fundamentals(roe: real, profitGrowth: real, cashFlowRatio: real, debtRatio: real, dividendYield: real)

  /** A row of the kline frame after `calculate_technical_indicators` and `dropna()`. */
  datatype TechRow = TechRow(close: real, ma250: real, macd: real, signal: real, volume: real, volumeMa5: real)

  /** What `analyze_stock` returns for a selected stock. `volumeRatio` is `None` where `volume_ma_5` is 0. */
  datatype Selection = Selection(code: string, name: string, close: real, ma250: real, macd: real, signal: real,
                                 volumeRatio: Option<real>)

  predicate FundamentalsPass(f: Fundamentals) {
    f.roe > RoeThreshold && f.profitGrowth > ProfitGrowthThreshold && f.cashFlowRatio > CashFlowThreshold
    && f.debtRatio < DebtRatioThreshold && f.dividendYield > DividendYieldThreshold
  }

  /** `macd_cross`: MACD above its signal line today, and not above it on the previous row if there is one. */
  predicate GoldenCross(tech: seq<TechRow>)
    requires |tech| > 0
  {
    var latest := tech[|tech| - 1];
    latest.macd > latest.signal && (|tech| < 2 || tech[|tech| - 2].macd <= tech[|tech| - 2].signal)
  }

  /** The technical conditions on the latest row. */
  predicate TechnicalPass(tech: seq<TechRow>)
    requires |tech| > 0
  {
    var latest := tech[|tech| - 1];
    latest.close > latest.ma250 && GoldenCross(tech) && latest.volume > latest.volumeMa5 * VolumeIncreaseRatio
  }

  /**
   * `analyze_stock`. `fundamentals` is `None` when `get_financial_data` gives nothing or an
   * indicator row is missing; `kline` is the result of `get_stock_kline`; `tech` is that
   * frame after the indicators are added and NaN rows dropped; `name` is the stock list's
   * name for the code (`None` when the lookup raises).
   */
  function AnalyzeStock(code: string, fundamentals: Option<Fundamentals>, kline: Option<seq<KlineRow>>,
                        tech: seq<TechRow>, name: Option<string>): (r: Option<Selection>)
    ensures r.Some? ==> fundamentals.Some? && FundamentalsPass(fundamentals.value)
    ensures r.Some? ==> kline.Some? && |kline.value| >= MinDays
    ensures r.Some? ==> |tech| > 0 && TechnicalPass(tech) && name.Some?
    ensures r.Some? ==> r.value.code == code && r.value.close == tech[|tech| - 1].close
                        && r.value.macd > r.value.signal && r.value.close > r.value.ma250
    // the remaining fields are those of the latest row and the stock list's name
    ensures r.Some? ==> r.value.name == name.value && r.value.ma250 == tech[|tech| - 1].ma250
                        && r.value.macd == tech[|tech| - 1].macd && r.value.signal == tech[|tech| - 1].signal
    ensures r.Some? ==> (r.value.volumeRatio.Some? <==> tech[|tech| - 1].volumeMa5 != 0.0)
    ensures r.Some? && tech[|tech| - 1].volumeMa5 != 0.0 ==>
              r.value.volumeRatio == Some(tech[|tech| - 1].volume / tech[|tech| - 1].volumeMa5)
    ensures (fundamentals.Some? && FundamentalsPass(fundamentals.value) && kline.Some? && |kline.value| >= MinDays
             && |tech| > 0 && TechnicalPass(tech) && name.Some?) ==> r.Some?
  {
    if fundamentals.None? || !FundamentalsPass(fundamentals.value) then None
    else if kline.None? || |kline.value| < MinDays then None
    else if |tech| == 0 then None
    else
      var latest := tech[|tech| - 1];
      if TechnicalPass(tech) && name.Some? then
        Some(Selection(code, name.value, latest.close, latest.ma250, latest.macd, latest.signal,
                       if latest.volumeMa5 == 0.0 then None else Some(latest.volume / latest.volumeMa5)))
      else None
  }

  /** A stock failing the fundamental thresholds is rejected before its kline is looked at. */
  lemma FundamentalsShortCircuit(code: string, f: Fundamentals, k1: Option<seq<KlineRow>>, k2: Option<seq<KlineRow>>,
                                 t1: seq<TechRow>, t2: seq<TechRow>, n1: Option<string>, n2: Option<string>)
    requires !FundamentalsPass(f)
    ensures AnalyzeStock(code, Some(f), k1, t1, n1) == AnalyzeStock(code, Some(f), k2, t2, n2) == None
  {
  }

  /** With a previous row, a golden cross is a strict crossing of MACD over its signal line. */
  lemma GoldenCrossIsCrossing(tech: seq<TechRow>)
    requires |tech| >= 2
    ensures GoldenCross(tech) <==>
      tech[|tech| - 2].macd - tech[|tech| - 2].signal <= 0.0 < tech[|tech| - 1].macd - tech[|tech| - 1].signal
  {
  }
}
