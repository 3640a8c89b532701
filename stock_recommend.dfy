/**
 * The low-frequency value screen of `tests/stock_recommend.py`: resolving the snapshot's
 * columns, the bounded retry loop with exponential back-off, the PB/PE screen that keeps
 * the twenty cheapest stocks by PE, and the price band written into each screened row.
 */
module StockRecommend {
  import opened Common
  import opened Sorting

  // ---------------------------------------------------------------------------------------
  // Snapshot frames

  /** A cell of the spot snapshot: a number, some text, or nothing. */
  datatype Cell = Num(x: real) | Txt(s: string) | Missing

  /** A snapshot frame: its column labels and its rows, each a map from label to cell. */
  datatype SpotFrame = SpotFrame(columns: set<string>, rows: seq<map<string, Cell>>)

  /** What one call of `ak.stock_zh_a_spot_em` gives: a frame, or an exception. */
  datatype Attempt = Raised | Fetched(frame: SpotFrame)

  /** Every row has a cell for every column, as in any DataFrame. */
  predicate Rectangular(f: SpotFrame) {
    forall i :: 0 <= i < |f.rows| ==> f.columns <= f.rows[i].Keys
  }

  /** `column_mapping`: each key with its candidate column labels, in insertion order. */
  const ColumnMapping: seq<(string, seq<string>)> :=
    [("code", ["代码"]), ("name", ["名称"]), ("price", ["最新价"]), ("pb", ["市净率"]), ("pe", ["市盈率-动态"])]

  /** The first candidate present among the columns. */
  function FirstPresent(candidates: seq<string>, columns: set<string>): (r: Option<string>)
    ensures r.Some? ==> r.value in candidates && r.value in columns
    ensures r.None? <==> forall c :: c in candidates ==> c !in columns
  {
    if candidates == [] then None
    else if candidates[0] in columns then Some(candidates[0])
    else FirstPresent(candidates[1..], columns)
  }

  lemma FirstPresentAt(candidates: seq<string>, columns: set<string>, k: nat)
    requires k < |candidates| && candidates[k] in columns
    requires forall j :: 0 <= j < k ==> candidates[j] !in columns
    ensures FirstPresent(candidates, columns) == Some(candidates[k])
  {
    if k > 0 {
      FirstPresentAt(candidates[1..], columns, k - 1);
    }
  }

  /** The column each key resolves to. */
  function Resolve(key: string, columns: set<string>): (r: Option<string>)
    ensures r.Some? ==> r.value in columns
  {
    if key == "code" then FirstPresent(["代码"], columns)
    else if key == "name" then FirstPresent(["名称"], columns)
    else if key == "price" then FirstPresent(["最新价"], columns)
    else if key == "pb" then FirstPresent(["市净率"], columns)
    else FirstPresent(["市盈率-动态"], columns)
  }

  /** `column_mapping` lists, for each key, the candidates `Resolve` searches. */
  lemma MappingAgrees(columns: set<string>)
    ensures forall j :: 0 <= j < |ColumnMapping| ==> Resolve(ColumnMapping[j].0, columns) == FirstPresent(ColumnMapping[j].1, columns)
    ensures forall j :: 0 <= j < 4 ==> ColumnMapping[j].0 != "pe"
    ensures ColumnMapping[4].0 == "pe"
  {
  }

  /** A key other than `pe` has no column: the method returns an empty frame at once. */
  predicate AbortsOn(columns: set<string>) {
    Resolve("code", columns).None? || Resolve("name", columns).None? || Resolve("price", columns).None?
    || Resolve("pb", columns).None?
  }

  /** The numeric fields of a kept row, in the order of `actual_columns`. */
  datatype SpotValues = SpotValues(code: Cell, name: Cell, price: real, pb: real, pe: real)

  /** A row of the frame `get_stock_fundamentals` returns. */
  datatype FundamentalRow = FundamentalRow(code: Cell, name: Cell, price: real, pb: real, pe: real,
                                           dividendYield: real, pbPct: real)

  /** The labels `actual_columns` maps the five keys to. */
  datatype ColumnChoice = ColumnChoice(code: string, name: string, price: string, pb: string, pe: string)

  predicate RowHas(row: map<string, Cell>, c: ColumnChoice) {
    c.code in row && c.name in row && c.price in row && c.pb in row && c.pe in row
  }

  /** A row survives `to_numeric(errors='coerce')` and `dropna()`. */
  predicate Survives(row: map<string, Cell>, c: ColumnChoice)
    requires RowHas(row, c)
  {
    row[c.code] != Missing && row[c.name] != Missing && row[c.price].Num? && row[c.pb].Num? && row[c.pe].Num?
  }

  /** The rows kept after conversion, in order, with their numbers. */
  function Converted(rows: seq<map<string, Cell>>, c: ColumnChoice): (r: seq<SpotValues>)
    requires forall i :: 0 <= i < |rows| ==> RowHas(rows[i], c)
    ensures |r| <= |rows|
  {
    if rows == [] then []
    else
      var rest := Converted(rows[1..], c);
      if Survives(rows[0], c) then [ValuesOf(rows[0], c)] + rest else rest
  }

  /** Exactly the values of the rows that survive the conversion are kept. */
  lemma {:induction false} ConvertedKeeps(rows: seq<map<string, Cell>>, c: ColumnChoice)
    requires forall i :: 0 <= i < |rows| ==> RowHas(rows[i], c)
    ensures forall v :: v in Converted(rows, c) <==>
      exists i :: 0 <= i < |rows| && Survives(rows[i], c) && v == ValuesOf(rows[i], c)
  {
    if rows != [] {
      ConvertedKeeps(rows[1..], c);
      assert forall i :: 1 <= i < |rows| ==> rows[i] == rows[1..][i - 1];
      assert forall i :: 0 <= i < |rows| - 1 ==> rows[1..][i] == rows[i + 1];
    }
  }

  function ValuesOf(row: map<string, Cell>, c: ColumnChoice): SpotValues
    requires RowHas(row, c) && Survives(row, c)
  {
    SpotValues(row[c.code], row[c.name], row[c.price].x, row[c.pb].x, row[c.pe].x)
  }

  /** `np.clip(x, lo, hi)`. */
  function Clip(x: real, lo: real, hi: real): (r: real)
    requires lo <= hi
    ensures lo <= r <= hi
    ensures lo <= x <= hi ==> r == x
  {
    if x < lo then lo else if x > hi then hi else x
  }

  /**
   * The simulated columns: `dividend_yield` 0.03 on every row, `pb_10year_pct` the `i`-th
   * normal draw clipped to [0, 0.3]. The draws are a parameter.
   */
  function WithSimulatedFields(values: seq<SpotValues>, draw: nat -> real): (r: seq<FundamentalRow>)
    ensures |r| == |values|
    ensures forall i :: 0 <= i < |r| ==>
      r[i].code == values[i].code && r[i].name == values[i].name && r[i].price == values[i].price
      && r[i].pb == values[i].pb && r[i].pe == values[i].pe
    ensures forall i :: 0 <= i < |r| ==> r[i].dividendYield == 0.03 && 0.0 <= r[i].pbPct <= 0.3
  {
    var r := seq(|values|, i requires 0 <= i < |values| =>
      FundamentalRow(values[i].code, values[i].name, values[i].price, values[i].pb, values[i].pe,
                     0.03, Clip(draw(i), 0.0, 0.3)));
    assert forall i :: 0 <= i < |r| ==> r[i].pbPct == Clip(draw(i), 0.0, 0.3);
    r
  }

  /** How one pass of the `try` block ends. */
  datatype Outcome = Failed | Done(rows: seq<FundamentalRow>)

  /** One pass of the `try` block, given what the fetch gave. */
  function AttemptResult(a: Attempt, draw: nat -> real): (o: Outcome)
    requires a.Fetched? ==> Rectangular(a.frame)
    // a raise, or a frame without a PE column (KeyError), fails the pass; nothing else does
    ensures o.Failed? <==> a.Raised? || (!AbortsOn(a.frame.columns) && Resolve("pe", a.frame.columns).None?)
    // a missing column other than PE ends the method with an empty frame
    ensures a.Fetched? && AbortsOn(a.frame.columns) ==> o == Done([])
    ensures o.Done? ==> |o.rows| <= |a.frame.rows|
  {
    if a.Raised? then Failed
    else if AbortsOn(a.frame.columns) then Done([])
    else if Resolve("pe", a.frame.columns).None? then Failed   // `required_df['pe']` raises KeyError
    else
      var cols := a.frame.columns;
      var c := ColumnChoice(Resolve("code", cols).value, Resolve("name", cols).value, Resolve("price", cols).value,
                            Resolve("pb", cols).value, Resolve("pe", cols).value);
      Done(WithSimulatedFields(Converted(a.frame.rows, c), draw))
  }

  predicate WellFormed(attempts: seq<Attempt>) {
    forall k :: 0 <= k < |attempts| && attempts[k].Fetched? ==> Rectangular(attempts[k].frame)
  }

  /** The index of the first of the first `limit` attempts that does not fail. */
  function FirstDone(attempts: seq<Attempt>, draw: nat -> real, limit: nat, from: nat): (r: Option<nat>)
    requires WellFormed(attempts) && limit <= |attempts| && from <= limit
    ensures r.Some? ==> from <= r.value < limit && AttemptResult(attempts[r.value], draw).Done?
    decreases limit - from
  {
    if from == limit then None
    else if AttemptResult(attempts[from], draw).Done? then Some(from)
    else FirstDone(attempts, draw, limit, from + 1)
  }

  /** No attempt within the limit finishes exactly when every one of them fails. */
  lemma {:induction false} FirstDoneNone(attempts: seq<Attempt>, draw: nat -> real, limit: nat, from: nat)
    requires WellFormed(attempts) && limit <= |attempts| && from <= limit
    ensures FirstDone(attempts, draw, limit, from).None? <==>
      forall k :: from <= k < limit ==> AttemptResult(attempts[k], draw).Failed?
    decreases limit - from
  {
    if from < limit && AttemptResult(attempts[from], draw).Failed? {
      FirstDoneNone(attempts, draw, limit, from + 1);
    }
  }

  /** Every attempt before the first finished one fails. */
  lemma {:induction false} FirstDoneIsFirst(attempts: seq<Attempt>, draw: nat -> real, limit: nat, from: nat)
    requires WellFormed(attempts) && limit <= |attempts| && from <= limit
    requires FirstDone(attempts, draw, limit, from).Some?
    ensures forall k :: from <= k < FirstDone(attempts, draw, limit, from).value ==>
      AttemptResult(attempts[k], draw).Failed?
    decreases limit - from
  {
    if AttemptResult(attempts[from], draw).Failed? {
      FirstDoneIsFirst(attempts, draw, limit, from + 1);
    }
  }

  /** What `get_stock_fundamentals` returns: the first finished attempt's frame, or an empty one. */
  function Fundamentals(attempts: seq<Attempt>, draw: nat -> real, limit: nat): (r: seq<FundamentalRow>)
    requires WellFormed(attempts) && limit <= |attempts|
    ensures forall i :: 0 <= i < |r| ==> r[i].dividendYield == 0.03 && 0.0 <= r[i].pbPct <= 0.3
  {
    var k := FirstDone(attempts, draw, limit, 0);
    if k.None? then [] else AttemptResult(attempts[k.value], draw).rows
  }

  function Pow2(n: nat): nat { if n == 0 then 1 else 2 * Pow2(n - 1) }

  /** The back-off slept after `failures` failed attempts: 2 + 4 + ... + 2^failures seconds. */
  function BackoffTotal(failures: nat): real {
    if failures == 0 then 0.0 else BackoffTotal(failures - 1) + Pow2(failures) as real
  }

  /** The geometric sum in closed form. */
  lemma {:induction false} BackoffTotalClosedForm(failures: nat)
    ensures BackoffTotal(failures) == (Pow2(failures + 1) - 2) as real
  {
    if failures > 0 {
      BackoffTotalClosedForm(failures - 1);
    }
  }

  // ---------------------------------------------------------------------------------------
  // Screen and price band

  predicate Qualifies(r: FundamentalRow) { r.pb < 2.0 && r.pe < 30.0 && r.pbPct < 0.3 }

  /** The boolean mask of `stock_screen`, in row order. */
  function Qualifying(df: seq<FundamentalRow>): (r: seq<FundamentalRow>)
    ensures |r| <= |df|
    ensures multiset(r) <= multiset(df)
    ensures forall x :: x in r <==> x in df && Qualifies(x)
  {
    if df == [] then []
    else
      assert df == [df[0]] + df[1..];
      if Qualifies(df[0]) then [df[0]] + Qualifying(df[1..]) else Qualifying(df[1..])
  }

  function PeKey(r: FundamentalRow): real { r.pe }

  const ScreenSize: nat := 20

  /** `stock_screen`: the qualifying rows sorted by PE ascending, first twenty (`StockScreenSelects`). */
  function StockScreen(df: seq<FundamentalRow>): (r: seq<FundamentalRow>)
    ensures |r| == if |Qualifying(df)| < ScreenSize then |Qualifying(df)| else ScreenSize
  {
    var sorted := SortBy(Qualifying(df), PeKey);
    var n := if |sorted| < ScreenSize then |sorted| else ScreenSize;
    sorted[..n]
  }

  /**
   * The screen is drawn from the input, qualifies, is sorted by PE, and holds the smallest
   * PEs among the qualifying rows.
   */
  lemma StockScreenSelects(df: seq<FundamentalRow>)
    ensures var r := StockScreen(df);
      multiset(r) <= multiset(df)
      && (forall x :: x in r ==> Qualifies(x))
      && SortedBy(r, PeKey)
      && forall x, y :: x in multiset(Qualifying(df)) - multiset(r) && y in r ==> y.pe <= x.pe
  {
    var q := Qualifying(df);
    var sorted := SortBy(q, PeKey);
    var n := if |sorted| < ScreenSize then |sorted| else ScreenSize;
    var r := sorted[..n];
    assert r == StockScreen(df);
    SortedHead(sorted, PeKey, n);
    assert multiset(r) <= multiset(q) <= multiset(df);
    forall x | x in r ensures Qualifies(x) {
      assert x in multiset(r);
      assert x in multiset(q);
    }
  }

  /** The band written by `generate_price_targets`. */
  datatype PriceTargets = PriceTargets(low: real, fair: real, high: real)

  /** A screened row, with its price band once computed. */
  datatype PricedRow = PricedRow(row: FundamentalRow, targets: Option<PriceTargets>)

  /** The band around a price: fair is the price, low and high are 20% either side. */
  function TargetsFor(price: real): (t: PriceTargets)
    ensures t.fair == price && t.low + t.high == 2.0 * t.fair
    ensures t.high - t.fair == 0.2 * price
    ensures price >= 0.0 ==> t.low <= t.fair <= t.high
    ensures price < 0.0 ==> t.low > t.fair > t.high
  {
    PriceTargets(price * 0.8, price * 1.0, price * 1.2)
  }

  /** `generate_price_targets`: writes the three price columns into every row, in place. */
  method GeneratePriceTargets(df: array<PricedRow>)
    modifies df
    ensures forall i :: 0 <= i < df.Length ==> df[i] == PricedRow(old(df[i]).row, Some(TargetsFor(old(df[i]).row.price)))
  {
    for i := 0 to df.Length
      invariant forall j :: 0 <= j < i ==> df[j] == PricedRow(old(df[j]).row, Some(TargetsFor(old(df[j]).row.price)))
      invariant forall j :: i <= j < df.Length ==> df[j] == old(df[j])
    {
      df[i] := PricedRow(df[i].row, Some(TargetsFor(df[i].row.price)));
    }
  }

  // ---------------------------------------------------------------------------------------
  // The strategy object

  class LowFrequencyQuant {
    var stockPool: seq<string>
    const positionFile: string
    const historicalYears: nat
    const maxRetries: nat

    constructor()
      ensures stockPool == [] && positionFile == "positions.csv" && historicalYears == 10 && maxRetries == 3
    {
      stockPool := [];
      positionFile := "positions.csv";
      historicalYears := 10;
      maxRetries := 3;
    }

    /**
     * One pass of the `try` block: the `actual_columns` loop over `column_mapping` (first
     * present candidate per key, early empty result for a missing key other than `pe`),
     * the selection that raises when `pe` is unresolved, conversion, and the simulated columns.
     */
    static method TryFetch(a: Attempt, draw: nat -> real) returns (o: Outcome)
      requires a.Fetched? ==> Rectangular(a.frame)
      ensures o == AttemptResult(a, draw)
    {
      if a.Raised? {
        return Failed;
      }
      var spot := a.frame;
      var resolved := ResolveColumns(spot.columns);
      if resolved.None? {
        return Done([]);
      }
      var actual := resolved.value;
      if "pe" !in actual {
        return Failed;
      }
      var choice := ColumnChoice(actual["code"], actual["name"], actual["price"], actual["pb"], actual["pe"]);
      return Done(WithSimulatedFields(Converted(spot.rows, choice), draw));
    }

    /**
     * The `actual_columns` loop: for each key of `column_mapping` in order, the first
     * candidate present; `None` where the method returns an empty frame for a missing key
     * other than `pe`.
     */
    static method ResolveColumns(columns: set<string>) returns (r: Option<map<string, string>>)
      ensures r.None? <==> AbortsOn(columns)
      ensures r.Some? ==> "code" in r.value && "name" in r.value && "price" in r.value && "pb" in r.value
      ensures r.Some? ==> ("pe" in r.value <==> Resolve("pe", columns).Some?)
      ensures r.Some? ==> forall key :: key in r.value ==> Resolve(key, columns) == Some(r.value[key])
    {
      MappingAgrees(columns);
      var actual: map<string, string> := map[];
      var k := 0;
      while k < |ColumnMapping|
        invariant 0 <= k <= |ColumnMapping|
        invariant forall j :: 0 <= j < k && j < 4 ==> Resolve(ColumnMapping[j].0, columns).Some?
        invariant forall j :: 0 <= j < k ==> (ColumnMapping[j].0 in actual <==> Resolve(ColumnMapping[j].0, columns).Some?)
        invariant forall key :: key in actual ==> Resolve(key, columns) == Some(actual[key])
      {
        var key := ColumnMapping[k].0;
        var candidate := FirstCandidate(ColumnMapping[k].1, columns);
        if candidate.Some? {
          actual := actual[key := candidate.value];
        } else if key != "pe" {
          assert k < 4;
          return None;
        }
        k := k + 1;
      }
      assert ColumnMapping[0].0 == "code" && ColumnMapping[1].0 == "name" && ColumnMapping[2].0 == "price";
      assert ColumnMapping[3].0 == "pb" && ColumnMapping[4].0 == "pe";
      return Some(actual);
    }

    /** The `for candidate in candidates: ... break` scan. */
    static method FirstCandidate(candidates: seq<string>, columns: set<string>) returns (r: Option<string>)
      ensures r == FirstPresent(candidates, columns)
    {
      var c := 0;
      while c < |candidates|
        invariant 0 <= c <= |candidates|
        invariant forall j :: 0 <= j < c ==> candidates[j] !in columns
      {
        if candidates[c] in columns {
          FirstPresentAt(candidates, columns, c);
          return Some(candidates[c]);
        }
        c := c + 1;
      }
      return None;
    }

    /**
     * `get_stock_fundamentals`: up to `max_retries` passes; a failed pass counts a retry and
     * sleeps `2 ** retries` seconds, a finished pass returns its frame. `attempts[k]` is
     * what the `k`-th fetch gives; `fetches` and `slept` count the calls and the back-off.
     */
    method GetStockFundamentals(attempts: seq<Attempt>, draw: nat -> real)
      returns (r: seq<FundamentalRow>, ghost fetches: nat, ghost slept: real)
      requires WellFormed(attempts) && maxRetries <= |attempts|
      ensures r == Fundamentals(attempts, draw, maxRetries)
      ensures FirstDone(attempts, draw, maxRetries, 0).None? ==> fetches == maxRetries && slept == BackoffTotal(maxRetries)
      ensures FirstDone(attempts, draw, maxRetries, 0).Some? ==>
        fetches == FirstDone(attempts, draw, maxRetries, 0).value + 1
        && slept == BackoffTotal(FirstDone(attempts, draw, maxRetries, 0).value)
    {
      var retries := 0;
      fetches, slept := 0, 0.0;
      while retries < maxRetries
        invariant 0 <= retries <= maxRetries
        invariant FirstDone(attempts, draw, maxRetries, 0) == FirstDone(attempts, draw, maxRetries, retries)
        invariant fetches == retries && slept == BackoffTotal(retries)
      {
        var o := TryFetch(attempts[retries], draw);
        fetches := fetches + 1;
        if o.Done? {
          return o.rows, fetches, slept;
        }
        retries := retries + 1;
        slept := slept + Pow2(retries) as real;   // time.sleep(2 ** retries)
      }
      return [], fetches, slept;
    }

    /**
     * `run`: stops when the fundamentals are empty; otherwise screens them and writes the
     * price band into the screened rows, which it returns in place of printing them.
     */
    method Run(attempts: seq<Attempt>, draw: nat -> real) returns (r: Option<seq<PricedRow>>)
      requires WellFormed(attempts) && maxRetries <= |attempts|
      ensures r.None? <==> Fundamentals(attempts, draw, maxRetries) == []
      ensures r.Some? ==>
        var screened := StockScreen(Fundamentals(attempts, draw, maxRetries));
        |r.value| == |screened| && forall i :: 0 <= i < |screened| ==>
          r.value[i] == PricedRow(screened[i], Some(TargetsFor(screened[i].price)))
    {
      var stockData, _, _ := GetStockFundamentals(attempts, draw);
      if stockData == [] {
        return None;
      }
      var screened := StockScreen(stockData);
      var priced := new PricedRow[|screened|](i requires 0 <= i < |screened| => PricedRow(screened[i], None));
      assert forall i :: 0 <= i < priced.Length ==> priced[i].row == screened[i];
      GeneratePriceTargets(priced);
      r := Some(priced[..]);
      assert forall i :: 0 <= i < |screened| ==> r.value[i] == priced[i];
    }
  }

  /** Three failed fetches: an empty frame after sleeping 2 + 4 + 8 seconds. */
  lemma AllFailuresSleepFourteenSeconds(attempts: seq<Attempt>, draw: nat -> real)
    requires WellFormed(attempts) && 3 <= |attempts|
    requires forall k :: 0 <= k < 3 ==> AttemptResult(attempts[k], draw).Failed?
    ensures FirstDone(attempts, draw, 3, 0).None? && Fundamentals(attempts, draw, 3) == []
    ensures BackoffTotal(3) == 14.0
  {
    FirstDoneNone(attempts, draw, 3, 0);
    BackoffTotalClosedForm(3);
  }

  /** A snapshot without a code, name, price or PB column ends the loop at once, without a retry. */
  lemma MissingColumnStopsRetrying(attempts: seq<Attempt>, draw: nat -> real, limit: nat)
    requires WellFormed(attempts) && 1 <= limit <= |attempts|
    requires attempts[0].Fetched? && AbortsOn(attempts[0].frame.columns)
    ensures FirstDone(attempts, draw, limit, 0) == Some(0)
    ensures Fundamentals(attempts, draw, limit) == []
  {
  }

  /** A snapshot without a PE column fails the attempt, so the next fetch is tried. */
  lemma MissingPeRetries(attempts: seq<Attempt>, draw: nat -> real, limit: nat)
    requires WellFormed(attempts) && 2 <= limit <= |attempts|
    requires attempts[0].Fetched? && !AbortsOn(attempts[0].frame.columns)
    requires "市盈率-动态" !in attempts[0].frame.columns
    ensures FirstDone(attempts, draw, limit, 0) == FirstDone(attempts, draw, limit, 1)
  {
  }

  /** Every row the fundamentals step returns has a surviving snapshot row behind it. */
  lemma FundamentalsFromSnapshot(attempts: seq<Attempt>, draw: nat -> real, limit: nat, i: nat)
    requires WellFormed(attempts) && limit <= |attempts|
    requires i < |Fundamentals(attempts, draw, limit)|
    ensures var k := FirstDone(attempts, draw, limit, 0).value;
            attempts[k].Fetched? && !AbortsOn(attempts[k].frame.columns)
            && Resolve("pe", attempts[k].frame.columns).Some?
            && exists j :: 0 <= j < |attempts[k].frame.rows|
                 && attempts[k].frame.rows[j][Resolve("pe", attempts[k].frame.columns).value].Num?
                 && Fundamentals(attempts, draw, limit)[i].pe
                    == attempts[k].frame.rows[j][Resolve("pe", attempts[k].frame.columns).value].x
  {
    var k := FirstDone(attempts, draw, limit, 0).value;
    var f := attempts[k].frame;
    var cols := f.columns;
    var c := ColumnChoice(Resolve("code", cols).value, Resolve("name", cols).value, Resolve("price", cols).value,
                          Resolve("pb", cols).value, Resolve("pe", cols).value);
    var values := Converted(f.rows, c);
    ConvertedKeeps(f.rows, c);
    assert values[i] in values;
    var j :| 0 <= j < |f.rows| && Survives(f.rows[j], c) && values[i] == ValuesOf(f.rows[j], c);
  }
}
