/**
 * The quote resolver of `tests/stock_tool.py`: ticker normalisation, the A-share trading
 * clock, the primary lookup in a market snapshot, the backup request's `secid` and the
 * parse of its reply, and the dispatcher that tries both with retries and sleeps.
 *
 * The clock is passed in (weekday, hour, minute, second of `time.localtime()`), each
 * snapshot and HTTP reply is an input, and the sleeps are summed in a ghost counter.
 */
module StockTool {
  import opened Common
  import opened Text

  datatype Market = Shanghai | Shenzhen | US | HK

  /** `MarketType.value`. */
  function MarketValue(m: Market): string {
    match m
    case Shanghai => "sh"
    case Shenzhen => "sz"
    case US => "us"
    case HK => "hk"
  }

  /** `STOCK_PREFIX_MAP`, in its insertion order. */
  const PrefixTable: seq<(string, Market)> :=
    [("6", Shanghai), ("5", Shanghai), ("0", Shenzhen), ("3", Shenzhen), ("9", Shanghai),
     ("00700", HK), ("AAPL", US)]

  /** The characters `format_stock_code` strips from the front of the upper-cased ticker. */
  const LeadingJunk: set<char> := {'.', 'S', 'H', 'Z'}

  // ---------------------------------------------------------------------------------------
  // Code normaliser

  /** The `for prefix, market in STOCK_PREFIX_MAP.items()` scan, from entry `from` on. */
  function FirstPrefixMatch(table: seq<(string, Market)>, code: string, from: nat): (r: Option<Market>)
    requires from <= |table|
    ensures r.Some? ==> exists k :: from <= k < |table| && r.value == table[k].1
    decreases |table| - from
  {
    if from == |table| then None
    else if StartsWith(code, table[from].0) then Some(table[from].1)
    else FirstPrefixMatch(table, code, from + 1)
  }

  /** The scan answers with the market of the first entry whose prefix the code starts with. */
  lemma {:induction false} FirstPrefixMatchFirst(table: seq<(string, Market)>, code: string, from: nat)
    requires from <= |table|
    ensures var r := FirstPrefixMatch(table, code, from);
      (r.None? <==> forall k :: from <= k < |table| ==> !StartsWith(code, table[k].0)) &&
      (r.Some? ==> exists k :: from <= k < |table| && StartsWith(code, table[k].0) && r.value == table[k].1
                               && forall j :: from <= j < k ==> !StartsWith(code, table[j].0))
    decreases |table| - from
  {
    if from < |table| && !StartsWith(code, table[from].0) {
      FirstPrefixMatchFirst(table, code, from + 1);
    }
  }

  /** `dict.get(key)` on a table whose keys are distinct: the entry stored under `key`. */
  function TableGet(table: seq<(string, Market)>, key: string): (r: Option<Market>)
    ensures r.Some? ==> exists k :: 0 <= k < |table| && r.value == table[k].1
  {
    if table == [] then None
    else if table[0].0 == key then Some(table[0].1)
    else
      var r := TableGet(table[1..], key);
      assert forall k :: 1 <= k < |table| ==> table[k] == table[1..][k - 1];
      r
  }

  /** The lookup answers exactly when `key` is one of the table's keys, with the market stored there. */
  lemma {:induction false} TableGetFinds(table: seq<(string, Market)>, key: string)
    ensures var r := TableGet(table, key);
      (r.None? <==> forall k :: 0 <= k < |table| ==> table[k].0 != key) &&
      (r.Some? ==> exists k :: 0 <= k < |table| && table[k].0 == key && r.value == table[k].1)
  {
    if table != [] && table[0].0 != key {
      TableGetFinds(table[1..], key);
      assert forall k :: 1 <= k < |table| ==> table[k] == table[1..][k - 1];
    }
  }

  /**
   * The market rule the prefix table amounts to: '0' and '3' are Shenzhen, "AAPL..." is US,
   * and everything else (5, 6, 9, the 6-character fallback, unknown codes) is Shanghai.
   */
  function ExpectedMarket(code: string): Market {
    if code != [] && (code[0] == '0' || code[0] == '3') then Shenzhen
    else if StartsWith(code, "AAPL") then US
    else Shanghai
  }

  lemma StartsWithChar(code: string, c: char)
    ensures StartsWith(code, [c]) <==> |code| > 0 && code[0] == c
  {
  }

  /** The last two entries of the scan: "00700" and then "AAPL". */
  lemma PrefixTableTail(code: string)
    ensures FirstPrefixMatch(PrefixTable, code, 5) ==
      if StartsWith(code, "00700") then Some(HK) else if StartsWith(code, "AAPL") then Some(US) else None
  {
    assert FirstPrefixMatch(PrefixTable, code, 7) == None;
  }

  lemma StartsWithHead(code: string, prefix: string)
    requires prefix != []
    ensures StartsWith(code, prefix) ==> |code| > 0 && code[0] == prefix[0]
  {
  }

  /** The prefix scan over `STOCK_PREFIX_MAP`, decided by the code's first characters. */
  lemma {:induction false} PrefixTableScan(code: string)
    ensures FirstPrefixMatch(PrefixTable, code, 0) ==
      if |code| > 0 && (code[0] == '6' || code[0] == '5' || code[0] == '9') then Some(Shanghai)
      else if |code| > 0 && (code[0] == '0' || code[0] == '3') then Some(Shenzhen)
      else if StartsWith(code, "AAPL") then Some(US)
      else None
  {
    PrefixTableTail(code);
    StartsWithChar(code, '6');
    StartsWithChar(code, '5');
    StartsWithChar(code, '0');
    StartsWithChar(code, '3');
    StartsWithChar(code, '9');
    StartsWithHead(code, "00700");
    if |code| == 0 || code[0] !in {'6', '5', '0', '3', '9'} {
      assert FirstPrefixMatch(PrefixTable, code, 0) == FirstPrefixMatch(PrefixTable, code, 5);
    }
  }

  /** The fallback looks up a first character that no one-character key of the table matches. */
  lemma FallbackMisses(code: string)
    requires |code| == 6 && code[0] !in {'6', '5', '0', '3', '9'}
    ensures TableGet(PrefixTable, code[..1]) == None
  {
    TableGetFinds(PrefixTable, code[..1]);
    forall k | 0 <= k < |PrefixTable| ensures PrefixTable[k].0 != code[..1] {
      if |PrefixTable[k].0| == 1 {
        assert PrefixTable[k].0[0] != code[..1][0];
      }
    }
  }

  /**
   * The classification step of `format_stock_code`: the first prefix of the table that the
   * code starts with decides; a 6-character code that matches none is looked up by its first
   * character, and everything else is Shanghai.
   */
  function ClassifyCode(code: string): (m: Market)
    ensures m == ExpectedMarket(code)
    ensures m != HK
  {
    PrefixTableScan(code);
    match FirstPrefixMatch(PrefixTable, code, 0)
    case Some(m) => m
    case None =>
      if |code| == 6 then
        FallbackMisses(code);
        match TableGet(PrefixTable, code[..1]) case Some(m) => m case None => Shanghai
      else Shanghai
  }

  /** `format_stock_code`: upper-case, strip leading '.', 'S', 'H', 'Z', then classify. */
  function FormatStockCode(raw: string): (r: (string, Market))
    ensures |r.0| <= |raw|
    ensures r.1 == ExpectedMarket(r.0)
  {
    var code := LStrip(Upper(raw), LeadingJunk);
    (code, ClassifyCode(code))
  }

  /**
   * The normalised code is the upper-cased ticker less a run of leading '.', 'S', 'H', 'Z':
   * it holds no lower-case letter and does not itself start with one of those characters.
   */
  lemma FormatStockCodeStrips(raw: string)
    ensures var code := FormatStockCode(raw).0;
      Upper(raw)[|raw| - |code|..] == code
      && (forall i :: 0 <= i < |raw| - |code| ==> Upper(raw)[i] in LeadingJunk)
      && (code == [] || code[0] !in LeadingJunk)
      && (forall i :: 0 <= i < |code| ==> !IsAsciiLower(code[i]))
  {
  }

  /** Normalising a normalised code changes nothing. */
  lemma {:induction false} FormatStockCodeIdempotent(raw: string)
    ensures FormatStockCode(FormatStockCode(raw).0) == FormatStockCode(raw)
  {
    var code := FormatStockCode(raw).0;
    FormatStockCodeStrips(raw);
    assert Upper(code) == code;
    assert LStrip(code, LeadingJunk) == code;
  }

  lemma FormatExampleShanghai()
    ensures FormatStockCode("600133") == ("600133", Shanghai)
  {
    UpperKeepsNonLower("600133");
    LStripStops("600133", LeadingJunk);
    StartsWithHead("600133", "AAPL");
  }

  /** A code with no lower-case letter and no leading '.', 'S', 'H', 'Z' is kept as it is. */
  lemma FormatKeepsPlainCode(code: string)
    requires code == [] || code[0] !in LeadingJunk
    requires forall i :: 0 <= i < |code| ==> !IsAsciiLower(code[i])
    ensures FormatStockCode(code) == (code, ExpectedMarket(code))
  {
    UpperKeepsNonLower(code);
    LStripStops(code, LeadingJunk);
  }

  /** An exchange prefix "sh" or "sz" in front of a plain code is dropped. */
  lemma FormatDropsExchangePrefix(code: string, exchange: string)
    requires exchange == "sh" || exchange == "sz"
    requires code == [] || code[0] !in LeadingJunk
    requires forall i :: 0 <= i < |code| ==> !IsAsciiLower(code[i])
    ensures FormatStockCode(exchange + code) == (code, ExpectedMarket(code))
  {
    UpperAppend(exchange, code);
    UpperKeepsNonLower(code);
    var ex := Upper(exchange);
    assert ex[0] == 'S' && (ex[1] == 'H' || ex[1] == 'Z');
    LStripSkips(ex, code, LeadingJunk);
    LStripStops(code, LeadingJunk);
  }

  /** A numeric code with an exchange suffix such as ".SH" keeps the suffix and its market. */
  lemma FormatKeepsSuffix(code: string)
    requires code != [] && forall i :: 0 <= i < |code| ==> IsAsciiDigit(code[i])
    ensures FormatStockCode(code + ".SH") == (code + ".SH", ExpectedMarket(code))
  {
    var full := code + ".SH";
    assert full[0] == code[0];
    FormatKeepsPlainCode(full);
    StartsWithHead(full, "AAPL");
    StartsWithHead(code, "AAPL");
  }

  /** "00700" is caught by the '0' entry and never reaches the HK entry. */
  lemma FormatExampleHongKongShadowed()
    ensures FormatStockCode("00700") == ("00700", Shenzhen)
  {
    UpperKeepsNonLower("00700");
    LStripStops("00700", LeadingJunk);
  }

  lemma FormatExampleUs()
    ensures FormatStockCode("aapl") == ("AAPL", US)
  {
    assert Upper("aapl") == "AAPL" by {
      assert forall i :: 0 <= i < 4 ==> Upper("aapl")[i] == "AAPL"[i];
    }
    LStripStops("AAPL", LeadingJunk);
    assert StartsWith("AAPL", "AAPL");
  }

  // ---------------------------------------------------------------------------------------
  // Trading clock (TRADING_HOURS)

  /** Minutes since midnight. */
  function MinuteOfDay(hour: int, minute: int): int { hour * 60 + minute }

  /** The ranges `time.localtime()` produces for the fields this module reads. */
  predicate ValidClock(weekday: int, hour: int, minute: int, second: int) {
    0 <= weekday <= 6 && 0 <= hour <= 23 && 0 <= minute <= 59 && 0 <= second <= 61
  }

  /** `is_trading_time`, with `tm_wday`, `tm_hour` and `tm_min` passed in. */
  predicate IsTradingTime(weekday: int, hour: int, minute: int)
    ensures IsTradingTime(weekday, hour, minute) ==> weekday < 5 && 9 <= hour <= 15
  {
    if weekday >= 5 then false
    else if (hour == 9 && minute >= 30) || (10 <= hour < 11) || (hour == 11 && minute <= 30) then true
    else if (hour == 13 && minute >= 0) || (14 <= hour < 15) || (hour == 15 && minute == 0) then true
    else false
  }

  /** On a weekday the market is open exactly during 9:30–11:30 and 13:00–15:00, both ends included. */
  lemma TradingWindows(weekday: int, hour: int, minute: int)
    requires 0 <= minute <= 59
    ensures IsTradingTime(weekday, hour, minute) <==>
      weekday < 5 && (570 <= MinuteOfDay(hour, minute) <= 690 || 780 <= MinuteOfDay(hour, minute) <= 900)
  {
  }

  function SecondsOfDay(hour: int, minute: int, second: int): int { hour * 3600 + minute * 60 + second }

  function Max(a: int, b: int): int { if a < b then b else a }

  /** Python's comparison of `(hour, minute)` tuples. */
  predicate TupleLess(h1: int, m1: int, h2: int, m2: int) { h1 < h2 || (h1 == h2 && m1 < m2) }

  /**
   * `get_next_check_interval`: seconds to wait before checking again. Never under a minute;
   * five minutes while a session runs; otherwise the time until the next session opens.
   */
  function NextCheckInterval(hour: int, minute: int, second: int): (r: int)
    ensures r >= 60
    ensures 0 <= minute <= 59 && (570 <= MinuteOfDay(hour, minute) <= 690 || 780 <= MinuteOfDay(hour, minute) < 900)
            ==> r == 300
    // before 9:30: the wait until 9:30:00, counted from the start of the current minute
    ensures TupleLess(hour, minute, 9, 30) ==>
      r == Max(60, SecondsOfDay(9, 30, 0) - SecondsOfDay(hour, minute, 0))
    // from 15:00 on: the wait ends at 9:30:00 the next day
    ensures ValidClock(0, hour, minute, second) && hour >= 15 ==>
      SecondsOfDay(hour, minute, second) + r == 86400 + SecondsOfDay(9, 30, 0)
    // lunch break: the wait ends at 13:00:00, counted from the start of the current minute
    ensures ValidClock(0, hour, minute, second) && 690 < MinuteOfDay(hour, minute) < 780 ==>
      SecondsOfDay(hour, minute, 0) + r == SecondsOfDay(13, 0, 0)
  {
    var next :=
      if TupleLess(hour, minute, 9, 30) then (9 - hour) * 3600 + (30 - minute) * 60
      else if !TupleLess(hour, minute, 15, 0) then
        var nextDay := 86400 - (hour * 3600 + minute * 60 + second);
        nextDay + 9 * 3600 + 30 * 60
      else if TupleLess(11, 30, hour, minute) && TupleLess(hour, minute, 13, 0) then
        (13 - hour) * 3600 + (0 - minute) * 60
      else 300;
    if next < 60 then 60 else next
  }

  // ---------------------------------------------------------------------------------------
  // Primary resolver: the cached bulk snapshot

  /** One row of `ak.stock_zh_a_spot_em()`: 代码, 名称, 最新价, 涨跌幅, 成交量. */
  datatype SpotRow = SpotRow(code: string, name: string, price: real, changePct: real, volume: real)

  datatype Source = PrimaryApi | BackupApi

  /** The quote dictionary both resolvers return (代码, 名称, 当前价, 涨跌幅(%), 成交量(手), 市场类型, 数据源). */
  datatype Quote = Quote(code: string, name: string, price: real, changePct: real, volume: int,
                         marketLabel: string, source: Source)

  /** The codes `get_cached_stock_data` keeps for a market. */
  predicate ListedOn(market: Market, code: string) {
    match market
    case Shanghai => StartsWith(code, "6") || StartsWith(code, "5") || StartsWith(code, "9")
    case Shenzhen => StartsWith(code, "0") || StartsWith(code, "3")
    case _ => false
  }

  /** The market filter of `get_cached_stock_data` over a fetched snapshot. */
  function FilterByMarket(rows: seq<SpotRow>, market: Market): (r: seq<SpotRow>)
    ensures |r| <= |rows|
    ensures market == US || market == HK ==> r == []
  {
    if rows == [] then []
    else
      var rest := FilterByMarket(rows[1..], market);
      if ListedOn(market, rows[0].code) then [rows[0]] + rest else rest
  }

  /** The filter keeps exactly the rows listed on the market. */
  lemma {:induction false} FilterByMarketKeeps(rows: seq<SpotRow>, market: Market)
    ensures forall row :: row in FilterByMarket(rows, market) <==> row in rows && ListedOn(market, row.code)
  {
    if rows != [] {
      var rest := FilterByMarket(rows[1..], market);
      FilterByMarketKeeps(rows[1..], market);
      assert rows == [rows[0]] + rows[1..];
      if ListedOn(market, rows[0].code) {
        assert FilterByMarket(rows, market) == [rows[0]] + rest;
      } else {
        assert FilterByMarket(rows, market) == rest;
      }
    }
  }

  /** The filter keeps each row no more often than the snapshot holds it. */
  lemma {:induction false} FilterByMarketSubMultiset(rows: seq<SpotRow>, market: Market)
    ensures multiset(FilterByMarket(rows, market)) <= multiset(rows)
  {
    if rows != [] {
      var rest := FilterByMarket(rows[1..], market);
      FilterByMarketSubMultiset(rows[1..], market);
      assert multiset(rows) == multiset{rows[0]} + multiset(rows[1..]) by {
        assert rows == [rows[0]] + rows[1..];
      }
      if ListedOn(market, rows[0].code) {
        assert FilterByMarket(rows, market) == [rows[0]] + rest;
        assert multiset([rows[0]] + rest) == multiset{rows[0]} + multiset(rest);
      } else {
        assert FilterByMarket(rows, market) == rest;
      }
    }
  }

  /** `format_a_share_data`, without the rounding to two decimals. */
  function PrimaryQuote(row: SpotRow): Quote {
    Quote(row.code, row.name, row.price, row.changePct, Trunc(row.volume), "A股", PrimaryApi)
  }

  /** The first row whose code contains `code`, ignoring case (`target.iloc[0]`). */
  function FirstContaining(rows: seq<SpotRow>, code: string): (r: Option<SpotRow>)
    ensures r.Some? ==> r.value in rows && ContainsIgnoreCase(r.value.code, code)
  {
    if rows == [] then None
    else if ContainsIgnoreCase(rows[0].code, code) then Some(rows[0])
    else FirstContaining(rows[1..], code)
  }

  /** The row the primary lookup wants: on the code's market and containing the code. */
  predicate IsHit(market: Market, code: string, row: SpotRow) {
    ListedOn(market, row.code) && ContainsIgnoreCase(row.code, code)
  }

  /** The first hit of the whole snapshot, found in one pass without filtering first. */
  function FirstHit(rows: seq<SpotRow>, market: Market, code: string): Option<SpotRow> {
    if rows == [] then None
    else if IsHit(market, code, rows[0]) then Some(rows[0])
    else FirstHit(rows[1..], market, code)
  }

  /** The one-pass search answers with the earliest hit, and with none exactly when there is no hit. */
  lemma {:induction false} FirstHitIsFirst(rows: seq<SpotRow>, market: Market, code: string)
    ensures var r := FirstHit(rows, market, code);
      (r.None? <==> forall i :: 0 <= i < |rows| ==> !IsHit(market, code, rows[i]))
      && (r.Some? ==> exists i :: 0 <= i < |rows| && IsHit(market, code, rows[i]) && r.value == rows[i]
                                  && forall j :: 0 <= j < i ==> !IsHit(market, code, rows[j]))
  {
    if rows != [] && !IsHit(market, code, rows[0]) {
      var tail := rows[1..];
      FirstHitIsFirst(tail, market, code);
      if FirstHit(tail, market, code).Some? {
        var i :| 0 <= i < |tail| && IsHit(market, code, tail[i]) && FirstHit(tail, market, code).value == tail[i]
                 && forall j :: 0 <= j < i ==> !IsHit(market, code, tail[j]);
        assert rows[i + 1] == tail[i];
        forall j | 1 <= j < i + 1 ensures !IsHit(market, code, rows[j]) {
          assert rows[j] == tail[j - 1];
        }
      } else {
        forall j | 1 <= j < |rows| ensures !IsHit(market, code, rows[j]) {
          assert rows[j] == tail[j - 1];
        }
      }
    }
  }

  /** Filtering by market and then searching finds the same row as the one-pass search. */
  lemma {:induction false} FilterThenSearch(rows: seq<SpotRow>, market: Market, code: string)
    ensures FirstContaining(FilterByMarket(rows, market), code) == FirstHit(rows, market, code)
  {
    if rows != [] {
      FilterThenSearch(rows[1..], market, code);
    }
  }

  /**
   * `get_stock_realtime_price` given the snapshot the cache yields (empty when the fetch
   * failed): the first row of the code's market whose code contains the normalised code
   * (`PrimaryLookupFinds` states which row).
   */
  function PrimaryLookup(raw: string, snapshot: seq<SpotRow>): (r: Option<Quote>)
    ensures r.Some? ==> r.value.source == PrimaryApi
  {
    var (code, market) := FormatStockCode(raw);
    var df := FilterByMarket(snapshot, market);
    if df != [] then
      match FirstContaining(df, code)
      case Some(row) => Some(PrimaryQuote(row))
      case None => None
    else None
  }

  /** The primary resolver answers with the earliest qualifying row, and with none exactly when no row qualifies. */
  lemma PrimaryLookupFinds(raw: string, snapshot: seq<SpotRow>)
    ensures var (code, market) := FormatStockCode(raw);
      var r := PrimaryLookup(raw, snapshot);
      (r.None? <==> forall i :: 0 <= i < |snapshot| ==> !IsHit(market, code, snapshot[i])) &&
      (r.Some? ==> exists i :: 0 <= i < |snapshot| && IsHit(market, code, snapshot[i])
                               && r.value == PrimaryQuote(snapshot[i])
                               && forall j :: 0 <= j < i ==> !IsHit(market, code, snapshot[j]))
  {
    var (code, market) := FormatStockCode(raw);
    FilterThenSearch(snapshot, market, code);
    FirstHitIsFirst(snapshot, market, code);
    var hit := FirstHit(snapshot, market, code);
    if FilterByMarket(snapshot, market) == [] {
      assert hit.None?;
    }
  }

  // ---------------------------------------------------------------------------------------
  // Backup resolver: the push2.eastmoney.com request and its reply

  /** The exchange number in `secid` (`market_map` of `build_eastmoney_params`). */
  function MarketId(m: Market): string {
    match m
    case Shanghai => "1"
    case Shenzhen => "0"
    case US => "105"
    case HK => "116"
  }

  /** The code part of `secid`: for US the text after the last '.', otherwise the code. */
  function SecCode(code: string, m: Market): (r: string)
    ensures m != US ==> r == code
    ensures m == US ==> '.' !in r && |r| <= |code| && r == code[|code| - |r|..]
  {
    if m == US then AfterLastDot(code) else code
  }

  /** `secid` of `build_eastmoney_params`: "<market id>.<code>". */
  function SecId(code: string, m: Market): (s: string)
    ensures ParseSecId(s) == Some((m, SecCode(code, m)))
  {
    ParseSecIdSplits(MarketId(m), SecCode(code, m));
    MarketId(m) + "." + SecCode(code, m)
  }

  /** Reads a `secid` back: the exchange number before the first '.', the code after it. */
  function ParseSecId(s: string): Option<(Market, string)> {
    if '.' !in s then None
    else
      var k := FirstDot(s);
      var id := s[..k];
      var rest := s[k + 1..];
      if id == "1" then Some((Shanghai, rest))
      else if id == "0" then Some((Shenzhen, rest))
      else if id == "105" then Some((US, rest))
      else if id == "116" then Some((HK, rest))
      else None
  }

  function FirstDot(s: string): (k: nat)
    requires '.' in s
    ensures k < |s| && s[k] == '.' && '.' !in s[..k]
  {
    if s[0] == '.' then 0 else 1 + FirstDot(s[1..])
  }

  /** The first '.' of "<id>.<rest>" is the one after `id` when `id` has none. */
  lemma {:induction false} FirstDotAfter(id: string, rest: string)
    requires '.' !in id
    ensures '.' in id + "." + rest && FirstDot(id + "." + rest) == |id|
  {
    var s := id + "." + rest;
    assert s[|id|] == '.';
    if id != [] {
      assert s[0] == id[0] && s[1..] == id[1..] + "." + rest;
      FirstDotAfter(id[1..], rest);
    }
  }

  /** Reading back "<id>.<rest>" splits at the dot after `id` when `id` has none. */
  lemma ParseSecIdSplits(id: string, rest: string)
    requires '.' !in id
    ensures ParseSecId(id + "." + rest) ==
      if id == "1" then Some((Shanghai, rest))
      else if id == "0" then Some((Shenzhen, rest))
      else if id == "105" then Some((US, rest))
      else if id == "116" then Some((HK, rest))
      else None
  {
    var s := id + "." + rest;
    FirstDotAfter(id, rest);
    assert s[..|id|] == id && s[|id| + 1..] == rest;
  }

  /** The query of `build_eastmoney_params`, without the fixed `fields` list. */
  datatype EmParams = EmParams(ut: string, invt: int, fltt: int, secid: string, stamp: int)

  /** `build_eastmoney_params`, given `int(time.time() * 1000)` as `nowMillis`. */
  function BuildEastmoneyParams(code: string, m: Market, nowMillis: int): (p: EmParams)
    ensures ParseSecId(p.secid) == Some((m, SecCode(code, m)))
    ensures p.ut == "7eea3edcaed734bea9cbfc24409ed989" && p.invt == 2 && p.fltt == 2 && p.stamp == nowMillis
  {
    EmParams("7eea3edcaed734bea9cbfc24409ed989", 2, 2, SecId(code, m), nowMillis)
  }

  /** A JSON value in the reply's `data` object. */
  datatype EmValue = Num(x: real) | Txt(s: string)

  /** The decoded reply: `rc` and `data`, either of which may be missing. */
  datatype EmReply = EmReply(rc: Option<int>, data: Option<map<string, EmValue>>)

  /** `round(item.get(key, 0), 2)` and friends: the number, 0 when absent, no value when it is text. */
  function NumberOr0(item: map<string, EmValue>, key: string): Option<real> {
    if key !in item then Some(0.0)
    else match item[key]
      case Num(x) => Some(x)
      case Txt(_) => None
  }

  /**
   * `int(item.get("f47", 0))`: 0 when absent, a number truncated toward zero, integer text
   * parsed; other text raises `ValueError` (no value).
   */
  function VolumeOr0(item: map<string, EmValue>): (v: Option<int>)
    ensures "f47" !in item ==> v == Some(0)
    ensures "f47" in item && item["f47"].Num? ==> v == Some(Trunc(item["f47"].x))
    ensures "f47" in item && item["f47"].Txt? ==> v == ParseInt(item["f47"].s)
  {
    if "f47" !in item then Some(0)
    else match item["f47"]
      case Num(x) => Some(Trunc(x))
      case Txt(s) => ParseInt(s)
  }

  /** Volume given as integer text, such as "50000", is read as that number. */
  lemma VolumeTextParses(item: map<string, EmValue>, n: nat)
    requires "f47" in item && item["f47"] == Txt(ShowNat(n))
    ensures VolumeOr0(item) == Some(n)
  {
    ParseIntShow(n);
  }

  /** The name field: text under "f58", or the code when absent. */
  function NameOrCode(item: map<string, EmValue>, code: string): Option<string> {
    if "f58" !in item then Some(code)
    else match item["f58"]
      case Txt(s) => Some(s)
      case Num(_) => None
  }

  /** The reply counts as a success: `rc == 0` and a non-empty `data` object. */
  predicate Accepted(reply: EmReply) {
    reply.rc == Some(0) && reply.data.Some? && |reply.data.value| > 0
  }

  /**
   * `parse_eastmoney_data` and the `except` around it in `get_stock_price_backup`: a quote
   * when the reply is accepted and its fields have the expected JSON types, otherwise none.
   */
  function ParseEastmoneyData(reply: EmReply, code: string, m: Market): (r: Option<Quote>)
    ensures r.Some? ==> Accepted(reply)
    ensures r.Some? ==> r.value.code == code && r.value.source == BackupApi && r.value.marketLabel == MarketValue(m)
    ensures r.Some? && "f58" !in reply.data.value ==> r.value.name == code
    ensures r.Some? && "f58" in reply.data.value ==> reply.data.value["f58"] == Txt(r.value.name)
    ensures r.Some? ==> (r.value.price == 0.0 || "f43" in reply.data.value)
    ensures r.Some? ==> Some(r.value.price) == NumberOr0(reply.data.value, "f43")
                        && Some(r.value.changePct) == NumberOr0(reply.data.value, "f170")
    ensures r.Some? ==> VolumeOr0(reply.data.value) == Some(r.value.volume)
    ensures (Accepted(reply) && NameOrCode(reply.data.value, code).Some?
             && NumberOr0(reply.data.value, "f43").Some? && NumberOr0(reply.data.value, "f170").Some?
             && VolumeOr0(reply.data.value).Some?) ==> r.Some?
  {
    if Accepted(reply) then
      var item := reply.data.value;
      match (NameOrCode(item, code), NumberOr0(item, "f43"), NumberOr0(item, "f170"), VolumeOr0(item))
      case (Some(name), Some(price), Some(change), Some(volume)) =>
        Some(Quote(code, name, price, change, volume, MarketValue(m), BackupApi))
      case _ => None
    else None
  }

  /**
   * `get_stock_price_backup`: normalise, then parse the reply; `None` stands for a request
   * that failed (timeout, HTTP error after the transport's retries, undecodable body).
   */
  function BackupLookup(raw: string, reply: Option<EmReply>): (r: Option<Quote>)
    ensures r.Some? ==> reply.Some? && Accepted(reply.value)
    ensures r.Some? ==> r.value.code == FormatStockCode(raw).0 && r.value.source == BackupApi
    ensures reply.None? ==> r.None?
    // a reply that came back is parsed for the normalised code and market
    ensures reply.Some? ==> r == ParseEastmoneyData(reply.value, FormatStockCode(raw).0, FormatStockCode(raw).1)
    // an accepted reply whose fields have the expected JSON types always answers
    ensures (reply.Some? && Accepted(reply.value)
             && NameOrCode(reply.value.data.value, FormatStockCode(raw).0).Some?
             && NumberOr0(reply.value.data.value, "f43").Some? && NumberOr0(reply.value.data.value, "f170").Some?
             && VolumeOr0(reply.value.data.value).Some?) ==> r.Some?
  {
    var (code, market) := FormatStockCode(raw);
    match reply
    case None => None
    case Some(body) => ParseEastmoneyData(body, code, market)
  }

  // ---------------------------------------------------------------------------------------
  // Dispatcher: get_stock_price

  /** `range(2)`: calls per strategy. */
  const RetriesPerStrategy: nat := 2

  /** The sleep after the miss numbered `retry` (from 0): 0.5·(retry+1) seconds. */
  function RetryDelay(retry: nat): real { 0.5 * (retry + 1) as real }

  /** The first successful answer in a strategy's sequence of answers. */
  function FirstSome(answers: seq<Option<Quote>>): (r: Option<Quote>)
    ensures r.None? <==> forall k :: 0 <= k < |answers| ==> answers[k].None?
    ensures r.Some? ==> exists k :: 0 <= k < |answers| && answers[k] == r
                                    && forall j :: 0 <= j < k ==> answers[j].None?
  {
    if answers == [] then None
    else if answers[0].Some? then answers[0]
    else
      var r := FirstSome(answers[1..]);
      assert forall k :: 1 <= k < |answers| ==> answers[k] == answers[1..][k - 1];
      r
  }

  /** Misses before the first success (all of them when there is none). */
  function Misses(answers: seq<Option<Quote>>): (n: nat)
    ensures n <= |answers|
    ensures forall j :: 0 <= j < n ==> answers[j].None?
    ensures n < |answers| ==> answers[n].Some?
  {
    if answers == [] || answers[0].Some? then 0 else 1 + Misses(answers[1..])
  }

  /** Total sleep after `n` misses within one strategy. */
  function Backoff(n: nat): (t: real)
    ensures t == 0.25 * (n * (n + 1)) as real
  {
    if n == 0 then 0.0
    else
      assert n * (n + 1) == (n - 1) * n + 2 * n;
      Backoff(n - 1) + RetryDelay(n - 1)
  }

  /** The first strategy with a success (`|outcomes|` when none has one). */
  function Winner(outcomes: seq<seq<Option<Quote>>>): (w: nat)
    ensures w <= |outcomes|
    ensures forall t :: 0 <= t < w ==> FirstSome(outcomes[t]).None?
    ensures w < |outcomes| ==> FirstSome(outcomes[w]).Some?
  {
    if outcomes == [] || FirstSome(outcomes[0]).Some? then 0 else 1 + Winner(outcomes[1..])
  }

  /** Answer of the whole dispatch: the first success of the first strategy that has one. */
  function Dispatched(outcomes: seq<seq<Option<Quote>>>): (r: Option<Quote>)
    ensures r.None? <==> forall s :: 0 <= s < |outcomes| ==> FirstSome(outcomes[s]).None?
    ensures r.Some? ==> exists s :: 0 <= s < |outcomes| && FirstSome(outcomes[s]) == r
                                    && forall t :: 0 <= t < s ==> FirstSome(outcomes[t]).None?
  {
    var w := Winner(outcomes);
    if w < |outcomes| then FirstSome(outcomes[w]) else None
  }

  /** Seconds slept by the strategies before strategy `n`, each of which missed every call. */
  function SleptBefore(outcomes: seq<seq<Option<Quote>>>, n: nat): (t: real)
    requires n <= |outcomes|
    ensures t >= 0.0
  {
    if n == 0 then 0.0 else SleptBefore(outcomes, n - 1) + Backoff(|outcomes[n - 1]|)
  }

  /** Seconds slept by the whole dispatch: after every miss of every strategy it reaches. */
  function Slept(outcomes: seq<seq<Option<Quote>>>): (t: real)
    ensures t >= 0.0
    ensures Winner(outcomes) == 0 && |outcomes| > 0 ==> t == Backoff(Misses(outcomes[0]))
  {
    var w := Winner(outcomes);
    SleptBefore(outcomes, w) + (if w < |outcomes| then Backoff(Misses(outcomes[w])) else 0.0)
  }

  /** Calls made to strategy `s`: all of them before the winner, up to the success in it, none after. */
  function CallsTo(outcomes: seq<seq<Option<Quote>>>, s: nat): nat
    requires s < |outcomes|
  {
    var w := Winner(outcomes);
    if s < w then |outcomes[s]| else if s == w then Misses(outcomes[s]) + 1 else 0
  }

  /**
   * `get_stock_price`. `outcomes[s][k]` is what strategy `s` (0: primary, 1: backup) answers
   * on its call numbered `k`. Calls and seconds slept are counted in ghost outputs.
   */
  method GetStockPrice(outcomes: seq<seq<Option<Quote>>>)
    returns (result: Option<Quote>, ghost calls: seq<nat>, ghost slept: real)
    requires |outcomes| == 2 && forall s :: 0 <= s < |outcomes| ==> |outcomes[s]| == RetriesPerStrategy
    ensures result == Dispatched(outcomes)
    ensures |calls| == |outcomes| && forall s :: 0 <= s < |outcomes| ==> calls[s] == CallsTo(outcomes, s)
    ensures slept == Slept(outcomes)
  {
    calls := seq(|outcomes|, _ => 0);
    slept := 0.0;
    var s := 0;
    while s < |outcomes|
      invariant 0 <= s <= |outcomes| && s <= Winner(outcomes)
      invariant slept == SleptBefore(outcomes, s)
      invariant |calls| == |outcomes|
      invariant forall t :: 0 <= t < s ==> calls[t] == |outcomes[t]|
      invariant forall t :: s <= t < |outcomes| ==> calls[t] == 0
    {
      var answers := outcomes[s];
      var retry := 0;
      while retry < RetriesPerStrategy
        invariant 0 <= retry <= RetriesPerStrategy
        invariant forall j :: 0 <= j < retry ==> answers[j].None?
        invariant slept == SleptBefore(outcomes, s) + Backoff(retry)
        invariant |calls| == |outcomes| && calls[s] == retry
        invariant forall t :: 0 <= t < s ==> calls[t] == |outcomes[t]|
        invariant forall t :: s < t < |outcomes| ==> calls[t] == 0
      {
        calls := calls[s := calls[s] + 1];
        if answers[retry].Some? {
          result := answers[retry];
          assert Misses(answers) == retry;
          assert Winner(outcomes) == s;
          return;
        }
        slept := slept + RetryDelay(retry);
        retry := retry + 1;
      }
      assert FirstSome(answers).None?;
      s := s + 1;
    }
    result := None;
  }

  /** What the two strategies answer on their two calls each, given the snapshots and replies. */
  function LookupOutcomes(raw: string, snapshots: seq<seq<SpotRow>>, replies: seq<Option<EmReply>>)
    : (o: seq<seq<Option<Quote>>>)
    requires |snapshots| == RetriesPerStrategy && |replies| == RetriesPerStrategy
    ensures |o| == 2 && |o[0]| == RetriesPerStrategy && |o[1]| == RetriesPerStrategy
  {
    [[PrimaryLookup(raw, snapshots[0]), PrimaryLookup(raw, snapshots[1])],
     [BackupLookup(raw, replies[0]), BackupLookup(raw, replies[1])]]
  }

  /**
   * `get_stock_price` over the two strategies, where `snapshots[k]` is the snapshot the cache
   * yields on the primary's call `k` and `replies[k]` the backup endpoint's reply on its call
   * `k`: the primary answers first, the backup only after two primary misses, and nothing
   * only when all four calls miss.
   */
  lemma DispatchOfLookups(raw: string, snapshots: seq<seq<SpotRow>>, replies: seq<Option<EmReply>>)
    requires |snapshots| == RetriesPerStrategy && |replies| == RetriesPerStrategy
    ensures var r := Dispatched(LookupOutcomes(raw, snapshots, replies));
      (PrimaryLookup(raw, snapshots[0]).Some? ==> r == PrimaryLookup(raw, snapshots[0]))
      && (r.Some? && r.value.source == BackupApi ==>
            PrimaryLookup(raw, snapshots[0]).None? && PrimaryLookup(raw, snapshots[1]).None?
            && r.value.code == FormatStockCode(raw).0)
      && (r.None? <==>
            PrimaryLookup(raw, snapshots[0]).None? && PrimaryLookup(raw, snapshots[1]).None?
            && BackupLookup(raw, replies[0]).None? && BackupLookup(raw, replies[1]).None?)
  {
    var p0, p1 := PrimaryLookup(raw, snapshots[0]), PrimaryLookup(raw, snapshots[1]);
    var b0, b1 := BackupLookup(raw, replies[0]), BackupLookup(raw, replies[1]);
    TwoStrategies(p0, p1, b0, b1, FormatStockCode(raw).0);
  }


  /** The dispatch over two primary answers and two backup answers, in terms of their sources. */
  lemma TwoStrategies(p0: Option<Quote>, p1: Option<Quote>, b0: Option<Quote>, b1: Option<Quote>, code: string)
    requires p0.Some? ==> p0.value.source == PrimaryApi
    requires p1.Some? ==> p1.value.source == PrimaryApi
    requires b0.Some? ==> b0.value.source == BackupApi && b0.value.code == code
    requires b1.Some? ==> b1.value.source == BackupApi && b1.value.code == code
    ensures var r := Dispatched([[p0, p1], [b0, b1]]);
      (p0.Some? ==> r == p0)
      && (r.Some? && r.value.source == BackupApi ==> p0.None? && p1.None? && r.value.code == code)
      && (r.None? <==> p0.None? && p1.None? && b0.None? && b1.None?)
  {
    DispatchTwoByTwo(p0, p1, b0, b1);
  }

  /** With two strategies of two calls each, the dispatch answers with the first success in call order. */
  lemma DispatchTwoByTwo(p0: Option<Quote>, p1: Option<Quote>, b0: Option<Quote>, b1: Option<Quote>)
    ensures Dispatched([[p0, p1], [b0, b1]]) == if p0.Some? then p0 else if p1.Some? then p1 else if b0.Some? then b0 else b1
  {
    var o := [[p0, p1], [b0, b1]];
    assert FirstSome(o[0]) == if p0.Some? then p0 else p1;
    assert FirstSome(o[1]) == if b0.Some? then b0 else b1;
  }

  /** When every call of both strategies fails, exactly 3 seconds have been slept and nothing is returned. */
  lemma AllFailSleepsThreeSeconds(outcomes: seq<seq<Option<Quote>>>)
    requires |outcomes| == 2 && forall s :: 0 <= s < 2 ==> |outcomes[s]| == RetriesPerStrategy
    requires forall s, k :: 0 <= s < 2 && 0 <= k < RetriesPerStrategy ==> outcomes[s][k].None?
    ensures Dispatched(outcomes).None?
    ensures Slept(outcomes) == 3.0
    ensures CallsTo(outcomes, 0) == 2 && CallsTo(outcomes, 1) == 2
  {
    assert FirstSome(outcomes[0]).None? && FirstSome(outcomes[1]).None?;
    assert Winner(outcomes) == 2;
    assert Backoff(2) == 1.5 by { assert Backoff(1) == 0.5; }
    assert SleptBefore(outcomes, 1) == 1.5;
  }

  /** Once the primary resolver answers, the backup resolver is never called and the answer is the primary's. */
  lemma PrimarySuccessSkipsBackup(outcomes: seq<seq<Option<Quote>>>)
    requires |outcomes| == 2 && forall s :: 0 <= s < 2 ==> |outcomes[s]| == RetriesPerStrategy
    requires FirstSome(outcomes[0]).Some?
    ensures CallsTo(outcomes, 1) == 0
    ensures Dispatched(outcomes) == FirstSome(outcomes[0])
    ensures Slept(outcomes) == if outcomes[0][0].Some? then 0.0 else 0.5
  {
    assert Winner(outcomes) == 0;
  }
}
