/**
 * The moving-average crossover backtest of `tests/stock_macd.py`: a 0/1 signal from the
 * 5-day and 20-day means of the close, its day-over-day difference as the trade signal,
 * and an all-in/all-out cash and shares state machine run over the days.
 * Means and money are exact reals here; float rounding is not modelled.
 */
module StockMacd {

  const InitialCapital: real := 1000000.0
  const ShortWindow: nat := 5
  const LongWindow: nat := 20
  const TransactionCost: real := 0.001

  // ---------------------------------------------------------------------------------------
  // Indicators (calculate_technical)

  function Sum(s: seq<real>): real {
    if s == [] then 0.0 else Sum(s[..|s| - 1]) + s[|s| - 1]
  }

  /** `rolling(window=w).mean()` at row `i`: the mean of the `w` closes ending there, defined from row `w - 1`. */
  function RollingMean(close: seq<real>, w: nat, i: nat): (m: real)
    requires 0 < w <= i + 1 <= |close|
    ensures m * w as real == Sum(close[i + 1 - w..i + 1])
  {
    var window := close[i + 1 - w..i + 1];
    MeanTimesWindow(Sum(window), w);
    Sum(window) / w as real
  }

  /** Dividing a sum by the window length and multiplying back gives the sum. */
  lemma MeanTimesWindow(total: real, w: nat)
    requires w > 0
    ensures (total / w as real) * w as real == total
  {
  }

  /** `signal`: 1 when the short mean is above the long one; 0 when not, or while either is undefined. */
  function Signal(close: seq<real>, i: nat): (s: int)
    requires i < |close|
    ensures s == 0 || s == 1
  {
    if i + 1 < LongWindow then 0
    else if RollingMean(close, ShortWindow, i) > RollingMean(close, LongWindow, i) then 1
    else 0
  }

  /** A row of the frame `calculate_technical` returns. */
  datatype TechRow = TechRow(close: real, shortMa: real, longMa: real, signal: int, position: int)

  /** Row `i` with its indicator columns, once both means exist. */
  function TechAt(close: seq<real>, i: nat): (t: TechRow)
    requires LongWindow - 1 <= i < |close|
    ensures t.close == close[i] && t.signal == Signal(close, i)
    ensures t.shortMa * ShortWindow as real == Sum(close[i + 1 - ShortWindow..i + 1])
    ensures t.longMa * LongWindow as real == Sum(close[i + 1 - LongWindow..i + 1])
    ensures t.signal == 1 <==> t.shortMa > t.longMa
    ensures t.position == t.signal - Signal(close, i - 1)
    ensures -1 <= t.position <= 1
    ensures t.position != 0 ==> t.position == 2 * t.signal - 1
  {
    TechRow(close[i], RollingMean(close, ShortWindow, i), RollingMean(close, LongWindow, i),
            Signal(close, i), Signal(close, i) - Signal(close, i - 1))
  }

  /**
   * The price and mean columns of the kept rows: row `k` is day `k + long_window - 1`, with the
   * means of the 5 and 20 closes ending there.
   */
  predicate IndicatorColumns(close: seq<real>, r: seq<TechRow>) {
    (|r| > 0 ==> |r| + (LongWindow - 1) <= |close|)
    && (forall k :: 0 <= k < |r| ==> r[k].close == close[k + LongWindow - 1])
    && forall k :: 0 <= k < |r| ==>
         r[k].shortMa * ShortWindow as real == Sum(close[k + LongWindow - ShortWindow..k + LongWindow])
         && r[k].longMa * LongWindow as real == Sum(close[k..k + LongWindow])
  }

  /**
   * The signal and difference columns of the kept rows: the signal is 1 exactly when the
   * short mean is above the long one, and the difference is the change from the previous
   * kept row, so it is +1, -1 or 0 and agrees in sign with the new signal.
   */
  predicate SignalColumns(r: seq<TechRow>) {
    (forall k :: 0 <= k < |r| ==> (r[k].signal == 1 <==> r[k].shortMa > r[k].longMa))
    && (forall k :: 0 <= k < |r| ==> r[k].signal == 0 || r[k].signal == 1)
    && (forall k :: 0 <= k < |r| ==> -1 <= r[k].position <= 1)
    && (forall k :: 0 <= k < |r| && r[k].position != 0 ==> r[k].position == 2 * r[k].signal - 1)
    && forall k :: 1 <= k < |r| ==> r[k].position == r[k].signal - r[k - 1].signal
  }

  /**
   * `calculate_technical` followed by `dropna()`: the rows from index `long_window - 1` on,
   * the first where both means exist (and the difference, which needs a previous row).
   */
  function Technical(close: seq<real>): (r: seq<TechRow>)
    ensures |r| == if |close| < LongWindow then 0 else |close| - (LongWindow - 1)
    ensures IndicatorColumns(close, r) && SignalColumns(r)
    // the row before the first kept one has no long mean yet, so its signal was 0
    ensures |r| > 0 ==> r[0].position == r[0].signal
  {
    if |close| < LongWindow then []
    else
      var r := KeptRows(close);
      TechnicalValues(close, r);
      TechnicalSignals(close, r);
      TechnicalStart(close, r);
      r
  }

  /** The rows `dropna()` keeps, each with its indicator columns. */
  function KeptRows(close: seq<real>): (r: seq<TechRow>)
    requires |close| >= LongWindow
    ensures |r| == |close| - (LongWindow - 1)
    ensures forall k :: 0 <= k < |r| ==> r[k] == TechAt(close, k + LongWindow - 1)
  {
    seq(|close| - (LongWindow - 1), k requires 0 <= k < |close| - (LongWindow - 1) => TechAt(close, k + LongWindow - 1))
  }

  /** The price and mean columns of `Technical`, from those of `TechAt`. */
  lemma TechnicalValues(close: seq<real>, r: seq<TechRow>)
    requires |close| >= LongWindow && |r| == |close| - (LongWindow - 1)
    requires forall k :: 0 <= k < |r| ==> r[k] == TechAt(close, k + LongWindow - 1)
    ensures IndicatorColumns(close, r)
  {
    forall k | 0 <= k < |r|
      ensures r[k].close == close[k + LongWindow - 1]
      ensures r[k].shortMa * ShortWindow as real == Sum(close[k + LongWindow - ShortWindow..k + LongWindow])
      ensures r[k].longMa * LongWindow as real == Sum(close[k..k + LongWindow])
    {
      var i := k + LongWindow - 1;
      assert r[k] == TechAt(close, i);
      assert i + 1 - ShortWindow == k + LongWindow - ShortWindow && i + 1 == k + LongWindow && i + 1 - LongWindow == k;
    }
  }

  /** The signal and difference columns of `Technical`, from those of `TechAt`. */
  lemma TechnicalSignals(close: seq<real>, r: seq<TechRow>)
    requires |close| >= LongWindow && |r| == |close| - (LongWindow - 1)
    requires forall k :: 0 <= k < |r| ==> r[k] == TechAt(close, k + LongWindow - 1)
    ensures SignalColumns(r)
  {
    forall k | 0 <= k < |r|
      ensures r[k].signal == 1 <==> r[k].shortMa > r[k].longMa
      ensures r[k].signal == 0 || r[k].signal == 1
      ensures -1 <= r[k].position <= 1
      ensures r[k].position != 0 ==> r[k].position == 2 * r[k].signal - 1
    {
      assert r[k] == TechAt(close, k + LongWindow - 1);
    }
    forall k | 1 <= k < |r| ensures r[k].position == r[k].signal - r[k - 1].signal {
      var i := k + LongWindow - 1;
      assert r[k] == TechAt(close, i) && r[k - 1] == TechAt(close, i - 1);
    }
  }

  /** The first kept row's difference is its signal: the row before it had no long mean, so signal 0. */
  lemma TechnicalStart(close: seq<real>, r: seq<TechRow>)
    requires |close| >= LongWindow && |r| == |close| - (LongWindow - 1)
    requires r[0] == TechAt(close, LongWindow - 1)
    ensures r[0].position == r[0].signal
  {
    assert Signal(close, LongWindow - 2) == 0;
  }

  /** Over a run of zero differences the signal does not move. */
  lemma {:induction false} SignalSteady(r: seq<TechRow>, k1: nat, k2: nat)
    requires k1 < k2 <= |r|
    requires forall k :: 1 <= k < |r| ==> r[k].position == r[k].signal - r[k - 1].signal
    requires forall k :: k1 < k < k2 ==> r[k].position == 0
    ensures r[k2 - 1].signal == r[k1].signal
  {
    if k2 - 1 > k1 {
      SignalSteady(r, k1, k2 - 1);
    }
  }

  /**
   * After the warm-up rows are dropped the non-zero differences alternate: a buy signal
   * is followed by a sell signal and the other way round.
   */
  lemma PositionsAlternate(close: seq<real>, k1: nat, k2: nat)
    requires k1 < k2 < |Technical(close)|
    requires Technical(close)[k1].position != 0 && Technical(close)[k2].position != 0
    requires forall k :: k1 < k < k2 ==> Technical(close)[k].position == 0
    ensures Technical(close)[k2].position == -Technical(close)[k1].position
  {
    SignalSteady(Technical(close), k1, k2);
  }

  /**
   * The first non-zero difference after the warm-up is a buy: the signal starts from 0, so
   * it can only rise first (a short mean already above the long one buys on the first day).
   */
  lemma FirstPositionIsBuy(close: seq<real>, k: nat)
    requires k < |Technical(close)| && Technical(close)[k].position != 0
    requires forall j :: 0 <= j < k ==> Technical(close)[j].position == 0
    ensures Technical(close)[k].position == 1
  {
    var r := Technical(close);
    if k > 0 {
      SignalSteady(r, 0, k);
    }
  }

  /** A day whose signal is 1 is at or after a day with a +1 difference. */
  lemma {:induction false} BuyBeforeSignal(r: seq<TechRow>, k: nat)
    requires k < |r| && r[0].position == r[0].signal
    requires forall i :: 0 <= i < |r| ==> r[i].signal == 0 || r[i].signal == 1
    requires forall i :: 1 <= i < |r| ==> r[i].position == r[i].signal - r[i - 1].signal
    requires r[k].signal == 1
    ensures exists j :: 0 <= j <= k && r[j].position == 1
  {
    if k == 0 {
      assert r[0].position == 1;
    } else if r[k - 1].signal == 1 {
      BuyBeforeSignal(r, k - 1);
      var j :| 0 <= j <= k - 1 && r[j].position == 1;
      assert 0 <= j <= k && r[j].position == 1;
    } else {
      assert r[k].position == 1;
    }
  }

  /** Every sell signal comes after a buy signal: the backtest never sells before it has bought. */
  lemma SellFollowsBuy(close: seq<real>, k: nat)
    requires k < |Technical(close)| && Technical(close)[k].position == -1
    ensures exists j :: 0 <= j < k && Technical(close)[j].position == 1
  {
    var r := Technical(close);
    assert k > 0 && r[k - 1].signal == 1;
    BuyBeforeSignal(r, k - 1);
  }

  // ---------------------------------------------------------------------------------------
  // Backtest

  /** The trading state: `capital` and `position` (shares held). */
  datatype Account = Account(cash: real, shares: int)

  /** A row of `portfolio`. */
  datatype PortfolioRow = PortfolioRow(close: real, cash: real, shares: int, total: real, signal: int)

  /** What one share costs on a buy, fee included: `price * (1 + transaction_cost)`. */
  function BuyCost(price: real): (c: real)
    requires price > 0.0
    ensures c > price
  {
    price * (1.0 + TransactionCost)
  }

  /**
   * One day of the loop: buy as many shares as the cash pays for, fees included, on a +1
   * while flat; sell the whole holding, net of fees, on a -1 while holding; otherwise
   * nothing.
   */
  function Step(a: Account, signal: int, price: real): (b: Account)
    requires price > 0.0
    ensures a.shares >= 0 ==> b.shares >= 0
    ensures b != a ==> (signal == 1 && a.shares == 0 && b.shares > 0)
                       || (signal == -1 && a.shares > 0 && b.shares == 0)
    ensures signal == 1 && a.shares == 0 && a.cash >= BuyCost(price) ==> b.shares > 0
    ensures signal == -1 && a.shares > 0 ==> b.shares == 0
  {
    if signal == 1 && a.shares == 0 then
      var bought := (a.cash / BuyCost(price)).Floor;
      assert a.cash >= BuyCost(price) ==> bought >= 1 by {
        if a.cash >= BuyCost(price) {
          QuotientAtLeastOne(a.cash, BuyCost(price));
        }
      }
      if bought > 0 then Account(a.cash - bought as real * BuyCost(price), bought)
      else a
    else if signal == -1 && a.shares > 0 then
      Account(a.cash + a.shares as real * price * (1.0 - TransactionCost), 0)
    else a
  }

  /**
   * A +1 while flat buys the largest whole number of shares the cash pays for, fees
   * included, and pays exactly their cost (no shares and no payment when not even one is affordable).
   */
  lemma StepBuysLargestLot(a: Account, price: real)
    requires price > 0.0 && a.cash >= 0.0 && a.shares == 0
    ensures var b := Step(a, 1, price);
      b.shares as real * BuyCost(price) <= a.cash < (b.shares + 1) as real * BuyCost(price)
      && b.cash == a.cash - b.shares as real * BuyCost(price)
  {
    var unit := BuyCost(price);
    var q := a.cash / unit;
    var lot := q.Floor;
    var hi := (lot + 1) as real;
    assert lot as real <= q < hi;
    assert q * unit == a.cash;
    MultiplyStrict(lot as real, q, unit, true);
    MultiplyStrict(q, hi, unit, false);
    assert a.cash < hi * unit;
    if lot <= 0 {
      assert lot == 0 by {
        MultiplyStrict(0.0, a.cash, 1.0 / unit, true);
        assert q >= 0.0;
      }
      assert Step(a, 1, price) == a;
    } else {
      assert Step(a, 1, price) == Account(a.cash - lot as real * unit, lot);
    }
  }

  /** Proof helper: a quotient whose dividend is at least its positive divisor is at least 1. */
  lemma QuotientAtLeastOne(x: real, u: real)
    requires u > 0.0 && x >= u
    ensures x / u >= 1.0
  {
  }

  /** Proof helper: multiplying both sides by a positive factor keeps the order. */
  lemma MultiplyStrict(x: real, y: real, u: real, orEqual: bool)
    requires u > 0.0 && (if orEqual then x <= y else x < y)
    ensures if orEqual then x * u <= y * u else x * u < y * u
  {
  }

  /** A trade never leaves the cash negative. */
  lemma StepKeepsCash(a: Account, signal: int, price: real)
    requires price > 0.0 && a.cash >= 0.0 && a.shares >= 0
    ensures Step(a, signal, price).cash >= 0.0
  {
    if signal == 1 && a.shares == 0 {
      StepBuysLargestLot(a, price);
    }
  }

  function Diff(x: int, y: int): nat { if x <= y then y - x else x - y }

  /** Marked to the day's price, a trade loses exactly the fee on the traded value. */
  lemma StepLosesOnlyFees(a: Account, signal: int, price: real)
    requires price > 0.0
    ensures var b := Step(a, signal, price);
      b.cash + b.shares as real * price
      == a.cash + a.shares as real * price - TransactionCost * price * Diff(a.shares, b.shares) as real
  {
  }

  /** The account after the first `n` days, starting from the initial capital and no shares. */
  function AccountAfter(df: seq<TechRow>, n: nat): (a: Account)
    requires n <= |df|
    requires forall i :: 0 <= i < |df| ==> df[i].close > 0.0
    ensures a.cash >= 0.0 && a.shares >= 0
  {
    if n == 0 then Account(InitialCapital, 0)
    else
      StepKeepsCash(AccountAfter(df, n - 1), df[n - 1].position, df[n - 1].close);
      Step(AccountAfter(df, n - 1), df[n - 1].position, df[n - 1].close)
  }

  /** One more day of the account is one more `Step`. */
  lemma AccountAfterStep(df: seq<TechRow>, i: nat)
    requires i < |df| && forall j :: 0 <= j < |df| ==> df[j].close > 0.0
    ensures AccountAfter(df, i + 1) == Step(AccountAfter(df, i), df[i].position, df[i].close)
  {
  }

  /** The account marked to a price: `capital + position * current_price`. */
  function Total(a: Account, price: real): real {
    a.cash + a.shares as real * price
  }

  /** The row the loop writes for day `i`. */
  function Record(row: TechRow, a: Account): PortfolioRow {
    PortfolioRow(row.close, a.cash, a.shares, Total(a, row.close), row.position)
  }

  /** The portfolio frame: one row per day, each recording the account after that day's trade. */
  function Portfolio(df: seq<TechRow>): (p: seq<PortfolioRow>)
    requires forall i :: 0 <= i < |df| ==> df[i].close > 0.0
    ensures |p| == |df|
    ensures forall i :: 0 <= i < |p| ==> p[i].close == df[i].close && p[i].signal == df[i].position
    ensures forall i :: 0 <= i < |p| ==> p[i].cash >= 0.0 && p[i].shares >= 0
    ensures forall i :: 0 <= i < |p| ==>
      p[i].cash == AccountAfter(df, i + 1).cash && p[i].shares == AccountAfter(df, i + 1).shares
    ensures forall i :: 0 <= i < |p| ==> p[i].total == Total(Account(p[i].cash, p[i].shares), p[i].close)
  {
    var p := seq(|df|, i requires 0 <= i < |df| => Record(df[i], AccountAfter(df, i + 1)));
    PortfolioRows(df, p);
    p
  }

  /** The per-row facts of `Portfolio`, one row at a time. */
  lemma PortfolioRows(df: seq<TechRow>, p: seq<PortfolioRow>)
    requires forall i :: 0 <= i < |df| ==> df[i].close > 0.0
    requires |p| == |df| && forall i :: 0 <= i < |p| ==> p[i] == Record(df[i], AccountAfter(df, i + 1))
    ensures forall i :: 0 <= i < |p| ==> p[i].close == df[i].close && p[i].signal == df[i].position
    ensures forall i :: 0 <= i < |p| ==> p[i].cash >= 0.0 && p[i].shares >= 0
    ensures forall i :: 0 <= i < |p| ==>
      p[i].cash == AccountAfter(df, i + 1).cash && p[i].shares == AccountAfter(df, i + 1).shares
    ensures forall i :: 0 <= i < |p| ==> p[i].total == Total(Account(p[i].cash, p[i].shares), p[i].close)
  {
  }

  /** The trade block of one day of the `backtest` loop. */
  method Trade(capital: real, position: int, currentSignal: int, currentPrice: real)
    returns (newCapital: real, newPosition: int)
    requires currentPrice > 0.0
    ensures Account(newCapital, newPosition) == Step(Account(capital, position), currentSignal, currentPrice)
  {
    newCapital, newPosition := capital, position;
    if currentSignal == 1 {
      if newPosition == 0 {
        var sharesBought := (newCapital / BuyCost(currentPrice)).Floor;
        if sharesBought > 0 {
          var cost := sharesBought as real * BuyCost(currentPrice);
          newCapital := newCapital - cost;
          newPosition := sharesBought;
        }
      }
    } else if currentSignal == -1 {
      if newPosition > 0 {
        var proceeds := newPosition as real * currentPrice * (1.0 - TransactionCost);
        newCapital := newCapital + proceeds;
        newPosition := 0;
      }
    }
  }

  /**
   * `backtest`: the portfolio frame is allocated with its initial columns and then every
   * row is written in place while `capital` and `position` evolve day by day.
   */
  method Backtest(df: seq<TechRow>) returns (portfolio: seq<PortfolioRow>)
    requires forall i :: 0 <= i < |df| ==> df[i].close > 0.0
    ensures portfolio == Portfolio(df)
  {
    var capital := InitialCapital;
    var position := 0;
    var frame := new PortfolioRow[|df|](i requires 0 <= i < |df| =>
      PortfolioRow(df[i].close, InitialCapital, 0, InitialCapital, 0));
    for i := 0 to |df|
      invariant Account(capital, position) == AccountAfter(df, i)
      invariant forall j {:trigger frame[j]} :: 0 <= j < i ==> frame[j] == Record(df[j], AccountAfter(df, j + 1))
    {
      var currentSignal := df[i].position;
      var currentPrice := df[i].close;
      capital, position := Trade(capital, position, currentSignal, currentPrice);
      AccountAfterStep(df, i);
      var total := Total(Account(capital, position), currentPrice);
      frame[i] := PortfolioRow(currentPrice, capital, position, total, currentSignal);
    }
    assert forall j :: 0 <= j < |df| ==> frame[..][j] == frame[j];
    return frame[..];
  }

  /** Every recorded total is at least the cash held, so never negative. */
  lemma PortfolioTotalsNonNegative(df: seq<TechRow>, i: nat)
    requires forall j :: 0 <= j < |df| ==> df[j].close > 0.0
    requires i < |df|
    ensures Portfolio(df)[i].total >= Portfolio(df)[i].cash >= 0.0
  {
    var a := AccountAfter(df, i + 1);
    assert Portfolio(df)[i] == Record(df[i], a);
    assert a.shares as real * df[i].close >= 0.0;
  }

  /** A day whose signal is neither +1 nor -1 leaves cash and shares as they were. */
  lemma QuietDaysChangeNothing(df: seq<TechRow>, i: nat)
    requires forall j :: 0 <= j < |df| ==> df[j].close > 0.0
    requires i < |df| && df[i].position != 1 && df[i].position != -1
    ensures AccountAfter(df, i + 1) == AccountAfter(df, i)
  {
  }

  /** Until the first +1 signal the account keeps the initial capital and holds no shares. */
  lemma {:induction false} FlatUntilFirstBuy(df: seq<TechRow>, n: nat)
    requires n <= |df| && forall i :: 0 <= i < |df| ==> df[i].close > 0.0
    requires forall i :: 0 <= i < n ==> df[i].position != 1
    ensures AccountAfter(df, n) == Account(InitialCapital, 0)
  {
    if n > 0 {
      FlatUntilFirstBuy(df, n - 1);
    }
  }
}
