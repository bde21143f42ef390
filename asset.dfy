/**
 * One investment position (`Asset`): its transaction facts, its price time
 * series and its payouts, and the valuation metrics derived from them.
 *
 * The settings `src/asset.js` reads from the application store (stop-loss
 * rule, benchmark series) and the exchange-rate effect `forexChange` are
 * parameters of the metrics that use them.
 */
module Position {
  import opened Wrappers
  import opened Numbers
  import Text
  import Series
  import Payouts

  /** The stop-loss rule of the user settings: reference date and percentage. */
  datatype StopLossRule = StopLossRule(date: string, pct: real)

  /** The raw record a position is built from (API payload or stored snapshot); any field may be missing. */
  datatype Item = Item(
    id: Option<string>,
    currency: Option<string>,
    name: Option<string>,
    ticker: Option<string>,
    amount: Option<real>,
    totalBuy: Option<real>,
    totalSell: Option<real>,
    dateBuy: Option<string>,
    dateSell: Option<string>,
    timeseries: Option<Series.Entries>,
    payouts: Payouts.PayoutInput,
    buyPrice: Option<real>,
    targetPrice: Option<real>,
    yearlyHigh: Option<real>,
    yearlyLow: Option<real>,
    lastChecked: Option<string>)

  /** The empty record `{}` a missing item is replaced by. */
  const EmptyItem := Item(None, None, None, None, None, None, None, None, None, None,
                          Payouts.NoPayouts, None, None, None, None, None)

  // ---------------------------------------------------------------------
  // Field normalisation done by the setters

  /** JavaScript truthiness of a string-or-missing: present and not empty. */
  predicate Given(s: Option<string>) {
    s.Some? && s.value != ""
  }

  /** Setters of `id`, `currency`, `dateBuy`, `dateSell`: a falsy input is stored as null. */
  function OrNull(s: Option<string>): (r: Option<string>)
    ensures r.None? <==> !Given(s)
    ensures r.Some? ==> r == s && r.value != ""
  {
    if Given(s) then s else None
  }

  /** Setter of `name`: a falsy input is stored as the empty string. */
  function OrEmpty(s: Option<string>): (r: string)
    ensures Given(s) ==> r == s.value
    ensures !Given(s) ==> r == ""
  {
    if Given(s) then s.value else ""
  }

  /** Setter of `ticker`: upper-cased, or the empty string for a falsy input. */
  function NormTicker(s: Option<string>): (r: string)
    ensures !Given(s) ==> r == ""
    ensures Given(s) ==> |r| == |s.value| && forall i :: 0 <= i < |r| ==> !Text.IsLower(r[i])
    ensures Given(s) ==> forall i :: 0 <= i < |r| ==> r[i] == Text.UpperChar(s.value[i])
    ensures Given(s) ==> forall i :: 0 <= i < |r| && !Text.IsLower(s.value[i]) ==> r[i] == s.value[i]
  {
    Text.UpperSpec(OrEmpty(s));
    Text.Upper(OrEmpty(s))
  }

  /** Setters of `amount`, `buyValue`, `sellValue`: a falsy input is stored as `""`. */
  function NormAmount(v: Option<real>): (r: Amount)
    ensures r.Blank? <==> !Truthy(v)
    ensures r.Amount? ==> r.x == v.value && r.x != 0.0
  {
    if Truthy(v) then Amount(v.value) else Blank
  }

  /** Setters of `buyPrice`, `targetPrice`, `yearlyHigh`, `yearlyLow`: a falsy input is stored as null. */
  function NormLevel(v: Option<real>): (r: Option<real>)
    ensures r.None? <==> !Truthy(v)
    ensures r.Some? ==> r == v && r.value != 0.0
  {
    if Truthy(v) then v else None
  }

  /** What a stored amount field reads back as when it is fed to a setter again. */
  function AmountInput(a: Amount): Option<real> {
    match a
    case Blank => None
    case Amount(x) => Some(x)
  }

  /**
   * Normalisation is stable: feeding a stored field back through its setter
   * (re-loading a persisted snapshot) stores the same value again.
   */
  lemma NormalizeStable(s: Option<string>, v: Option<real>)
    ensures OrNull(OrNull(s)) == OrNull(s)
    ensures OrEmpty(Some(OrEmpty(s))) == OrEmpty(s)
    ensures NormTicker(Some(NormTicker(s))) == NormTicker(s)
    ensures NormAmount(AmountInput(NormAmount(v))) == NormAmount(v)
    ensures NormLevel(NormLevel(v)) == NormLevel(v)
  {
    Text.UpperSpec(OrEmpty(s));
  }

  // ---------------------------------------------------------------------
  // Bulk assignment of the time series

  /**
   * The series after `timeseries = val`: the input rebuilt in ascending date
   * order; then, on an open position with a known `lastChecked`, the last
   * price of the rebuilt series is written under `lastChecked`.
   */
  function AssignedSeries(val: Option<Series.Entries>, lastChecked: Option<string>, sold: bool): (r: Series.Entries)
    requires val.Some? ==> Series.WellFormed(val.value)
    ensures Series.WellFormed(r)
    ensures val.None? ==> r == []
    ensures val.Some? ==> multiset(Series.Keys(val.value)) <= multiset(Series.Keys(r))
    ensures val.Some? ==> forall k :: !(Given(lastChecked) && k == lastChecked.value) ==> Series.Get(r, k) == Series.Get(val.value, k)
  {
    if val.None? then []
    else
      var sorted := Series.Sorted(val.value);
      var last := Series.Last(sorted);
      Series.SortedSpec(val.value);
      if Given(lastChecked) && Truthy(last) && !sold then
        Series.UpsertSpec(sorted, lastChecked.value, last.value);
        Series.Upsert(sorted, lastChecked.value, last.value)
      else sorted
  }

  /**
   * Without the re-assert step (no `lastChecked`, a closed position, or a
   * falsy last price in the sorted input) the series holds the input's dates
   * in ascending order, each with the input's price; a missing input gives an
   * empty series.
   */
  lemma AssignedWithoutReassert(val: Option<Series.Entries>, lastChecked: Option<string>, sold: bool)
    requires val.Some? ==> Series.WellFormed(val.value)
    requires val.Some? ==> !(Given(lastChecked) && !sold && Truthy(Series.Last(Series.Sorted(val.value))))
    ensures val.None? ==> AssignedSeries(val, lastChecked, sold) == []
    ensures val.Some? ==>
      var r := AssignedSeries(val, lastChecked, sold);
      && Series.WellFormed(r)
      && Series.StrictlySorted(Series.Keys(r))
      && Series.Keys(r) == Series.SortKeys(Series.Keys(val.value))
      && multiset(Series.Keys(r)) == multiset(Series.Keys(val.value))
      && forall k :: Series.Get(r, k) == Series.Get(val.value, k)
  {
    if val.Some? {
      Series.SortedSpec(val.value);
    }
  }

  /** A falsy input, or an empty object, leaves an empty series whatever the position's state. */
  lemma AssignedFromNothing(lastChecked: Option<string>, sold: bool)
    ensures AssignedSeries(None, lastChecked, sold) == []
    ensures AssignedSeries(Some([]), lastChecked, sold) == []
  {
    assert Series.Keys([]) == [];
  }

  /**
   * With the re-assert step the entry at `lastChecked` holds the last price of
   * the sorted input and every other date reads as in the input. The dates stay
   * ascending when `lastChecked` is not before any input date.
   */
  lemma AssignedWithReassert(val: Series.Entries, lastChecked: string, sold: bool)
    requires Series.WellFormed(val)
    requires lastChecked != "" && !sold && Truthy(Series.Last(Series.Sorted(val)))
    ensures
      var r := AssignedSeries(Some(val), Some(lastChecked), sold);
      && Series.WellFormed(r)
      && Series.Get(r, lastChecked) == Series.Last(Series.Sorted(val))
      && (forall k :: k != lastChecked ==> Series.Get(r, k) == Series.Get(val, k))
      && ((forall k :: k in Series.Keys(val) ==> !Text.Less(lastChecked, k)) ==> Series.StrictlySorted(Series.Keys(r)))
  {
    var sorted := Series.Sorted(val);
    var last := Series.Last(sorted).value;
    Series.SortedSpec(val);
    Series.UpsertSpec(sorted, lastChecked, last);
    var r := Series.Upsert(sorted, lastChecked, last);
    if forall k :: k in Series.Keys(val) ==> !Text.Less(lastChecked, k) {
      var ks := Series.Keys(sorted);
      if lastChecked !in ks {
        forall i | 0 <= i < |ks| ensures Text.Less(ks[i], lastChecked) {
          assert ks[i] in multiset(Series.Keys(val));
          Text.LessTotal(ks[i], lastChecked);
        }
        assert Series.Keys(r) == ks + [lastChecked];
      }
    }
  }

  /**
   * Assignment depends only on the contents of the input, not on its key
   * order: an unsorted input gives the same series as the same input sorted.
   */
  lemma AssignedCanonical(val: Series.Entries, other: Series.Entries, lastChecked: Option<string>, sold: bool)
    requires Series.WellFormed(val) && Series.WellFormed(other)
    requires forall k :: Series.Get(val, k) == Series.Get(other, k)
    ensures AssignedSeries(Some(val), lastChecked, sold) == AssignedSeries(Some(other), lastChecked, sold)
    ensures Series.WellFormed(Series.Sorted(val))
    ensures AssignedSeries(Some(Series.Sorted(val)), lastChecked, sold) == AssignedSeries(Some(val), lastChecked, sold)
  {
    Series.SortedCanonical(val, other);
    Series.SortedIdempotent(val);
  }

  // ---------------------------------------------------------------------
  // Shared arithmetic of the "distance to a price level" metrics

  /** `(level / lastPrice) * value - value`: what the position would gain if the price moved to `level`. */
  function Rescale(value: Value, level: real, lastPrice: real): Value
    requires lastPrice != 0.0
  {
    Sub(Mul(value, level / lastPrice), value)
  }

  /** For a positive value and price, the distance is positive, zero or negative as the level is above, at or below the price. */
  lemma RescaleSign(value: Value, level: real, lastPrice: real)
    requires value.Finite? && value.x > 0.0 && lastPrice > 0.0
    ensures Rescale(value, level, lastPrice).Finite?
    ensures Rescale(value, level, lastPrice).x > 0.0 <==> level > lastPrice
    ensures Rescale(value, level, lastPrice).x == 0.0 <==> level == lastPrice
  {
    var q := level / lastPrice;
    assert Rescale(value, level, lastPrice).x == value.x * (q - 1.0);
    assert q > 1.0 <==> level > lastPrice;
    assert q == 1.0 <==> level == lastPrice;
    if q > 1.0 {
      assert value.x * (q - 1.0) > 0.0;
    } else if q < 1.0 {
      assert value.x * (1.0 - q) > 0.0;
    }
  }

  class Asset {
    var id: Option<string>
    var currency: Option<string>
    var name: string
    var ticker: string
    var amount: Amount
    var buyValue: Amount
    var sellValue: Amount
    var dateBuy: Option<string>
    var dateSell: Option<string>
    var series: Series.Entries
    var payouts: Payouts.Payouts
    var buyPrice: Option<real>
    var targetPrice: Option<real>
    var yearlyHigh: Option<real>
    var yearlyLow: Option<real>
    var lastChecked: Option<string>

    /** The series never repeats a date and a set sell date is never empty. */
    ghost predicate Valid()
      reads this
    {
      Series.WellFormed(series) && dateSell != Some("")
    }

    /** Builds a position from a raw record by running every setter in the order `src/asset.js` runs them. */
    constructor (item: Option<Item>)
      requires item.Some? && item.value.timeseries.Some? ==> Series.WellFormed(item.value.timeseries.value)
      ensures Valid()
      ensures id == OrNull(item.GetOr(EmptyItem).id) && currency == OrNull(item.GetOr(EmptyItem).currency)
      ensures name == OrEmpty(item.GetOr(EmptyItem).name) && ticker == NormTicker(item.GetOr(EmptyItem).ticker)
      ensures amount == NormAmount(item.GetOr(EmptyItem).amount)
      ensures buyValue == NormAmount(item.GetOr(EmptyItem).totalBuy)
      ensures sellValue == NormAmount(item.GetOr(EmptyItem).totalSell)
      ensures dateBuy == OrNull(item.GetOr(EmptyItem).dateBuy) && dateSell == OrNull(item.GetOr(EmptyItem).dateSell)
      ensures series == AssignedSeries(item.GetOr(EmptyItem).timeseries, None, Given(item.GetOr(EmptyItem).dateSell))
      ensures payouts == Payouts.Normalize(item.GetOr(EmptyItem).payouts)
      ensures buyPrice == NormLevel(item.GetOr(EmptyItem).buyPrice)
      ensures targetPrice == NormLevel(item.GetOr(EmptyItem).targetPrice)
      ensures yearlyHigh == NormLevel(item.GetOr(EmptyItem).yearlyHigh)
      ensures yearlyLow == NormLevel(item.GetOr(EmptyItem).yearlyLow)
      ensures lastChecked == item.GetOr(EmptyItem).lastChecked
    {
      var it := item.GetOr(EmptyItem);
      // the plain setters, in the order of the JavaScript constructor
      id, currency, name, ticker := OrNull(it.id), OrNull(it.currency), OrEmpty(it.name), NormTicker(it.ticker);
      amount, buyValue, sellValue := NormAmount(it.amount), NormAmount(it.totalBuy), NormAmount(it.totalSell);
      dateBuy, dateSell := OrNull(it.dateBuy), OrNull(it.dateSell);
      series, payouts := [], map[];
      buyPrice, targetPrice := NormLevel(it.buyPrice), NormLevel(it.targetPrice);
      yearlyHigh, yearlyLow := NormLevel(it.yearlyHigh), NormLevel(it.yearlyLow);
      lastChecked := None;
      new;
      // the series is assigned while lastChecked is still unset, so nothing is re-asserted here
      SetTimeseries(it.timeseries);
      SetPayouts(it.payouts);
      lastChecked := it.lastChecked;
    }

    // -------------------------------------------------------------------
    // Setters

    method SetId(val: Option<string>)
      modifies this`id
      ensures id == OrNull(val)
    {
      id := OrNull(val);
    }

    method SetCurrency(val: Option<string>)
      modifies this`currency
      ensures currency == OrNull(val)
    {
      currency := OrNull(val);
    }

    method SetName(val: Option<string>)
      modifies this`name
      ensures name == OrEmpty(val)
    {
      name := OrEmpty(val);
    }

    method SetTicker(val: Option<string>)
      modifies this`ticker
      ensures ticker == NormTicker(val)
    {
      ticker := NormTicker(val);
    }

    method SetAmount(val: Option<real>)
      modifies this`amount
      ensures amount == NormAmount(val)
    {
      amount := NormAmount(val);
    }

    method SetBuyValue(val: Option<real>)
      modifies this`buyValue
      ensures buyValue == NormAmount(val)
    {
      buyValue := NormAmount(val);
    }

    method SetSellValue(val: Option<real>)
      modifies this`sellValue
      ensures sellValue == NormAmount(val)
    {
      sellValue := NormAmount(val);
    }

    method SetDateBuy(val: Option<string>)
      modifies this`dateBuy
      ensures dateBuy == OrNull(val)
      ensures DateBuyText().None? <==> !Given(val)
    {
      dateBuy := OrNull(val);
    }

    /** Setting a sell date closes the position; clearing it re-opens it. */
    method SetDateSell(val: Option<string>)
      modifies this`dateSell
      ensures dateSell == OrNull(val)
      ensures IsSold() <==> Given(val)
      ensures DateSellText() == (if Given(val) then val.value else "")
    {
      dateSell := OrNull(val);
    }

    method SetBuyPrice(val: Option<real>)
      modifies this`buyPrice
      ensures buyPrice == NormLevel(val)
    {
      buyPrice := NormLevel(val);
    }

    method SetTargetPrice(val: Option<real>)
      modifies this`targetPrice
      ensures targetPrice == NormLevel(val)
      ensures TargetPrice() == NormLevel(val)
    {
      targetPrice := NormLevel(val);
    }

    method SetYearlyHigh(val: Option<real>)
      modifies this`yearlyHigh
      ensures yearlyHigh == NormLevel(val)
      ensures YearlyHigh() == NormLevel(val)
    {
      yearlyHigh := NormLevel(val);
    }

    method SetYearlyLow(val: Option<real>)
      modifies this`yearlyLow
      ensures yearlyLow == NormLevel(val)
      ensures YearlyLow() == NormLevel(val)
    {
      yearlyLow := NormLevel(val);
    }

    /**
     * `timeseries = val`: rebuilds the series in ascending date order, then
     * re-asserts the last price under `lastChecked` on an open position.
     */
    method SetTimeseries(val: Option<Series.Entries>)
      requires Valid()
      requires val.Some? ==> Series.WellFormed(val.value)
      modifies this`series
      ensures Valid()
      ensures series == AssignedSeries(val, lastChecked, IsSold())
    {
      series := [];
      if val.Some? {
        var input := val.value;
        var dates := Series.SortKeys(Series.Keys(input));
        Series.SortKeysSpec(Series.Keys(input));
        forall k | k in dates ensures Series.Get(input, k).Some? {
          assert k in multiset(dates);
          Series.GetPresent(input, k);
        }
        for i := 0 to |dates|
          invariant series == Series.Pick(dates[..i], input)
        {
          Series.PickNext(dates, i, input);
          series := Series.Upsert(series, dates[i], Series.Get(input, dates[i]).value);
        }
        assert dates[..|dates|] == dates;
        Series.SortedSpec(input);
        // manually set the last available price
        if Given(lastChecked) && Truthy(LastPrice()) && !IsSold() {
          Series.UpsertSpec(series, lastChecked.value, LastPrice().value);
          series := Series.Upsert(series, lastChecked.value, LastPrice().value);
        }
      }
    }

    /**
     * `lastPrice = val`: on an open position with a known `lastChecked` and a
     * truthy price, writes the price under `lastChecked`; otherwise nothing changes.
     */
    method SetLastPrice(val: Option<real>)
      requires Valid()
      modifies this`series
      ensures Valid()
      ensures Given(lastChecked) && Truthy(val) && !IsSold() ==>
        series == Series.Upsert(old(series), lastChecked.value, val.value)
      ensures !(Given(lastChecked) && Truthy(val) && !IsSold()) ==> series == old(series)
      ensures Given(lastChecked) && Truthy(val) && !IsSold() ==> Series.Get(series, lastChecked.value) == val
      ensures Given(lastChecked) && Truthy(val) && !IsSold()
        && (lastChecked.value !in old(Dates()) || lastChecked.value == old(Dates())[|old(Dates())| - 1])
        ==> LastPrice() == val
    {
      if Given(lastChecked) && Truthy(val) && !IsSold() {
        Series.UpsertSpec(series, lastChecked.value, val.value);
        Series.GetPresent(series, lastChecked.value);
        series := Series.Upsert(series, lastChecked.value, val.value);
      }
    }

    /** `payouts = val`: the legacy list is folded year by year into the map; a map is taken as it is. */
    method SetPayouts(val: Payouts.PayoutInput)
      modifies this`payouts
      ensures payouts == Payouts.Normalize(val)
    {
      payouts := map[];
      match val {
        case PayoutList(rs) =>
          for i := 0 to |rs|
            invariant payouts == Payouts.FromList(rs[..i])
          {
            assert rs[..i + 1][..i] == rs[..i];
            payouts := payouts[rs[i].year := Payouts.Payout(rs[i].value)];
          }
          assert rs[..|rs|] == rs;
        case PayoutMap(m) =>
          payouts := m;
        case NoPayouts =>
      }
    }

    // -------------------------------------------------------------------
    // Lifecycle and read-back of stored fields

    /** A position is closed exactly when it has a sell date. */
    predicate IsSold()
      reads this
    {
      dateSell.Some?
    }

    /** The `dateSell` getter: the empty string while the position is open. */
    function DateSellText(): (r: string)
      reads this
      ensures dateSell != Some("") ==> OrNull(Some(r)) == dateSell
    {
      dateSell.GetOr("")
    }

    /**
     * The `dateBuy` getter: null when no buy date is set. Feeding what it reads
     * back to the setter stores the same date.
     */
    function DateBuyText(): (r: Option<string>)
      reads this
      ensures r.None? <==> dateBuy.None?
      ensures dateBuy != Some("") ==> OrNull(r) == dateBuy
    {
      dateBuy
    }

    /** The `targetPrice` getter: a stored 0 also reads as null. */
    function TargetPrice(): (r: Option<real>)
      reads this
      ensures r.None? <==> !Truthy(targetPrice)
      ensures r.Some? ==> r == targetPrice && r.value != 0.0
    {
      if Truthy(targetPrice) then targetPrice else None
    }

    function YearlyHigh(): (r: Option<real>)
      reads this
      ensures r.None? <==> !Truthy(yearlyHigh)
      ensures r.Some? ==> r == yearlyHigh && r.value != 0.0
    {
      if Truthy(yearlyHigh) then yearlyHigh else None
    }

    function YearlyLow(): (r: Option<real>)
      reads this
      ensures r.None? <==> !Truthy(yearlyLow)
      ensures r.Some? ==> r == yearlyLow && r.value != 0.0
    {
      if Truthy(yearlyLow) then yearlyLow else None
    }

    /**
     * The lifecycle depends on the sell date alone: closed exactly when the
     * `dateSell` getter is not empty.
     */
    lemma Lifecycle()
      requires Valid()
      ensures IsSold() <==> DateSellText() != ""
    {
    }

    // -------------------------------------------------------------------
    // Views of the time series

    /** `dates`: the dates in map order; exactly the dates a lookup finds. */
    function Dates(): (r: seq<string>)
      reads this
      ensures |r| == |series|
      ensures forall k :: Series.Get(series, k).Some? <==> k in r
    {
      Series.KeysFound(series);
      Series.Keys(series)
    }

    /** `prices`: the prices in map order, each the one stored under the date at the same position. */
    function Prices(): (r: seq<real>)
      requires Valid()
      reads this
      ensures |r| == |Dates()|
      ensures forall i :: 0 <= i < |r| ==> Series.Get(series, Dates()[i]) == Some(r[i])
    {
      Series.ValuesFound(series);
      Series.Values(series)
    }

    /** `lastPrice`: null for an empty series, otherwise the price of the last date in map order. */
    function LastPrice(): (r: Option<real>)
      requires Valid()
      reads this
      ensures r.None? <==> |Dates()| == 0
      ensures r.Some? ==> Series.Get(series, Dates()[|Dates()| - 1]) == r
    {
      if |series| == 0 then None
      else
        Series.GetAt(series, |series| - 1);
        Series.Last(series)
    }

    /** `highPrice`: the largest price of a non-empty series. */
    function HighPrice(): (r: Value)
      reads this
      ensures |series| > 0 ==> r.Finite? && exists i :: 0 <= i < |series| && series[i].1 == r.x
      ensures |series| > 0 ==> forall i :: 0 <= i < |series| ==> series[i].1 <= r.x
    {
      if |series| == 0 then NonFinite
      else
        var m := Series.MaxPrice(series);
        Finite(m)
    }

    // -------------------------------------------------------------------
    // Valuation metrics; `None` is the null the JavaScript class returns

    /** `invested`: the total buy value while open, null once sold. */
    function Invested(): (r: Option<Amount>)
      reads this
      ensures r.None? <==> IsSold()
      ensures r.Some? ==> r.value == buyValue
    {
      if !IsSold() then Some(buyValue) else None
    }

    /** `change`: `(lastPrice / buyPrice) * buyValue - buyValue`, null when sold or without a truthy last price. */
    function Change(): (r: Option<Value>)
      requires Valid()
      reads this
      ensures r.None? <==> IsSold() || !Truthy(LastPrice())
      ensures r.Some? ==> (r.value.Finite? <==> OfOptional(buyPrice) != 0.0)
    {
      if IsSold() then None
      else if Truthy(LastPrice()) then
        Some(Sub(Mul(Div(Finite(LastPrice().value), OfOptional(buyPrice)), OfAmount(buyValue)), Finite(OfAmount(buyValue))))
      else None
    }

    /** `changePct`: the change as a percentage of the buy value, null when sold. */
    function ChangePct(): (r: Option<Value>)
      requires Valid()
      reads this
      ensures r.None? <==> IsSold()
      ensures r.Some? && Change().Some? && Change().value.Finite? && OfAmount(buyValue) != 0.0 ==>
        r.value.Finite? && r.value.x * OfAmount(buyValue) == Change().value.x * 100.0
      ensures r.Some? && Change().None? ==> r.value == (if OfAmount(buyValue) != 0.0 then Finite(0.0) else NonFinite)
    {
      if !IsSold() then Some(Mul(Div(OrZero(Change()), OfAmount(buyValue)), 100.0)) else None
    }

    /** `lastChangePct`: the move from the second-to-last to the last price, null when sold or with fewer than two dates. */
    function LastChangePct(): (r: Option<Value>)
      requires Valid()
      reads this
      ensures r.None? <==> IsSold() || |Dates()| < 2
      ensures r.Some? ==>
        var previous := Series.Get(series, Dates()[|Dates()| - 2]);
        previous.Some? && (r.value.Finite? <==> previous.value != 0.0)
        && (r.value.Finite? ==> (r.value.x + 1.0) * previous.value == LastPrice().value)
    {
      if !IsSold() && |Dates()| > 1 then
        Series.GetAt(series, |series| - 2);
        var previous := Series.Get(series, Dates()[|Dates()| - 2]).value;
        Some(Sub(Div(Finite(LastPrice().value), previous), Finite(1.0)))
      else None
    }

    /** `lastChange`: `lastChangePct * buyValue`, null with fewer than two dates. */
    function LastChange(): (r: Option<Value>)
      requires Valid()
      reads this
      ensures r.None? <==> |Dates()| < 2
      ensures r.Some? && LastChangePct().Some? ==> r.value == Mul(LastChangePct().value, OfAmount(buyValue))
      ensures r.Some? && IsSold() ==> r.value == Finite(0.0)
    {
      if |Dates()| > 1 then Some(Mul(OrZero(LastChangePct()), OfAmount(buyValue))) else None
    }

    /**
     * `value`: `(lastPrice / buyPrice) * buyValue + forexChange`, null when sold
     * or without a truthy last price; a null `forexChange` adds nothing.
     */
    function CurrentValue(forexChange: Option<Value>): (r: Option<Value>)
      requires Valid()
      reads this
      ensures r.None? <==> IsSold() || !Truthy(LastPrice())
      ensures r.Some? && OfOptional(buyPrice) != 0.0 && OrZero(forexChange).Finite? ==>
        r.value.Finite? && r.value.x - OrZero(forexChange).x == LastPrice().value / OfOptional(buyPrice) * OfAmount(buyValue)
    {
      if !IsSold() && Truthy(LastPrice()) then
        Some(Add(Mul(Div(Finite(LastPrice().value), OfOptional(buyPrice)), OfAmount(buyValue)), OrZero(forexChange)))
      else None
    }

    /** `diffToYearlyHigh`: what the position would gain at the yearly high; null when sold or without a yearly high or last price. */
    function DiffToYearlyHigh(forexChange: Option<Value>): (r: Option<Value>)
      requires Valid()
      reads this
      ensures r.None? <==> IsSold() || YearlyHigh().None? || !Truthy(LastPrice())
      ensures r.Some? ==> r.value == Rescale(CurrentValue(forexChange).value, YearlyHigh().value, LastPrice().value)
    {
      if !IsSold() && YearlyHigh().Some? && Truthy(LastPrice()) then
        Some(Rescale(CurrentValue(forexChange).value, YearlyHigh().value, LastPrice().value))
      else None
    }

    /** `diffToTargetPrice`: what the position would gain at the target price; null when sold or without a target or last price. */
    function DiffToTargetPrice(forexChange: Option<Value>): (r: Option<Value>)
      requires Valid()
      reads this
      ensures r.None? <==> IsSold() || TargetPrice().None? || !Truthy(LastPrice())
      ensures r.Some? ==> r.value == Rescale(CurrentValue(forexChange).value, TargetPrice().value, LastPrice().value)
    {
      if !IsSold() && TargetPrice().Some? && Truthy(LastPrice()) then
        Some(Rescale(CurrentValue(forexChange).value, TargetPrice().value, LastPrice().value))
      else None
    }

    /** `missedGain`: what was given up since the high price; null unless the high is truthy and above a truthy last price. */
    function MissedGain(forexChange: Option<Value>): (r: Option<Value>)
      requires Valid()
      reads this
      ensures r.Some? <==> Truthy(LastPrice()) && HighPrice().x != 0.0 && HighPrice().x > LastPrice().value
      ensures r.Some? ==> r.value == Rescale(OrZero(CurrentValue(forexChange)), HighPrice().x, LastPrice().value)
      ensures r.Some? && IsSold() ==> r == Some(Finite(0.0))
    {
      if Truthy(LastPrice()) && HighPrice().x != 0.0 && HighPrice().x > LastPrice().value then
        Some(Rescale(OrZero(CurrentValue(forexChange)), HighPrice().x, LastPrice().value))
      else None
    }

    /**
     * `stopLoss`: the price at the rule's reference date reduced by the rule's
     * percentage; null without a truthy price at that date or a positive percentage.
     */
    function StopLoss(rule: StopLossRule): (r: Option<real>)
      reads this
      ensures r.Some? <==> Truthy(Series.Get(series, rule.date)) && rule.pct > 0.0
      ensures r.Some? ==>
        var baseline := Series.Get(series, rule.date).value;
        && r.value == baseline * (1.0 - rule.pct / 100.0)
        && (baseline > 0.0 ==> r.value < baseline)
        && (baseline > 0.0 && rule.pct <= 100.0 ==> r.value >= 0.0)
    {
      var baseline := Series.Get(series, rule.date);
      if Truthy(baseline) && rule.pct > 0.0 then
        var b := baseline.value;
        assert b - b / 100.0 * rule.pct == b * (1.0 - rule.pct / 100.0);
        assert b > 0.0 ==> b * (rule.pct / 100.0) > 0.0;
        assert b > 0.0 && rule.pct <= 100.0 ==> b * (1.0 - rule.pct / 100.0) >= 0.0;
        Some(b - b / 100.0 * rule.pct)
      else None
    }

    /**
     * `hasAlarm()`: `stopLoss > lastPrice`, where JavaScript reads a null on
     * either side as 0.
     */
    predicate HasAlarm(rule: StopLossRule)
      requires Valid()
      reads this
      ensures StopLoss(rule).Some? && LastPrice().Some? ==>
        (HasAlarm(rule) <==> StopLoss(rule).value > LastPrice().value)
      ensures StopLoss(rule).None? ==> (HasAlarm(rule) <==> LastPrice().Some? && LastPrice().value < 0.0)
      ensures LastPrice().None? ==> (HasAlarm(rule) <==> StopLoss(rule).Some? && StopLoss(rule).value > 0.0)
    {
      OfOptional(StopLoss(rule)) > OfOptional(LastPrice())
    }

    /**
     * `relativeChange`: the change percentage minus the benchmark's
     * percentage move from the buy date to its last price; null when sold,
     * without dates, without a benchmark, or without truthy benchmark prices
     * at both ends.
     */
    function RelativeChange(benchmark: Option<Series.Entries>): (r: Option<Value>)
      requires Valid()
      reads this
      ensures r.Some? <==>
        && !IsSold() && |Dates()| > 0 && benchmark.Some? && dateBuy.Some?
        && Truthy(Series.Get(benchmark.value, dateBuy.value)) && Truthy(Series.Last(benchmark.value))
      ensures r.Some? && ChangePct().value.Finite? ==>
        var start := Series.Get(benchmark.value, dateBuy.value).value;
        var end := Series.Last(benchmark.value).value;
        r.value.Finite? && r.value.x + (end - start) / start * 100.0 == ChangePct().value.x
    {
      if !IsSold() && |Dates()| > 0 && benchmark.Some? then
        var start := if dateBuy.Some? then Series.Get(benchmark.value, dateBuy.value) else None;
        var end := Series.Last(benchmark.value);
        if Truthy(start) && Truthy(end) then
          Some(Sub(ChangePct().value, Finite((end.value - start.value) / start.value * 100.0)))
        else None
      else None
    }

    /**
     * `isUpdated(today)`: known ticker, a truthy last price while open or a
     * non-empty chart once closed, and checked today. An up-to-date position
     * always has price data.
     */
    predicate IsUpdated(today: string)
      requires Valid()
      reads this
      ensures IsUpdated(today) <==>
        ticker != "" && lastChecked == Some(today) && (if IsSold() then |series| > 0 else Truthy(LastPrice()))
      ensures IsUpdated(today) ==> |series| > 0
    {
      var hasNoTicker := ticker == "";
      var hasNoPrice := !Truthy(LastPrice()) && !IsSold();
      var hasNoChart := |Dates()| == 0 && IsSold();
      var checkedToday := lastChecked == Some(today);
      !(hasNoTicker || hasNoPrice || hasNoChart || !checkedToday)
    }

    // -------------------------------------------------------------------
    // Payouts and return

    /** `income`: the payout values added up, one year at a time. */
    method Income() returns (sum: real)
      ensures sum == Payouts.Total(payouts)
    {
      sum := 0.0;
      var left := payouts.Keys;
      while left != {}
        invariant left <= payouts.Keys
        invariant sum + Payouts.SumOver(payouts, left) == Payouts.Total(payouts)
        decreases left
      {
        var year :| year in left;
        Payouts.SumOverRemove(payouts, left, year);
        sum := sum + payouts[year].value;
        left := left - {year};
      }
    }

    /** What the position earned, as `return` computes it. */
    ghost function Earnings(): real
      reads this
    {
      var income := Payouts.Total(payouts);
      if IsSold() then OfAmount(sellValue) - OfAmount(buyValue) + income else income
    }

    /** `return`: realised gain plus income once sold; income alone while open. */
    method Return() returns (r: real)
      ensures r == Earnings()
    {
      var income := Income();
      var sanitizedIncome := if income != 0.0 then income else 0.0;
      if IsSold() {
        r := OfAmount(sellValue) - OfAmount(buyValue) + sanitizedIncome;
      } else {
        r := sanitizedIncome;
      }
    }

    /** `roi` for a holding period of at most a year (or unknown): the return as a percentage of the buy value. */
    method ShortHoldRoi(holdingPeriod: Option<int>) returns (r: Value)
      requires holdingPeriod.None? || holdingPeriod.value <= 365
      ensures r.Finite? <==> OfAmount(buyValue) != 0.0
      ensures r.Finite? ==> r.x * OfAmount(buyValue) == Earnings() * 100.0
    {
      var ret := Return();
      r := Mul(Div(Finite(ret), OfAmount(buyValue)), 100.0);
    }

    // -------------------------------------------------------------------
    // Relations between the metrics

    /** Without an exchange-rate effect, the current value is the buy value plus the change. */
    lemma ValueIsCostPlusChange()
      requires Valid()
      requires !IsSold() && Truthy(LastPrice())
      ensures CurrentValue(None) == Some(Add(Change().value, Finite(OfAmount(buyValue))))
    {
    }

    /**
     * For a positive buy price and buy value, the change is positive, zero or
     * negative as the last price is above, at or below the buy price.
     */
    lemma ChangeSign()
      requires Valid()
      requires !IsSold() && Truthy(LastPrice())
      requires OfOptional(buyPrice) > 0.0 && OfAmount(buyValue) > 0.0
      ensures Change().Some? && Change().value.Finite?
      ensures Change().value.x > 0.0 <==> LastPrice().value > OfOptional(buyPrice)
      ensures Change().value.x == 0.0 <==> LastPrice().value == OfOptional(buyPrice)
    {
      RescaleSign(Finite(OfAmount(buyValue)), LastPrice().value, OfOptional(buyPrice));
      assert Change().value == Rescale(Finite(OfAmount(buyValue)), LastPrice().value, OfOptional(buyPrice));
    }

    /** A missed gain of a position with positive prices and a positive value is positive. */
    lemma MissedGainPositive(forexChange: Option<Value>)
      requires Valid()
      requires MissedGain(forexChange).Some? && LastPrice().value > 0.0
      requires CurrentValue(forexChange).Some? && CurrentValue(forexChange).value.Finite?
      requires CurrentValue(forexChange).value.x > 0.0
      ensures MissedGain(forexChange).value.Finite? && MissedGain(forexChange).value.x > 0.0
    {
      RescaleSign(CurrentValue(forexChange).value, HighPrice().x, LastPrice().value);
    }

    /** A closed position reports none of the open-position metrics. */
    lemma SoldHasNoOpenMetrics(forexChange: Option<Value>, benchmark: Option<Series.Entries>)
      requires Valid() && IsSold()
      ensures Invested().None? && Change().None? && ChangePct().None? && LastChangePct().None?
      ensures CurrentValue(forexChange).None? && DiffToYearlyHigh(forexChange).None?
      ensures DiffToTargetPrice(forexChange).None? && RelativeChange(benchmark).None?
    {
    }

    /** Without a stop-loss level and with a non-negative last price there is no alarm. */
    lemma NoStopLossNoAlarm(rule: StopLossRule)
      requires Valid()
      requires StopLoss(rule).None? && (LastPrice().None? || LastPrice().value >= 0.0)
      ensures !HasAlarm(rule)
    {
    }

    /**
     * The worked example: prices 100 then 110, bought at 100 for 1000 in
     * total, still open.
     */
    lemma Example()
      requires series == [("2024-01-01", 100.0), ("2024-01-02", 110.0)]
      requires buyPrice == Some(100.0) && buyValue == Amount(1000.0) && dateSell.None?
      ensures Valid()
      ensures LastPrice() == Some(110.0)
      ensures CurrentValue(None) == Some(Finite(1100.0))
      ensures Change() == Some(Finite(100.0))
      ensures ChangePct() == Some(Finite(10.0))
      ensures LastChangePct() == Some(Finite(0.1))
    {
      assert Dates() == ["2024-01-01", "2024-01-02"];
      assert Series.IndexOf(series, "2024-01-01") == Some(0);
    }
  }
}
