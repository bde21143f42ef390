/**
 * Cash distributions (dividends, coupons) of a position, kept as a map from
 * year to a `{value}` record. Older records store them as a list of
 * `{year, value}` records, which is normalised into the map on input.
 */
module Payouts {

  datatype Payout = Payout(value: real)

  /** One entry of the legacy list form. */
  datatype PayoutRecord = PayoutRecord(year: string, value: real)

  /** What the payouts setter may receive: nothing (a falsy value), the legacy list, or the map itself. */
  datatype PayoutInput = NoPayouts | PayoutList(records: seq<PayoutRecord>) | PayoutMap(entries: map<string, Payout>)

  type Payouts = map<string, Payout>

  /** The map the records are folded into, each record overwriting its year. */
  function FromList(rs: seq<PayoutRecord>): Payouts {
    if rs == [] then map[]
    else FromList(rs[..|rs| - 1])[rs[|rs| - 1].year := Payout(rs[|rs| - 1].value)]
  }

  /** The canonical map form of any input. */
  function Normalize(val: PayoutInput): Payouts {
    match val
    case NoPayouts => map[]
    case PayoutList(rs) => FromList(rs)
    case PayoutMap(m) => m
  }

  /** The years of the folded list are exactly the years the records mention. */
  lemma {:induction false} FromListYears(rs: seq<PayoutRecord>)
    ensures forall y :: y in FromList(rs) <==> exists i :: 0 <= i < |rs| && rs[i].year == y
  {
    if rs != [] {
      var init := rs[..|rs| - 1];
      FromListYears(init);
      forall y | y in FromList(rs) ensures exists i :: 0 <= i < |rs| && rs[i].year == y {
        if y != rs[|rs| - 1].year {
          assert y in FromList(init);
          var i :| 0 <= i < |init| && init[i].year == y;
          assert rs[i].year == y;
        }
      }
      forall y | exists i :: 0 <= i < |rs| && rs[i].year == y ensures y in FromList(rs) {
        var i :| 0 <= i < |rs| && rs[i].year == y;
        if i < |init| {
          assert init[i].year == y;
        }
      }
    }
  }

  /** For a repeated year the last record wins: the map holds the value of the last record with that year. */
  lemma {:induction false} FromListLastWins(rs: seq<PayoutRecord>, i: nat)
    requires i < |rs|
    requires forall j :: i < j < |rs| ==> rs[j].year != rs[i].year
    ensures rs[i].year in FromList(rs) && FromList(rs)[rs[i].year] == Payout(rs[i].value)
  {
    if i < |rs| - 1 {
      var init := rs[..|rs| - 1];
      assert init[i] == rs[i];
      FromListLastWins(init, i);
    }
  }

  // ---------------------------------------------------------------------
  // The sum of the payout values (`income`)

  /** Sum of the values of the years in `ys`, in no particular order. */
  ghost function SumOver(m: Payouts, ys: set<string>): real
    requires ys <= m.Keys
    decreases ys
  {
    if ys == {} then 0.0
    else
      var y :| y in ys;
      m[y].value + SumOver(m, ys - {y})
  }

  /** The total of all payout values. */
  ghost function Total(m: Payouts): real {
    SumOver(m, m.Keys)
  }

  /** The sum does not depend on the order: any year can be taken out first. */
  lemma {:induction false} SumOverRemove(m: Payouts, ys: set<string>, y: string)
    requires ys <= m.Keys && y in ys
    ensures SumOver(m, ys) == m[y].value + SumOver(m, ys - {y})
    decreases ys
  {
    var z :| z in ys && SumOver(m, ys) == m[z].value + SumOver(m, ys - {z});
    if z != y {
      SumOverRemove(m, ys - {z}, y);
      SumOverRemove(m, ys - {y}, z);
      assert ys - {z} - {y} == ys - {y} - {z};
    }
  }

  /** No payouts sum to zero; recording a payout for a new year adds its value to the total. */
  lemma TotalInsert(m: Payouts, y: string, p: Payout)
    requires y !in m
    ensures Total(map[]) == 0.0
    ensures Total(m[y := p]) == Total(m) + p.value
  {
    var m' := m[y := p];
    SumOverRemove(m', m'.Keys, y);
    assert m'.Keys - {y} == m.Keys;
    SumOverSame(m', m, m.Keys);
  }

  /** The sum over `ys` reads only the entries of `ys`. */
  lemma {:induction false} SumOverSame(m: Payouts, n: Payouts, ys: set<string>)
    requires ys <= m.Keys && ys <= n.Keys
    requires forall y :: y in ys ==> m[y] == n[y]
    ensures SumOver(m, ys) == SumOver(n, ys)
    decreases ys
  {
    if ys != {} {
      var y :| y in ys;
      SumOverRemove(m, ys, y);
      SumOverRemove(n, ys, y);
      SumOverSame(m, n, ys - {y});
    }
  }

  /** The values of a list of records, added up. */
  function ListTotal(rs: seq<PayoutRecord>): real {
    if rs == [] then 0.0 else ListTotal(rs[..|rs| - 1]) + rs[|rs| - 1].value
  }

  /** A legacy list that names each year once normalises to a map with the same total. */
  lemma {:induction false} FromListTotal(rs: seq<PayoutRecord>)
    requires forall i, j :: 0 <= i < j < |rs| ==> rs[i].year != rs[j].year
    ensures Total(FromList(rs)) == ListTotal(rs)
  {
    if rs != [] {
      var init := rs[..|rs| - 1];
      FromListTotal(init);
      FromListYears(init);
      var last := rs[|rs| - 1];
      forall i | 0 <= i < |init| ensures init[i].year != last.year {
        assert init[i] == rs[i];
      }
      TotalInsert(FromList(init), last.year, Payout(last.value));
    }
  }
}
