/** Forward EPS of one fiscal year after obligation drags (app/valuation.py). */
module EpsTiers {
  import opened Wrappers
  import opened Ledger
  import opened Rounding
  import opened Valuation
  import Conservation

  const CENTS := 100.0
  const THOUSANDTHS := 1000.0
  const TENTHS := 10.0

  /** One fiscal year's drags per share; each is None without shares or year. */
  datatype Drags = Drags(contractual: Option<real>, contingent: Option<real>,
                         defaultTriggered: Option<real>, revenueMatched: Option<real>)

  /** The rounded fiscal-year and flat amounts of one bucket, per share. */
  method FyPerShare(impact: Impact, shares: Option<nat>, year: Option<string>, bucket: Bucket)
    returns (drag: Option<real>)
    requires impact.Valid()
    ensures drag == if shares.Some? && shares.value > 0 && year.Some? && year.value != "" then
                      Some(PerShare(At(impact.byYear, year.value, bucket), impact.flat[bucket], shares.value))
                    else None
  {
    if shares.None? || shares.value == 0 || year.None? || year.value == "" {
      return None;
    }
    var fy := if year.value in impact.byYear then impact.byYear[year.value][bucket] else 0.0;
    assert Round(0.0, THOUSANDTHS) == 0.0;
    return Some((Round(fy, THOUSANDTHS) + Round(impact.flat[bucket], THOUSANDTHS)) / (shares.value as real / 1000000000.0));
  }

  function PerShare(fy: real, flat: real, shares: nat): (drag: real)
    requires shares > 0
  {
    (Round(fy, THOUSANDTHS) + Round(flat, THOUSANDTHS)) / (shares as real / 1000000000.0)
  }

  /** All shares together bear the year's and the flat amount, in billions rounded to millions. */
  lemma SharesBearAll(fy: real, flat: real, shares: nat)
    requires shares > 0
    ensures PerShare(fy, flat, shares) * shares as real == (Round(fy, 1000.0) + Round(flat, 1000.0)) * 1000000000.0
  {
    hide Round;
    var amount, billions := Round(fy, 1000.0) + Round(flat, 1000.0), shares as real / 1000000000.0;
    assert amount / billions * billions == amount;
  }

  /** Price over earnings after drags, which count as at least a cent; None for earnings that are gone. */
  function PeAfter(price: Option<real>, net: real): Option<real> {
    if price.Some? && net > 0.0 then Some(Round(price.value / (if net < 0.01 then 0.01 else net), TENTHS)) else None
  }

  lemma PeIs(price: Option<real>, net: real)
    ensures PeAfter(price, net).None? <==> price.None? || net <= 0.0
    ensures price.Some? && net >= 0.01 ==> PeAfter(price, net) == Some(Round(price.value / net, 10.0))
    ensures price.Some? && 0.0 < net < 0.01 ==> PeAfter(price, net) == Some(Round(price.value * 100.0, 10.0))
  {
    hide Round;
    if price.Some? {
      assert price.value / 0.01 == price.value * 100.0;
    }
  }

  /** A reported EPS line; a drag that is missing or zero leaves its fields unset. */
  class Line {
    var eps: real
    var price: Option<real>
    var pe: Option<real>
    var contractualDrag: Option<real>
    var afterContractual: Option<real>
    var peAfterContractual: Option<real>
    var contingentDrag: Option<real>
    var afterAll: Option<real>
    var peAfterAll: Option<real>

    constructor (value: real, price: Option<real>)
      ensures eps == Round(value, CENTS)
      ensures this.price == if price.Some? then Some(Round(price.value, CENTS)) else None
      ensures pe == if price.Some? && value != 0.0 then Some(Round(price.value / value, TENTHS)) else None
      ensures contractualDrag == afterContractual == peAfterContractual == None
      ensures contingentDrag == afterAll == peAfterAll == None
    {
      eps := Round(value, CENTS);
      this.price := if price.Some? then Some(Round(price.value, CENTS)) else None;
      pe := if price.Some? && value != 0.0 then Some(Round(price.value / value, TENTHS)) else None;
      contractualDrag, afterContractual, peAfterContractual := None, None, None;
      contingentDrag, afterAll, peAfterAll := None, None, None;
    }

    /** The last figure of the line: after all drags that apply. */
    function Reported(): real
      reads this
    {
      if afterAll.Some? then afterAll.value else if afterContractual.Some? then afterContractual.value else eps
    }

    method ApplyContractualDrag(value: real, contractual: Option<real>, price: Option<real>)
      modifies this`contractualDrag, this`afterContractual, this`peAfterContractual
      ensures OrZero(contractual) == 0.0 ==>
        && contractualDrag == old(contractualDrag) && afterContractual == old(afterContractual)
        && peAfterContractual == old(peAfterContractual)
      ensures OrZero(contractual) != 0.0 ==>
        && contractualDrag == Some(Round(contractual.value, CENTS))
        && afterContractual == Some(Round(value - contractual.value, CENTS))
        && peAfterContractual == PeAfter(price, value - contractual.value)
    {
      if contractual.Some? && contractual.value != 0.0 {
        contractualDrag := Some(Round(contractual.value, CENTS));
        afterContractual := Some(Round(value - contractual.value, CENTS));
        peAfterContractual := PeAfter(price, value - contractual.value);
      }
    }

    method ApplyContingentDrag(value: real, contractual: Option<real>, contingent: Option<real>, price: Option<real>)
      modifies this`contingentDrag, this`afterAll, this`peAfterAll
      ensures OrZero(contingent) == 0.0 ==>
        contingentDrag == old(contingentDrag) && afterAll == old(afterAll) && peAfterAll == old(peAfterAll)
      ensures OrZero(contingent) != 0.0 ==>
        && contingentDrag == Some(Round(contingent.value, CENTS))
        && afterAll == Some(Round(value - OrZero(contractual) - contingent.value, CENTS))
        && peAfterAll == PeAfter(price, value - OrZero(contractual) - contingent.value)
    {
      if contingent.None? || contingent.value == 0.0 {
        return;
      }
      var residual := value - OrZero(contractual) - contingent.value;
      contingentDrag := Some(Round(contingent.value, CENTS));
      afterAll := Some(Round(residual, CENTS));
      peAfterAll := PeAfter(price, residual);
    }
  }

  /** What a line reports in every case: the estimate less both drags, rounded once. */
  function Net(value: real, contractual: Option<real>, contingent: Option<real>): real {
    Round(value - OrZero(contractual) - OrZero(contingent), CENTS)
  }

  /** A drag as shown; a missing or zero one is not. */
  function Rounded(drag: Option<real>): Option<real> {
    if OrZero(drag) != 0.0 then Some(Round(OrZero(drag), CENTS)) else None
  }

  function Dragged(value: real, earlier: Option<real>, drag: Option<real>): Option<real> {
    if OrZero(drag) != 0.0 then Some(Round(value - OrZero(earlier) - OrZero(drag), CENTS)) else None
  }

  function DraggedPe(price: Option<real>, value: real, earlier: Option<real>, drag: Option<real>): Option<real> {
    if OrZero(drag) != 0.0 then PeAfter(price, value - OrZero(earlier) - OrZero(drag)) else None
  }

  method EpsLine(value: Option<real>, contractual: Option<real>, contingent: Option<real>, price: Option<real>)
    returns (line: Option<Line>)
    ensures line.Some? == value.Some?
    ensures line.Some? ==> fresh(line.value) && line.value.Reported() == Net(value.value, contractual, contingent)
    ensures line.Some? ==> var l := line.value;
      && l.eps == Round(value.value, CENTS)
      && l.contractualDrag == Rounded(contractual)
      && l.afterContractual == Dragged(value.value, None, contractual)
      && l.contingentDrag == Rounded(contingent)
      && l.afterAll == Dragged(value.value, contractual, contingent)
      && l.peAfterContractual == DraggedPe(price, value.value, None, contractual)
      && l.peAfterAll == DraggedPe(price, value.value, contractual, contingent)
  {
    hide Round, PeAfter;
    if value.None? {
      return None;
    }
    var made := new Line(value.value, price);
    made.ApplyContractualDrag(value.value, contractual, price);
    made.ApplyContingentDrag(value.value, contractual, contingent, price);
    return Some(made);
  }

  function Sum(a: Option<real>, b: Option<real>): Option<real> {
    Some(OrZero(a) + OrZero(b))
  }

  predicate NonNegativeDrags(d: Drags) {
    OrZero(d.contractual) >= 0.0 && OrZero(d.contingent) >= 0.0 && OrZero(d.defaultTriggered) >= 0.0 &&
    OrZero(d.revenueMatched) >= 0.0
  }

  ghost predicate ReportsAtMost(low: Option<Line>, high: Option<Line>)
    reads if low.Some? then {low.value} else {}, if high.Some? then {high.value} else {}
  {
    low.Some? && high.Some? ==> low.value.Reported() <= high.value.Reported()
  }

  lemma MoreDragLessEps(value: real, c: Option<real>, d: Option<real>, c': Option<real>, d': Option<real>)
    requires OrZero(c) + OrZero(d) <= OrZero(c') + OrZero(d')
    ensures Net(value, c', d') <= Net(value, c, d)
  {
    hide Round;
    RoundMonotone(value - OrZero(c') - OrZero(d'), value - OrZero(c) - OrZero(d), CENTS);
  }

  /** What each combination of drags leaves of an estimate, to the cent; a missing drag is nothing. */
  lemma NetIs(value: real, d: Drags)
    ensures var c := if d.contractual.Some? then d.contractual.value else 0.0;
      var g := if d.contingent.Some? then d.contingent.value else 0.0;
      var t := if d.defaultTriggered.Some? then d.defaultTriggered.value else 0.0;
      var m := if d.revenueMatched.Some? then d.revenueMatched.value else 0.0;
      && Net(value, None, None) == Round(value, 100.0)
      && Net(value, d.contractual, None) == Round(value - c, 100.0)
      && Net(value, d.contractual, d.contingent) == Round(value - c - g, 100.0)
      && Net(value, d.contractual, Sum(d.contingent, d.defaultTriggered)) == Round(value - c - g - t, 100.0)
      && Net(value, Sum(d.contractual, d.revenueMatched), Sum(d.contingent, d.defaultTriggered)) ==
         Round(value - c - m - g - t, 100.0)
  {
    hide Round, Net;
    var c, g, t, m := OrZero(d.contractual), OrZero(d.contingent), OrZero(d.defaultTriggered), OrZero(d.revenueMatched);
    NetAt(value, None, None, value);
    NetAt(value, d.contractual, None, value - c);
    NetAt(value, d.contractual, d.contingent, value - c - g);
    NetAt(value, d.contractual, Sum(d.contingent, d.defaultTriggered), value - c - g - t);
    NetAt(value, Sum(d.contractual, d.revenueMatched), Sum(d.contingent, d.defaultTriggered), value - c - m - g - t);
  }

  lemma NetAt(value: real, contractual: Option<real>, contingent: Option<real>, left: real)
    requires left == value - OrZero(contractual) - OrZero(contingent)
    ensures Net(value, contractual, contingent) == Round(left, 100.0)
  {
    hide Round;
  }

  method CurrentFyEps(value: Option<real>, d: Drags, price: Option<real>)
    returns (consensus: Option<Line>, adjusted: Option<Line>, scenario: Option<Line>, withDefaults: Option<Line>,
             worst: Option<Line>)
    ensures fresh(set x | x in {consensus, adjusted, scenario, withDefaults, worst} && x.Some? :: x.value)
    ensures consensus.Some? == adjusted.Some? == scenario.Some? == withDefaults.Some? == worst.Some? == value.Some?
    ensures value.Some? ==>
      && consensus.value.Reported() == Net(value.value, None, None)
      && adjusted.value.Reported() == Net(value.value, d.contractual, None)
      && scenario.value.Reported() == Net(value.value, d.contractual, d.contingent)
      && withDefaults.value.Reported() == Net(value.value, d.contractual, Sum(d.contingent, d.defaultTriggered))
      && worst.value.Reported() ==
           Net(value.value, Sum(d.contractual, d.revenueMatched), Sum(d.contingent, d.defaultTriggered))
  {
    hide Net, Line.Reported;
    consensus := EpsLine(value, None, None, price);
    adjusted := EpsLine(value, d.contractual, None, price);
    scenario := EpsLine(value, d.contractual, d.contingent, price);
    withDefaults := EpsLine(value, d.contractual, Sum(d.contingent, d.defaultTriggered), price);
    worst := EpsLine(value, Sum(d.contractual, d.revenueMatched), Sum(d.contingent, d.defaultTriggered), price);
  }

  method NextFyEps(value: Option<real>, d: Drags, price: Option<real>)
    returns (consensus: Option<Line>, adjusted: Option<Line>, scenario: Option<Line>, worst: Option<Line>)
    ensures fresh(set x | x in {consensus, adjusted, scenario, worst} && x.Some? :: x.value)
    ensures consensus.Some? == adjusted.Some? == scenario.Some? == worst.Some? == value.Some?
    ensures value.Some? ==>
      && consensus.value.Reported() == Net(value.value, None, None)
      && adjusted.value.Reported() == Net(value.value, d.contractual, None)
      && scenario.value.Reported() == Net(value.value, d.contractual, d.contingent)
      && worst.value.Reported() ==
           Net(value.value, Sum(d.contractual, d.revenueMatched), Sum(d.contingent, d.defaultTriggered))
  {
    hide Net, Line.Reported;
    consensus := EpsLine(value, None, None, price);
    adjusted := EpsLine(value, d.contractual, None, price);
    scenario := EpsLine(value, d.contractual, d.contingent, price);
    worst := EpsLine(value, Sum(d.contractual, d.revenueMatched), Sum(d.contingent, d.defaultTriggered), price);
  }

  /** With a price and at least a cent left, drags can only raise the price-earnings figure. */
  lemma DragsRaisePe(price: real, value: real, net: real)
    requires price >= 0.0 && 0.0 < net <= value && value >= 0.01
    ensures PeAfter(Some(price), net).Some? && Round(price / value, TENTHS) <= PeAfter(Some(price), net).value
  {
    hide Round;
    var floored := if net < 0.01 then 0.01 else net;
    SmallerDivisor(price, floored, value);
    RoundMonotone(price / value, price / floored, TENTHS);
  }

  lemma SmallerDivisor(x: real, low: real, high: real)
    requires x >= 0.0 && 0.0 < low <= high
    ensures x / high <= x / low
  {
    assert x / low - x / high == (x * (high - low)) / (low * high);
  }

  /** Every pair of tiers of a fiscal year, from the worst case up to consensus. */
  lemma TiersOrdered(value: real, d: Drags)
    requires NonNegativeDrags(d)
    ensures var consensus, adjusted := Net(value, None, None), Net(value, d.contractual, None);
      var scenario := Net(value, d.contractual, d.contingent);
      var withDefaults := Net(value, d.contractual, Sum(d.contingent, d.defaultTriggered));
      var worst := Net(value, Sum(d.contractual, d.revenueMatched), Sum(d.contingent, d.defaultTriggered));
      worst <= withDefaults <= scenario <= adjusted <= consensus
  {
    hide Net;
    MoreDragLessEps(value, None, None, d.contractual, None);
    MoreDragLessEps(value, d.contractual, None, d.contractual, d.contingent);
    MoreDragLessEps(value, d.contractual, d.contingent, d.contractual, Sum(d.contingent, d.defaultTriggered));
    MoreDragLessEps(value, d.contractual, Sum(d.contingent, d.defaultTriggered),
                    Sum(d.contractual, d.revenueMatched), Sum(d.contingent, d.defaultTriggered));
  }

  lemma PerShareNonNegative(fy: real, flat: real, shares: nat)
    requires fy >= 0.0 && flat >= 0.0 && shares > 0
    ensures PerShare(fy, flat, shares) >= 0.0
  {
    hide Round;
    RoundNonNegative(fy, THOUSANDTHS);
    RoundNonNegative(flat, THOUSANDTHS);
  }

  lemma DragNonNegative(impact: Impact, rows: seq<Row>, years: int, shares: nat, year: string, bucket: Bucket)
    requires Holds(impact, rows, years) && shares > 0 && year != ""
    requires forall r | r in rows :: Conservation.NonNegative(r)
    ensures PerShare(At(impact.byYear, year, bucket), impact.flat[bucket], shares) >= 0.0
  {
    hide PerShare, Conservation.NonNegative, FyAmount, FlatAmount, AnnualAmount, PlacedAmount, FyTotal;
    Conservation.CellsNonNegative(rows, years, year, bucket);
    PerShareNonNegative(At(impact.byYear, year, bucket), impact.flat[bucket], shares);
  }

  method FyDrags(impact: Impact, ghost rows: seq<Row>, ghost years: int, shares: Option<nat>, year: Option<string>)
    returns (d: Drags)
    requires Holds(impact, rows, years)
    ensures (forall r | r in rows :: Conservation.NonNegative(r)) ==> NonNegativeDrags(d)
    ensures d == if shares.Some? && shares.value > 0 && year.Some? && year.value != "" then
        Drags(Some(DragOf(rows, years, year.value, shares.value, Contractual)),
              Some(DragOf(rows, years, year.value, shares.value, Contingent)),
              Some(DragOf(rows, years, year.value, shares.value, DefaultTriggered)),
              Some(DragOf(rows, years, year.value, shares.value, RevenueMatched)))
      else Drags(None, None, None, None)
  {
    hide PerShare, Conservation.NonNegative, FyAmount, FlatAmount, AnnualAmount, PlacedAmount, FyTotal;
    var contractual := FyPerShare(impact, shares, year, Contractual);
    var contingent := FyPerShare(impact, shares, year, Contingent);
    var defaultTriggered := FyPerShare(impact, shares, year, DefaultTriggered);
    var revenueMatched := FyPerShare(impact, shares, year, RevenueMatched);
    d := Drags(contractual, contingent, defaultTriggered, revenueMatched);
    if shares.Some? && shares.value > 0 && year.Some? && year.value != ""
       && forall r | r in rows :: Conservation.NonNegative(r) {
      forall bucket
        ensures PerShare(At(impact.byYear, year.value, bucket), impact.flat[bucket], shares.value) >= 0.0
      {
        DragNonNegative(impact, rows, years, shares.value, year.value, bucket);
      }
    }
  }

  function DragOf(rows: seq<Row>, years: int, year: string, shares: nat, bucket: Bucket): real
    requires shares > 0
  {
    PerShare(FyAmount(rows, years, year, bucket), FlatAmount(rows, years, bucket), shares)
  }

  /** The current year's tiers of a ledger: for non-negative rows, all five are in order. */
  method CurrentTiers(rows: seq<Row>, years: int, value: Option<real>, shares: Option<nat>, year: Option<string>,
                      price: Option<real>)
    returns (consensus: Option<Line>, adjusted: Option<Line>, scenario: Option<Line>, withDefaults: Option<Line>,
             worst: Option<Line>)
    ensures consensus.Some? == adjusted.Some? == scenario.Some? == withDefaults.Some? == worst.Some? == value.Some?
    ensures (forall r | r in rows :: Conservation.NonNegative(r)) ==>
      && ReportsAtMost(worst, withDefaults) && ReportsAtMost(withDefaults, scenario) && ReportsAtMost(scenario, adjusted)
      && ReportsAtMost(adjusted, consensus)
  {
    hide Net, Holds, Line.Reported, NonNegativeDrags, DragOf, Conservation.NonNegative;
    var impact := ObligationAnnualImpact(rows, years);
    var d := FyDrags(impact, rows, years, shares, year);
    consensus, adjusted, scenario, withDefaults, worst := CurrentFyEps(value, d, price);
    if value.Some? && forall r | r in rows :: Conservation.NonNegative(r) {
      TiersOrdered(value.value, d);
    }
  }

  method NextTiers(rows: seq<Row>, years: int, value: Option<real>, shares: Option<nat>, year: Option<string>,
                      price: Option<real>)
    returns (consensus: Option<Line>, adjusted: Option<Line>, scenario: Option<Line>, worst: Option<Line>)
    ensures consensus.Some? == adjusted.Some? == scenario.Some? == worst.Some? == value.Some?
    ensures (forall r | r in rows :: Conservation.NonNegative(r)) ==>
      ReportsAtMost(worst, scenario) && ReportsAtMost(scenario, adjusted) && ReportsAtMost(adjusted, consensus)
  {
    hide Net, Holds, Line.Reported, NonNegativeDrags, DragOf, Conservation.NonNegative;
    var impact := ObligationAnnualImpact(rows, years);
    var d := FyDrags(impact, rows, years, shares, year);
    consensus, adjusted, scenario, worst := NextFyEps(value, d, price);
    if value.Some? && forall r | r in rows :: Conservation.NonNegative(r) {
      TiersOrdered(value.value, d);
    }
  }
}
