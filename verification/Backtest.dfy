/** The hypothetical backtest: what a position would have paid or received in funding. */
module Backtest {
  import opened Wrappers
  import opened FundingRateCache

  const SECONDS_PER_YEAR := 31557600.0

  datatype Side = Long | Short
  datatype SizeMode = Base | Quote | RateOnly

  datatype Input = Input(symbol: string, side: Side, start: int, end: int, sizeMode: SizeMode, size: Option<real>)

  datatype Payment = Payment(event: FundingEvent, quantityBase: real, notionalQuote: real, paymentQuote: real)

  datatype Report = Report(
    input: Input, payments: seq<Payment>, totalQuote: Option<real>, totalBase: Option<real>,
    cumulativeRatePct: real, apr: real, eventCount: nat, avgRate: real)

  datatype BacktestError = InvalidInput | DivisionByZero

  /** A positive rate makes the long side pay the short side. */
  function SideSign(side: Side): real {
    if side == Long then -1.0 else 1.0
  }

  predicate ValidInput(inp: Input) {
    inp.start < inp.end && (inp.sizeMode != RateOnly ==> inp.size.Some? && inp.size.value > 0.0)
  }

  /** The position held through every event; in quote mode it is bought at the first event's price. */
  function Quantity(inp: Input, events: seq<FundingEvent>): real
    requires ValidInput(inp) && events != [] && (inp.sizeMode == Quote ==> events[0].markPrice != 0.0)
  {
    match inp.sizeMode
    case Base => inp.size.value
    case Quote => Over(inp.size.value, events[0].markPrice)
    case RateOnly => 1.0
  }

  /** Products and quotients under a name, so that proofs can carry them without multiplying them out. */
  function Times(x: real, y: real): real {
    x * y
  }

  function Over(x: real, y: real): real
    requires y != 0.0
  {
    x / y
  }

  function Owed(sign: real, qty: real, price: real, rate: real): real {
    sign * qty * price * rate
  }

  function Pay(sign: real, qty: real, ev: FundingEvent): Payment {
    Payment(ev, qty, Times(qty, ev.markPrice), Owed(sign, qty, ev.markPrice, ev.rate))
  }

  function Payments(sign: real, qty: real, events: seq<FundingEvent>): (ps: seq<Payment>)
    ensures |ps| == |events| && forall i :: 0 <= i < |ps| ==> ps[i].event == events[i]
  {
    if events == [] then []
    else Payments(sign, qty, events[..|events| - 1]) + [Pay(sign, qty, events[|events| - 1])]
  }

  predicate PaidAtPrices(ps: seq<Payment>) {
    forall i :: 0 <= i < |ps| ==> ps[i].event.markPrice != 0.0
  }

  // --- the columns of the payments, and their sums ---

  function Sum(xs: seq<real>): real {
    if xs == [] then 0.0 else Sum(xs[..|xs| - 1]) + xs[|xs| - 1]
  }

  function Quotes(ps: seq<Payment>): seq<real> {
    seq(|ps|, i requires 0 <= i < |ps| => ps[i].paymentQuote)
  }

  function Bases(ps: seq<Payment>): seq<real>
    requires PaidAtPrices(ps)
  {
    seq(|ps|, i requires 0 <= i < |ps| => Over(ps[i].paymentQuote, ps[i].event.markPrice))
  }

  function Rates(sign: real, ps: seq<Payment>): seq<real> {
    seq(|ps|, i requires 0 <= i < |ps| => Times(sign, ps[i].event.rate))
  }

  function Notionals(ps: seq<Payment>): seq<real> {
    seq(|ps|, i requires 0 <= i < |ps| => ps[i].notionalQuote)
  }

  function Hours(ps: seq<Payment>): seq<real> {
    seq(|ps|, i requires 0 <= i < |ps| => ps[i].event.intervalHours as real)
  }

  function Mean(xs: seq<real>): real
    requires xs != []
  {
    Over(Sum(xs), |xs| as real)
  }

  function ElapsedYears(inp: Input): (y: real)
    ensures inp.start < inp.end ==> y > 0.0
  {
    ((inp.end - inp.start) as real / 1000.0) / SECONDS_PER_YEAR
  }

  /** Income per unit of notional and year; zero when either is not there. */
  function Annualised(total: real, notional: real, years: real): real {
    if notional != 0.0 && years > 0.0 then Over(Over(total, notional), years) else 0.0
  }

  /** The annualised rate of the three modes; division by a zero mean interval fails. */
  function Apr(inp: Input, ps: seq<Payment>): Result<real, BacktestError>
    requires ValidInput(inp)
  {
    if ps == [] then Ok(0.0)
    else
      match inp.sizeMode
      case RateOnly =>
        var meanHours := Mean(Hours(ps));
        if meanHours == 0.0 then Err(DivisionByZero)
        else Ok(Times(Mean(Rates(SideSign(inp.side), ps)), Over(24.0 * 365.25, meanHours)))
      case Base => Ok(Annualised(Sum(Quotes(ps)), Mean(Notionals(ps)), ElapsedYears(inp)))
      case Quote => Ok(Annualised(Sum(Quotes(ps)), inp.size.value, ElapsedYears(inp)))
  }

  function ReportOn(inp: Input, ps: seq<Payment>): Result<Report, BacktestError>
    requires ValidInput(inp)
  {
    var rates := Rates(SideSign(inp.side), ps);
    if inp.sizeMode != RateOnly && !PaidAtPrices(ps) then Err(DivisionByZero)
    else
      match Apr(inp, ps)
      case Err(e) => Err(e)
      case Ok(apr) =>
        Ok(Report(inp, ps,
                  if inp.sizeMode == RateOnly then None else Some(Sum(Quotes(ps))),
                  if inp.sizeMode == RateOnly then None else Some(Sum(Bases(ps))),
                  Sum(rates) * 100.0, apr, |ps|, if ps == [] then 0.0 else Mean(rates)))
  }

  /** One backtest as a function of its input and the funding events. */
  function Backtested(inp: Input, events: seq<FundingEvent>): Result<Report, BacktestError> {
    if !ValidInput(inp) then Err(InvalidInput)
    else if events == [] then ReportOn(inp, [])
    else if inp.sizeMode == Quote && events[0].markPrice == 0.0 then Err(DivisionByZero)
    else ReportOn(inp, Payments(SideSign(inp.side), Quantity(inp, events), events))
  }

  /** The payment loop, for a position already sized. */
  method PayAll(sideSign: real, qty: real, events: seq<FundingEvent>) returns (payments: seq<Payment>)
    ensures payments == Payments(sideSign, qty, events)
  {
    payments := [];
    for i := 0 to |events|
      invariant payments == Payments(sideSign, qty, events[..i])
    {
      payments := payments + [Pay(sideSign, qty, events[i])];
      assert events[..i + 1][..i] == events[..i];
    }
    assert events[..|events|] == events;
  }

  method RunBacktest(inp: Input, events: seq<FundingEvent>) returns (r: Result<Report, BacktestError>)
    ensures r == Backtested(inp, events)
  {
    if !ValidInput(inp) {
      return Err(InvalidInput);
    }
    var payments := [];
    if events != [] {
      if inp.sizeMode == Quote && events[0].markPrice == 0.0 {
        return Err(DivisionByZero);
      }
      payments := PayAll(SideSign(inp.side), Quantity(inp, events), events);
    }
    return ReportOn(inp, payments);
  }

  // --- sums of columns ---

  lemma {:induction false} PaymentAt(sign: real, qty: real, events: seq<FundingEvent>, i: nat)
    requires i < |events|
    ensures Payments(sign, qty, events)[i] == Pay(sign, qty, events[i])
  {
    if i < |events| - 1 {
      PaymentAt(sign, qty, events[..|events| - 1], i);
    }
  }

  lemma Distribute(c: real, x: real, y: real)
    ensures Times(c, x + y) == Times(c, x) + Times(c, y)
  {
  }

  lemma QuotientIs(x: real, y: real, q: real)
    requires y != 0.0 && x == Times(q, y)
    ensures Over(x, y) == q
  {
    assert (q * y) / y == q;
  }

  function Scale(c: real, xs: seq<real>): (ys: seq<real>)
    ensures |ys| == |xs|
  {
    if xs == [] then [] else Scale(c, xs[..|xs| - 1]) + [Times(c, xs[|xs| - 1])]
  }

  lemma {:induction false} ScaleAt(c: real, xs: seq<real>, i: nat)
    requires i < |xs|
    ensures Scale(c, xs)[i] == Times(c, xs[i])
  {
    if i < |xs| - 1 {
      ScaleAt(c, xs[..|xs| - 1], i);
    }
  }

  lemma {:induction false} SumScales(c: real, xs: seq<real>)
    ensures Sum(Scale(c, xs)) == Times(c, Sum(xs))
  {
    if xs != [] {
      SumScales(c, xs[..|xs| - 1]);
      Distribute(c, Sum(xs[..|xs| - 1]), xs[|xs| - 1]);
    }
  }

  /** One unit on the receiving side: what every position over the same events is a multiple of. */
  function Unit(events: seq<FundingEvent>): seq<Payment> {
    Payments(1.0, 1.0, events)
  }

  lemma OwedScales(c: real, sign: real, qty: real, price: real, rate: real)
    requires c == Times(sign, qty)
    ensures Owed(sign, qty, price, rate) == Times(c, Owed(1.0, 1.0, price, rate))
  {
  }

  lemma OwedInBase(sign: real, qty: real, price: real, rate: real)
    requires price != 0.0
    ensures Over(Owed(sign, qty, price, rate), price) == Times(qty, Times(sign, rate))
  {
    QuotientIs(Owed(sign, qty, price, rate), price, Times(qty, Times(sign, rate)));
  }

  /** The columns of a position are those of the unit, scaled. */
  lemma QuoteScales(c: real, sign: real, qty: real, events: seq<FundingEvent>)
    requires c == Times(sign, qty)
    ensures Sum(Quotes(Payments(sign, qty, events))) == Times(c, Sum(Quotes(Unit(events))))
  {
    var xs, ys := Quotes(Unit(events)), Quotes(Payments(sign, qty, events));
    forall i | 0 <= i < |events| ensures ys[i] == Scale(c, xs)[i] {
      PaymentAt(sign, qty, events, i);
      PaymentAt(1.0, 1.0, events, i);
      ScaleAt(c, xs, i);
      OwedScales(c, sign, qty, events[i].markPrice, events[i].rate);
    }
    assert ys == Scale(c, xs);
    SumScales(c, xs);
  }

  lemma NotionalScales(sign: real, qty: real, events: seq<FundingEvent>)
    ensures Sum(Notionals(Payments(sign, qty, events))) == Times(qty, Sum(Notionals(Unit(events))))
  {
    var xs, ys := Notionals(Unit(events)), Notionals(Payments(sign, qty, events));
    forall i | 0 <= i < |events| ensures ys[i] == Scale(qty, xs)[i] {
      PaymentAt(sign, qty, events, i);
      PaymentAt(1.0, 1.0, events, i);
      ScaleAt(qty, xs, i);
      assert Times(1.0, events[i].markPrice) == events[i].markPrice;
    }
    assert ys == Scale(qty, xs);
    SumScales(qty, xs);
  }

  /** In units of the base asset the total is the quantity times the sum of the signed rates. */
  lemma BaseIsCumulative(sign: real, qty: real, events: seq<FundingEvent>)
    requires PaidAtPrices(Payments(sign, qty, events))
    ensures Sum(Bases(Payments(sign, qty, events))) == Times(qty, Sum(Rates(sign, Payments(sign, qty, events))))
  {
    var ps := Payments(sign, qty, events);
    var xs, ys := Rates(sign, ps), Bases(ps);
    forall i | 0 <= i < |events| ensures ys[i] == Scale(qty, xs)[i] {
      PaymentAt(sign, qty, events, i);
      ScaleAt(qty, xs, i);
      OwedInBase(sign, qty, ps[i].event.markPrice, ps[i].event.rate);
    }
    assert ys == Scale(qty, xs);
    SumScales(qty, xs);
  }

  // --- the other side ---

  function OtherSide(inp: Input): Input {
    inp.(side := if inp.side == Long then Short else Long)
  }

  function Opposite(p: Payment): Payment {
    p.(paymentQuote := -p.paymentQuote)
  }

  ghost predicate Opposed(ps: seq<Payment>, qs: seq<Payment>) {
    |ps| == |qs| && forall i :: 0 <= i < |ps| ==> qs[i] == Opposite(ps[i])
  }

  lemma NegativeQuotient(x: real, y: real)
    requires y != 0.0
    ensures Over(-x, y) == -Over(x, y)
  {
    assert (x / y) * y == x;
    QuotientIs(-x, y, -Over(x, y));
  }

  lemma NegativeProduct(x: real, y: real)
    ensures Times(-x, y) == -Times(x, y)
  {
  }

  lemma {:induction false} SumNegates(xs: seq<real>, ys: seq<real>)
    requires |ys| == |xs| && forall i :: 0 <= i < |xs| ==> ys[i] == -xs[i]
    ensures Sum(ys) == -Sum(xs)
  {
    if xs != [] {
      SumNegates(xs[..|xs| - 1], ys[..|xs| - 1]);
    }
  }

  lemma OpposedSums(sign: real, ps: seq<Payment>, qs: seq<Payment>)
    requires Opposed(ps, qs)
    ensures Sum(Quotes(qs)) == -Sum(Quotes(ps)) && Sum(Rates(-sign, qs)) == -Sum(Rates(sign, ps))
    ensures Notionals(qs) == Notionals(ps) && Hours(qs) == Hours(ps)
  {
    SumNegates(Quotes(ps), Quotes(qs));
    forall i | 0 <= i < |ps| ensures Rates(-sign, qs)[i] == -Rates(sign, ps)[i] {
      NegativeProduct(sign, ps[i].event.rate);
    }
    SumNegates(Rates(sign, ps), Rates(-sign, qs));
  }

  lemma OpposedBases(ps: seq<Payment>, qs: seq<Payment>)
    requires Opposed(ps, qs)
    ensures PaidAtPrices(qs) <==> PaidAtPrices(ps)
    ensures PaidAtPrices(ps) ==> Sum(Bases(qs)) == -Sum(Bases(ps))
  {
    assert forall i :: 0 <= i < |ps| ==> qs[i].event == ps[i].event;
    if PaidAtPrices(ps) {
      var xs, ys := Bases(ps), Bases(qs);
      forall i | 0 <= i < |ps| ensures ys[i] == -xs[i] {
        NegativeQuotient(ps[i].paymentQuote, ps[i].event.markPrice);
      }
      SumNegates(xs, ys);
    }
  }

  /** Every money figure of one report is the negative of the other's. */
  ghost predicate Mirrored(a: Report, b: Report) {
    && Opposed(a.payments, b.payments)
    && (a.totalQuote.None? <==> b.totalQuote.None?)
    && (a.totalQuote.Some? ==> b.totalQuote.value == -a.totalQuote.value)
    && (a.totalBase.None? <==> b.totalBase.None?) && (a.totalBase.Some? ==> b.totalBase.value == -a.totalBase.value)
    && b.cumulativeRatePct == -a.cumulativeRatePct && b.avgRate == -a.avgRate && b.apr == -a.apr
    && b.eventCount == a.eventCount
  }

  /** Both fail with the same error, or their reports mirror each other. */
  ghost predicate MirroredResults(a: Result<Report, BacktestError>, b: Result<Report, BacktestError>) {
    (a.Ok? <==> b.Ok?) && (a.Ok? ==> Mirrored(a.value, b.value)) && (a.Err? ==> a == b)
  }

  lemma NegativeAnnualised(total: real, notional: real, years: real)
    ensures Annualised(-total, notional, years) == -Annualised(total, notional, years)
  {
    if notional != 0.0 && years > 0.0 {
      NegativeQuotient(total, notional);
      NegativeQuotient(Over(total, notional), years);
    }
  }

  lemma OpposedApr(inp: Input, ps: seq<Payment>, qs: seq<Payment>)
    requires ValidInput(inp) && Opposed(ps, qs)
    ensures var a, b := Apr(inp, ps), Apr(OtherSide(inp), qs);
            (a.Ok? <==> b.Ok?) && (a.Ok? ==> b.value == -a.value) && (a.Err? ==> a == b)
  {
    var sign := SideSign(inp.side);
    OpposedSums(sign, ps, qs);
    if ps != [] {
      match inp.sizeMode
      case RateOnly =>
        NegativeQuotient(Sum(Rates(sign, ps)), |ps| as real);
        if Mean(Hours(ps)) != 0.0 {
          NegativeProduct(Mean(Rates(sign, ps)), Over(24.0 * 365.25, Mean(Hours(ps))));
        }
      case Base => NegativeAnnualised(Sum(Quotes(ps)), Mean(Notionals(ps)), ElapsedYears(inp));
      case Quote => NegativeAnnualised(Sum(Quotes(ps)), inp.size.value, ElapsedYears(inp));
    }
  }

  lemma OpposedReports(inp: Input, ps: seq<Payment>, qs: seq<Payment>)
    requires ValidInput(inp) && Opposed(ps, qs)
    ensures var a, b := ReportOn(inp, ps), ReportOn(OtherSide(inp), qs);
            MirroredResults(a, b)
  {
    var sign := SideSign(inp.side);
    OpposedSums(sign, ps, qs);
    OpposedBases(ps, qs);
    OpposedApr(inp, ps, qs);
    if ps != [] {
      NegativeQuotient(Sum(Rates(sign, ps)), |ps| as real);
    }
  }

  lemma OppositePayments(sign: real, qty: real, events: seq<FundingEvent>)
    ensures Opposed(Payments(sign, qty, events), Payments(-sign, qty, events))
  {
    forall i | 0 <= i < |events| ensures Payments(-sign, qty, events)[i] == Opposite(Payments(sign, qty, events)[i]) {
      PaymentAt(sign, qty, events, i);
      PaymentAt(-sign, qty, events, i);
      NegativeOwed(sign, qty, events[i].markPrice, events[i].rate);
    }
  }

  lemma NegativeOwed(sign: real, qty: real, price: real, rate: real)
    ensures Owed(-sign, qty, price, rate) == -Owed(sign, qty, price, rate)
  {
  }

  lemma FlipPosition(inp: Input, events: seq<FundingEvent>, sign: real, qty: real)
    requires ValidInput(inp) && events != [] && sign == SideSign(inp.side)
    ensures var a := ReportOn(inp, Payments(sign, qty, events));
            var b := ReportOn(OtherSide(inp), Payments(-sign, qty, events));
            MirroredResults(a, b)
  {
    OppositePayments(sign, qty, events);
    OpposedReports(inp, Payments(sign, qty, events), Payments(-sign, qty, events));
  }

  /** Taking the other side turns every payment, total and rate around, whatever the prices. */
  lemma FlipSide(inp: Input, events: seq<FundingEvent>)
    ensures var a, b := Backtested(inp, events), Backtested(OtherSide(inp), events);
            MirroredResults(a, b)
  {
    if ValidInput(inp) {
      if events == [] {
        OpposedReports(inp, [], []);
      } else if !(inp.sizeMode == Quote && events[0].markPrice == 0.0) {
        FlipPosition(inp, events, SideSign(inp.side), Quantity(inp, events));
      }
    }
  }

  // --- sizes ---

  ghost predicate PositivePrices(events: seq<FundingEvent>) {
    forall i :: 0 <= i < |events| ==> events[i].markPrice > 0.0
  }

  /** A sized position over at least one event with positive prices; it always gets a report. */
  ghost predicate Sized(inp: Input, events: seq<FundingEvent>) {
    ValidInput(inp) && inp.sizeMode != RateOnly && events != [] && PositivePrices(events)
  }

  /** The figures of a sized position, from its payments. */
  lemma SizedReport(inp: Input, events: seq<FundingEvent>, sign: real, qty: real)
    requires Sized(inp, events) && sign == SideSign(inp.side) && qty == Quantity(inp, events)
    ensures var ps := Payments(sign, qty, events);
            PaidAtPrices(ps) && Backtested(inp, events) == ReportOn(inp, ps) && Backtested(inp, events).Ok?
  {
  }

  lemma PositiveQuotient(x: real, y: real)
    requires x > 0.0 && y > 0.0
    ensures Over(x, y) > 0.0 && Times(Over(x, y), y) == x
  {
  }

  /** Buying for S in quote currency is holding S divided by the entry price. */
  lemma QuoteIsBase(inp: Input, events: seq<FundingEvent>)
    requires Sized(inp, events) && inp.sizeMode == Quote
    ensures var held := inp.(sizeMode := Base, size := Some(inp.size.value / events[0].markPrice));
            var a, b := Backtested(inp, events), Backtested(held, events);
            && a.Ok? && b.Ok?
            && a.value.payments == b.value.payments
            && a.value.totalQuote == b.value.totalQuote && a.value.totalBase == b.value.totalBase
            && a.value.cumulativeRatePct == b.value.cumulativeRatePct && a.value.avgRate == b.value.avgRate
  {
    var qty := inp.size.value / events[0].markPrice;
    PositiveQuotient(inp.size.value, events[0].markPrice);
    SizedReport(inp, events, SideSign(inp.side), qty);
    SizedReport(inp.(sizeMode := Base, size := Some(qty)), events, SideSign(inp.side), qty);
  }

  /** The total in base units is the quantity's share of the cumulative rate. */
  lemma TotalBaseIsShare(inp: Input, events: seq<FundingEvent>, qty: real)
    requires Sized(inp, events) && qty == Quantity(inp, events)
    ensures var r := Backtested(inp, events);
            r.Ok? && r.value.totalBase == Some(Times(qty, r.value.cumulativeRatePct / 100.0))
  {
    var sign := SideSign(inp.side);
    var ps := Payments(sign, qty, events);
    SizedReport(inp, events, sign, qty);
    BaseIsCumulative(sign, qty, events);
    Share(Sum(Bases(ps)), qty, Sum(Rates(sign, ps)), Backtested(inp, events).value.cumulativeRatePct);
  }

  lemma Share(total: real, qty: real, rates: real, pct: real)
    requires total == Times(qty, rates) && pct == rates * 100.0
    ensures total == Times(qty, pct / 100.0)
  {
    assert pct / 100.0 == rates;
  }

  lemma {:induction false} SumPositive(xs: seq<real>)
    requires forall i :: 0 <= i < |xs| ==> xs[i] > 0.0
    ensures Sum(xs) >= 0.0 && (xs != [] ==> Sum(xs) > 0.0)
  {
    if xs != [] {
      SumPositive(xs[..|xs| - 1]);
    }
  }

  /** Scaling a position scales its total and its basis alike. */
  lemma SameRatio(c: real, qty: real, sign: real, total: real, basis: real, t: real, b: real)
    requires c == Times(sign, qty) && qty > 0.0 && basis > 0.0 && t == Times(c, total) && b == Times(qty, basis)
    ensures b > 0.0 && Over(t, b) == Over(Times(sign, total), basis)
  {
    var x := Over(Times(sign, total), basis);
    assert x * basis == sign * total;
    assert t == qty * (sign * total) == qty * (x * basis) == x * b;
    QuotientIs(t, b, x);
  }

  lemma MeanScales(qty: real, a: real, b: real, n: real)
    requires n > 0.0 && b == Times(qty, a)
    ensures Over(b, n) == Times(qty, Over(a, n))
    ensures a > 0.0 ==> Over(a, n) > 0.0
  {
    assert (a / n) * n == a;
    assert (qty * (a / n)) * n == qty * a;
    QuotientIs(b, n, Times(qty, Over(a, n)));
  }

  lemma UnitNotional(events: seq<FundingEvent>)
    requires PositivePrices(events) && events != []
    ensures Sum(Notionals(Unit(events))) > 0.0
  {
    var ws := Notionals(Unit(events));
    forall i | 0 <= i < |ws| ensures ws[i] > 0.0 {
      PaymentAt(1.0, 1.0, events, i);
      assert Times(1.0, events[i].markPrice) == events[i].markPrice;
    }
    SumPositive(ws);
  }

  /** Income per unit of notional of a base position: no trace of its quantity. */
  lemma BaseYield(sign: real, qty: real, events: seq<FundingEvent>)
    requires PositivePrices(events) && events != [] && qty > 0.0
    ensures var ps, unit := Payments(sign, qty, events), Unit(events);
            && Mean(Notionals(ps)) > 0.0 && Mean(Notionals(unit)) > 0.0
            && Over(Sum(Quotes(ps)), Mean(Notionals(ps))) == Over(Times(sign, Sum(Quotes(unit))), Mean(Notionals(unit)))
  {
    var ps, unit, c := Payments(sign, qty, events), Unit(events), Times(sign, qty);
    QuoteScales(c, sign, qty, events);
    NotionalScales(sign, qty, events);
    UnitNotional(events);
    MeanScales(qty, Sum(Notionals(unit)), Sum(Notionals(ps)), |events| as real);
    SameRatio(c, qty, sign, Sum(Quotes(unit)), Mean(Notionals(unit)), Sum(Quotes(ps)), Mean(Notionals(ps)));
  }

  lemma QuoteYield(sign: real, size: real, qty: real, events: seq<FundingEvent>)
    requires PositivePrices(events) && events != [] && size > 0.0 && qty == Over(size, events[0].markPrice)
    ensures Over(Sum(Quotes(Payments(sign, qty, events))), size) ==
            Over(Times(sign, Sum(Quotes(Unit(events)))), events[0].markPrice)
  {
    var c := Times(sign, qty);
    QuoteScales(c, sign, qty, events);
    PositiveQuotient(size, events[0].markPrice);
    var total, t := Sum(Quotes(Unit(events))), Sum(Quotes(Payments(sign, qty, events)));
    SameRatio(c, qty, sign, total, events[0].markPrice, t, size);
  }

  /** What one unit earns per unit of its basis: the mean price in base mode, the entry price in quote mode. */
  function Yield(mode: SizeMode, sign: real, events: seq<FundingEvent>): real
    requires events != []
  {
    var basis := if mode == Quote then events[0].markPrice else Mean(Notionals(Unit(events)));
    if basis == 0.0 then 0.0 else Over(Times(sign, Sum(Quotes(Unit(events)))), basis)
  }

  /** The annualised rate is the yield per year, in which the size has no part. */
  lemma AprIsYield(inp: Input, events: seq<FundingEvent>)
    requires Sized(inp, events)
    ensures var r := Backtested(inp, events);
            r.Ok? && r.value.apr == Over(Yield(inp.sizeMode, SideSign(inp.side), events), ElapsedYears(inp))
  {
    var sign, qty := SideSign(inp.side), Quantity(inp, events);
    SizedReport(inp, events, sign, qty);
    if inp.sizeMode == Base {
      BaseYield(sign, qty, events);
    } else {
      QuoteYield(sign, inp.size.value, qty, events);
    }
  }

  /** The annualised rate of a sized position does not depend on its size. */
  lemma AprIgnoresSize(inp: Input, size: real, events: seq<FundingEvent>)
    requires Sized(inp, events) && size > 0.0
    ensures var a, b := Backtested(inp, events), Backtested(inp.(size := Some(size)), events);
            a.Ok? && b.Ok? && a.value.apr == b.value.apr
  {
    AprIsYield(inp, events);
    AprIsYield(inp.(size := Some(size)), events);
  }

  // --- signs and averages ---

  lemma SignOfOwed(sign: real, qty: real, price: real, rate: real)
    requires qty > 0.0 && price > 0.0 && (sign == 1.0 || sign == -1.0)
    ensures Owed(sign, qty, price, rate) == sign * Times(Times(qty, price), rate)
    ensures rate > 0.0 ==> Times(Times(qty, price), rate) > 0.0
    ensures rate < 0.0 ==> Times(Times(qty, price), rate) < 0.0
  {
    assert Times(qty, price) > 0.0;
  }

  /**
   * A long position pays its notional times the rate, and so pays exactly when the rate is positive; a short one is
   * paid.
   */
  lemma LongPaysShort(inp: Input, events: seq<FundingEvent>, i: nat)
    requires Sized(inp, events) && i < |events|
    ensures var r := Backtested(inp, events);
            && r.Ok? && r.value.eventCount == |r.value.payments| == |events|
            && var p := r.value.payments[i];
               && p.event == events[i] && p.notionalQuote == Times(p.quantityBase, events[i].markPrice)
               && p.paymentQuote == (if inp.side == Long
                    then -Times(p.notionalQuote, events[i].rate) else Times(p.notionalQuote, events[i].rate))
               && (events[i].rate > 0.0 <==> if inp.side == Long then p.paymentQuote < 0.0 else p.paymentQuote > 0.0)
  {
    var sign, qty := SideSign(inp.side), Quantity(inp, events);
    SizedReport(inp, events, sign, qty);
    PositiveQuantity(inp, events);
    PaymentAt(sign, qty, events, i);
    SignOfOwed(sign, qty, events[i].markPrice, events[i].rate);
  }

  lemma PositiveQuantity(inp: Input, events: seq<FundingEvent>)
    requires Sized(inp, events)
    ensures Quantity(inp, events) > 0.0
  {
    if inp.sizeMode == Quote {
      PositiveQuotient(inp.size.value, events[0].markPrice);
    }
  }

  lemma MeanTimesCount(xs: seq<real>)
    requires xs != []
    ensures Times(Mean(xs), |xs| as real) == Sum(xs)
  {
    assert (Sum(xs) / |xs| as real) * |xs| as real == Sum(xs);
  }

  /** The average rate over the events is the cumulative rate, in every mode. */
  lemma AverageIsCumulative(inp: Input, events: seq<FundingEvent>)
    requires Backtested(inp, events).Ok?
    ensures var r := Backtested(inp, events).value;
            r.eventCount == |events| && Times(r.avgRate, r.eventCount as real) == r.cumulativeRatePct / 100.0
  {
    var r := Backtested(inp, events).value;
    var rates := Rates(SideSign(inp.side), r.payments);
    if events != [] {
      MeanTimesCount(rates);
    }
    Share(Sum(rates), 1.0, Sum(rates), r.cumulativeRatePct);
  }

  /**
   * Without a size, the annualised rate over the hours the events stand for is the cumulative rate over a year's
   * hours.
   */
  lemma RateOnlyApr(inp: Input, events: seq<FundingEvent>)
    requires inp.sizeMode == RateOnly && Backtested(inp, events).Ok? && events != []
    ensures var r := Backtested(inp, events).value;
            Times(r.apr, Sum(Hours(r.payments))) == Times(24.0 * 365.25, r.cumulativeRatePct / 100.0)
  {
    var r := Backtested(inp, events).value;
    var rates, hours := Rates(SideSign(inp.side), r.payments), Hours(r.payments);
    MeanTimesCount(rates);
    MeanTimesCount(hours);
    AnnualisedOverHours(Mean(rates), Mean(hours), |events| as real, 24.0 * 365.25);
    Share(Sum(rates), 1.0, Sum(rates), r.cumulativeRatePct);
  }

  lemma AnnualisedOverHours(rate: real, hours: real, n: real, year: real)
    requires hours != 0.0
    ensures Times(Times(rate, Over(year, hours)), Times(hours, n)) == Times(year, Times(rate, n))
  {
    var q := year / hours;
    assert q * hours == year;
    assert (rate * q) * (hours * n) == (q * hours) * (rate * n);
  }

  // --- base mode: a weighted mean of the rates ---

  lemma {:induction false} SumAtMost(xs: seq<real>, ys: seq<real>)
    requires |xs| == |ys| && forall i :: 0 <= i < |xs| ==> xs[i] <= ys[i]
    ensures Sum(xs) <= Sum(ys)
  {
    if xs != [] {
      SumAtMost(xs[..|xs| - 1], ys[..|xs| - 1]);
    }
  }

  ghost predicate Between(lower: seq<real>, xs: seq<real>, upper: seq<real>) {
    |lower| == |xs| == |upper| && forall i :: 0 <= i < |xs| ==> lower[i] <= xs[i] <= upper[i]
  }

  lemma WeightedBounds(xs: seq<real>, ws: seq<real>, lo: real, hi: real)
    requires Between(Scale(lo, ws), xs, Scale(hi, ws))
    ensures Times(lo, Sum(ws)) <= Sum(xs) <= Times(hi, Sum(ws))
  {
    SumScales(lo, ws);
    SumScales(hi, ws);
    SumAtMost(Scale(lo, ws), xs);
    SumAtMost(xs, Scale(hi, ws));
  }

  /** Total over mean weight, divided by n, is bounded by what bounds the total against the weight. */
  lemma RatioBounds(total: real, weight: real, n: real, lo: real, hi: real)
    requires weight > 0.0 && n > 0.0 && Times(lo, weight) <= total <= Times(hi, weight)
    ensures Over(weight, n) > 0.0 && lo <= Over(Over(total, Over(weight, n)), n) <= hi
  {
    var m := weight / n;
    assert m * n == weight;
    var y := total / m;
    assert y * m == total;
    var z := y / n;
    assert z * n == y;
    assert z * weight == z * (m * n) == (z * n) * m == total;
    assert z < lo ==> z * weight < lo * weight;
    assert z > hi ==> z * weight > hi * weight;
  }

  lemma OwedWithin(sign: real, qty: real, price: real, rate: real, lo: real, hi: real)
    requires qty > 0.0 && price > 0.0 && lo <= Times(sign, rate) <= hi
    ensures Times(qty, price) > 0.0
    ensures Times(lo, Times(qty, price)) <= Owed(sign, qty, price, rate) <= Times(hi, Times(qty, price))
  {
    var w, x := qty * price, sign * rate;
    assert w > 0.0 && sign * qty * price * rate == x * w;
    AtMostScaled(lo, x, w);
    AtMostScaled(x, hi, w);
  }

  lemma AtMostScaled(x: real, y: real, w: real)
    requires x <= y && w > 0.0
    ensures x * w <= y * w
  {
  }

  lemma MeanRateBounds(sign: real, qty: real, events: seq<FundingEvent>, lo: real, hi: real)
    requires PositivePrices(events) && events != [] && qty > 0.0
    requires forall i :: 0 <= i < |events| ==> lo <= Times(sign, events[i].rate) <= hi
    ensures var ps := Payments(sign, qty, events);
            Mean(Notionals(ps)) > 0.0 && lo <= Over(Over(Sum(Quotes(ps)), Mean(Notionals(ps))), |events| as real) <= hi
  {
    var ps := Payments(sign, qty, events);
    var xs, ws := Quotes(ps), Notionals(ps);
    forall i | 0 <= i < |ps| ensures ws[i] > 0.0 && Scale(lo, ws)[i] <= xs[i] <= Scale(hi, ws)[i] {
      PaymentAt(sign, qty, events, i);
      ScaleAt(lo, ws, i);
      ScaleAt(hi, ws, i);
      OwedWithin(sign, qty, events[i].markPrice, events[i].rate, lo, hi);
    }
    WeightedBounds(xs, ws, lo, hi);
    SumPositive(ws);
    RatioBounds(Sum(xs), Sum(ws), |events| as real, lo, hi);
  }

  lemma YearsCancel(x: real, years: real)
    requires years > 0.0
    ensures Times(Over(x, years), years) == x
  {
  }

  /** In base mode the annualised rate, per event and year, lies between any bounds of the signed rates. */
  lemma AprIsWeightedMean(inp: Input, events: seq<FundingEvent>, years: real, lo: real, hi: real)
    requires Sized(inp, events) && inp.sizeMode == Base && years == ElapsedYears(inp)
    requires forall i :: 0 <= i < |events| ==> lo <= Times(SideSign(inp.side), events[i].rate) <= hi
    ensures var r := Backtested(inp, events);
            r.Ok? && lo <= Over(Times(r.value.apr, years), |events| as real) <= hi
  {
    var sign, qty := SideSign(inp.side), inp.size.value;
    var ps := Payments(sign, qty, events);
    SizedReport(inp, events, sign, qty);
    MeanRateBounds(sign, qty, events, lo, hi);
    YearsCancel(Over(Sum(Quotes(ps)), Mean(Notionals(ps))), years);
  }

  lemma {:induction false} SumConstant(xs: seq<real>, c: real)
    requires forall i :: 0 <= i < |xs| ==> xs[i] == c
    ensures Sum(xs) == Times(c, |xs| as real)
  {
    if xs != [] {
      SumConstant(xs[..|xs| - 1], c);
      Distribute(c, (|xs| - 1) as real, 1.0);
      assert Times(c, 1.0) == c;
    }
  }

  lemma OwedAtConstantPrice(sign: real, qty: real, price: real, rate: real)
    ensures Owed(sign, qty, price, rate) == Times(Times(qty, price), Times(sign, rate))
  {
  }

  lemma ConstantPriceSums(sign: real, qty: real, events: seq<FundingEvent>, price: real)
    requires events != [] && qty > 0.0 && price > 0.0 && forall i :: 0 <= i < |events| ==> events[i].markPrice == price
    ensures var ps := Payments(sign, qty, events);
            Mean(Notionals(ps)) > 0.0 && Over(Sum(Quotes(ps)), Mean(Notionals(ps))) == Sum(Rates(sign, ps))
  {
    var ps, c := Payments(sign, qty, events), Times(qty, price);
    var xs, rates, ws := Quotes(ps), Rates(sign, ps), Notionals(ps);
    forall i | 0 <= i < |ps| ensures ws[i] == c && xs[i] == Scale(c, rates)[i] {
      PaymentAt(sign, qty, events, i);
      ScaleAt(c, rates, i);
      OwedAtConstantPrice(sign, qty, price, events[i].rate);
    }
    assert xs == Scale(c, rates);
    SumScales(c, rates);
    SumConstant(ws, c);
    QuotientIs(Sum(ws), |ps| as real, c);
    Commuted(c, Sum(rates));
    QuotientIs(Sum(xs), c, Sum(rates));
  }

  lemma Commuted(x: real, y: real)
    ensures Times(x, y) == Times(y, x)
    ensures x > 0.0 && y > 0.0 ==> Times(x, y) > 0.0
  {
  }

  /** At a constant price the annualised rate over the period is the cumulative rate. */
  lemma ConstantPriceApr(inp: Input, events: seq<FundingEvent>, price: real)
    requires Sized(inp, events) && inp.sizeMode == Base
    requires forall i :: 0 <= i < |events| ==> events[i].markPrice == price
    ensures var r := Backtested(inp, events);
            r.Ok? && Times(r.value.apr, ElapsedYears(inp)) == r.value.cumulativeRatePct / 100.0
  {
    var sign, qty := SideSign(inp.side), inp.size.value;
    SizedReport(inp, events, sign, qty);
    assert price == events[0].markPrice;
    ConstantPriceSums(sign, qty, events, price);
    YearsCancel(Sum(Rates(sign, Payments(sign, qty, events))), ElapsedYears(inp));
  }

  // --- the figures of a report, event by event ---

  /** A backtest is rejected for an empty period or, in a sized mode, for a size that is missing or not positive. */
  lemma RejectedIff(inp: Input, events: seq<FundingEvent>)
    ensures Backtested(inp, events) == Err(InvalidInput) <==>
            inp.start >= inp.end ||
            ((inp.sizeMode == Base || inp.sizeMode == Quote) && (inp.size == None || inp.size.value <= 0.0))
  {
  }

  /** Without events every figure is zero, and the totals are missing exactly without a size. */
  lemma NoEvents(inp: Input)
    requires ValidInput(inp)
    ensures var total := if inp.sizeMode == RateOnly then None else Some(0.0);
            Backtested(inp, []) == Ok(Report(inp, [], total, total, 0.0, 0.0, 0, 0.0))
  {
  }

  lemma NextPayments(inp: Input, events: seq<FundingEvent>, ev: FundingEvent)
    requires ValidInput(inp) && (inp.sizeMode == Quote ==> (events + [ev])[0].markPrice != 0.0)
    ensures var sign, qty := SideSign(inp.side), Quantity(inp, events + [ev]);
            && (events != [] ==> Quantity(inp, events) == qty)
            && Payments(sign, qty, events + [ev]) == Payments(sign, qty, events) + [Pay(sign, qty, ev)]
  {
    assert (events + [ev])[..|events|] == events;
  }

  lemma NextColumns(sign: real, ps: seq<Payment>, p: Payment)
    ensures Sum(Quotes(ps + [p])) == Sum(Quotes(ps)) + p.paymentQuote
    ensures Sum(Rates(sign, ps + [p])) == Sum(Rates(sign, ps)) + Times(sign, p.event.rate)
    ensures Sum(Notionals(ps + [p])) == Sum(Notionals(ps)) + p.notionalQuote
    ensures Sum(Hours(ps + [p])) == Sum(Hours(ps)) + p.event.intervalHours as real
  {
    var all := ps + [p];
    assert Quotes(all)[..|ps|] == Quotes(ps);
    assert Rates(sign, all)[..|ps|] == Rates(sign, ps);
    assert Notionals(all)[..|ps|] == Notionals(ps);
    assert Hours(all)[..|ps|] == Hours(ps);
  }

  lemma NextBases(ps: seq<Payment>, p: Payment)
    requires PaidAtPrices(ps + [p])
    ensures PaidAtPrices(ps) && p.event.markPrice != 0.0
    ensures Sum(Bases(ps + [p])) == Sum(Bases(ps)) + p.paymentQuote / p.event.markPrice
  {
    var all := ps + [p];
    assert all[|ps|] == p && forall i :: 0 <= i < |ps| ==> all[i] == ps[i];
    assert Bases(all)[..|ps|] == Bases(ps);
  }

  /** The payments of a report over at least one event. */
  lemma ReportedPayments(inp: Input, events: seq<FundingEvent>)
    requires events != []
    ensures Backtested(inp, events).Ok? ==>
              && ValidInput(inp) && (inp.sizeMode == Quote ==> events[0].markPrice != 0.0)
              && Backtested(inp, events).value.payments == Payments(SideSign(inp.side), Quantity(inp, events), events)
  {
  }

  /** What one more event changes: it adds its own payment to the payments and to every total, and nothing else. */
  ghost predicate Adds(a: Report, b: Report, p: Payment, sign: real)
    requires p.event.markPrice != 0.0
  {
    && b.payments == a.payments + [p] && b.eventCount == a.eventCount + 1
    && a.totalQuote.Some? && b.totalQuote == Some(a.totalQuote.value + p.paymentQuote)
    && a.totalBase.Some? && b.totalBase == Some(a.totalBase.value + p.paymentQuote / p.event.markPrice)
    && b.cumulativeRatePct == a.cumulativeRatePct + sign * p.event.rate * 100.0
  }

  lemma NextReport(inp: Input, ps: seq<Payment>, p: Payment)
    requires ValidInput(inp) && inp.sizeMode != RateOnly && ReportOn(inp, ps + [p]).Ok?
    ensures p.event.markPrice != 0.0 && ReportOn(inp, ps).Ok?
    ensures Adds(ReportOn(inp, ps).value, ReportOn(inp, ps + [p]).value, p, if inp.side == Long then -1.0 else 1.0)
  {
    NextBases(ps, p);
    NextColumns(SideSign(inp.side), ps, p);
  }

  /**
   * In a sized mode, one more event adds its payment to the payments, and raises each total by exactly that payment.
   */
  lemma OneMoreEvent(inp: Input, events: seq<FundingEvent>, ev: FundingEvent)
    requires inp.sizeMode != RateOnly && Backtested(inp, events + [ev]).Ok?
    ensures ev.markPrice != 0.0 && Backtested(inp, events).Ok?
    ensures var b := Backtested(inp, events + [ev]).value;
            && b.payments != [] && b.payments[|b.payments| - 1].event == ev
            && Adds(Backtested(inp, events).value, b, b.payments[|b.payments| - 1], if inp.side == Long then -1.0
                 else 1.0)
  {
    var sign, qty := SideSign(inp.side), Quantity(inp, events + [ev]);
    ReportedPayments(inp, events + [ev]);
    NextPayments(inp, events, ev);
    NextReport(inp, Payments(sign, qty, events), Pay(sign, qty, ev));
  }

  /** Without a size, one more event adds its signed rate to the cumulative rate. */
  lemma OneMoreRate(inp: Input, events: seq<FundingEvent>, ev: FundingEvent)
    requires inp.sizeMode == RateOnly && Backtested(inp, events).Ok? && Backtested(inp, events + [ev]).Ok?
    ensures AddsRate(Backtested(inp, events).value, Backtested(inp, events + [ev]).value, ev,
                     if inp.side == Long then -1.0 else 1.0)
  {
    var sign, qty := SideSign(inp.side), Quantity(inp, events + [ev]);
    ReportedPayments(inp, events + [ev]);
    NextPayments(inp, events, ev);
    NextRates(inp, Payments(sign, qty, events), Pay(sign, qty, ev));
  }

  ghost predicate AddsRate(a: Report, b: Report, ev: FundingEvent, sign: real) {
    && b.eventCount == a.eventCount + 1 && b.totalQuote == None && b.totalBase == None
    && b.cumulativeRatePct == a.cumulativeRatePct + sign * ev.rate * 100.0
  }

  lemma NextRates(inp: Input, ps: seq<Payment>, p: Payment)
    requires ValidInput(inp) && inp.sizeMode == RateOnly && ReportOn(inp, ps).Ok? && ReportOn(inp, ps + [p]).Ok?
    ensures AddsRate(ReportOn(inp, ps).value, ReportOn(inp, ps + [p]).value, p.event, if inp.side == Long then -1.0
              else 1.0)
  {
    NextColumns(SideSign(inp.side), ps, p);
  }

  /** The quantity of every payment: the size itself, what the size buys at the entry price, or one unit. */
  lemma QuantityHeld(inp: Input, events: seq<FundingEvent>, i: nat)
    requires Backtested(inp, events).Ok? && i < |events|
    ensures var r := Backtested(inp, events).value;
            && r.input == inp && |r.payments| == |events| && r.payments[i].event == events[i]
            && var qty := r.payments[i].quantityBase;
               match inp.sizeMode
               case Base => inp.size == Some(qty)
               case Quote => inp.size.Some? && qty * events[0].markPrice == inp.size.value
               case RateOnly => qty == 1.0
  {
    ReportedPayments(inp, events);
    PaymentAt(SideSign(inp.side), Quantity(inp, events), events, i);
    if inp.sizeMode == Quote {
      BoughtFor(inp.size.value, events[0].markPrice, Backtested(inp, events).value.payments[i].quantityBase);
    }
  }

  lemma BoughtFor(size: real, price: real, qty: real)
    requires price != 0.0 && qty == Over(size, price)
    ensures qty * price == size
  {
  }

  /**
   * A valid backtest fails only by dividing by zero: by a price in a sized mode, or by a mean interval of zero hours.
   */
  lemma FailsIff(inp: Input, events: seq<FundingEvent>)
    requires ValidInput(inp) && inp.sizeMode != RateOnly
    ensures Backtested(inp, events) == Err(DivisionByZero) <==>
            exists i :: 0 <= i < |events| && events[i].markPrice == 0.0
    ensures Backtested(inp, events).Ok? <==> forall i :: 0 <= i < |events| ==> events[i].markPrice != 0.0
  {
    if events != [] && !(inp.sizeMode == Quote && events[0].markPrice == 0.0) {
      var ps := Payments(SideSign(inp.side), Quantity(inp, events), events);
      assert PaidAtPrices(ps) <==> forall i :: 0 <= i < |events| ==> events[i].markPrice != 0.0;
    }
  }

  function TotalHours(events: seq<FundingEvent>): int {
    if events == [] then 0 else TotalHours(events[..|events| - 1]) + events[|events| - 1].intervalHours
  }

  lemma {:induction false} HoursOf(sign: real, qty: real, events: seq<FundingEvent>)
    ensures Sum(Hours(Payments(sign, qty, events))) == TotalHours(events) as real
  {
    if events != [] {
      var front, last := events[..|events| - 1], events[|events| - 1];
      HoursOf(sign, qty, front);
      NextColumns(sign, Payments(sign, qty, front), Pay(sign, qty, last));
    }
  }

  /** Without a size, prices do not matter, and a valid backtest fails only for events that stand for no time at all. */
  lemma RateOnlyFailsIff(inp: Input, events: seq<FundingEvent>)
    requires ValidInput(inp) && inp.sizeMode == RateOnly
    ensures Backtested(inp, events) == Err(DivisionByZero) <==> events != [] && TotalHours(events) == 0
    ensures Backtested(inp, events).Ok? <==> events == [] || TotalHours(events) != 0
  {
    if events != [] {
      var ps := Payments(SideSign(inp.side), 1.0, events);
      HoursOf(SideSign(inp.side), 1.0, events);
      MeanTimesCount(Hours(ps));
      NoMean(Mean(Hours(ps)), |events| as real, TotalHours(events) as real);
    }
  }

  lemma NoMean(mean: real, n: real, total: real)
    requires n > 0.0 && Times(mean, n) == total
    ensures mean == 0.0 <==> total == 0.0
  {
  }

  // --- annual rates in milliseconds ---

  /** A year is 31_557_600_000 milliseconds. */
  lemma YearsAre(inp: Input)
    ensures ElapsedYears(inp) * 31_557_600_000.0 == (inp.end - inp.start) as real
  {
  }

  lemma AnnualisedBack(total: real, notional: real, inp: Input)
    requires notional != 0.0 && inp.start < inp.end
    ensures Annualised(total, notional, ElapsedYears(inp)) * (inp.end - inp.start) as real * notional ==
            total * 31_557_600_000.0
  {
    var years := ElapsedYears(inp);
    var perYear := Annualised(total, notional, years);
    YearsAre(inp);
    assert Over(total, notional) * notional == total;
    assert perYear * years == Over(total, notional);
    TimesBack(perYear, years, notional, total);
  }

  lemma TimesBack(apr: real, years: real, notional: real, total: real)
    requires apr * years * notional == total
    ensures apr * (years * 31_557_600_000.0) * notional == total * 31_557_600_000.0
  {
    assert apr * (years * 31_557_600_000.0) * notional == (apr * years * notional) * 31_557_600_000.0;
  }

  /** In base mode the annualised rate, over the period in years, of the mean notional is the total. */
  lemma BaseAprIsTotal(inp: Input, events: seq<FundingEvent>, mean: real)
    requires Sized(inp, events) && inp.sizeMode == Base && Backtested(inp, events).Ok?
    requires Times(mean, |events| as real) == Sum(Notionals(Backtested(inp, events).value.payments))
    ensures AprYieldsTotal(inp, Backtested(inp, events).value, mean)
  {
    var sign, qty := SideSign(inp.side), inp.size.value;
    SizedReport(inp, events, sign, qty);
    BaseYield(sign, qty, events);
    BaseAprOf(inp, Payments(sign, qty, events), mean);
  }

  /** The rate per year, times the years of the period, times the basis is the total; the period is in milliseconds. */
  ghost predicate AprYieldsTotal(inp: Input, r: Report, basis: real) {
    r.totalQuote.Some? && r.apr * (inp.end - inp.start) as real * basis == r.totalQuote.value * 31_557_600_000.0
  }

  lemma BaseAprOf(inp: Input, ps: seq<Payment>, mean: real)
    requires ValidInput(inp) && inp.sizeMode == Base && ps != [] && Mean(Notionals(ps)) > 0.0 && ReportOn(inp, ps).Ok?
    requires Times(mean, |ps| as real) == Sum(Notionals(ps))
    ensures AprYieldsTotal(inp, ReportOn(inp, ps).value, mean)
  {
    QuotientIs(Sum(Notionals(ps)), |ps| as real, mean);
    AnnualisedBack(Sum(Quotes(ps)), mean, inp);
  }

  /** In quote mode the annualised rate, over the period in years, of the size is the total. */
  lemma QuoteAprIsTotal(inp: Input, events: seq<FundingEvent>)
    requires Sized(inp, events) && inp.sizeMode == Quote
    ensures Backtested(inp, events).Ok? && AprYieldsTotal(inp, Backtested(inp, events).value, inp.size.value)
  {
    SizedReport(inp, events, SideSign(inp.side), Quantity(inp, events));
    AnnualisedBack(Sum(Quotes(Payments(SideSign(inp.side), Quantity(inp, events), events))), inp.size.value, inp);
  }

  /** The notionals of the payments add up event by event. */
  lemma NotionalsAddUp(ps: seq<Payment>, p: Payment)
    ensures Sum(Notionals([])) == 0.0 && Sum(Notionals(ps + [p])) == Sum(Notionals(ps)) + p.notionalQuote
    ensures Sum(Hours([])) == 0.0 && Sum(Hours(ps + [p])) == Sum(Hours(ps)) + p.event.intervalHours as real
  {
    NextColumns(1.0, ps, p);
  }
}
