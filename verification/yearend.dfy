/** Year-end closing (src/components/Periods.tsx): the preview figures the
    wizard shows (projected depreciation, tax after carried losses, suggested
    dividend) and the finalisation that books the rest of the year, records
    tax and dividend, closes the year and opens the next. */
module YearEnd {
  import opened Base
  import opened Tables
  import opened Depreciation
  import opened Ledger
  import opened Calculations
  import opened Leases
  import opened Periods

  predicate PeriodClosed(p: Period) { p.closedAt.Some? }

  /** Months of the year not yet closed; negative once more than 12 are closed. */
  function RemainingMonths(yearPeriods: seq<Period>): int {
    12 - Count(yearPeriods, PeriodClosed)
  }

  // --- The preview ---

  datatype Figures = Figures(
    revenue: real, expenses: real, bookedDepreciation: real, remainingMonths: int,
    projectedDepreciation: real, netProfit: real, accumulatedLosses: real, taxRate: real,
    afterLosses: real, tax: real, afterTax: real, investorRatio: real, suggestedDividend: real)

  /** The current fiscal year's periods (`[]` without a fiscal year). */
  function YearPeriods(s: State): seq<Period> {
    match CurrentFiscalYear(s)
    case None => []
    case Some(fy) => PeriodsOf(s.periods, fy.id)
  }

  /** The profit left taxable once the carried losses are absorbed. */
  function AfterLosses(netProfit: real, acc: real): real { Max(netProfit - acc, 0.0) }

  /** Tax at `rate`, rounded to the cent, only on a positive taxable base. */
  function TaxOn(afterLosses: real, rate: real): real {
    if afterLosses > 0.0 then Round2(afterLosses * rate) else 0.0
  }

  /** The investors' share of a positive after-tax profit, rounded to the cent. */
  function SuggestedDividend(afterTax: real, ratio: real): real {
    if afterTax > 0.0 then Round2(afterTax * ratio) else 0.0
  }

  function InvestorRatio(st: Settings): real {
    if TotalShares(st) > 0.0 then InvestorShares(st) / TotalShares(st) else 0.0
  }

  /** The figures computed on every render of the periods page. The projection
      charges each unsold asset for the months not yet closed, capped at its
      remaining book value. */
  function Preview(s: State): Figures {
    var fy := CurrentFiscalYear(s);
    var revenue := if fy.Some? then SumTransactions(s, Revenue, None, Some(fy.value.id)) else 0.0;
    var expenses := if fy.Some? then SumTransactions(s, Expense, None, Some(fy.value.id)) else 0.0;
    var booked := if fy.Some? then SumDepreciation(s, Some(fy.value.id), None) else 0.0;
    var remaining := RemainingMonths(YearPeriods(s));
    var projected := if remaining > 0 then Sum(s.assets, ChargeFor(remaining)) else 0.0;
    var netProfit := revenue - expenses - (booked + projected);
    var acc := AccumulatedLosses(s.settings);
    var rate := TaxRatePercent(s.settings) / 100.0;
    var afterLosses := AfterLosses(netProfit, acc);
    var tax := TaxOn(afterLosses, rate);
    var ratio := InvestorRatio(s.settings);
    Figures(revenue, expenses, booked, remaining, projected, netProfit, acc, rate, afterLosses, tax,
            afterLosses - tax, ratio, SuggestedDividend(afterLosses - tax, ratio))
  }

  /** One unsold asset's share of the projection: its monthly charge for the
      remaining months, capped at what is left to depreciate. */
  method ProjectedCharge(a: Asset, months: nat) returns (charge: real)
    requires Unsold(a)
    ensures charge == Charge(a, months)
  {
    charge := 0.0;
    if Truthy(a.depreciationYears) {
      var monthly := a.purchasePrice / ((a.depreciationYears.value * 12) as real);
      var remaining := a.purchasePrice - a.accumulatedDepreciation;
      if remaining > 0.0 {
        charge := Min(monthly * months as real, remaining);
      }
    }
  }

  /** The projection loop as written: over the unsold assets, skipping those
      without depreciation years or fully depreciated. It is exactly what
      booking the remaining months would book. */
  method ProjectRemainingDepreciation(assets: seq<Asset>, remainingMonths: int) returns (total: real)
    ensures remainingMonths > 0 ==> total == BookPeriodDepreciation(assets, remainingMonths).1
    ensures remainingMonths <= 0 ==> total == 0.0
  {
    total := 0.0;
    if remainingMonths > 0 {
      var months: nat := remainingMonths;
      var active := Filter(assets, Unsold);
      var i := 0;
      while i < |active|
        invariant 0 <= i <= |active|
        invariant total == Sum(active[..i], ChargeFor(months))
      {
        var a := active[i];
        assert active[..i + 1] == active[..i] + [a];
        SumAppend(active[..i], a, ChargeFor(months));
        var charge := ProjectedCharge(a, months);
        total := total + charge;
        i := i + 1;
      }
      assert active[..|active|] == active;
      forall k | 0 <= k < |assets|
        ensures ChargeFor(months)(assets[k]) == if Unsold(assets[k]) then ChargeFor(months)(assets[k]) else 0.0
      {
        if !Unsold(assets[k]) {
          assert !Depreciable(assets[k]);
        }
      }
      SumFilter(assets, Unsold, ChargeFor(months), ChargeFor(months));
    }
  }

  /** Tax is charged only on profit beyond the carried losses, at the tax rate
      to the cent; with no such profit there is no tax and nothing left after
      tax. */
  lemma TaxRules(netProfit: real, acc: real, rate: real)
    ensures var base := AfterLosses(netProfit, acc);
            var tax := TaxOn(base, rate);
            && (tax != 0.0 ==> netProfit > acc)
            && (netProfit <= acc ==> base == 0.0 && tax == 0.0 && base - tax == 0.0)
            && (netProfit > acc ==>
                  base == netProfit - acc
                  && (netProfit - acc) * rate - 0.005 < tax <= (netProfit - acc) * rate + 0.005
                  && base - tax >= base * (1.0 - rate) - 0.005)
  {
  }

  /** The suggested dividend is the investors' share of the after-tax profit,
      to the cent, and 0 when nothing is left after tax. */
  lemma SuggestedDividendShare(afterTax: real, st: Settings)
    ensures var d := SuggestedDividend(afterTax, InvestorRatio(st));
            && (afterTax > 0.0 ==>
                  afterTax * InvestorRatio(st) - 0.005 < d <= afterTax * InvestorRatio(st) + 0.005)
            && (afterTax <= 0.0 ==> d == 0.0)
            && (TotalShares(st) > 0.0 ==> InvestorRatio(st) * TotalShares(st) == InvestorShares(st))
            && (TotalShares(st) <= 0.0 ==> d == 0.0)
  {
    assert JsRound(0.0) == 0.0;
  }

  /** What the preview promises about tax and dividend. Tax appears only on
      profit beyond the carried losses and is the rate's share of that excess
      to the cent; the suggested dividend is the investors' share of what is
      left after tax, to the cent, and 0 when nothing is left. */
  lemma PreviewFigures(s: State)
    ensures var f := Preview(s);
            var acc := AccumulatedLosses(s.settings);
            var rate := TaxRatePercent(s.settings) / 100.0;
            var ratio := InvestorRatio(s.settings);
            && (f.tax != 0.0 ==> f.netProfit > acc)
            && (f.netProfit <= acc ==> f.tax == 0.0 && f.afterTax == 0.0 && f.suggestedDividend == 0.0)
            && (f.netProfit > acc ==>
                  && (f.netProfit - acc) * rate - 0.005 < f.tax <= (f.netProfit - acc) * rate + 0.005
                  && f.afterTax == f.netProfit - acc - f.tax)
            && (f.afterTax > 0.0 ==> f.afterTax * ratio - 0.005 < f.suggestedDividend <= f.afterTax * ratio + 0.005)
            && (f.afterTax <= 0.0 ==> f.suggestedDividend == 0.0)
  {
    var f := Preview(s);
    var acc := AccumulatedLosses(s.settings);
    var rate := TaxRatePercent(s.settings) / 100.0;
    assert f.afterLosses == AfterLosses(f.netProfit, acc) && f.tax == TaxOn(f.afterLosses, rate);
    assert f.afterTax == f.afterLosses - f.tax;
    assert f.suggestedDividend == SuggestedDividend(f.afterTax, InvestorRatio(s.settings));
    TaxChain(f.netProfit, acc, rate, s.settings);
  }

  /** The preview's net profit is the year's booked net profit less the
      projection, and the projection is what booking the months not yet closed
      would charge. */
  lemma PreviewProfit(s: State)
    ensures var f := Preview(s);
            && (CurrentFiscalYear(s).Some? ==>
                  f.netProfit == NetProfit(s, CurrentFiscalYear(s).value.id) - f.projectedDepreciation)
            && (f.remainingMonths > 0 ==>
                  f.projectedDepreciation == BookPeriodDepreciation(s.assets, f.remainingMonths).1)
            && (f.remainingMonths <= 0 ==> f.projectedDepreciation == 0.0)
  {
  }

  /** The tax and dividend rules composed, on plain figures. */
  lemma TaxChain(netProfit: real, acc: real, rate: real, st: Settings)
    ensures var base := AfterLosses(netProfit, acc);
            var tax := TaxOn(base, rate);
            var d := SuggestedDividend(base - tax, InvestorRatio(st));
            && (tax != 0.0 ==> netProfit > acc)
            && (netProfit <= acc ==> tax == 0.0 && base - tax == 0.0 && d == 0.0)
            && (netProfit > acc ==>
                  && (netProfit - acc) * rate - 0.005 < tax <= (netProfit - acc) * rate + 0.005
                  && base - tax == netProfit - acc - tax)
            && (base - tax > 0.0 ==>
                  (base - tax) * InvestorRatio(st) - 0.005 < d <= (base - tax) * InvestorRatio(st) + 0.005)
            && (base - tax <= 0.0 ==> d == 0.0)
  {
    var base := AfterLosses(netProfit, acc);
    TaxRules(netProfit, acc, rate);
    SuggestedDividendShare(base - TaxOn(base, rate), st);
  }

  // --- Loss carry-forward ---

  /** The update of `accumulated_losses`, branch for branch. */
  function CarriedLosses(acc: real, netProfit: real): real {
    if netProfit < 0.0 then acc + Abs(netProfit)
    else if netProfit <= acc then acc - netProfit
    else 0.0
  }

  /** With non-negative carried losses the update is `max(acc - profit, 0)`: a
      loss adds to them, a profit absorbs them first, and what the profit does
      not absorb is exactly the taxable base. */
  lemma LossCarryForward(acc: real, netProfit: real)
    requires acc >= 0.0
    ensures CarriedLosses(acc, netProfit) == Max(acc - netProfit, 0.0)
    ensures CarriedLosses(acc, netProfit) >= 0.0
    ensures Max(netProfit - acc, 0.0) - CarriedLosses(acc, netProfit) == netProfit - acc
  {
  }

  /** A negative carried balance (a malformed setting) is not floored: a loss
      year gives `acc - loss`, below zero whenever the loss is smaller than the
      balance, and any profit at all clears it to 0. */
  lemma NegativeLossesKept(acc: real, netProfit: real)
    requires acc < 0.0
    ensures netProfit < 0.0 ==> CarriedLosses(acc, netProfit) == acc - netProfit
    ensures netProfit < 0.0 && acc < netProfit ==> CarriedLosses(acc, netProfit) < 0.0
    ensures netProfit >= 0.0 ==> CarriedLosses(acc, netProfit) == 0.0
    ensures CarriedLosses(acc, netProfit) != Max(acc - netProfit, 0.0) <==> acc < netProfit < 0.0
  {
  }

  // --- Finalisation, step by step ---

  /** The month the year-end entries go into: the current one, or one opened for them. */
  function EnsurePeriod(s: State, fy: FiscalYear, today: string): (State, int) {
    match CurrentPeriod(s)
    case Some(p) => (s, p.id)
    case None =>
      (InsertPeriod(s, fy.id, MonthName(StartMonth(s.settings), |PeriodsOf(s.periods, fy.id)|), today),
       NextId(s.periods, PeriodId))
  }

  /** The corporate tax expense, when there is tax to pay. */
  function RecordTax(s: State, periodId: int, tax: real, fy: FiscalYear, today: string): State {
    if tax > 0.0 then
      InsertTransaction(s, periodId, today, "Corporate Tax", tax, Expense,
                        FindCategory(s.categories, "Corporate Tax", Some(Expense)),
                        Some("Year-end tax: " + fy.name))
    else s
  }

  /** `Math.max(parseFloat(input) || 0, 0)`; None is input that does not parse. */
  function DividendOf(input: Option<real>): real { Max(input.GetOr(0.0), 0.0) }

  /** The per-share amount; None where the share count is 0 (a division by zero). */
  function PerShare(amount: real, shares: real): Option<real> {
    if shares == 0.0 then None else Some(amount / shares)
  }

  /** The mandatory dividend, when the amount is positive. */
  function RecordDividend(s: State, fy: FiscalYear, amount: real, shares: real, today: string): State {
    if amount > 0.0 then InsertDividend(s, Some(fy.id), amount, PerShare(amount, shares), Mandatory, today)
    else s
  }

  /** The year's remaining months booked into its open month `activeId`:
      depreciation, the lease installments of those months, a snapshot, and
      the close of that month with the depreciation booked. */
  function CloseActive(s: State, activeId: int, remaining: int, today: string): State {
    var booking := if remaining > 0 then BookPeriodDepreciation(s.assets, remaining) else (s.assets, 0.0);
    var s1 := s.(assets := booking.0);
    var s2 := if remaining > 0 then ProcessLeasePayments(s1, activeId, today, remaining) else s1;
    var s3 := TakeSnapshot(s2, activeId, today);
    s3.(periods := ClosePeriodRows(s3.periods, activeId, today, booking.1))
  }

  /** Book every month the year has not closed into its first open month, run
      the lease installments for those months, snapshot and close that month;
      without an open month only the depreciation is booked. */
  function CloseYearMonths(s: State, fyId: int, today: string): State {
    var remaining := RemainingMonths(PeriodsOf(s.periods, fyId));
    match EarliestWhere(PeriodsOf(s.periods, fyId), PeriodOpen, PeriodId)
    case Some(active) => CloseActive(s, active.id, remaining, today)
    case None =>
      if remaining > 0 then s.(assets := BookPeriodDepreciation(s.assets, remaining).0) else s
  }

  /** Close the year and open "Year n" with the cash then held, and its first month. */
  function RollOver(s: State, fy: FiscalYear, yearNumber: nat, startMonth: int, today: string): State {
    var s1 := s.(fiscalYears := CloseFiscalYearRows(s.fiscalYears, fy.id, today));
    var newId := NextId(s1.fiscalYears, FiscalYearId);
    var s2 := InsertFiscalYear(s1, "Year " + DecimalString(yearNumber), today, CashBalance(s1));
    InsertPeriod(s2, newId, MonthName(startMonth, 0), today)
  }

  /** The entries made before the year's months are closed: the month the
      entries go into, the carried losses, the tax expense and the dividend. */
  function BeforeClosing(s: State, fy: FiscalYear, dividendInput: Option<real>, today: string): State {
    var f := Preview(s);
    var ep := EnsurePeriod(s, fy, today);
    var s2 := ep.0.(settings := ep.0.settings.(accumulatedLosses :=
                Some(CarriedLosses(f.accumulatedLosses, f.netProfit))));
    RecordDividend(RecordTax(s2, ep.1, f.tax, fy, today), fy, DividendOf(dividendInput),
                   TotalShares(s.settings), today)
  }

  /** `finalizeYearEnd`, with the preview figures of the store it starts from. */
  function FinalizeYearEnd(s: State, dividendInput: Option<real>, today: string): (o: Outcome)
    ensures o.Rejected? <==> CurrentFiscalYear(s).None?
    ensures o.Rejected? ==> o.reason == NoOpenYear
  {
    match CurrentFiscalYear(s)
    case None => Rejected(NoOpenYear)
    case Some(fy) =>
      var s1 := CloseYearMonths(BeforeClosing(s, fy, dividendInput, today), fy.id, today);
      Applied(RollOver(s1, fy, |s.fiscalYears| + 1, StartMonth(s.settings), today))
  }

  // --- What the finalisation keeps and records ---

  /** The month chosen for the year-end entries is the one open month, in the
      closing year; opening it (when none was open) changes nothing else and
      does not change the count of closed months. */
  lemma EnsurePeriodFacts(s: State, fy: FiscalYear, today: string)
    requires Lifecycle(s) && CurrentFiscalYear(s) == Some(fy)
    ensures var r := EnsurePeriod(s, fy, today);
            && r.0.(periods := s.periods) == s
            && UniquePeriodIds(r.0.periods) && AtMostOneOpenPeriod(r.0.periods)
            && CurrentPeriod(r.0).Some? && CurrentPeriod(r.0).value.id == r.1
            && (forall i :: 0 <= i < |r.0.periods| && PeriodOpen(r.0.periods[i]) ==>
                  r.0.periods[i].fiscalYearId == fy.id && r.0.periods[i].depreciationBooked == 0.0)
  {
    var r := EnsurePeriod(s, fy, today);
    if CurrentPeriod(s).None? {
      var p := Period(NextId(s.periods, PeriodId), fy.id,
                      MonthName(StartMonth(s.settings), |PeriodsOf(s.periods, fy.id)|), today, None, 0.0);
      assert r.0.periods == s.periods + [p];
      AppendFreshPeriod(s.periods, p);
    }
  }

  /** Opening a month for the entries does not change how many of the year's
      months remain: the month opened is not closed. */
  lemma {:induction false} EnsurePeriodKeepsRemaining(s: State, fy: FiscalYear, today: string)
    requires CurrentFiscalYear(s) == Some(fy)
    ensures RemainingMonths(PeriodsOf(EnsurePeriod(s, fy, today).0.periods, fy.id))
            == RemainingMonths(PeriodsOf(s.periods, fy.id))
  {
    if CurrentPeriod(s).None? {
      var p := Period(NextId(s.periods, PeriodId), fy.id,
                      MonthName(StartMonth(s.settings), |PeriodsOf(s.periods, fy.id)|), today, None, 0.0);
      var ps := s.periods + [p];
      assert EnsurePeriod(s, fy, today).0.periods == ps;
      assert ps[..|s.periods|] == s.periods;
      var before := PeriodsOf(s.periods, fy.id);
      var after := PeriodsOf(ps, fy.id);
      assert after == before + [p];
      assert (before + [p])[..|before|] == before;
      assert Filter(after, PeriodClosed) == Filter(before, PeriodClosed);
    }
  }

  /** The preview's projection is the charge for the months the current year has left. */
  lemma PreviewProjection(s: State)
    requires CurrentFiscalYear(s).Some?
    ensures Preview(s).projectedDepreciation
            == RemainingCharge(s.assets, RemainingMonths(PeriodsOf(s.periods, CurrentFiscalYear(s).value.id)))
  {
  }

  /** The entries before closing touch neither the assets nor, past opening the entry month, the periods. */
  lemma BeforeClosingKeepsAssets(s: State, fy: FiscalYear, dividendInput: Option<real>, today: string)
    ensures BeforeClosing(s, fy, dividendInput, today).assets == s.assets
    ensures BeforeClosing(s, fy, dividendInput, today).periods == EnsurePeriod(s, fy, today).0.periods
  {
  }

  /** The entry month closed at year end is booked exactly the depreciation the
      preview projected for the months the year had left. */
  lemma FinalizeBooksProjection(s: State, dividendInput: Option<real>, today: string)
    requires Lifecycle(s) && CurrentFiscalYear(s).Some?
    ensures var fy := CurrentFiscalYear(s).value;
            var b := BeforeClosing(s, fy, dividendInput, today);
            var c := CloseYearMonths(b, fy.id, today);
            && |c.periods| == |b.periods|
            && (exists k :: 0 <= k < |b.periods| && b.periods[k].id == EntryPeriod(s) && PeriodOpen(b.periods[k]))
            && (forall k :: 0 <= k < |b.periods| && b.periods[k].id == EntryPeriod(s) ==>
                  c.periods[k].closedAt == Some(today)
                  && c.periods[k].depreciationBooked == Preview(s).projectedDepreciation)
  {
    var fy := CurrentFiscalYear(s).value;
    var b := BeforeClosing(s, fy, dividendInput, today);
    BeforeClosingKeepsAssets(s, fy, dividendInput, today);
    EnsurePeriodFacts(s, fy, today);
    EnsurePeriodKeepsRemaining(s, fy, today);
    PreviewProjection(s);
    var k := EntryRow(b.periods, fy.id, EntryPeriod(s));
    CloseActiveMonth(b, fy.id, today, k);
  }

  /** The preview's booked figure is the current year's `sumDepreciation`. */
  lemma PreviewBooked(s: State)
    requires CurrentFiscalYear(s).Some?
    ensures Preview(s).bookedDepreciation == SumDepreciation(s, Some(CurrentFiscalYear(s).value.id), None)
  {
  }

  /** A month with nothing booked adds nothing to any depreciation total. */
  lemma AppendUnbooked(periods: seq<Period>, p: Period, sc: Scope)
    requires p.depreciationBooked == 0.0
    ensures Sum(periods + [p], ScopedBooked(sc)) == Sum(periods, ScopedBooked(sc))
  {
    SumAppend(periods, p, ScopedBooked(sc));
  }

  /** Opening a month for the entries leaves every depreciation total as it was. */
  lemma EnsurePeriodKeepsBooked(s: State, fy: FiscalYear, today: string, sc: Scope)
    ensures Sum(EnsurePeriod(s, fy, today).0.periods, ScopedBooked(sc)) == Sum(s.periods, ScopedBooked(sc))
  {
    if CurrentPeriod(s).None? {
      var p := Period(NextId(s.periods, PeriodId), fy.id,
                      MonthName(StartMonth(s.settings), |PeriodsOf(s.periods, fy.id)|), today, None, 0.0);
      assert EnsurePeriod(s, fy, today).0.periods == s.periods + [p];
      AppendUnbooked(s.periods, p, sc);
    }
  }

  /** Closing the year's months adds exactly the projection to the year's
      recorded depreciation. */
  lemma ClosingBooksProjection(s: State, fy: FiscalYear, dividendInput: Option<real>, today: string, sc: Scope)
    requires Lifecycle(s) && CurrentFiscalYear(s) == Some(fy)
    requires sc == DepreciationScope(Some(fy.id), None)
    ensures Sum(CloseYearMonths(BeforeClosing(s, fy, dividendInput, today), fy.id, today).periods, ScopedBooked(sc))
            == Sum(s.periods, ScopedBooked(sc)) + Preview(s).projectedDepreciation
  {
    var b := BeforeClosing(s, fy, dividendInput, today);
    BeforeClosingKeepsAssets(s, fy, dividendInput, today);
    EnsurePeriodFacts(s, fy, today);
    EnsurePeriodKeepsRemaining(s, fy, today);
    EnsurePeriodKeepsBooked(s, fy, today, sc);
    PreviewProjection(s);
    var k := EntryRow(b.periods, fy.id, EntryPeriod(s));
    ClosingAddsCharge(b, fy.id, today, k, sc);
  }

  /** Closing the year's first open month, which has nothing booked yet, adds
      the remaining charge to the year's recorded depreciation. */
  lemma ClosingAddsCharge(s: State, fyId: int, today: string, k: nat, sc: Scope)
    requires UniquePeriodIds(s.periods) && k < |s.periods|
    requires EarliestWhere(PeriodsOf(s.periods, fyId), PeriodOpen, PeriodId) == Some(s.periods[k])
    requires s.periods[k].fiscalYearId == fyId && s.periods[k].depreciationBooked == 0.0
    requires sc == DepreciationScope(Some(fyId), None)
    ensures Sum(CloseYearMonths(s, fyId, today).periods, ScopedBooked(sc))
            == Sum(s.periods, ScopedBooked(sc)) + RemainingCharge(s.assets, RemainingMonths(PeriodsOf(s.periods, fyId)))
  {
    CloseActiveMonth(s, fyId, today, k);
    var dep := RemainingCharge(s.assets, RemainingMonths(PeriodsOf(s.periods, fyId)));
    SumUpdate(s.periods, k, s.periods[k].(closedAt := Some(today), depreciationBooked := dep), ScopedBooked(sc));
  }

  /** The roll-over's new month has nothing booked. */
  lemma RollOverKeepsBooked(s: State, fy: FiscalYear, n: nat, startMonth: int, today: string, sc: Scope)
    ensures Sum(RollOver(s, fy, n, startMonth, today).periods, ScopedBooked(sc)) == Sum(s.periods, ScopedBooked(sc))
  {
    var closed := CloseFiscalYearRows(s.fiscalYears, fy.id, today);
    AppendUnbooked(s.periods, Period(NextId(s.periods, PeriodId), NextId(closed, FiscalYearId),
                                     MonthName(startMonth, 0), today, None, 0.0), sc);
  }

  /** After year-end closing the closed year's recorded depreciation is the
      preview's figure: what was booked plus what was projected. */
  lemma FinalizeRecordsYearDepreciation(s: State, dividendInput: Option<real>, today: string)
    requires Lifecycle(s) && CurrentFiscalYear(s).Some?
    ensures var fy := CurrentFiscalYear(s).value;
            SumDepreciation(FinalizeYearEnd(s, dividendInput, today).state, Some(fy.id), None)
            == Preview(s).bookedDepreciation + Preview(s).projectedDepreciation
  {
    var fy := CurrentFiscalYear(s).value;
    var sc := DepreciationScope(Some(fy.id), None);
    var c := CloseYearMonths(BeforeClosing(s, fy, dividendInput, today), fy.id, today);
    ClosingBooksProjection(s, fy, dividendInput, today, sc);
    RollOverKeepsBooked(c, fy, |s.fiscalYears| + 1, StartMonth(s.settings), today, sc);
    FinalizeStages(s, dividendInput, today);
    PreviewBooked(s);
  }

  /** The one open month, in year `fyId`, is the first open month of that year. */
  lemma EntryRow(periods: seq<Period>, fyId: int, id: int) returns (k: nat)
    requires UniquePeriodIds(periods) && AtMostOneOpenPeriod(periods)
    requires LatestWhere(periods, PeriodOpen, PeriodId).Some?
    requires LatestWhere(periods, PeriodOpen, PeriodId).value.id == id
    requires forall i :: 0 <= i < |periods| && PeriodOpen(periods[i]) ==> periods[i].fiscalYearId == fyId
    ensures k < |periods| && periods[k].id == id && PeriodOpen(periods[k])
    ensures EarliestWhere(PeriodsOf(periods, fyId), PeriodOpen, PeriodId) == Some(periods[k])
  {
    var cur := LatestWhere(periods, PeriodOpen, PeriodId).value;
    k :| 0 <= k < |periods| && periods[k] == cur;
    OpenMonthsListed(periods, fyId);
    var ys := PeriodsOf(periods, fyId);
    assert periods[k] in ys;
    var first := EarliestWhere(ys, PeriodOpen, PeriodId);
    var j :| 0 <= j < |ys| && ys[j] == periods[k];
    assert first.Some?;
    var m :| 0 <= m < |periods| && periods[m] == first.value;
  }

  /** Every open month of the year is among the year's months. */
  lemma OpenMonthsListed(periods: seq<Period>, fyId: int)
    requires forall i :: 0 <= i < |periods| && PeriodOpen(periods[i]) ==> periods[i].fiscalYearId == fyId
    ensures forall i :: 0 <= i < |periods| && PeriodOpen(periods[i]) ==> periods[i] in PeriodsOf(periods, fyId)
  {
    forall i | 0 <= i < |periods| && PeriodOpen(periods[i]) ensures periods[i] in PeriodsOf(periods, fyId) {
      if fyId != 0 {
        assert InYear(fyId)(periods[i]);
      }
    }
  }

  /** What closing the year's months keeps: everything but the assets, leases,
      transactions, snapshots and periods; the period ids and years; and the
      transactions already there. */
  predicate ClosingFrame(s: State, s': State) {
    && s'.fiscalYears == s.fiscalYears && s'.settings == s.settings
    && s'.dividends == s.dividends && s'.categories == s.categories
    && |s'.periods| == |s.periods|
    && (forall i :: 0 <= i < |s.periods| ==>
          s'.periods[i].id == s.periods[i].id && s'.periods[i].fiscalYearId == s.periods[i].fiscalYearId)
    && |s.transactions| <= |s'.transactions|
    && s'.transactions[..|s.transactions|] == s.transactions
  }

  /** The depreciation the closing books for `remaining` months. */
  function RemainingCharge(assets: seq<Asset>, remaining: int): real {
    if remaining > 0 then Sum(assets, ChargeFor(remaining)) else 0.0
  }

  /** Closing into the open month changes, among the period rows, only that
      month's, which it closes with the remaining depreciation. */
  lemma CloseActiveFacts(s: State, activeId: int, remaining: int, today: string)
    ensures var s' := CloseActive(s, activeId, remaining, today);
            && s'.periods == ClosePeriodRows(s.periods, activeId, today, RemainingCharge(s.assets, remaining))
            && s'.fiscalYears == s.fiscalYears && s'.settings == s.settings
            && s'.dividends == s.dividends && s'.categories == s.categories
            && |s.transactions| <= |s'.transactions|
            && s'.transactions[..|s.transactions|] == s.transactions
  {
    var booking := if remaining > 0 then BookPeriodDepreciation(s.assets, remaining) else (s.assets, 0.0);
    var s1 := s.(assets := booking.0);
    var s2 := if remaining > 0 then ProcessLeasePayments(s1, activeId, today, remaining) else s1;
    if remaining > 0 {
      LeaseRunAppends(s1, activeId, today, remaining);
    }
    assert s2.periods == s.periods && s2.fiscalYears == s.fiscalYears && s2.settings == s.settings;
    assert s2.dividends == s.dividends && s2.categories == s.categories;
    assert s2.transactions[..|s.transactions|] == s.transactions;
  }

  /** With an open month in the year, that month (row `k`) alone is closed. */
  lemma CloseActiveMonth(s: State, fyId: int, today: string, k: nat)
    requires UniquePeriodIds(s.periods) && k < |s.periods|
    requires EarliestWhere(PeriodsOf(s.periods, fyId), PeriodOpen, PeriodId) == Some(s.periods[k])
    ensures var s' := CloseYearMonths(s, fyId, today);
            var dep := RemainingCharge(s.assets, RemainingMonths(PeriodsOf(s.periods, fyId)));
            && ClosingFrame(s, s')
            && s'.periods == s.periods[k := s.periods[k].(closedAt := Some(today), depreciationBooked := dep)]
  {
    var remaining := RemainingMonths(PeriodsOf(s.periods, fyId));
    CloseActiveFacts(s, s.periods[k].id, remaining, today);
    ClosePeriodOne(s.periods, k, today, RemainingCharge(s.assets, remaining));
  }

  /** Closing the year's months leaves no month open when every open month
      belongs to the year. */
  lemma CloseYearMonthsFacts(s: State, fyId: int, today: string)
    requires UniquePeriodIds(s.periods) && AtMostOneOpenPeriod(s.periods)
    requires forall i :: 0 <= i < |s.periods| && PeriodOpen(s.periods[i]) ==> s.periods[i].fiscalYearId == fyId
    ensures var s' := CloseYearMonths(s, fyId, today);
            && ClosingFrame(s, s')
            && (forall i :: 0 <= i < |s'.periods| ==> !PeriodOpen(s'.periods[i]))
            && UniquePeriodIds(s'.periods)
  {
    var ps := PeriodsOf(s.periods, fyId);
    var s' := CloseYearMonths(s, fyId, today);
    OpenMonthsListed(s.periods, fyId);
    match EarliestWhere(ps, PeriodOpen, PeriodId)
    case None =>
      forall i | 0 <= i < |s'.periods| ensures !PeriodOpen(s'.periods[i]) {
        assert s.periods[i] in ps ==> !PeriodOpen(s.periods[i]);
      }
    case Some(active) =>
      assert active in s.periods;
      var k :| 0 <= k < |s.periods| && s.periods[k] == active;
      CloseActiveMonth(s, fyId, today, k);
      assert PeriodOpen(s.periods[k]);
      forall i | 0 <= i < |s'.periods| ensures !PeriodOpen(s'.periods[i]) {
        if i != k {
          assert s'.periods[i] == s.periods[i];
        }
      }
      assert UniquePeriodIds(s'.periods) by {
        forall i, j | 0 <= i < j < |s'.periods| ensures s'.periods[i].id != s'.periods[j].id {
          assert s'.periods[i].id == s.periods[i].id && s'.periods[j].id == s.periods[j].id;
        }
      }
  }

  /** Fresh ids depend only on the ids present. */
  lemma {:induction false} NextYearIdOfSameIds(years: seq<FiscalYear>, r: seq<FiscalYear>)
    requires |r| == |years| && forall i :: 0 <= i < |r| ==> r[i].id == years[i].id
    ensures NextId(r, FiscalYearId) == NextId(years, FiscalYearId)
    decreases |r|
  {
    if |r| > 0 {
      NextYearIdOfSameIds(years[..|r| - 1], r[..|r| - 1]);
    }
  }

  /** Closing the one open year's rows leaves no year open. */
  lemma CloseOpenYear(years: seq<FiscalYear>, fy: FiscalYear, today: string)
    requires AtMostOneOpenYear(years) && OpenYear(years) == Some(fy)
    ensures var r := CloseFiscalYearRows(years, fy.id, today);
            forall i :: 0 <= i < |r| ==> !FiscalYearOpen(r[i])
  {
    var k :| 0 <= k < |years| && years[k] == fy;
  }

  /** A fresh open year appended to closed ones is the only open year and the current one. */
  lemma AppendFreshYear(years: seq<FiscalYear>, y: FiscalYear)
    requires UniqueYearIds(years) && forall i :: 0 <= i < |years| ==> !FiscalYearOpen(years[i])
    requires y.id == NextId(years, FiscalYearId) && FiscalYearOpen(y)
    ensures UniqueYearIds(years + [y]) && AtMostOneOpenYear(years + [y])
    ensures OpenYear(years + [y]) == Some(y)
  {
    LatestIsFresh(years, y, FiscalYearOpen, FiscalYearId);
    AppendAboveClosedYears(years, y);
  }

  /** A year above every id, added to closed years, keeps the ids unique and is the one open year. */
  lemma AppendAboveClosedYears(years: seq<FiscalYear>, y: FiscalYear)
    requires UniqueYearIds(years) && forall i :: 0 <= i < |years| ==> !FiscalYearOpen(years[i])
    requires forall i :: 0 <= i < |years| ==> years[i].id < y.id
    ensures UniqueYearIds(years + [y]) && AtMostOneOpenYear(years + [y])
  {
    var ys := years + [y];
    assert forall i :: 0 <= i < |years| ==> ys[i] == years[i];
    assert ys[|years|] == y;
  }

  /** A fresh open month appended to closed ones is the only open month and the current one. */
  lemma AppendFreshPeriod(periods: seq<Period>, p: Period)
    requires UniquePeriodIds(periods) && forall i :: 0 <= i < |periods| ==> !PeriodOpen(periods[i])
    requires p.id == NextId(periods, PeriodId) && PeriodOpen(p)
    ensures UniquePeriodIds(periods + [p]) && AtMostOneOpenPeriod(periods + [p])
    ensures LatestWhere(periods + [p], PeriodOpen, PeriodId) == Some(p)
  {
    LatestIsFresh(periods, p, PeriodOpen, PeriodId);
    AppendAboveClosed(periods, p);
  }

  /** A row above every id, added to closed months, keeps the ids unique and is the one open month. */
  lemma AppendAboveClosed(periods: seq<Period>, p: Period)
    requires UniquePeriodIds(periods) && forall i :: 0 <= i < |periods| ==> !PeriodOpen(periods[i])
    requires forall i :: 0 <= i < |periods| ==> periods[i].id < p.id
    ensures UniquePeriodIds(periods + [p]) && AtMostOneOpenPeriod(periods + [p])
  {
    var ps := periods + [p];
    assert forall i :: 0 <= i < |periods| ==> ps[i] == periods[i];
    assert ps[|periods|] == p;
  }

  /** Every row of the rolled-over year ends up closed. */
  lemma RollOverClosesYear(s: State, fy: FiscalYear, n: nat, startMonth: int, today: string)
    requires ReadyToRollOver(s, fy)
    ensures var s' := RollOver(s, fy, n, startMonth, today);
            forall i :: 0 <= i < |s'.fiscalYears| && s'.fiscalYears[i].id == fy.id ==>
              s'.fiscalYears[i].closedAt == Some(today)
  {
    var closed := CloseFiscalYearRows(s.fiscalYears, fy.id, today);
    NextYearIdOfSameIds(s.fiscalYears, closed);
    var s' := RollOver(s, fy, n, startMonth, today);
    assert s'.fiscalYears[..|closed|] == closed;
    assert s'.fiscalYears[|closed|].id == NextId(s.fiscalYears, FiscalYearId);
  }

  /** What the roll-over needs: `fy` is the one open year and every month is closed. */
  predicate ReadyToRollOver(s: State, fy: FiscalYear) {
    && UniqueYearIds(s.fiscalYears) && AtMostOneOpenYear(s.fiscalYears)
    && OpenYear(s.fiscalYears) == Some(fy) && fy in s.fiscalYears
    && UniquePeriodIds(s.periods) && forall i :: 0 <= i < |s.periods| ==> !PeriodOpen(s.periods[i])
  }

  /** Rolling over closes the year, leaves no other year open, and makes the
      new year and its first month the current ones; cash and valuation are
      untouched. */
  lemma RollOverFacts(s: State, fy: FiscalYear, n: nat, startMonth: int, today: string)
    requires ReadyToRollOver(s, fy)
    ensures var s' := RollOver(s, fy, n, startMonth, today);
            var newYear := FiscalYear(NextId(s.fiscalYears, FiscalYearId), "Year " + DecimalString(n),
                                      today, None, CashBalance(s));
            && Lifecycle(s')
            && CurrentFiscalYear(s') == Some(newYear)
            && CurrentPeriod(s') == Some(Period(NextId(s.periods, PeriodId), newYear.id,
                                                MonthName(startMonth, 0), today, None, 0.0))
            && (forall i :: 0 <= i < |s.fiscalYears| && s.fiscalYears[i].id == fy.id ==>
                  s'.fiscalYears[i] == s.fiscalYears[i].(closedAt := Some(today)))
            && s'.(fiscalYears := s.fiscalYears, periods := s.periods) == s
            && CashBalance(s') == CashBalance(s) && Valuation(s') == Valuation(s)
  {
    var closed := CloseFiscalYearRows(s.fiscalYears, fy.id, today);
    NextYearIdOfSameIds(s.fiscalYears, closed);
    var newYear := FiscalYear(NextId(s.fiscalYears, FiscalYearId), "Year " + DecimalString(n),
                              today, None, CashBalance(s));
    var p := Period(NextId(s.periods, PeriodId), newYear.id, MonthName(startMonth, 0), today, None, 0.0);
    FiguresIgnorePeriods(s, closed, s.periods, s.snapshots);
    FiguresIgnorePeriods(s, closed + [newYear], s.periods + [p], s.snapshots);
    CloseOpenYear(s.fiscalYears, fy, today);
    AppendFreshYear(closed, newYear);
    AppendFreshPeriod(s.periods, p);
    var s' := RollOver(s, fy, n, startMonth, today);
    assert s' == s.(fiscalYears := closed + [newYear], periods := s.periods + [p]);
  }

  /** The month the year-end entries go into. */
  function EntryPeriod(s: State): int {
    if CurrentPeriod(s).Some? then CurrentPeriod(s).value.id else NextId(s.periods, PeriodId)
  }

  /** The entries made before closing: the carried losses, the tax row exactly
      when tax is due, the dividend row exactly when the amount is positive, and
      a month open for them in the closing year. */
  lemma BeforeClosingFacts(s: State, fy: FiscalYear, dividendInput: Option<real>, today: string)
    requires Lifecycle(s) && CurrentFiscalYear(s) == Some(fy)
    ensures var b := BeforeClosing(s, fy, dividendInput, today);
            var f := Preview(s);
            var amount := DividendOf(dividendInput);
            && b.fiscalYears == s.fiscalYears && b.categories == s.categories
            && b.settings == s.settings.(accumulatedLosses := Some(CarriedLosses(f.accumulatedLosses, f.netProfit)))
            && UniquePeriodIds(b.periods) && AtMostOneOpenPeriod(b.periods)
            && (forall i :: 0 <= i < |b.periods| && PeriodOpen(b.periods[i]) ==>
                  b.periods[i].fiscalYearId == fy.id && b.periods[i].depreciationBooked == 0.0)
            && b.transactions == s.transactions
                 + (if f.tax > 0.0 then [Transaction(NextId(s.transactions, TransactionId), EntryPeriod(s), today,
                      "Corporate Tax", f.tax, Expense, FindCategory(s.categories, "Corporate Tax", Some(Expense)),
                      Some("Year-end tax: " + fy.name))] else [])
            && b.dividends == s.dividends
                 + (if amount > 0.0 then [Dividend(NextId(s.dividends, DividendId), Some(fy.id), amount,
                      PerShare(amount, TotalShares(s.settings)), Mandatory, today)] else [])
  {
    EnsurePeriodFacts(s, fy, today);
  }

  /** The finalisation is the rollover of the closing of the entries made before it. */
  lemma FinalizeStages(s: State, dividendInput: Option<real>, today: string)
    requires CurrentFiscalYear(s).Some?
    ensures var fy := CurrentFiscalYear(s).value;
            FinalizeYearEnd(s, dividendInput, today)
            == Applied(RollOver(CloseYearMonths(BeforeClosing(s, fy, dividendInput, today), fy.id, today),
                                fy, |s.fiscalYears| + 1, StartMonth(s.settings), today))
  {
  }

  /** Year-end closing keeps the lifecycle invariant. */
  lemma FinalizeKeepsLifecycle(s: State, dividendInput: Option<real>, today: string)
    requires Lifecycle(s) && CurrentFiscalYear(s).Some?
    ensures Lifecycle(FinalizeYearEnd(s, dividendInput, today).state)
  {
    var fy := CurrentFiscalYear(s).value;
    FinalizeParts(s, dividendInput, today);
    var c := CloseYearMonths(BeforeClosing(s, fy, dividendInput, today), fy.id, today);
    var s' := RollOver(c, fy, |s.fiscalYears| + 1, StartMonth(s.settings), today);
    assert FinalizeYearEnd(s, dividendInput, today).state == s';
    RollOverFacts(c, fy, |s.fiscalYears| + 1, StartMonth(s.settings), today);
  }

  /** Year-end closing closes every row of the closing year. */
  lemma FinalizeClosesYear(s: State, dividendInput: Option<real>, today: string)
    requires Lifecycle(s) && CurrentFiscalYear(s).Some?
    ensures var s' := FinalizeYearEnd(s, dividendInput, today).state;
            forall i :: 0 <= i < |s'.fiscalYears| && s'.fiscalYears[i].id == CurrentFiscalYear(s).value.id ==>
              s'.fiscalYears[i].closedAt == Some(today)
  {
    var fy := CurrentFiscalYear(s).value;
    FinalizeParts(s, dividendInput, today);
    var c := CloseYearMonths(BeforeClosing(s, fy, dividendInput, today), fy.id, today);
    var s' := RollOver(c, fy, |s.fiscalYears| + 1, StartMonth(s.settings), today);
    assert FinalizeYearEnd(s, dividendInput, today).state == s';
    RollOverClosesYear(c, fy, |s.fiscalYears| + 1, StartMonth(s.settings), today);
  }

  /** After year-end closing "Year n+1" is the current year, opened with the
      cash held once the closing entries are made, and its first month, named
      after the start month, is the current month. */
  lemma FinalizeOpensNextYear(s: State, dividendInput: Option<real>, today: string)
    requires Lifecycle(s) && CurrentFiscalYear(s).Some?
    ensures var s' := FinalizeYearEnd(s, dividendInput, today).state;
            && CurrentFiscalYear(s') == Some(FiscalYear(NextId(s.fiscalYears, FiscalYearId),
                 "Year " + DecimalString(|s.fiscalYears| + 1), today, None, CashBalance(s')))
            && CurrentPeriod(s').Some?
            && CurrentPeriod(s').value.fiscalYearId == CurrentFiscalYear(s').value.id
            && CurrentPeriod(s').value.name == MonthName(StartMonth(s.settings), 0)
  {
    var fy := CurrentFiscalYear(s).value;
    FinalizeParts(s, dividendInput, today);
    var c := CloseYearMonths(BeforeClosing(s, fy, dividendInput, today), fy.id, today);
    var n := |s.fiscalYears| + 1;
    var s' := RollOver(c, fy, n, StartMonth(s.settings), today);
    assert FinalizeYearEnd(s, dividendInput, today).state == s';
    RollOverFacts(c, fy, n, StartMonth(s.settings), today);
    assert CashBalance(s') == CashBalance(c) && NextId(c.fiscalYears, FiscalYearId) == NextId(s.fiscalYears, FiscalYearId);
  }

  /** The facts of the three stages, gathered for one store. */
  lemma FinalizeParts(s: State, dividendInput: Option<real>, today: string)
    requires Lifecycle(s) && CurrentFiscalYear(s).Some?
    ensures var fy := CurrentFiscalYear(s).value;
            var c := CloseYearMonths(BeforeClosing(s, fy, dividendInput, today), fy.id, today);
            && c.fiscalYears == s.fiscalYears && c.settings.startMonth == s.settings.startMonth
            && ReadyToRollOver(c, fy)
            && FinalizeYearEnd(s, dividendInput, today)
               == Applied(RollOver(c, fy, |s.fiscalYears| + 1, StartMonth(s.settings), today))
  {
    var fy := CurrentFiscalYear(s).value;
    var b := BeforeClosing(s, fy, dividendInput, today);
    BeforeClosingFacts(s, fy, dividendInput, today);
    CloseYearMonthsFacts(b, fy.id, today);
    FinalizeStages(s, dividendInput, today);
  }

  /** The roll-over touches only the year and period tables. */
  lemma RollOverFrame(s: State, fy: FiscalYear, n: nat, startMonth: int, today: string)
    ensures RollOver(s, fy, n, startMonth, today).(fiscalYears := s.fiscalYears, periods := s.periods) == s
  {
  }

  /** Past the bookings, the finalisation keeps the settings and dividends and
      only appends transactions. */
  lemma FinalizeFrame(s: State, dividendInput: Option<real>, today: string)
    requires Lifecycle(s) && CurrentFiscalYear(s).Some?
    ensures var b := BeforeClosing(s, CurrentFiscalYear(s).value, dividendInput, today);
            var s' := FinalizeYearEnd(s, dividendInput, today).state;
            && s'.settings == b.settings && s'.dividends == b.dividends
            && |b.transactions| <= |s'.transactions| && s'.transactions[..|b.transactions|] == b.transactions
  {
    var fy := CurrentFiscalYear(s).value;
    var b := BeforeClosing(s, fy, dividendInput, today);
    BeforeClosingFacts(s, fy, dividendInput, today);
    var c := CloseYearMonths(b, fy.id, today);
    CloseYearMonthsFacts(b, fy.id, today);
    RollOverFrame(c, fy, |s.fiscalYears| + 1, StartMonth(s.settings), today);
    FinalizeStages(s, dividendInput, today);
  }

  /** The year's loss carry-forward is stored in the settings. */
  lemma FinalizeRecordsLosses(s: State, dividendInput: Option<real>, today: string)
    requires Lifecycle(s) && CurrentFiscalYear(s).Some?
    ensures var f := Preview(s);
            AccumulatedLosses(FinalizeYearEnd(s, dividendInput, today).state.settings)
            == CarriedLosses(f.accumulatedLosses, f.netProfit)
  {
    FinalizeFrame(s, dividendInput, today);
    BeforeClosingFacts(s, CurrentFiscalYear(s).value, dividendInput, today);
  }

  /** A positive dividend is recorded once as a mandatory dividend of the year. */
  lemma FinalizeRecordsDividend(s: State, dividendInput: Option<real>, today: string)
    requires Lifecycle(s) && CurrentFiscalYear(s).Some?
    ensures var amount := DividendOf(dividendInput);
            FinalizeYearEnd(s, dividendInput, today).state.dividends == s.dividends
              + (if amount > 0.0 then [Dividend(NextId(s.dividends, DividendId), Some(CurrentFiscalYear(s).value.id),
                   amount, PerShare(amount, TotalShares(s.settings)), Mandatory, today)] else [])
  {
    FinalizeFrame(s, dividendInput, today);
    BeforeClosingFacts(s, CurrentFiscalYear(s).value, dividendInput, today);
  }

  /** Existing transactions are kept, and a positive tax is the first row appended. */
  lemma FinalizeRecordsTax(s: State, dividendInput: Option<real>, today: string)
    requires Lifecycle(s) && CurrentFiscalYear(s).Some?
    ensures var s' := FinalizeYearEnd(s, dividendInput, today).state;
            var fy := CurrentFiscalYear(s).value;
            var tax := Preview(s).tax;
            && |s.transactions| <= |s'.transactions|
            && s'.transactions[..|s.transactions|] == s.transactions
            && (tax > 0.0 ==>
                  |s.transactions| < |s'.transactions|
                  && s'.transactions[|s.transactions|]
                     == Transaction(NextId(s.transactions, TransactionId), EntryPeriod(s), today,
                          "Corporate Tax", tax, Expense,
                          FindCategory(s.categories, "Corporate Tax", Some(Expense)),
                          Some("Year-end tax: " + fy.name)))
  {
    var fy := CurrentFiscalYear(s).value;
    var b := BeforeClosing(s, fy, dividendInput, today);
    var ts := FinalizeYearEnd(s, dividendInput, today).state.transactions;
    FinalizeFrame(s, dividendInput, today);
    BeforeClosingFacts(s, fy, dividendInput, today);
    assert b.transactions[..|s.transactions|] == s.transactions;
    PrefixOfPrefix(s.transactions, b.transactions, ts);
  }

}
