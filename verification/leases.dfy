/** Leasing, as src/components/Leases.tsx and the lease rows of
    src/db/queries.ts handle it: the annuity payment, lease creation with its
    asset, the interest/capital split of an installment, buy-out, return, and
    the monthly installment run. */
module Leases {
  import opened Base
  import opened Tables
  import opened Depreciation
  import opened AssetConfig
  import opened Ledger
  import opened Calculations
  import opened AssetCommands

  // --- computeMonthly ---

  /** The monthly rate of an annual percentage. */
  function MonthlyRate(rate: real): real { rate / 100.0 / 12.0 }

  /** Balance left after `n` months: each month adds interest at rate `r`, then `pay` is paid. */
  function Amortize(balance: real, r: real, pay: real, n: nat): real {
    if n == 0 then balance else Amortize(balance, r, pay, n - 1) * (1.0 + r) - pay
  }

  /** `computeMonthly(price, downPayment, finalPayment, rate, months / 12)`: the
      annuity that pays the financed amount down to the final payment. None
      where the source divides by zero, which only a rate of -1200 % or below
      can cause. */
  function ComputeMonthly(price: real, down: real, final: real, rate: real, months: int): (r: Option<real>)
    ensures months <= 0 ==> r == Some(0.0)
    ensures months > 0 && rate == 0.0 ==> r.Some? && r.value * months as real + final == price - down
    ensures months > 0 && rate > 0.0 ==> r.Some?
  {
    PowAbove1Rate(rate, months);
    if months <= 0 then Some(0.0)
    else if MonthlyRate(rate) == 0.0 then Some((price - down - final) / months as real)
    else Annuity(price - down, final, MonthlyRate(rate), Pow(1.0 + MonthlyRate(rate), months))
  }

  /** The annuity formula with growth factor `q = (1 + mr)^months`; None where it divides by zero. */
  function Annuity(financed: real, final: real, mr: real, q: real): Option<real> {
    if q == 0.0 || q == 1.0 then None
    else Some((financed - final / q) * mr / (1.0 - 1.0 / q))
  }

  lemma PowAbove1Rate(rate: real, months: int)
    ensures rate > 0.0 && months > 0 ==> Pow(1.0 + MonthlyRate(rate), months) > 1.0
  {
    if rate > 0.0 && months > 0 {
      PowAbove1(1.0 + MonthlyRate(rate), months);
    }
  }

  /** The closed form of the balance after some months: balance `a` with growth
      `q` satisfies a * r = b * q * r - pay * (q - 1). */
  predicate ClosedForm(a: real, b: real, r: real, pay: real, q: real) {
    a * r == b * q * r - pay * (q - 1.0)
  }

  /** One month of the closed form, on plain numbers: from month n-1 (balance
      `a`, growth `q`) to month n (balance `an`, growth `qn`). */
  lemma ClosedFormStep(a: real, b: real, r: real, pay: real, q: real, an: real, qn: real)
    requires ClosedForm(a, b, r, pay, q)
    requires an == a * (1.0 + r) - pay && qn == (1.0 + r) * q
    ensures ClosedForm(an, b, r, pay, qn)
  {
    assert an * r == (a * r) * (1.0 + r) - pay * r;
    assert (a * r) * (1.0 + r) == (b * q * r) * (1.0 + r) - (pay * (q - 1.0)) * (1.0 + r);
    assert (b * q * r) * (1.0 + r) == b * qn * r;
    assert (pay * (q - 1.0)) * (1.0 + r) + pay * r == pay * (qn - 1.0);
  }

  /** Closed form of the balance: A(n) * r = b * q^n * r - pay * (q^n - 1) with q = 1 + r. */
  lemma {:induction false} AmortizeClosedForm(b: real, r: real, pay: real, n: nat)
    ensures ClosedForm(Amortize(b, r, pay, n), b, r, pay, Pow(1.0 + r, n))
  {
    if n > 0 {
      var a, q := Amortize(b, r, pay, n - 1), Pow(1.0 + r, n - 1);
      AmortizeClosedForm(b, r, pay, n - 1);
      assert Amortize(b, r, pay, n) == a * (1.0 + r) - pay && Pow(1.0 + r, n) == (1.0 + r) * q;
      ClosedFormStep(a, b, r, pay, q, Amortize(b, r, pay, n), Pow(1.0 + r, n));
    } else {
      assert Pow(1.0 + r, 0) == 1.0 && Amortize(b, r, pay, 0) == b;
    }
  }

  /** Without interest the balance falls by `pay` each month. */
  lemma {:induction false} AmortizeZeroRate(b: real, pay: real, n: nat)
    ensures Amortize(b, 0.0, pay, n) == b - pay * n as real
  {
    if n > 0 {
      AmortizeZeroRate(b, pay, n - 1);
    }
  }

  /** The algebra behind the round trip, on plain numbers. */
  lemma AnnuityAlgebra(financed: real, final: real, mr: real, q: real, pay: real, a: real)
    requires mr != 0.0 && q != 0.0 && q != 1.0
    requires pay == (financed - final / q) * mr / (1.0 - 1.0 / q)
    requires ClosedForm(a, financed, mr, pay, q)
    ensures a == final
  {
    var d := 1.0 - 1.0 / q;
    assert d * q == q - 1.0;
    assert d != 0.0;
    assert pay * d == (financed - final / q) * mr;
    assert pay * (q - 1.0) == (pay * d) * q;
    assert (financed - final / q) * q == financed * q - final;
    assert pay * (q - 1.0) == (financed * q - final) * mr;
    assert a * mr == final * mr;
  }

  lemma AnnuityValue(financed: real, final: real, mr: real, q: real)
    requires Annuity(financed, final, mr, q).Some?
    ensures q != 0.0 && q != 1.0
    ensures Annuity(financed, final, mr, q).value == (financed - final / q) * mr / (1.0 - 1.0 / q)
  {
  }

  /** With a non-zero rate the annuity pays `financed` down to `final` in `months` payments. */
  lemma {:induction false} AnnuityRoundTrip(financed: real, final: real, mr: real, months: nat)
    requires mr != 0.0 && Annuity(financed, final, mr, Pow(1.0 + mr, months)).Some?
    ensures Amortize(financed, mr, Annuity(financed, final, mr, Pow(1.0 + mr, months)).value, months) == final
  {
    var q := Pow(1.0 + mr, months);
    var pay := Annuity(financed, final, mr, q).value;
    AnnuityValue(financed, final, mr, q);
    AmortizeClosedForm(financed, mr, pay, months);
    AnnuityAlgebra(financed, final, mr, q, pay, Amortize(financed, mr, pay, months));
  }

  /** The monthly rate is 0 exactly for a 0 % annual rate. */
  lemma MonthlyRateZero(rate: real)
    ensures MonthlyRate(rate) == 0.0 <==> rate == 0.0
  {
    assert MonthlyRate(rate) * 1200.0 == rate;
  }

  /** The round trip of the annuity: paying the computed installment every
      month for the whole duration leaves exactly the final payment owed. */
  lemma ComputeMonthlyAmortizes(price: real, down: real, final: real, rate: real, months: int)
    requires months > 0 && ComputeMonthly(price, down, final, rate, months).Some?
    ensures Amortize(price - down, MonthlyRate(rate), ComputeMonthly(price, down, final, rate, months).value, months)
            == final
  {
    var pay := ComputeMonthly(price, down, final, rate, months).value;
    MonthlyRateZero(rate);
    if rate == 0.0 {
      assert pay * months as real == price - down - final;
      AmortizeZeroRate(price - down, pay, months);
      assert MonthlyRate(rate) == 0.0;
    } else {
      AnnuityRoundTrip(price - down, final, MonthlyRate(rate), months);
    }
  }

  /** `computeMonthly(price, downPayment, finalPayment, rate, years)` as the
      form calls it: priced over `years * 12` months, which need not be whole.
      `fracPow(m)` is the runtime's `Math.pow(1 + monthlyRate, m)` for a
      fractional month count `m`, which the model takes as given; for a whole
      count the power is computed. */
  function MonthlyOver(price: real, down: real, final: real, rate: real, months: real,
                       fracPow: real -> real): (r: Option<real>)
    ensures months <= 0.0 ==> r == Some(0.0)
    ensures months > 0.0 && months == months.Floor as real ==>
              r == ComputeMonthly(price, down, final, rate, months.Floor)
    ensures months > 0.0 && rate == 0.0 ==> r.Some? && r.value * months + final == price - down
  {
    MonthlyRateZero(rate);
    if months <= 0.0 then Some(0.0)
    else if MonthlyRate(rate) == 0.0 then Some((price - down - final) / months)
    else
      var q := if months == months.Floor as real then Pow(1.0 + MonthlyRate(rate), months.Floor)
               else fracPow(months);
      Annuity(price - down, final, MonthlyRate(rate), q)
  }

  // --- The installment split ---

  /** `monthlyInterest`: a month of interest on the remaining balance. */
  function MonthlyInterest(balance: real, rate: real): real { balance * (rate / 100.0) / 12.0 }

  /** `getLeaseInterest`: the month's interest, rounded to a whole amount. */
  function LeaseInterest(l: Lease): (r: real)
    ensures r == r.Floor as real
    ensures MonthlyInterest(l.remainingBalance, l.interestRate) - 0.5 < r <= MonthlyInterest(l.remainingBalance, l.interestRate) + 0.5
  {
    JsRound(MonthlyInterest(l.remainingBalance, l.interestRate))
  }

  /** `getLeaseCapital`: the rest of the installment, rounded to cents. */
  function LeaseCapital(l: Lease): real {
    Round2(l.monthlyPayment - LeaseInterest(l))
  }

  /** Interest plus capital is the installment to within half a cent. */
  lemma SplitCoversInstallment(l: Lease)
    ensures l.monthlyPayment - 0.005 < LeaseInterest(l) + LeaseCapital(l) <= l.monthlyPayment + 0.005
  {
  }

  // --- Lease rows (src/db/queries.ts) ---

  predicate UniqueLeaseIds(leases: seq<Lease>) {
    forall i, j :: 0 <= i < j < |leases| ==> leases[i].id != leases[j].id
  }

  /** `UPDATE lease SET ... WHERE id = ?`: applies `f` to every row with that id. */
  function UpdateLease(leases: seq<Lease>, id: int, f: Lease -> Lease): seq<Lease> {
    UpdateById(leases, LeaseId, id, f)
  }

  /** With unique ids the update touches exactly one row. */
  lemma UpdateOneLease(leases: seq<Lease>, i: nat, f: Lease -> Lease)
    requires UniqueLeaseIds(leases) && i < |leases|
    ensures UpdateLease(leases, leases[i].id, f) == leases[i := f(leases[i])]
  {
    var r := UpdateLease(leases, leases[i].id, f);
    forall j | 0 <= j < |leases|
      ensures r[j] == leases[i := f(leases[i])][j]
    {
      if j != i {
        assert leases[j].id != leases[i].id by {
          if j < i { } else { }
        }
      }
    }
  }

  function PaidOnce(capital: real): Lease -> Lease {
    (l: Lease) => l.(paymentsMade := l.paymentsMade + 1, remainingBalance := l.remainingBalance - capital)
  }

  /** `recordLeasePayment`: one more installment made, its capital part off the balance. */
  function RecordLeasePayment(leases: seq<Lease>, id: int, capital: real): seq<Lease> {
    UpdateLease(leases, id, PaidOnce(capital))
  }

  function Bought(l: Lease): Lease { l.(status := Purchased, remainingBalance := 0.0) }
  function GivenBack(l: Lease): Lease { l.(status := Returned) }

  /** `purchaseLease`: status purchased, balance zeroed. */
  function PurchaseLease(leases: seq<Lease>, id: int): seq<Lease> { UpdateLease(leases, id, Bought) }

  /** `returnLease`: status returned; the balance column is left as it is. */
  function ReturnLease(leases: seq<Lease>, id: int): seq<Lease> { UpdateLease(leases, id, GivenBack) }

  /** The capital paid on a lease is its down payment plus every capital part
      recorded since, and each recorded payment counts once. */
  function RecordAll(l: Lease, capitals: seq<real>): Lease
    decreases |capitals|
  {
    if |capitals| == 0 then l else PaidOnce(capitals[|capitals| - 1])(RecordAll(l, capitals[..|capitals| - 1]))
  }

  function Value(x: real): real { x }

  lemma {:induction false} CapitalPaidTracksPayments(l: Lease, capitals: seq<real>)
    requires l.remainingBalance == l.totalValue - l.initialPayment
    ensures LeaseCapitalPaid(RecordAll(l, capitals)) == l.initialPayment + Sum(capitals, Value)
    ensures RecordAll(l, capitals).paymentsMade == l.paymentsMade + |capitals|
    ensures RecordAll(l, capitals).totalValue == l.totalValue
    decreases |capitals|
  {
    if |capitals| > 0 {
      CapitalPaidTracksPayments(l, capitals[..|capitals| - 1]);
    }
  }

  /** Replacing one lease row moves valuation by the change in the capital
      paid on it (cash) and in its active balance (obligations). */
  lemma LeaseRowValuation(s: State, i: nat, l: Lease)
    requires i < |s.leases|
    ensures var s' := s.(leases := s.leases[i := l]);
            && CashBalance(s') == CashBalance(s) - (LeaseCapitalPaid(l) - LeaseCapitalPaid(s.leases[i]))
            && TotalLeaseObligations(s') == TotalLeaseObligations(s) + ActiveLeaseBalance(l) - ActiveLeaseBalance(s.leases[i])
  {
    SumUpdate(s.leases, i, l, LeaseCapitalPaid);
    SumUpdate(s.leases, i, l, ActiveLeaseBalance);
  }

  // --- handleCreate ---

  /** `handleCreate`. The numeric inputs are `parseFloat(...) || 0`, so an
      unparsable field is 0. The duration is entered in years: the lease is
      priced over `years * 12` months and stores that count rounded. */
  function CreateLease(s: State, leaseType: Option<AssetType>, name: string, price: Option<real>,
                       down: Option<real>, final: Option<real>, rate: Option<real>, years: Option<real>,
                       fracPow: real -> real, date: string): (o: Outcome)
    ensures CurrentPeriod(s).None? ==> o == Rejected(NoOpenPeriod)
    ensures CurrentPeriod(s).Some? && leaseType.None? ==> o == Rejected(NoSelection)
    ensures CurrentPeriod(s).Some? && leaseType.Some? && name == "" ==> o == Rejected(MissingField)
    ensures CurrentPeriod(s).Some? && leaseType.Some? && name != "" && price.GetOr(0.0) <= 0.0 ==>
              o == Rejected(InvalidAmount)
    ensures CurrentPeriod(s).Some? && leaseType.Some? && name != "" && price.GetOr(0.0) > 0.0 && years.GetOr(0.0) <= 0.0
            ==> o == Rejected(MissingField)
    ensures o.Applied? <==> CurrentPeriod(s).Some? && leaseType.Some? && name != "" && price.GetOr(0.0) > 0.0
                            && years.GetOr(0.0) > 0.0
                            && MonthlyOver(price.GetOr(0.0), down.GetOr(0.0), final.GetOr(0.0),
                                           rate.GetOr(0.0), years.GetOr(0.0) * 12.0, fracPow).Some?
    ensures o.Applied? ==>
              var pay := MonthlyOver(price.GetOr(0.0), down.GetOr(0.0), final.GetOr(0.0), rate.GetOr(0.0),
                                     years.GetOr(0.0) * 12.0, fracPow).value;
              var id := NextId(s.leases, LeaseId);
              && o.state.leases == s.leases + [Lease(id, name, price.GetOr(0.0), down.GetOr(0.0), Round2(pay),
                                                     JsRound(years.GetOr(0.0) * 12.0).Floor, final.GetOr(0.0),
                                                     date, 0, LeaseActive, rate.GetOr(0.0),
                                                     price.GetOr(0.0) - down.GetOr(0.0))]
              && o.state.assets == s.assets + [Asset(NextId(s.assets, AssetId), name, leaseType.value,
                                                     price.GetOr(0.0), date,
                                                     DepreciationYears(s.settings, leaseType.value), 0.0,
                                                     Some(id), None, None)]
              && o.state.(leases := s.leases, assets := s.assets) == s
  {
    var p := price.GetOr(0.0);
    var dp := down.GetOr(0.0);
    var fp := final.GetOr(0.0);
    var rt := rate.GetOr(0.0);
    var dur := years.GetOr(0.0);
    if CurrentPeriod(s).None? then Rejected(NoOpenPeriod)
    else if leaseType.None? then Rejected(NoSelection)
    else if name == "" then Rejected(MissingField)
    else if p <= 0.0 then Rejected(InvalidAmount)
    else if dur <= 0.0 then Rejected(MissingField)
    else
      match MonthlyOver(p, dp, fp, rt, dur * 12.0, fracPow)
      case None => Rejected(NonFinitePayment)
      case Some(pay) =>
        var id := NextId(s.leases, LeaseId);
        var l := Lease(id, name, p, dp, Round2(pay), JsRound(dur * 12.0).Floor, fp, date, 0, LeaseActive, rt, p - dp);
        var s1 := s.(leases := s.leases + [l]);
        Applied(InsertAsset(s1, name, leaseType.value, p, date, DepreciationYears(s.settings, leaseType.value), Some(id)))
  }

  /** Creating a lease pays the down payment in cash, adds the asset at full
      price and the financed amount as an obligation: valuation is unchanged. */
  lemma CreateLeaseKeepsValuation(s: State, leaseType: Option<AssetType>, name: string, price: Option<real>,
                                  down: Option<real>, final: Option<real>, rate: Option<real>, years: Option<real>,
                                  fracPow: real -> real, date: string)
    requires CreateLease(s, leaseType, name, price, down, final, rate, years, fracPow, date).Applied?
    ensures var s' := CreateLease(s, leaseType, name, price, down, final, rate, years, fracPow, date).state;
            && CashBalance(s') == CashBalance(s) - down.GetOr(0.0)
            && TotalAssetsNbv(s') == TotalAssetsNbv(s) + price.GetOr(0.0)
            && TotalLeaseObligations(s') == TotalLeaseObligations(s) + price.GetOr(0.0) - down.GetOr(0.0)
            && Valuation(s') == Valuation(s)
  {
    var s' := CreateLease(s, leaseType, name, price, down, final, rate, years, fracPow, date).state;
    var l := s'.leases[|s.leases|];
    var a := s'.assets[|s.assets|];
    SumAppend(s.leases, l, LeaseCapitalPaid);
    SumAppend(s.leases, l, ActiveLeaseBalance);
    SumAppend(s.assets, a, DirectPurchase);
    SumAppend(s.assets, a, SaleProceeds);
    SumAppend(s.assets, a, UnsoldNbv);
  }

  /** For a duration of whole months the stored row carries its own annuity:
      the installment is that payment rounded to cents, and the payment, made
      every month of the stored duration, leaves exactly the final payment
      owed. */
  lemma CreatedLeaseTerms(s: State, leaseType: Option<AssetType>, name: string, price: Option<real>,
                          down: Option<real>, final: Option<real>, rate: Option<real>, years: Option<real>,
                          fracPow: real -> real, date: string)
    requires CreateLease(s, leaseType, name, price, down, final, rate, years, fracPow, date).Applied?
    requires years.GetOr(0.0) * 12.0 == (years.GetOr(0.0) * 12.0).Floor as real
    ensures var l := CreateLease(s, leaseType, name, price, down, final, rate, years, fracPow, date).state.leases[|s.leases|];
            var pay := ComputeMonthly(l.totalValue, l.initialPayment, l.residualValue, l.interestRate, l.durationMonths);
            && l.durationMonths as real == years.GetOr(0.0) * 12.0
            && pay.Some?
            && l.monthlyPayment == Round2(pay.value)
            && Amortize(l.totalValue - l.initialPayment, MonthlyRate(l.interestRate), pay.value, l.durationMonths)
               == l.residualValue
  {
    var months := years.GetOr(0.0) * 12.0;
    var l := CreateLease(s, leaseType, name, price, down, final, rate, years, fracPow, date).state.leases[|s.leases|];
    assert JsRound(months).Floor == months.Floor;
    assert l.totalValue == price.GetOr(0.0) && l.initialPayment == down.GetOr(0.0);
    assert l.residualValue == final.GetOr(0.0) && l.interestRate == rate.GetOr(0.0) && l.durationMonths == months.Floor;
    ComputeMonthlyAmortizes(price.GetOr(0.0), down.GetOr(0.0), final.GetOr(0.0), rate.GetOr(0.0), months.Floor);
  }

  /** A duration under half a month is accepted and stored as 0 months, so the
      lease is never due an installment. */
  lemma ShortLeaseStoredEmpty(s: State, leaseType: Option<AssetType>, name: string, price: Option<real>,
                              down: Option<real>, final: Option<real>, rate: Option<real>, years: Option<real>,
                              fracPow: real -> real, date: string)
    requires CreateLease(s, leaseType, name, price, down, final, rate, years, fracPow, date).Applied?
    ensures var l := CreateLease(s, leaseType, name, price, down, final, rate, years, fracPow, date).state.leases[|s.leases|];
            (l.durationMonths == 0 <==> years.GetOr(0.0) * 12.0 < 0.5) && (l.durationMonths == 0 ==> !Due(l))
  {
  }

  // --- handlePurchase / handleReturn ---

  /** `leases.find((l) => l.id === leaseId)`. */
  function FindLease(leases: seq<Lease>, id: int): Option<Lease> {
    FindById(leases, LeaseId, id)
  }

  /** `handlePurchase`: the buy-out zeroes the balance; the `residual_value`
      column is not consulted. */
  function HandlePurchase(s: State, leaseId: int): (o: Outcome)
    ensures CurrentPeriod(s).None? ==> o == Rejected(NoOpenPeriod)
    ensures o.Applied? <==> CurrentPeriod(s).Some? && FindLease(s.leases, leaseId).Some?
    ensures o.Applied? ==> o.state == s.(leases := PurchaseLease(s.leases, leaseId))
  {
    if CurrentPeriod(s).None? then Rejected(NoOpenPeriod)
    else if FindLease(s.leases, leaseId).None? then Rejected(NotFound)
    else Applied(s.(leases := PurchaseLease(s.leases, leaseId)))
  }

  /** Buying out an active lease pays its remaining balance (whatever the final
      payment agreed) and clears the obligation: valuation is unchanged. */
  lemma BuyOutPaysRemaining(s: State, i: nat)
    requires UniqueLeaseIds(s.leases) && i < |s.leases| && s.leases[i].status == LeaseActive
    requires HandlePurchase(s, s.leases[i].id).Applied?
    ensures var s' := HandlePurchase(s, s.leases[i].id).state;
            && CashBalance(s') == CashBalance(s) - s.leases[i].remainingBalance
            && TotalLeaseObligations(s') == TotalLeaseObligations(s) - s.leases[i].remainingBalance
            && Valuation(s') == Valuation(s)
  {
    UpdateOneLease(s.leases, i, Bought);
    LeaseRowValuation(s, i, Bought(s.leases[i]));
  }

  /** The first asset created from lease `leaseId` (`getAssetByLeaseId`), by position. */
  function AssetOfLease(assets: seq<Asset>, leaseId: int): (r: Option<nat>)
    ensures r.Some? ==> r.value < |assets| && assets[r.value].fromLeaseId == Some(leaseId)
    ensures r.Some? ==> forall j :: 0 <= j < r.value ==> assets[j].fromLeaseId != Some(leaseId)
    ensures r.None? ==> forall j :: 0 <= j < |assets| ==> assets[j].fromLeaseId != Some(leaseId)
    decreases |assets|
  {
    if |assets| == 0 then None
    else if assets[0].fromLeaseId == Some(leaseId) then Some(0)
    else match AssetOfLease(assets[1..], leaseId)
         case None => None
         case Some(k) => Some(k + 1)
  }

  /** `handleReturn`: the lease is marked returned and its asset, if still
      held (a falsy `sold_date`: null or ""), is disposed of at 0, with its net
      book value posted as a loss when positive. */
  function HandleReturn(s: State, leaseId: int, date: string): (o: Outcome)
    ensures CurrentPeriod(s).None? ==> o == Rejected(NoOpenPeriod)
    ensures o.Applied? <==> CurrentPeriod(s).Some? && FindLease(s.leases, leaseId).Some?
    ensures o.Applied? ==> o.state.leases == ReturnLease(s.leases, leaseId)
    ensures o.Applied? && (AssetOfLease(s.assets, leaseId).None?
                           || TruthyText(s.assets[AssetOfLease(s.assets, leaseId).value].soldDate)) ==>
              o.state == s.(leases := ReturnLease(s.leases, leaseId))
    ensures o.Applied? && AssetOfLease(s.assets, leaseId).Some?
            && !TruthyText(s.assets[AssetOfLease(s.assets, leaseId).value].soldDate) ==>
              var a := s.assets[AssetOfLease(s.assets, leaseId).value];
              && o.state.assets == SellAssetRows(s.assets, a.id, date, 0.0)
              && o.state.(assets := s.assets, transactions := s.transactions)
                 == s.(leases := ReturnLease(s.leases, leaseId))
              && (NetBookValue(a) > 0.0 ==>
                    && |o.state.transactions| == |s.transactions| + 1
                    && o.state.transactions[..|s.transactions|] == s.transactions
                    && o.state.transactions[|s.transactions|].amount == NetBookValue(a)
                    && o.state.transactions[|s.transactions|].kind == Expense)
              && (NetBookValue(a) <= 0.0 ==> o.state.transactions == s.transactions)
  {
    if CurrentPeriod(s).None? then Rejected(NoOpenPeriod)
    else match FindLease(s.leases, leaseId)
      case None => Rejected(NotFound)
      case Some(lease) =>
        var s1 := s.(leases := ReturnLease(s.leases, leaseId));
        match AssetOfLease(s.assets, leaseId)
        case None => Applied(s1)
        case Some(k) =>
          var asset := s.assets[k];
          if TruthyText(asset.soldDate) then Applied(s1)
          else
            var nbv := NetBookValue(asset);
            var s2 := s1.(assets := SellAssetRows(s.assets, asset.id, date, 0.0));
            if nbv > 0.0 then
              Applied(InsertTransaction(s2, CurrentPeriod(s).value.id, date, "Lease return loss: " + lease.name, nbv,
                                        Expense, FindCategory(s.categories, "Capital Loss", Some(Expense)), None))
            else Applied(s2)
  }

  /** Returning an active lease whose asset is still held removes the lease's
      balance from the obligations but leaves it unpaid in cash; the asset's
      book value leaves the balance sheet, and the loss posted for it is an
      expense, which the cash formula subtracts as well. */
  lemma ReturnEffect(s: State, i: nat, date: string)
    requires UniqueLeaseIds(s.leases) && UniqueAssetIds(s.assets) && i < |s.leases|
    requires s.leases[i].status == LeaseActive
    requires HandleReturn(s, s.leases[i].id, date).Applied?
    requires AssetOfLease(s.assets, s.leases[i].id).Some?
    requires NeverSold(s.assets[AssetOfLease(s.assets, s.leases[i].id).value])
    ensures var s' := HandleReturn(s, s.leases[i].id, date).state;
            var nbv := NetBookValue(s.assets[AssetOfLease(s.assets, s.leases[i].id).value]);
            && TotalLeaseObligations(s') == TotalLeaseObligations(s) - s.leases[i].remainingBalance
            && TotalAssetsNbv(s') == TotalAssetsNbv(s) - nbv
            && CashBalance(s') == CashBalance(s) - Max(nbv, 0.0)
            && Valuation(s') == Valuation(s) + s.leases[i].remainingBalance - nbv - Max(nbv, 0.0)
  {
    var id := s.leases[i].id;
    var k := AssetOfLease(s.assets, id).value;
    var nbv := NetBookValue(s.assets[k]);
    UpdateOneLease(s.leases, i, GivenBack);
    var s1 := s.(leases := ReturnLease(s.leases, id));
    LeaseRowValuation(s, i, GivenBack(s.leases[i]));
    SaleRowsEffect(s1, k, date, 0.0);
    var s2 := s1.(assets := SellAssetRows(s.assets, s.assets[k].id, date, 0.0));
    if nbv > 0.0 {
      var s' := HandleReturn(s, id, date).state;
      var t := s'.transactions[|s.transactions|];
      assert s' == s2.(transactions := s2.transactions + [t]);
      CashWithTransaction(s2, t);
    }
  }

  // --- The monthly installment run ---

  /** An installment is due on an active lease that has not reached its duration. */
  predicate Due(l: Lease) { l.status == LeaseActive && l.paymentsMade < l.durationMonths }

  /** The lease row after this month's installment. */
  function Installment(l: Lease): Lease {
    if Due(l) then PaidOnce(LeaseCapital(l))(l) else l
  }

  /** One lease's installment: the interest, when positive, is posted as an
      expense in period `periodId`, then the payment is recorded. */
  function PayInstallment(s: State, i: nat, periodId: int, date: string): (s': State)
    requires i < |s.leases|
    ensures |s'.leases| == |s.leases|
    ensures s'.(leases := s.leases, transactions := s.transactions) == s
  {
    var l := s.leases[i];
    if !Due(l) then s
    else
      var interest := LeaseInterest(l);
      var s1 := if interest > 0.0 then
                  InsertTransaction(s, periodId, date, "Lease interest: " + l.name, interest, Expense,
                                    FindCategory(s.categories, "Lease Interest", Some(Expense)), None)
                else s;
      s1.(leases := RecordLeasePayment(s1.leases, l.id, LeaseCapital(l)))
  }

  /** Installments of the first `k` leases, in table order. */
  function PayInstallments(s: State, k: nat, periodId: int, date: string): (s': State)
    requires k <= |s.leases|
    ensures |s'.leases| == |s.leases|
    ensures s'.(leases := s.leases, transactions := s.transactions) == s
    decreases k
  {
    if k == 0 then s else PayInstallment(PayInstallments(s, k - 1, periodId, date), k - 1, periodId, date)
  }

  /** `processLeasePayments(db, periodId, date, months)`: `months` rounds of
      installments over every lease. */
  function ProcessLeasePayments(s: State, periodId: int, date: string, months: nat): (s': State)
    ensures |s'.leases| == |s.leases|
    ensures s'.(leases := s.leases, transactions := s.transactions) == s
    decreases months
  {
    if months == 0 then s
    else
      var before := ProcessLeasePayments(s, periodId, date, months - 1);
      PayInstallments(before, |before.leases|, periodId, date)
  }

  function ExpenseTotal(s: State): real { SumTransactions(s, Expense, None, None) }

  /** One installment moves valuation only by the interest expense it posts;
      ids are kept and only the leases and transactions change. */
  lemma {:induction false} InstallmentStep(s: State, i: nat, periodId: int, date: string)
    requires UniqueLeaseIds(s.leases) && i < |s.leases|
    ensures var s' := PayInstallment(s, i, periodId, date);
            && s'.leases == s.leases[i := Installment(s.leases[i])]
            && s'.(leases := s.leases, transactions := s.transactions) == s
            && Valuation(s') == Valuation(s) - (ExpenseTotal(s') - ExpenseTotal(s))
  {
    var l := s.leases[i];
    if Due(l) {
      var interest := LeaseInterest(l);
      var s1 := if interest > 0.0 then
                  InsertTransaction(s, periodId, date, "Lease interest: " + l.name, interest, Expense,
                                    FindCategory(s.categories, "Lease Interest", Some(Expense)), None)
                else s;
      if interest > 0.0 {
        var t := s1.transactions[|s.transactions|];
        assert s1 == s.(transactions := s.transactions + [t]);
        CashWithTransaction(s, t);
        AppendTransaction(s, t, Expense, AllRows);
      }
      assert Valuation(s1) == Valuation(s) - (ExpenseTotal(s1) - ExpenseTotal(s));
      UpdateOneLease(s1.leases, i, PaidOnce(LeaseCapital(l)));
      LeaseRowValuation(s1, i, PaidOnce(LeaseCapital(l))(l));
    }
  }

  /** After the first `k` installments of a month, leases before `k` have paid
      theirs and the rest are untouched: every due lease pays exactly once. */
  lemma {:induction false} InstallmentsPrefix(s: State, k: nat, periodId: int, date: string)
    requires UniqueLeaseIds(s.leases) && k <= |s.leases|
    ensures var s' := PayInstallments(s, k, periodId, date);
            && (forall j :: 0 <= j < |s.leases| ==> s'.leases[j] == (if j < k then Installment(s.leases[j]) else s.leases[j]))
            && s'.(leases := s.leases, transactions := s.transactions) == s
            && Valuation(s') == Valuation(s) - (ExpenseTotal(s') - ExpenseTotal(s))
    decreases k
  {
    if k > 0 {
      InstallmentsPrefix(s, k - 1, periodId, date);
      var before := PayInstallments(s, k - 1, periodId, date);
      assert UniqueLeaseIds(before.leases) by {
        forall a, b | 0 <= a < b < |before.leases|
          ensures before.leases[a].id != before.leases[b].id
        {
          assert before.leases[a].id == s.leases[a].id;
          assert before.leases[b].id == s.leases[b].id;
        }
      }
      InstallmentStep(before, k - 1, periodId, date);
    }
  }

  /** The installment run only appends transaction rows: the existing ones stay, in order. */
  lemma {:induction false} LeaseRunAppends(s: State, periodId: int, date: string, months: nat)
    ensures var s' := ProcessLeasePayments(s, periodId, date, months);
            && |s.transactions| <= |s'.transactions|
            && s'.transactions[..|s.transactions|] == s.transactions
    decreases months
  {
    if months > 0 {
      LeaseRunAppends(s, periodId, date, months - 1);
      var before := ProcessLeasePayments(s, periodId, date, months - 1);
      InstallmentsAppend(before, |before.leases|, periodId, date);
    }
  }

  lemma {:induction false} InstallmentsAppend(s: State, k: nat, periodId: int, date: string)
    requires k <= |s.leases|
    ensures var s' := PayInstallments(s, k, periodId, date);
            && |s.transactions| <= |s'.transactions|
            && s'.transactions[..|s.transactions|] == s.transactions
    decreases k
  {
    if k > 0 {
      InstallmentsAppend(s, k - 1, periodId, date);
      var before := PayInstallments(s, k - 1, periodId, date);
      var after := PayInstallment(before, k - 1, periodId, date);
      assert |before.transactions| <= |after.transactions|;
      assert after.transactions[..|before.transactions|] == before.transactions;
      assert after.transactions[..|s.transactions|] == after.transactions[..|before.transactions|][..|s.transactions|];
    }
  }

  /** A month's run applied to the whole table. */
  function MonthOfInstallments(leases: seq<Lease>): (r: seq<Lease>)
    ensures |r| == |leases|
  {
    seq(|leases|, j requires 0 <= j < |leases| => Installment(leases[j]))
  }

  /** `months` rounds of installments: each round pays every due lease once,
      valuation moves only by the interest posted, and nothing but the leases
      and transactions change. */
  lemma {:induction false} ProcessLeasePaymentsEffect(s: State, periodId: int, date: string, months: nat)
    requires UniqueLeaseIds(s.leases)
    ensures var s' := ProcessLeasePayments(s, periodId, date, months);
            && UniqueLeaseIds(s'.leases)
            && s'.(leases := s.leases, transactions := s.transactions) == s
            && Valuation(s') == Valuation(s) - (ExpenseTotal(s') - ExpenseTotal(s))
            && (months == 1 ==> s'.leases == MonthOfInstallments(s.leases))
            && (forall j :: 0 <= j < |s.leases| ==> s'.leases[j].id == s.leases[j].id)
    decreases months
  {
    if months > 0 {
      ProcessLeasePaymentsEffect(s, periodId, date, months - 1);
      var before := ProcessLeasePayments(s, periodId, date, months - 1);
      InstallmentsPrefix(before, |before.leases|, periodId, date);
      var s' := ProcessLeasePayments(s, periodId, date, months);
      assert forall j :: 0 <= j < |s.leases| ==> s'.leases[j] == Installment(before.leases[j]);
      assert UniqueLeaseIds(s'.leases) by {
        forall a, b | 0 <= a < b < |s'.leases|
          ensures s'.leases[a].id != s'.leases[b].id
        {
          assert s'.leases[a].id == before.leases[a].id;
          assert s'.leases[b].id == before.leases[b].id;
        }
      }
      if months == 1 {
        assert s'.leases == MonthOfInstallments(s.leases);
      }
    }
  }

  /** An installment never takes a lease past its duration. */
  lemma InstallmentWithinDuration(l: Lease)
    requires l.paymentsMade <= l.durationMonths
    ensures Installment(l).paymentsMade <= Installment(l).durationMonths
    ensures Installment(l).paymentsMade == l.paymentsMade + (if Due(l) then 1 else 0)
  {
  }

  /** The buy-out and return buttons (`isComplete`) are offered on an active
      lease whose installments are all made. */
  predicate TerminalActionsOffered(l: Lease) {
    l.status == LeaseActive && l.paymentsMade >= l.durationMonths
  }

  /** A lease is offered its buy-out exactly when no installment is due any
      more; a fresh lease is not. */
  lemma OfferedWhenNothingDue(l: Lease)
    requires l.status == LeaseActive
    ensures TerminalActionsOffered(l) <==> !Due(l)
    ensures l.durationMonths > 0 && l.paymentsMade == 0 ==> !TerminalActionsOffered(l)
  {
  }
}
