/** Loans, as src/components/Loans.tsx and the loan rows of
    src/db/queries.ts handle them: drawing a loan, paying a month's interest,
    repaying capital, and the payment ledger behind the balance. */
module Loans {
  import opened Base
  import opened Tables
  import opened Ledger
  import opened Calculations

  predicate UniqueLoanIds(loans: seq<Loan>) {
    forall i, j :: 0 <= i < j < |loans| ==> loans[i].id != loans[j].id
  }

  /** `UPDATE loan SET ... WHERE id = ?`. */
  function UpdateLoan(loans: seq<Loan>, id: int, f: Loan -> Loan): seq<Loan> {
    UpdateById(loans, LoanId, id, f)
  }

  lemma UpdateOneLoan(loans: seq<Loan>, i: nat, f: Loan -> Loan)
    requires UniqueLoanIds(loans) && i < |loans|
    ensures UpdateLoan(loans, loans[i].id, f) == loans[i := f(loans[i])]
  {
    var r := UpdateLoan(loans, loans[i].id, f);
    forall j | 0 <= j < |loans|
      ensures r[j] == loans[i := f(loans[i])][j]
    {
      if j != i {
        assert loans[j].id != loans[i].id by {
          if j < i { } else { }
        }
      }
    }
  }

  /** `SELECT * FROM loan WHERE id = ?` without an order: the first row. */
  function FindLoan(loans: seq<Loan>, id: int): Option<Loan> {
    FindById(loans, LoanId, id)
  }

  /** The balance after a payment of `principal`, before the paid-off check. */
  function Reduced(principal: real): Loan -> Loan {
    (l: Loan) => l.(remainingBalance := l.remainingBalance - principal)
  }

  function Settled(l: Loan): Loan { l.(status := PaidOff, remainingBalance := 0.0) }

  /** A balance at or below one cent counts as repaid. */
  const PaidOffThreshold: real := 0.01

  /** `recordLoanPayment`: the payment row, the balance reduced by its
      principal part, and the loan closed once the balance is at most a cent. */
  function RecordLoanPayment(s: State, loanId: int, periodId: int, amount: real, principalPart: real,
                             interestPart: real, date: string): (s': State)
    ensures s'.loanPayments == s.loanPayments + [LoanPayment(NextId(s.loanPayments, LoanPaymentId), loanId,
              periodId, amount, principalPart, interestPart, date)]
    ensures s'.(loans := s.loans, loanPayments := s.loanPayments) == s
    ensures |s'.loans| == |s.loans|
  {
    var p := LoanPayment(NextId(s.loanPayments, LoanPaymentId), loanId, periodId, amount, principalPart,
                         interestPart, date);
    var loans := UpdateLoan(s.loans, loanId, Reduced(principalPart));
    var loans' := match FindLoan(loans, loanId)
                  case Some(l) => if l.remainingBalance <= PaidOffThreshold then UpdateLoan(loans, loanId, Settled) else loans
                  case None => loans;
    s.(loanPayments := s.loanPayments + [p], loans := loans')
  }

  /** The loan row after a payment of `principal`, with unique ids. */
  function AfterPayment(l: Loan, principal: real): Loan {
    var b := l.remainingBalance - principal;
    if b <= PaidOffThreshold then Settled(l) else l.(remainingBalance := b)
  }

  /** With unique ids a payment changes exactly its own loan row. */
  lemma RecordOnePayment(s: State, i: nat, periodId: int, amount: real, principalPart: real,
                         interestPart: real, date: string)
    requires UniqueLoanIds(s.loans) && i < |s.loans|
    ensures RecordLoanPayment(s, s.loans[i].id, periodId, amount, principalPart, interestPart, date).loans
            == s.loans[i := AfterPayment(s.loans[i], principalPart)]
  {
    var id := s.loans[i].id;
    var loans := UpdateLoan(s.loans, id, Reduced(principalPart));
    UpdateOneLoan(s.loans, i, Reduced(principalPart));
    assert UniqueLoanIds(loans) by {
      forall a, b | 0 <= a < b < |loans| ensures loans[a].id != loans[b].id {
        assert loans[a].id == s.loans[a].id && loans[b].id == s.loans[b].id;
      }
    }
    var f := FindLoan(loans, id);
    assert f == Some(loans[i]) by {
      var j :| 0 <= j < |loans| && loans[j] == f.value;
      if j < i { } else if j > i { }
    }
    if loans[i].remainingBalance <= PaidOffThreshold {
      UpdateOneLoan(loans, i, Settled);
    }
  }

  /** Replacing one loan row moves the debt total by the change in its active balance. */
  lemma LoanRowDebt(s: State, i: nat, l: Loan)
    requires i < |s.loans|
    ensures TotalDebt(s.(loans := s.loans[i := l])) == TotalDebt(s) - ActiveLoanBalance(s.loans[i]) + ActiveLoanBalance(l)
    ensures TotalLoanProceeds(s.(loans := s.loans[i := l])) == TotalLoanProceeds(s) - s.loans[i].principal + l.principal
  {
    SumUpdate(s.loans, i, l, ActiveLoanBalance);
    SumUpdate(s.loans, i, l, Principal);
  }

  // --- handleCreate ---

  /** `handleCreate`: `principal` and `rate` are None when they do not parse.
      Neither is checked for sign; the monthly payment is stored as 0. */
  function CreateLoan(s: State, name: string, principal: Option<real>, rate: Option<real>, date: string): (o: Outcome)
    ensures CurrentPeriod(s).None? ==> o == Rejected(NoOpenPeriod)
    ensures o.Applied? <==> CurrentPeriod(s).Some? && name != "" && principal.Some? && rate.Some?
    ensures o.Rejected? && CurrentPeriod(s).Some? ==> o == Rejected(MissingField)
    ensures o.Applied? ==>
              && o.state.loans == s.loans + [Loan(NextId(s.loans, LoanId), name, principal.value, rate.value, 0.0,
                                                  date, principal.value, LoanActive)]
              && o.state.(loans := s.loans) == s
  {
    if CurrentPeriod(s).None? then Rejected(NoOpenPeriod)
    else if name == "" || principal.None? || rate.None? then Rejected(MissingField)
    else
      var l := Loan(NextId(s.loans, LoanId), name, principal.value, rate.value, 0.0, date, principal.value, LoanActive);
      Applied(s.(loans := s.loans + [l]))
  }

  /** Drawing a loan adds the principal to cash and to debt: valuation is unchanged. */
  lemma CreateLoanKeepsValuation(s: State, name: string, principal: Option<real>, rate: Option<real>, date: string)
    requires CreateLoan(s, name, principal, rate, date).Applied?
    ensures var s' := CreateLoan(s, name, principal, rate, date).state;
            && CashBalance(s') == CashBalance(s) + principal.value
            && TotalDebt(s') == TotalDebt(s) + principal.value
            && Valuation(s') == Valuation(s)
  {
    var s' := CreateLoan(s, name, principal, rate, date).state;
    SumAppend(s.loans, s'.loans[|s.loans|], Principal);
    SumAppend(s.loans, s'.loans[|s.loans|], ActiveLoanBalance);
  }

  // --- handlePayInterest ---

  /** A month's interest on the balance, rounded to a whole amount. */
  function LoanInterest(l: Loan): (r: real)
    ensures r == r.Floor as real
    ensures l.remainingBalance * l.interestRate / 1200.0 - 0.5 < r <= l.remainingBalance * l.interestRate / 1200.0 + 0.5
  {
    JsRound(l.remainingBalance * (l.interestRate / 100.0 / 12.0))
  }

  /** `getMonthlyInterest`, the figure the card shows. */
  function MonthlyInterestShown(l: Loan): real {
    JsRound(l.remainingBalance * l.interestRate / 100.0 / 12.0)
  }

  /** The interest the card shows is the interest the button charges. */
  lemma ShownInterestIsCharged(l: Loan)
    ensures MonthlyInterestShown(l) == LoanInterest(l)
  {
    assert l.remainingBalance * l.interestRate / 100.0 / 12.0 == l.remainingBalance * (l.interestRate / 100.0 / 12.0);
  }

  /** `handlePayInterest`: an interest-only payment and the matching expense row. */
  function PayInterest(s: State, loanId: int, date: string): (o: Outcome)
    ensures CurrentPeriod(s).None? ==> o == Rejected(NoOpenPeriod)
    ensures CurrentPeriod(s).Some? && FindLoan(s.loans, loanId).None? ==> o == Rejected(NotFound)
    ensures CurrentPeriod(s).Some? && FindLoan(s.loans, loanId).Some? && LoanInterest(FindLoan(s.loans, loanId).value) <= 0.0 ==>
              o == Rejected(NothingToPay)
    ensures o.Applied? <==> CurrentPeriod(s).Some? && FindLoan(s.loans, loanId).Some?
                            && LoanInterest(FindLoan(s.loans, loanId).value) > 0.0
    ensures o.Applied? ==>
              var interest := LoanInterest(FindLoan(s.loans, loanId).value);
              && o.state.loanPayments == s.loanPayments + [LoanPayment(NextId(s.loanPayments, LoanPaymentId), loanId,
                                                           CurrentPeriod(s).value.id, interest, 0.0, interest, date)]
              && o.state.transactions == s.transactions + [Transaction(NextId(s.transactions, TransactionId),
                                          CurrentPeriod(s).value.id, date, "Interest: " + FindLoan(s.loans, loanId).value.name,
                                          interest, Expense, FindCategory(s.categories, "Loan Interest", None), None)]
  {
    if CurrentPeriod(s).None? then Rejected(NoOpenPeriod)
    else match FindLoan(s.loans, loanId)
      case None => Rejected(NotFound)
      case Some(loan) =>
        var period := CurrentPeriod(s).value;
        var interest := LoanInterest(loan);
        if interest <= 0.0 then Rejected(NothingToPay)
        else
          var s1 := RecordLoanPayment(s, loanId, period.id, interest, 0.0, interest, date);
          Applied(InsertTransaction(s1, period.id, date, "Interest: " + loan.name, interest, Expense,
                                    FindCategory(s.categories, "Loan Interest", None), None))
  }

  /** Paying interest costs exactly the interest: cash falls by it, and the
      debt is untouched unless the balance was already at most a cent. */
  lemma PayInterestEffect(s: State, i: nat, date: string)
    requires UniqueLoanIds(s.loans) && i < |s.loans| && s.loans[i].remainingBalance > PaidOffThreshold
    requires PayInterest(s, s.loans[i].id, date).Applied?
    ensures var s' := PayInterest(s, s.loans[i].id, date).state;
            && s'.loans == s.loans
            && CashBalance(s') == CashBalance(s) - LoanInterest(s.loans[i])
            && Valuation(s') == Valuation(s) - LoanInterest(s.loans[i])
  {
    var id := s.loans[i].id;
    var loan := FindLoan(s.loans, id).value;
    assert loan == s.loans[i] by {
      var j :| 0 <= j < |s.loans| && s.loans[j] == loan;
      if j < i { } else if j > i { }
    }
    var interest := LoanInterest(loan);
    var period := CurrentPeriod(s).value;
    var s1 := RecordLoanPayment(s, id, period.id, interest, 0.0, interest, date);
    RecordOnePayment(s, i, period.id, interest, 0.0, interest, date);
    assert AfterPayment(s.loans[i], 0.0) == s.loans[i];
    assert s1.loans == s.loans;
    var pay := s1.loanPayments[|s.loanPayments|];
    assert s1 == s.(loanPayments := s.loanPayments + [pay]);
    SumAppend(s.loanPayments, pay, PrincipalPart);
    var s' := PayInterest(s, id, date).state;
    var t := s'.transactions[|s.transactions|];
    assert s' == s1.(transactions := s1.transactions + [t]);
    CashWithTransaction(s1, t);
  }

  // --- handleRepayCapital ---

  /** `handleRepayCapital`: a principal-only payment of the amount, clamped to
      the balance; no transaction row is written. */
  function RepayCapital(s: State, loanId: Option<int>, amount: Option<real>, date: string): (o: Outcome)
    ensures CurrentPeriod(s).None? ==> o == Rejected(NoOpenPeriod)
    ensures CurrentPeriod(s).Some? && !Truthy(loanId) ==> o == Rejected(NoSelection)
    ensures o.Applied? <==> CurrentPeriod(s).Some? && Truthy(loanId) && FindLoan(s.loans, loanId.value).Some?
                            && amount.Some? && amount.value > 0.0
    ensures o.Applied? ==>
              var actual := Min(amount.value, FindLoan(s.loans, loanId.value).value.remainingBalance);
              && actual <= amount.value
              && o.state == RecordLoanPayment(s, loanId.value, CurrentPeriod(s).value.id, actual, actual, 0.0, date)
  {
    if CurrentPeriod(s).None? then Rejected(NoOpenPeriod)
    else if !Truthy(loanId) then Rejected(NoSelection)
    else match FindLoan(s.loans, loanId.value)
      case None => Rejected(NotFound)
      case Some(loan) =>
        if amount.None? || amount.value <= 0.0 then Rejected(InvalidAmount)
        else
          var actual := Min(amount.value, loan.remainingBalance);
          Applied(RecordLoanPayment(s, loanId.value, CurrentPeriod(s).value.id, actual, actual, 0.0, date))
  }

  /** Repaying capital moves the amount from cash to debt. Once the balance
      falls to a cent or less the loan is closed and what is left of it is
      dropped from the debt, so valuation rises by that remainder: never more
      than a cent. */
  lemma RepayCapitalEffect(s: State, i: nat, amount: Option<real>, date: string)
    requires UniqueLoanIds(s.loans) && i < |s.loans| && s.loans[i].status == LoanActive
    requires RepayCapital(s, Some(s.loans[i].id), amount, date).Applied?
    ensures var s' := RepayCapital(s, Some(s.loans[i].id), amount, date).state;
            var b := s.loans[i].remainingBalance;
            var actual := Min(amount.value, b);
            && CashBalance(s') == CashBalance(s) - actual
            && (b - actual > PaidOffThreshold ==> TotalDebt(s') == TotalDebt(s) - actual && Valuation(s') == Valuation(s))
            && (b - actual <= PaidOffThreshold ==> s'.loans[i].status == PaidOff && TotalDebt(s') == TotalDebt(s) - b)
            && Valuation(s) <= Valuation(s') <= Valuation(s) + PaidOffThreshold
  {
    var id := s.loans[i].id;
    var loan := FindLoan(s.loans, id).value;
    assert loan == s.loans[i] by {
      var j :| 0 <= j < |s.loans| && s.loans[j] == loan;
      if j < i { } else if j > i { }
    }
    var actual := Min(amount.value, loan.remainingBalance);
    var period := CurrentPeriod(s).value;
    var s' := RecordLoanPayment(s, id, period.id, actual, actual, 0.0, date);
    RecordOnePayment(s, i, period.id, actual, actual, 0.0, date);
    var l' := AfterPayment(s.loans[i], actual);
    var pay := s'.loanPayments[|s.loanPayments|];
    var s1 := s.(loans := s.loans[i := l']);
    assert s' == s1.(loanPayments := s.loanPayments + [pay]);
    SumAppend(s.loanPayments, pay, PrincipalPart);
    LoanRowDebt(s, i, l');
  }

  // --- The payment ledger ---

  /** Principal part of a payment on loan `id`, 0 for payments on other loans. */
  function PrincipalOf(id: int): LoanPayment -> real {
    (p: LoanPayment) => if p.loanId == id then p.principalPart else 0.0
  }

  /** The ledger the loan screens keep: ids are unique, every payment belongs
      to a loan, every payment's amount is its principal plus its interest,
      and an active loan's balance is its principal less the principal paid. */
  predicate LedgerSound(s: State) {
    SoundLedger(s.loans, s.loanPayments)
  }

  predicate SoundLedger(loans: seq<Loan>, payments: seq<LoanPayment>) {
    && UniqueLoanIds(loans)
    && (forall k :: 0 <= k < |payments| ==> exists i :: 0 <= i < |loans| && loans[i].id == payments[k].loanId)
    && (forall k :: 0 <= k < |payments| ==> payments[k].amount == payments[k].principalPart + payments[k].interestPart)
    && (forall i :: 0 <= i < |loans| && loans[i].status == LoanActive ==>
          loans[i].remainingBalance == loans[i].principal - Sum(payments, PrincipalOf(loans[i].id)))
  }

  /** A store without loans has a sound ledger. */
  lemma EmptyLedgerSound(s: State)
    requires s.loans == [] && s.loanPayments == []
    ensures LedgerSound(s)
  {
  }

  /** A new loan has no payments yet, so its balance is its principal. */
  lemma CreateLoanKeepsLedger(s: State, name: string, principal: Option<real>, rate: Option<real>, date: string)
    requires LedgerSound(s) && CreateLoan(s, name, principal, rate, date).Applied?
    ensures LedgerSound(CreateLoan(s, name, principal, rate, date).state)
  {
    var s' := CreateLoan(s, name, principal, rate, date).state;
    var n := |s.loans|;
    var id := s'.loans[n].id;
    assert forall k :: 0 <= k < |s.loanPayments| ==> s.loanPayments[k].loanId != id by {
      forall k | 0 <= k < |s.loanPayments| ensures s.loanPayments[k].loanId != id {
        var i :| 0 <= i < |s.loans| && s.loans[i].id == s.loanPayments[k].loanId;
        assert LoanId(s.loans[i]) < id;
      }
    }
    SumZero(s.loanPayments, PrincipalOf(id));
    assert UniqueLoanIds(s'.loans) by {
      forall a, b | 0 <= a < b < |s'.loans| ensures s'.loans[a].id != s'.loans[b].id {
        if b == n { assert LoanId(s.loans[a]) < id; }
      }
    }
    forall k | 0 <= k < |s'.loanPayments|
      ensures exists i :: 0 <= i < |s'.loans| && s'.loans[i].id == s'.loanPayments[k].loanId
    {
      var i :| 0 <= i < |s.loans| && s.loans[i].id == s.loanPayments[k].loanId;
      assert s'.loans[i] == s.loans[i];
    }
  }

  /** A payment recorded against loan `i` keeps the ledger sound when it is
      split into principal and interest and the loan was active. */
  lemma {:induction false} PaymentKeepsLedger(s: State, i: nat, periodId: int, principalPart: real,
                                             interestPart: real, date: string)
    requires LedgerSound(s) && i < |s.loans| && s.loans[i].status == LoanActive
    ensures LedgerSound(RecordLoanPayment(s, s.loans[i].id, periodId, principalPart + interestPart,
                                          principalPart, interestPart, date))
  {
    var id := s.loans[i].id;
    var s' := RecordLoanPayment(s, id, periodId, principalPart + interestPart, principalPart, interestPart, date);
    RecordOnePayment(s, i, periodId, principalPart + interestPart, principalPart, interestPart, date);
    var pay := s'.loanPayments[|s.loanPayments|];
    assert s'.loanPayments == s.loanPayments + [pay];
    assert UniqueLoanIds(s'.loans) by {
      forall a, b | 0 <= a < b < |s'.loans| ensures s'.loans[a].id != s'.loans[b].id {
        assert s'.loans[a].id == s.loans[a].id && s'.loans[b].id == s.loans[b].id;
      }
    }
    forall k | 0 <= k < |s'.loanPayments|
      ensures exists j :: 0 <= j < |s'.loans| && s'.loans[j].id == s'.loanPayments[k].loanId
    {
      if k < |s.loanPayments| {
        var j :| 0 <= j < |s.loans| && s.loans[j].id == s.loanPayments[k].loanId;
        assert s'.loans[j].id == s.loans[j].id;
      } else {
        assert s'.loans[i].id == id;
      }
    }
    forall j | 0 <= j < |s'.loans| && s'.loans[j].status == LoanActive
      ensures s'.loans[j].remainingBalance == s'.loans[j].principal - Sum(s'.loanPayments, PrincipalOf(s'.loans[j].id))
    {
      SumAppend(s.loanPayments, pay, PrincipalOf(s.loans[j].id));
      assert s'.loans[j].id == s.loans[j].id;
      if j != i {
        assert s.loans[j].id != id by { if j < i { } else { } }
      }
    }
  }

  /** The ledger reads only the loan and payment tables. */
  lemma LedgerReadsLoanTables(a: State, b: State)
    requires LedgerSound(a) && a.loans == b.loans && a.loanPayments == b.loanPayments
    ensures LedgerSound(b)
  {
  }

  /** With unique ids the lookup finds the row itself. */
  lemma FindUniqueLoan(loans: seq<Loan>, i: nat)
    requires UniqueLoanIds(loans) && i < |loans|
    ensures FindLoan(loans, loans[i].id) == Some(loans[i])
  {
    var loan := FindLoan(loans, loans[i].id).value;
    var j :| 0 <= j < |loans| && loans[j] == loan;
    if j < i { } else if j > i { }
  }

  /** What `handlePayInterest` writes to the loan tables is one recorded
      payment, split into no principal and the month's interest. */
  lemma PayInterestLoanTables(s: State, i: nat, date: string)
    requires UniqueLoanIds(s.loans) && i < |s.loans|
    requires PayInterest(s, s.loans[i].id, date).Applied?
    ensures var interest := LoanInterest(s.loans[i]);
            var s1 := RecordLoanPayment(s, s.loans[i].id, CurrentPeriod(s).value.id, 0.0 + interest, 0.0, interest, date);
            var s' := PayInterest(s, s.loans[i].id, date).state;
            s'.loans == s1.loans && s'.loanPayments == s1.loanPayments
  {
    FindUniqueLoan(s.loans, i);
    assert 0.0 + LoanInterest(s.loans[i]) == LoanInterest(s.loans[i]);
  }

  /** Paying interest keeps the ledger sound. */
  lemma PayInterestKeepsLedger(s: State, i: nat, date: string)
    requires LedgerSound(s) && i < |s.loans| && s.loans[i].status == LoanActive
    requires PayInterest(s, s.loans[i].id, date).Applied?
    ensures LedgerSound(PayInterest(s, s.loans[i].id, date).state)
  {
    var interest := LoanInterest(s.loans[i]);
    var periodId := CurrentPeriod(s).value.id;
    PaymentKeepsLedger(s, i, periodId, 0.0, interest, date);
    var s1 := RecordLoanPayment(s, s.loans[i].id, periodId, 0.0 + interest, 0.0, interest, date);
    var s' := PayInterest(s, s.loans[i].id, date).state;
    PayInterestLoanTables(s, i, date);
    assert s'.loans == s1.loans && s'.loanPayments == s1.loanPayments;
    LedgerReadsLoanTables(s1, s');
  }

  /** Repaying capital keeps the ledger sound. */
  lemma RepayKeepsLedger(s: State, i: nat, amount: Option<real>, date: string)
    requires LedgerSound(s) && i < |s.loans| && s.loans[i].status == LoanActive
    requires RepayCapital(s, Some(s.loans[i].id), amount, date).Applied?
    ensures LedgerSound(RepayCapital(s, Some(s.loans[i].id), amount, date).state)
  {
    var id := s.loans[i].id;
    var period := CurrentPeriod(s).value;
    FindUniqueLoan(s.loans, i);
    var actual := Min(amount.value, s.loans[i].remainingBalance);
    PaymentKeepsLedger(s, i, period.id, actual, 0.0, date);
    var s1 := RecordLoanPayment(s, id, period.id, actual + 0.0, actual, 0.0, date);
    assert s1 == RecordLoanPayment(s, id, period.id, actual, actual, 0.0, date);
  }
}
