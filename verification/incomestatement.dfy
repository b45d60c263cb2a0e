/** The Income Statement page (src/components/IncomeStatement.tsx): the
    per-category totals of `sumTransactionsByCategory`, classified into the
    operating, financial, exceptional and tax sections, and the results
    built from them. */
module IncomeStatement {
  import opened Base
  import opened Tables
  import opened Ledger
  import opened Calculations

  // --- The section name lists ---

  const FinancialExpenseNames: seq<string> := ["Loan Interest", "Lease Interest"]
  const ExceptionalRevenueNames: seq<string> := ["Capital Gain", "Other Revenue"]
  const ExceptionalExpenseNames: seq<string> := ["Capital Loss", "Other Expenses"]
  const TaxExpenseNames: seq<string> := ["Corporate Tax"]

  /** `names.includes(row.category_name)`: an uncategorized row has no name
      and is in no list. */
  predicate Listed(names: seq<string>, r: CategoryTotal) {
    r.name.Some? && r.name.value in names
  }

  function ListedIn(names: seq<string>): CategoryTotal -> bool {
    (r: CategoryTotal) => Listed(names, r)
  }

  function NotListedIn(names: seq<string>): CategoryTotal -> bool {
    (r: CategoryTotal) => !Listed(names, r)
  }

  /** `sumRows`. */
  function SumRows(rows: seq<CategoryTotal>): real { Sum(rows, GroupTotal) }

  // --- classifyRows ---

  /** `classifyRows`: rows whose name is listed go to the exceptional list,
      the others to the operating list, each list keeping the input order. */
  method ClassifyRows(rows: seq<CategoryTotal>, names: seq<string>)
    returns (operating: seq<CategoryTotal>, exceptional: seq<CategoryTotal>)
    ensures operating == Filter(rows, NotListedIn(names))
    ensures exceptional == Filter(rows, ListedIn(names))
  {
    operating := [];
    exceptional := [];
    for i := 0 to |rows|
      invariant operating == Filter(rows[..i], NotListedIn(names))
      invariant exceptional == Filter(rows[..i], ListedIn(names))
    {
      assert rows[..i + 1][..i] == rows[..i];
      if Listed(names, rows[i]) {
        exceptional := exceptional + [rows[i]];
      } else {
        operating := operating + [rows[i]];
      }
    }
    assert rows[..|rows|] == rows;
  }

  /** The two lists split the input: every row lands in exactly one of them,
      and their totals add up to the input's. */
  lemma {:induction false} SplitPartitions(rows: seq<CategoryTotal>, names: seq<string>)
    ensures multiset(Filter(rows, NotListedIn(names))) + multiset(Filter(rows, ListedIn(names))) == multiset(rows)
    ensures SumRows(Filter(rows, NotListedIn(names))) + SumRows(Filter(rows, ListedIn(names))) == SumRows(rows)
    decreases |rows|
  {
    if |rows| > 0 {
      var n := |rows| - 1;
      var r := rows[n];
      var yes, no := ListedIn(names), NotListedIn(names);
      SplitPartitions(rows[..n], names);
      assert rows == rows[..n] + [r];
      SumAppend(rows[..n], r, GroupTotal);
      if Listed(names, r) {
        assert Filter(rows, yes) == Filter(rows[..n], yes) + [r];
        assert Filter(rows, no) == Filter(rows[..n], no);
        SumAppend(Filter(rows[..n], yes), r, GroupTotal);
      } else {
        assert Filter(rows, no) == Filter(rows[..n], no) + [r];
        assert Filter(rows, yes) == Filter(rows[..n], yes);
        SumAppend(Filter(rows[..n], no), r, GroupTotal);
      }
    }
  }

  // --- classifyExpenseRows ---

  datatype ExpenseSection = OperatingSection | FinancialSection | ExceptionalSection | TaxSection

  /** The section an expense row falls in: tax before financial before
      exceptional, operating for everything else. */
  function SectionOf(r: CategoryTotal): ExpenseSection {
    if Listed(TaxExpenseNames, r) then TaxSection
    else if Listed(FinancialExpenseNames, r) then FinancialSection
    else if Listed(ExceptionalExpenseNames, r) then ExceptionalSection
    else OperatingSection
  }

  function InSection(k: ExpenseSection): CategoryTotal -> bool {
    (r: CategoryTotal) => SectionOf(r) == k
  }

  /** The three name lists are disjoint, so the order of the tests does not
      matter: a row is in a section exactly when its name is in that
      section's list, and operating exactly when it is in none. */
  lemma SectionByName(r: CategoryTotal)
    ensures SectionOf(r) == TaxSection <==> Listed(TaxExpenseNames, r)
    ensures SectionOf(r) == FinancialSection <==> Listed(FinancialExpenseNames, r)
    ensures SectionOf(r) == ExceptionalSection <==> Listed(ExceptionalExpenseNames, r)
    ensures SectionOf(r) == OperatingSection <==>
              !Listed(TaxExpenseNames, r) && !Listed(FinancialExpenseNames, r) && !Listed(ExceptionalExpenseNames, r)
  {
    if r.name.Some? {
      var n := r.name.value;
      if n in FinancialExpenseNames || n in ExceptionalExpenseNames {
        assert n != "Corporate Tax";
      }
      if n in ExceptionalExpenseNames {
        assert n != "Loan Interest" && n != "Lease Interest";
      }
    }
  }

  /** `classifyExpenseRows`: four lists, in input order, by section. */
  method ClassifyExpenseRows(rows: seq<CategoryTotal>)
    returns (operating: seq<CategoryTotal>, financial: seq<CategoryTotal>,
             exceptional: seq<CategoryTotal>, tax: seq<CategoryTotal>)
    ensures operating == Filter(rows, InSection(OperatingSection))
    ensures financial == Filter(rows, InSection(FinancialSection))
    ensures exceptional == Filter(rows, InSection(ExceptionalSection))
    ensures tax == Filter(rows, InSection(TaxSection))
  {
    operating, financial, exceptional, tax := [], [], [], [];
    for i := 0 to |rows|
      invariant operating == Filter(rows[..i], InSection(OperatingSection))
      invariant financial == Filter(rows[..i], InSection(FinancialSection))
      invariant exceptional == Filter(rows[..i], InSection(ExceptionalSection))
      invariant tax == Filter(rows[..i], InSection(TaxSection))
    {
      assert rows[..i + 1][..i] == rows[..i];
      var r := rows[i];
      if Listed(TaxExpenseNames, r) {
        tax := tax + [r];
      } else if Listed(FinancialExpenseNames, r) {
        financial := financial + [r];
      } else if Listed(ExceptionalExpenseNames, r) {
        exceptional := exceptional + [r];
      } else {
        operating := operating + [r];
      }
    }
    assert rows[..|rows|] == rows;
  }

  /** Filtering a non-empty sequence: the filtered front, then the last row if kept. */
  lemma FilterLast<T>(s: seq<T>, keep: T -> bool)
    requires |s| > 0
    ensures Filter(s, keep) == Filter(s[..|s| - 1], keep) + (if keep(s[|s| - 1]) then [s[|s| - 1]] else [])
  {
  }

  /** Every row lands in exactly one of the four sections. */
  lemma {:induction false} SectionsPartition(rows: seq<CategoryTotal>)
    ensures multiset(Filter(rows, InSection(OperatingSection))) + multiset(Filter(rows, InSection(FinancialSection)))
            + multiset(Filter(rows, InSection(ExceptionalSection))) + multiset(Filter(rows, InSection(TaxSection)))
            == multiset(rows)
    decreases |rows|
  {
    if |rows| > 0 {
      var n := |rows| - 1;
      SectionsPartition(rows[..n]);
      assert multiset(rows) == multiset(rows[..n]) + multiset{rows[n]} by {
        assert rows == rows[..n] + [rows[n]];
      }
      SectionStep(rows, OperatingSection);
      SectionStep(rows, FinancialSection);
      SectionStep(rows, ExceptionalSection);
      SectionStep(rows, TaxSection);
      OneMoreInOneSection(multiset(Filter(rows[..n], InSection(OperatingSection))),
                          multiset(Filter(rows[..n], InSection(FinancialSection))),
                          multiset(Filter(rows[..n], InSection(ExceptionalSection))),
                          multiset(Filter(rows[..n], InSection(TaxSection))), rows[n]);
    }
  }

  /** Four parts of a multiset, one of which takes one more element. */
  lemma OneMoreInOneSection(o: multiset<CategoryTotal>, f: multiset<CategoryTotal>, e: multiset<CategoryTotal>,
                            t: multiset<CategoryTotal>, r: CategoryTotal)
    ensures var one := (k: ExpenseSection) => if SectionOf(r) == k then multiset{r} else multiset{};
            (o + one(OperatingSection)) + (f + one(FinancialSection)) + (e + one(ExceptionalSection))
            + (t + one(TaxSection)) == o + f + e + t + multiset{r}
  {
  }

  /** One section's rows, as a multiset, with the last row added. */
  lemma SectionStep(rows: seq<CategoryTotal>, k: ExpenseSection)
    requires |rows| > 0
    ensures multiset(Filter(rows, InSection(k)))
            == multiset(Filter(rows[..|rows| - 1], InSection(k)))
               + (if SectionOf(rows[|rows| - 1]) == k then multiset{rows[|rows| - 1]} else multiset{})
  {
    FilterLast(rows, InSection(k));
  }

  /** The totals of the four sections add up to the total of the input. */
  lemma {:induction false} SectionsSum(rows: seq<CategoryTotal>)
    ensures SumRows(Filter(rows, InSection(OperatingSection))) + SumRows(Filter(rows, InSection(FinancialSection)))
            + SumRows(Filter(rows, InSection(ExceptionalSection))) + SumRows(Filter(rows, InSection(TaxSection)))
            == SumRows(rows)
    decreases |rows|
  {
    if |rows| > 0 {
      var n := |rows| - 1;
      var r := rows[n];
      SectionsSum(rows[..n]);
      FilterLast(rows, InSection(OperatingSection));
      FilterLast(rows, InSection(FinancialSection));
      FilterLast(rows, InSection(ExceptionalSection));
      FilterLast(rows, InSection(TaxSection));
      SumAppend(Filter(rows[..n], InSection(SectionOf(r))), r, GroupTotal);
      SumAppend(rows[..n], r, GroupTotal);
    }
  }

  // --- The statement ---

  /** The period selector: the whole fiscal year, or one of its months. */
  datatype Selection = WholeYear | OnePeriod(periodId: int)

  /** The `(fiscalYearId, periodId)` pair the page queries with: exactly one
      of the two is given. */
  function QueryArguments(selectedYear: int, sel: Selection): (q: (Option<int>, Option<int>))
    ensures q.0.Some? != q.1.Some?
    ensures sel.WholeYear? ==> q.0 == Some(selectedYear)
    ensures sel.OnePeriod? ==> q.1 == Some(sel.periodId)
  {
    match sel
    case WholeYear => (Some(selectedYear), None)
    case OnePeriod(p) => (None, Some(p))
  }

  datatype Statement = Statement(
    operatingRevenue: real, operatingExpenses: real, operatingResult: real,
    financialExpenses: real, financialResult: real,
    exceptionalRevenue: real, exceptionalExpenses: real, exceptionalResult: real,
    profitBeforeTax: real, taxExpenses: real, netProfit: real)

  /** The depreciation line: `sumDepreciation` for the selection, or 0 when
      no fiscal year is selected (id 0). */
  function StatementDepreciation(s: State, selectedYear: int, sel: Selection): real {
    var q := QueryArguments(selectedYear, sel);
    if selectedYear != 0 then SumDepreciation(s, q.0, q.1) else 0.0
  }

  /** The page's arithmetic. The sections re-add to the query totals and the
      net profit is revenue less expenses less the depreciation line; for a
      whole (selected) year it is `getNetProfit` of that year. */
  method IncomeStatementOf(s: State, selectedYear: int, sel: Selection) returns (st: Statement)
    ensures var q := QueryArguments(selectedYear, sel);
            && st.operatingRevenue + st.exceptionalRevenue == SumTransactions(s, Revenue, q.1, q.0)
            && st.operatingExpenses - StatementDepreciation(s, selectedYear, sel) + st.financialExpenses
               + st.exceptionalExpenses + st.taxExpenses == SumTransactions(s, Expense, q.1, q.0)
            && st.netProfit == SumTransactions(s, Revenue, q.1, q.0) - SumTransactions(s, Expense, q.1, q.0)
                               - StatementDepreciation(s, selectedYear, sel)
    ensures st.netProfit == st.profitBeforeTax - st.taxExpenses
    ensures st.profitBeforeTax == st.operatingResult + st.financialResult + st.exceptionalResult
    ensures sel.WholeYear? && selectedYear != 0 ==> st.netProfit == NetProfit(s, selectedYear)
  {
    var q := QueryArguments(selectedYear, sel);
    var revenueRows := SumTransactionsByCategory(s, Revenue, q.0, q.1);
    var expenseRows := SumTransactionsByCategory(s, Expense, q.0, q.1);
    var depreciation := StatementDepreciation(s, selectedYear, sel);

    var revOperating, revExceptional := ClassifyRows(revenueRows, ExceptionalRevenueNames);
    var expOperating, expFinancial, expExceptional, expTax := ClassifyExpenseRows(expenseRows);
    SplitPartitions(revenueRows, ExceptionalRevenueNames);
    SectionsSum(expenseRows);

    var operatingRevenue := SumRows(revOperating);
    var operatingExpenses := SumRows(expOperating) + depreciation;
    var operatingResult := operatingRevenue - operatingExpenses;
    var financialExpenses := SumRows(expFinancial);
    var financialResult := -financialExpenses;
    var exceptionalRevenue := SumRows(revExceptional);
    var exceptionalExpenses := SumRows(expExceptional);
    var exceptionalResult := exceptionalRevenue - exceptionalExpenses;
    var profitBeforeTax := operatingResult + financialResult + exceptionalResult;
    var taxExpenses := SumRows(expTax);
    var netProfit := profitBeforeTax - taxExpenses;
    st := Statement(operatingRevenue, operatingExpenses, operatingResult, financialExpenses, financialResult,
                    exceptionalRevenue, exceptionalExpenses, exceptionalResult, profitBeforeTax, taxExpenses,
                    netProfit);
  }
}
