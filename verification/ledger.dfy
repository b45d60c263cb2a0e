/** The aggregate queries of src/db/queries.ts: revenue/expense sums with
    their optional filters, booked depreciation, the per-category breakdown
    and the running totals the cash formula is built from. */
module Ledger {
  import opened Base
  import opened Tables

  /** The row filter an aggregate query ends up applying. */
  datatype Scope = AllRows | InPeriod(periodId: int) | InFiscalYear(fiscalYearId: int)

  function Amount(t: Transaction): real { t.amount }

  /** Period rows that `JOIN period p ON t.period_id = p.id ... AND p.fiscal_year_id = ?`
      pairs with a transaction of period `periodId`. */
  function JoinCount(periods: seq<Period>, periodId: int, fiscalYearId: int): nat {
    Count(periods, (p: Period) => p.id == periodId && p.fiscalYearId == fiscalYearId)
  }

  /** How many times a transaction row enters a query with scope `sc`. */
  function Multiplicity(periods: seq<Period>, sc: Scope, t: Transaction): nat {
    match sc
    case AllRows => 1
    case InPeriod(p) => if t.periodId == p then 1 else 0
    case InFiscalYear(fy) => JoinCount(periods, t.periodId, fy)
  }

  /** What one transaction row adds to `SUM(amount)` for rows of type `kind` in scope `sc`. */
  function Contribution(periods: seq<Period>, sc: Scope, kind: TxType): Transaction -> real {
    (t: Transaction) => if t.kind == kind then Multiplicity(periods, sc, t) as real * t.amount else 0.0
  }

  /** `COALESCE(SUM(amount), 0)` over the rows a scope selects. */
  function ScopedTotal(s: State, kind: TxType, sc: Scope): real {
    Sum(s.transactions, Contribution(s.periods, sc, kind))
  }

  /** `sumTransactions(type, periodId, fiscalYearId)`: a truthy fiscal year
      takes precedence over a truthy period. */
  function TransactionScope(periodId: Option<int>, fiscalYearId: Option<int>): Scope {
    if Truthy(fiscalYearId) then InFiscalYear(fiscalYearId.value)
    else if Truthy(periodId) then InPeriod(periodId.value)
    else AllRows
  }

  function SumTransactions(s: State, kind: TxType, periodId: Option<int>, fiscalYearId: Option<int>): real {
    ScopedTotal(s, kind, TransactionScope(periodId, fiscalYearId))
  }

  /** Transactions of type `kind`. */
  function OfKind(kind: TxType): Transaction -> bool {
    (t: Transaction) => t.kind == kind
  }

  /** Transactions of type `kind` booked on period `periodId`. */
  function OfKindInPeriod(kind: TxType, periodId: int): Transaction -> bool {
    (t: Transaction) => t.kind == kind && t.periodId == periodId
  }

  /** Transactions of type `kind` whose period belongs to fiscal year `fiscalYearId`. */
  function OfKindInYear(periods: seq<Period>, kind: TxType, fiscalYearId: int): Transaction -> bool {
    (t: Transaction) => t.kind == kind && PeriodYear(periods, t.periodId) == Some(fiscalYearId)
  }

  /** Period ids are unique (they are allocated as fresh rowids). */
  predicate UniquePeriodIds(periods: seq<Period>) {
    forall i, j :: 0 <= i < j < |periods| ==> periods[i].id != periods[j].id
  }

  /** With unique period ids the join pairs a transaction with at most one
      period, and with exactly one precisely when its period is in the year. */
  lemma {:induction false} JoinCountUnique(periods: seq<Period>, periodId: int, fiscalYearId: int)
    requires UniquePeriodIds(periods)
    ensures JoinCount(periods, periodId, fiscalYearId) <= 1
    ensures JoinCount(periods, periodId, fiscalYearId) == 1 <==> PeriodYear(periods, periodId) == Some(fiscalYearId)
    decreases |periods|
  {
    var keep := (p: Period) => p.id == periodId && p.fiscalYearId == fiscalYearId;
    if |periods| > 0 {
      var n := |periods| - 1;
      var init := periods[..n];
      assert UniquePeriodIds(init);
      JoinCountUnique(init, periodId, fiscalYearId);
      PeriodYearOfPrefix(periods, periodId);
      if keep(periods[n]) {
        assert forall i :: 0 <= i < n ==> init[i].id != periodId;
        assert PeriodYear(init, periodId) == None;
        NoMatchEmpty(init, keep);
      }
    }
  }

  /** Looking up a period id in a table equals looking it up in all but the last
      row, unless only the last row carries it. */
  lemma {:induction false} PeriodYearOfPrefix(periods: seq<Period>, periodId: int)
    requires |periods| > 0
    ensures PeriodYear(periods[..|periods| - 1], periodId).Some? ==>
              PeriodYear(periods, periodId) == PeriodYear(periods[..|periods| - 1], periodId)
    ensures PeriodYear(periods[..|periods| - 1], periodId).None? ==>
              PeriodYear(periods, periodId) ==
                (if periods[|periods| - 1].id == periodId then Some(periods[|periods| - 1].fiscalYearId) else None)
    decreases |periods|
  {
    if |periods| > 1 && periods[0].id != periodId {
      assert periods[1..][..|periods| - 2] == periods[..|periods| - 1][1..];
      PeriodYearOfPrefix(periods[1..], periodId);
    }
  }

  lemma {:induction false} NoMatchEmpty<T>(s: seq<T>, keep: T -> bool)
    requires forall i :: 0 <= i < |s| ==> !keep(s[i])
    ensures Filter(s, keep) == []
    decreases |s|
  {
    if |s| > 0 {
      NoMatchEmpty(s[..|s| - 1], keep);
    }
  }

  /** The three filters of `sumTransactions`, each equal to the sum of the
      amounts of the rows it selects; over an empty table it returns 0. */
  lemma {:induction false} SumTransactionsSelects(s: State, kind: TxType, periodId: Option<int>,
                                                  fiscalYearId: Option<int>)
    ensures |s.transactions| == 0 ==> SumTransactions(s, kind, periodId, fiscalYearId) == 0.0
    ensures !Truthy(fiscalYearId) && !Truthy(periodId) ==>
              SumTransactions(s, kind, periodId, fiscalYearId) == Sum(Filter(s.transactions, OfKind(kind)), Amount)
    ensures !Truthy(fiscalYearId) && Truthy(periodId) ==>
              SumTransactions(s, kind, periodId, fiscalYearId)
              == Sum(Filter(s.transactions, OfKindInPeriod(kind, periodId.value)), Amount)
    ensures Truthy(fiscalYearId) && UniquePeriodIds(s.periods) ==>
              SumTransactions(s, kind, periodId, fiscalYearId)
              == Sum(Filter(s.transactions, OfKindInYear(s.periods, kind, fiscalYearId.value)), Amount)
  {
    var sc := TransactionScope(periodId, fiscalYearId);
    var f := Contribution(s.periods, sc, kind);
    if Truthy(fiscalYearId) {
      if UniquePeriodIds(s.periods) {
        var fy := fiscalYearId.value;
        forall i | 0 <= i < |s.transactions|
          ensures f(s.transactions[i]) == (if OfKindInYear(s.periods, kind, fy)(s.transactions[i])
                                           then Amount(s.transactions[i]) else 0.0)
        {
          var t := s.transactions[i];
          JoinCountUnique(s.periods, t.periodId, fy);
          assert sc == InFiscalYear(fy);
          if PeriodYear(s.periods, t.periodId) == Some(fy) {
            assert Multiplicity(s.periods, sc, t) == 1;
          } else {
            assert Multiplicity(s.periods, sc, t) == 0;
          }
        }
        SumFilter(s.transactions, OfKindInYear(s.periods, kind, fy), Amount, f);
      }
    } else if Truthy(periodId) {
      forall i | 0 <= i < |s.transactions|
        ensures f(s.transactions[i]) == (if OfKindInPeriod(kind, periodId.value)(s.transactions[i])
                                         then Amount(s.transactions[i]) else 0.0)
      {
        var t := s.transactions[i];
        assert sc == InPeriod(periodId.value);
        if t.periodId == periodId.value {
          assert Multiplicity(s.periods, sc, t) == 1;
        } else {
          assert Multiplicity(s.periods, sc, t) == 0;
        }
      }
      SumFilter(s.transactions, OfKindInPeriod(kind, periodId.value), Amount, f);
    } else {
      forall i | 0 <= i < |s.transactions|
        ensures f(s.transactions[i]) == (if OfKind(kind)(s.transactions[i]) then Amount(s.transactions[i]) else 0.0)
      {
      }
      SumFilter(s.transactions, OfKind(kind), Amount, f);
    }
  }

  /** A truthy fiscal year makes the period argument irrelevant. */
  lemma YearFilterFirst(s: State, kind: TxType, p1: Option<int>, p2: Option<int>, fiscalYearId: Option<int>)
    requires Truthy(fiscalYearId)
    ensures SumTransactions(s, kind, p1, fiscalYearId) == SumTransactions(s, kind, p2, fiscalYearId)
  {
  }

  /** Appending a transaction adds its amount to every total whose scope it
      falls in, once per joined period row, and leaves the other type alone. */
  lemma AppendTransaction(s: State, t: Transaction, kind: TxType, sc: Scope)
    ensures ScopedTotal(s.(transactions := s.transactions + [t]), kind, sc)
            == ScopedTotal(s, kind, sc)
               + (if t.kind == kind then Multiplicity(s.periods, sc, t) as real * t.amount else 0.0)
  {
    var s' := s.(transactions := s.transactions + [t]);
    var f := Contribution(s.periods, sc, kind);
    assert s'.transactions == s.transactions + [t] && s'.periods == s.periods;
    SumAppend(s.transactions, t, f);
    ContributionOf(s.periods, sc, kind, t);
    assert ScopedTotal(s', kind, sc) == ScopedTotal(s, kind, sc) + f(t);
  }

  lemma ContributionOf(periods: seq<Period>, sc: Scope, kind: TxType, t: Transaction)
    ensures Contribution(periods, sc, kind)(t)
            == if t.kind == kind then Multiplicity(periods, sc, t) as real * t.amount else 0.0
  {
  }

  // --- Depreciation booked per period ---

  function Booked(p: Period): real { p.depreciationBooked }

  /** `sumDepreciation(fiscalYearId, periodId)`: here a truthy period wins. */
  function DepreciationScope(fiscalYearId: Option<int>, periodId: Option<int>): Scope {
    if Truthy(periodId) then InPeriod(periodId.value)
    else if Truthy(fiscalYearId) then InFiscalYear(fiscalYearId.value)
    else AllRows
  }

  predicate PeriodInScope(sc: Scope, p: Period) {
    match sc
    case AllRows => true
    case InPeriod(id) => p.id == id
    case InFiscalYear(fy) => p.fiscalYearId == fy
  }

  function ScopedBooked(sc: Scope): Period -> real {
    (p: Period) => if PeriodInScope(sc, p) then p.depreciationBooked else 0.0
  }

  function SumDepreciation(s: State, fiscalYearId: Option<int>, periodId: Option<int>): real {
    Sum(s.periods, ScopedBooked(DepreciationScope(fiscalYearId, periodId)))
  }

  /** `sumDepreciation` is the sum of `depreciation_booked` over the selected
      period rows, 0 when none is selected, and non-negative when every
      booked amount is. */
  lemma {:induction false} SumDepreciationSelects(s: State, fiscalYearId: Option<int>, periodId: Option<int>)
    ensures var sc := DepreciationScope(fiscalYearId, periodId);
            SumDepreciation(s, fiscalYearId, periodId)
            == Sum(Filter(s.periods, (p: Period) => PeriodInScope(sc, p)), Booked)
    ensures (forall i :: 0 <= i < |s.periods| ==> s.periods[i].depreciationBooked >= 0.0) ==>
              SumDepreciation(s, fiscalYearId, periodId) >= 0.0
    ensures |s.periods| == 0 ==> SumDepreciation(s, fiscalYearId, periodId) == 0.0
  {
    var sc := DepreciationScope(fiscalYearId, periodId);
    SumFilter(s.periods, (p: Period) => PeriodInScope(sc, p), Booked, ScopedBooked(sc));
    if forall i :: 0 <= i < |s.periods| ==> s.periods[i].depreciationBooked >= 0.0 {
      SumNonNegative(s.periods, ScopedBooked(sc));
    }
  }

  /** A truthy period makes the fiscal-year argument irrelevant. */
  lemma PeriodFilterFirst(s: State, f1: Option<int>, f2: Option<int>, periodId: Option<int>)
    requires Truthy(periodId)
    ensures SumDepreciation(s, f1, periodId) == SumDepreciation(s, f2, periodId)
  {
  }

  // --- sumTransactionsByCategory ---

  /** One row of the breakdown: the category id (null for uncategorized), the
      joined category's name and icon, and the group's total. */
  datatype CategoryTotal = CategoryTotal(categoryId: Option<int>, name: Option<string>,
                                         icon: Option<string>, total: real)

  function GroupTotal(g: CategoryTotal): real { g.total }

  /** `LEFT JOIN category c ON t.category_id = c.id`: the first category with that id. */
  function CategoryRow(categories: seq<Category>, id: Option<int>): (r: Option<Category>)
    ensures r.Some? ==> id.Some? && r.value in categories && r.value.id == id.value
    decreases |categories|
  {
    if id.None? || |categories| == 0 then None
    else if categories[0].id == id.value then Some(categories[0])
    else CategoryRow(categories[1..], id)
  }

  /** The `c.name` and `c.icon` columns of the left join: None without a matching category. */
  function CategoryName(categories: seq<Category>, id: Option<int>): Option<string> {
    var c := CategoryRow(categories, id);
    if c.Some? then Some(c.value.name) else None
  }

  function CategoryIcon(categories: seq<Category>, id: Option<int>): Option<string> {
    var c := CategoryRow(categories, id);
    if c.Some? then Some(c.value.icon) else None
  }

  /** A group carries the name and icon of its category. */
  predicate Labelled(categories: seq<Category>, g: CategoryTotal) {
    g.name == CategoryName(categories, g.categoryId) && g.icon == CategoryIcon(categories, g.categoryId)
  }

  /** Position of the group keyed `key`, if there is one. */
  function GroupIndex(groups: seq<CategoryTotal>, key: Option<int>): (r: Option<nat>)
    ensures r.Some? ==> r.value < |groups| && groups[r.value].categoryId == key
    ensures r.None? ==> forall i :: 0 <= i < |groups| ==> groups[i].categoryId != key
    decreases |groups|
  {
    if |groups| == 0 then None
    else if groups[0].categoryId == key then Some(0)
    else
      match GroupIndex(groups[1..], key)
      case Some(i) => Some(i + 1)
      case None => None
  }

  /** Adds `x` to the group of `key`, opening the group at the end when it is new. */
  function AddToGroup(categories: seq<Category>, groups: seq<CategoryTotal>, key: Option<int>, x: real)
    : seq<CategoryTotal>
  {
    match GroupIndex(groups, key)
    case Some(i) => groups[i := groups[i].(total := groups[i].total + x)]
    case None =>
      groups + [CategoryTotal(key, CategoryName(categories, key), CategoryIcon(categories, key), x)]
  }

  predicate DistinctKeys(groups: seq<CategoryTotal>) {
    forall i, j :: 0 <= i < j < |groups| ==> groups[i].categoryId != groups[j].categoryId
  }

  /** `GROUP BY t.category_id` over the selected rows, groups in order of first appearance. */
  function GroupRows(categories: seq<Category>, periods: seq<Period>, sc: Scope, kind: TxType,
                     ts: seq<Transaction>): seq<CategoryTotal>
    decreases |ts|
  {
    if |ts| == 0 then []
    else
      var groups := GroupRows(categories, periods, sc, kind, ts[..|ts| - 1]);
      var t := ts[|ts| - 1];
      if t.kind != kind || Multiplicity(periods, sc, t) == 0 then groups
      else AddToGroup(categories, groups, t.categoryId, Contribution(periods, sc, kind)(t))
  }

  /** Every group is labelled with its category, and every selected row has a group. */
  lemma {:induction false} GroupRowsLabelledComplete(categories: seq<Category>, periods: seq<Period>, sc: Scope,
                                                     kind: TxType, ts: seq<Transaction>)
    ensures var groups := GroupRows(categories, periods, sc, kind, ts);
            && (forall i :: 0 <= i < |groups| ==> Labelled(categories, groups[i]))
            && (forall j :: 0 <= j < |ts| && ts[j].kind == kind && Multiplicity(periods, sc, ts[j]) > 0 ==>
                  GroupIndex(groups, ts[j].categoryId).Some?)
    decreases |ts|
  {
    if |ts| > 0 {
      var n := |ts| - 1;
      var t := ts[n];
      var groups := GroupRows(categories, periods, sc, kind, ts[..n]);
      GroupRowsLabelledComplete(categories, periods, sc, kind, ts[..n]);
      assert forall j :: 0 <= j < n ==> ts[..n][j] == ts[j];
      if t.kind == kind && Multiplicity(periods, sc, t) != 0 {
        AddToGroupLabelledComplete(categories, groups, t.categoryId, Contribution(periods, sc, kind)(t));
      }
    }
  }

  /** Adding to a group keeps every label and every key, and `key` has a group afterwards. */
  lemma AddToGroupLabelledComplete(categories: seq<Category>, groups: seq<CategoryTotal>, key: Option<int>, x: real)
    requires forall i :: 0 <= i < |groups| ==> Labelled(categories, groups[i])
    ensures var r := AddToGroup(categories, groups, key, x);
            && (forall i :: 0 <= i < |r| ==> Labelled(categories, r[i]))
            && GroupIndex(r, key).Some?
            && (forall k :: GroupIndex(groups, k).Some? ==> GroupIndex(r, k).Some?)
  {
    var r := AddToGroup(categories, groups, key, x);
    forall k | GroupIndex(groups, k).Some? ensures GroupIndex(r, k).Some? {
      var i := GroupIndex(groups, k).value;
      assert r[i].categoryId == k;
    }
    match GroupIndex(groups, key)
    case Some(i) =>
      assert r[i].categoryId == key;
    case None =>
      assert r[|groups|].categoryId == key;
  }

  /** What a transaction adds to the group of `key`. */
  function KeyContribution(periods: seq<Period>, sc: Scope, kind: TxType, key: Option<int>): Transaction -> real {
    (t: Transaction) => if t.categoryId == key then Contribution(periods, sc, kind)(t) else 0.0
  }

  /** Adding to a group keeps the keys of the existing groups, adds `x` to the
      total, and adds `x` to exactly the group of `key`. */
  lemma {:induction false} AddToGroupFacts(categories: seq<Category>, groups: seq<CategoryTotal>, key: Option<int>, x: real)
    requires DistinctKeys(groups)
    ensures var r := AddToGroup(categories, groups, key, x);
            && |groups| <= |r| <= |groups| + 1
            && DistinctKeys(r)
            && (forall j :: 0 <= j < |groups| ==> r[j].categoryId == groups[j].categoryId)
            && (|r| > |groups| ==> r[|groups|].categoryId == key && r[|groups|].total == x)
            && (forall j :: 0 <= j < |groups| ==>
                  r[j].total == groups[j].total + (if groups[j].categoryId == key then x else 0.0))
            && Sum(r, GroupTotal) == Sum(groups, GroupTotal) + x
  {
    var r := AddToGroup(categories, groups, key, x);
    match GroupIndex(groups, key)
    case Some(i) =>
      SumUpdate(groups, i, groups[i].(total := groups[i].total + x), GroupTotal);
    case None =>
      SumAppend(groups, r[|groups|], GroupTotal);
  }

  /** The grouping keeps one group per category and its groups add up to the scoped total. */
  lemma {:induction false} GroupRowsSum(categories: seq<Category>, periods: seq<Period>, sc: Scope,
                                        kind: TxType, ts: seq<Transaction>)
    ensures DistinctKeys(GroupRows(categories, periods, sc, kind, ts))
    ensures Sum(GroupRows(categories, periods, sc, kind, ts), GroupTotal)
            == Sum(ts, Contribution(periods, sc, kind))
    decreases |ts|
  {
    if |ts| > 0 {
      var n := |ts| - 1;
      GroupRowsSum(categories, periods, sc, kind, ts[..n]);
      GroupRowsSumStep(categories, periods, sc, kind, ts);
    }
  }

  lemma {:induction false} GroupRowsSumStep(categories: seq<Category>, periods: seq<Period>, sc: Scope,
                         kind: TxType, ts: seq<Transaction>)
    requires |ts| > 0
    requires DistinctKeys(GroupRows(categories, periods, sc, kind, ts[..|ts| - 1]))
    requires Sum(GroupRows(categories, periods, sc, kind, ts[..|ts| - 1]), GroupTotal)
             == Sum(ts[..|ts| - 1], Contribution(periods, sc, kind))
    ensures DistinctKeys(GroupRows(categories, periods, sc, kind, ts))
    ensures Sum(GroupRows(categories, periods, sc, kind, ts), GroupTotal)
            == Sum(ts, Contribution(periods, sc, kind))
  {
    var n := |ts| - 1;
    var t := ts[n];
    var groups := GroupRows(categories, periods, sc, kind, ts[..n]);
    var f := Contribution(periods, sc, kind);
    assert Sum(ts, f) == Sum(ts[..n], f) + f(t);
    var r := GroupRows(categories, periods, sc, kind, ts);
    if t.kind == kind && Multiplicity(periods, sc, t) != 0 {
      assert r == AddToGroup(categories, groups, t.categoryId, f(t));
      AddToGroupFacts(categories, groups, t.categoryId, f(t));
    } else {
      assert r == groups;
      assert f(t) == 0.0;
    }
  }

  lemma {:induction false} KeyContributionStep(periods: seq<Period>, sc: Scope, kind: TxType, ts: seq<Transaction>, key: Option<int>)
    requires |ts| > 0
    ensures Sum(ts, KeyContribution(periods, sc, kind, key))
            == Sum(ts[..|ts| - 1], KeyContribution(periods, sc, kind, key))
               + (if ts[|ts| - 1].categoryId == key then Contribution(periods, sc, kind)(ts[|ts| - 1]) else 0.0)
  {
  }

  /** Each group's total is the sum of what the rows `ts` add to its category. */
  predicate TotalsMatch(groups: seq<CategoryTotal>, periods: seq<Period>, sc: Scope, kind: TxType,
                        ts: seq<Transaction>) {
    forall i :: 0 <= i < |groups| ==>
      groups[i].total == Sum(ts, KeyContribution(periods, sc, kind, groups[i].categoryId))
  }

  /** A category without a group gets nothing from the rows `ts`. */
  ghost predicate MissingIsZero(groups: seq<CategoryTotal>, periods: seq<Period>, sc: Scope, kind: TxType,
                          ts: seq<Transaction>) {
    forall key :: GroupIndex(groups, key).None? ==> Sum(ts, KeyContribution(periods, sc, kind, key)) == 0.0
  }

  /** One more row keeps every group total equal to the sum over its rows. */
  lemma {:induction false} TotalsStep(categories: seq<Category>, periods: seq<Period>, sc: Scope, kind: TxType,
                   init: seq<Transaction>, t: Transaction)
    requires DistinctKeys(GroupRows(categories, periods, sc, kind, init))
    requires TotalsMatch(GroupRows(categories, periods, sc, kind, init), periods, sc, kind, init)
    requires MissingIsZero(GroupRows(categories, periods, sc, kind, init), periods, sc, kind, init)
    ensures TotalsMatch(GroupRows(categories, periods, sc, kind, init + [t]), periods, sc, kind, init + [t])
  {
    var ts := init + [t];
    assert ts[..|ts| - 1] == init;
    var groups := GroupRows(categories, periods, sc, kind, init);
    var x := Contribution(periods, sc, kind)(t);
    if t.kind != kind || Multiplicity(periods, sc, t) == 0 {
      assert GroupRows(categories, periods, sc, kind, ts) == groups;
      TotalsSkip(groups, periods, sc, kind, init, t);
    } else {
      assert GroupRows(categories, periods, sc, kind, ts) == AddToGroup(categories, groups, t.categoryId, x);
      TotalsAdd(categories, groups, periods, sc, kind, init, t);
    }
  }

  /** A row the query does not select leaves every group total as it was. */
  lemma TotalsSkip(groups: seq<CategoryTotal>, periods: seq<Period>, sc: Scope, kind: TxType,
                   init: seq<Transaction>, t: Transaction)
    requires t.kind != kind || Multiplicity(periods, sc, t) == 0
    requires TotalsMatch(groups, periods, sc, kind, init)
    ensures TotalsMatch(groups, periods, sc, kind, init + [t])
  {
    var ts := init + [t];
    assert ts[..|ts| - 1] == init;
    assert Contribution(periods, sc, kind)(t) == 0.0;
    forall i | 0 <= i < |groups|
      ensures groups[i].total == Sum(ts, KeyContribution(periods, sc, kind, groups[i].categoryId))
    {
      KeyContributionStep(periods, sc, kind, ts, groups[i].categoryId);
    }
  }

  /** A selected row adds its amount to the total of its own group only. */
  lemma TotalsAdd(categories: seq<Category>, groups: seq<CategoryTotal>, periods: seq<Period>, sc: Scope,
                  kind: TxType, init: seq<Transaction>, t: Transaction)
    requires DistinctKeys(groups)
    requires TotalsMatch(groups, periods, sc, kind, init)
    requires MissingIsZero(groups, periods, sc, kind, init)
    ensures TotalsMatch(AddToGroup(categories, groups, t.categoryId, Contribution(periods, sc, kind)(t)),
                        periods, sc, kind, init + [t])
  {
    var ts := init + [t];
    assert ts[..|ts| - 1] == init;
    var x := Contribution(periods, sc, kind)(t);
    var r := AddToGroup(categories, groups, t.categoryId, x);
    AddToGroupFacts(categories, groups, t.categoryId, x);
    forall i | 0 <= i < |r|
      ensures r[i].total == Sum(ts, KeyContribution(periods, sc, kind, r[i].categoryId))
    {
      var key := r[i].categoryId;
      KeyContributionStep(periods, sc, kind, ts, key);
      if i < |groups| {
        assert key == groups[i].categoryId;
      } else {
        assert GroupIndex(groups, t.categoryId).None?;
        assert key == t.categoryId;
        assert Sum(init, KeyContribution(periods, sc, kind, key)) == 0.0;
      }
    }
  }

  /** One more row keeps every category without a group at 0. */
  lemma {:induction false} MissingStep(categories: seq<Category>, periods: seq<Period>, sc: Scope, kind: TxType,
                    init: seq<Transaction>, t: Transaction)
    requires DistinctKeys(GroupRows(categories, periods, sc, kind, init))
    requires MissingIsZero(GroupRows(categories, periods, sc, kind, init), periods, sc, kind, init)
    ensures MissingIsZero(GroupRows(categories, periods, sc, kind, init + [t]), periods, sc, kind, init + [t])
  {
    var ts := init + [t];
    assert ts[..|ts| - 1] == init;
    var groups := GroupRows(categories, periods, sc, kind, init);
    var r := GroupRows(categories, periods, sc, kind, ts);
    var f := Contribution(periods, sc, kind);
    forall key | GroupIndex(r, key).None?
      ensures Sum(ts, KeyContribution(periods, sc, kind, key)) == 0.0
    {
      KeyContributionStep(periods, sc, kind, ts, key);
      if t.kind == kind && Multiplicity(periods, sc, t) != 0 {
        AddToGroupFacts(categories, groups, t.categoryId, f(t));
        if |r| > |groups| {
          assert r[|groups|].categoryId == t.categoryId;
        } else {
          assert GroupIndex(groups, t.categoryId).Some?;
        }
        assert GroupIndex(groups, key).None?;
      }
    }
  }

  /** Each group's total is the sum over its own rows, and a category without
      a group has nothing in scope. */
  lemma {:induction false} GroupRowsPerKey(categories: seq<Category>, periods: seq<Period>, sc: Scope,
                                           kind: TxType, ts: seq<Transaction>)
    ensures TotalsMatch(GroupRows(categories, periods, sc, kind, ts), periods, sc, kind, ts)
    ensures MissingIsZero(GroupRows(categories, periods, sc, kind, ts), periods, sc, kind, ts)
    decreases |ts|
  {
    if |ts| > 0 {
      var init := ts[..|ts| - 1];
      GroupRowsPerKey(categories, periods, sc, kind, init);
      GroupRowsSum(categories, periods, sc, kind, init);
      assert ts == init + [ts[|ts| - 1]];
      TotalsStep(categories, periods, sc, kind, init, ts[|ts| - 1]);
      MissingStep(categories, periods, sc, kind, init, ts[|ts| - 1]);
    }
  }

  /** Inserts `x` after every row whose total is at least `x`'s (a stable insertion). */
  function InsertDescending(sorted: seq<CategoryTotal>, x: CategoryTotal): (r: seq<CategoryTotal>)
    ensures |r| == |sorted| + 1
    ensures forall g :: g in r <==> g in sorted || g == x
    decreases |sorted|
  {
    if |sorted| == 0 then [x]
    else if sorted[0].total >= x.total then [sorted[0]] + InsertDescending(sorted[1..], x)
    else [x] + sorted
  }

  /** `ORDER BY total DESC`, stable with respect to first appearance. */
  function SortDescending(groups: seq<CategoryTotal>): (r: seq<CategoryTotal>)
    ensures |r| == |groups|
    ensures forall g :: g in r <==> g in groups
    decreases |groups|
  {
    if |groups| == 0 then []
    else InsertDescending(SortDescending(groups[..|groups| - 1]), groups[|groups| - 1])
  }

  predicate Descending(r: seq<CategoryTotal>) {
    forall i, j :: 0 <= i < j < |r| ==> r[i].total >= r[j].total
  }

  /** Inserting keeps the rows in descending order of total. */
  lemma {:induction false} InsertDescendingOrder(sorted: seq<CategoryTotal>, x: CategoryTotal)
    requires Descending(sorted)
    ensures Descending(InsertDescending(sorted, x))
    decreases |sorted|
  {
    if |sorted| > 0 {
      var tail := sorted[1..];
      if sorted[0].total >= x.total {
        InsertDescendingOrder(tail, x);
        var rest := InsertDescending(tail, x);
        forall j | 0 <= j < |rest| ensures sorted[0].total >= rest[j].total {
          assert rest[j] in rest;
          if rest[j] != x {
            var k :| 0 <= k < |tail| && tail[k] == rest[j];
            assert sorted[k + 1] == rest[j];
          }
        }
        var r := [sorted[0]] + rest;
        forall i, j | 0 <= i < j < |r| ensures r[i].total >= r[j].total {
          assert r[j] == rest[j - 1];
          if i > 0 {
            assert r[i] == rest[i - 1];
          }
        }
      }
    }
  }

  /** Inserting a row with a new key keeps the keys distinct. */
  lemma {:induction false} InsertDescendingKeys(sorted: seq<CategoryTotal>, x: CategoryTotal)
    requires forall i :: 0 <= i < |sorted| ==> sorted[i].categoryId != x.categoryId
    requires DistinctKeys(sorted)
    ensures DistinctKeys(InsertDescending(sorted, x))
    decreases |sorted|
  {
    if |sorted| > 0 {
      var tail := sorted[1..];
      if sorted[0].total >= x.total {
        InsertDescendingKeys(tail, x);
        var rest := InsertDescending(tail, x);
        forall j | 0 <= j < |rest| ensures sorted[0].categoryId != rest[j].categoryId {
          assert rest[j] in rest;
          if rest[j] != x {
            var k :| 0 <= k < |tail| && tail[k] == rest[j];
            assert sorted[k + 1] == rest[j];
          }
        }
        var r := [sorted[0]] + rest;
        forall i, j | 0 <= i < j < |r| ensures r[i].categoryId != r[j].categoryId {
          assert r[j] == rest[j - 1];
          if i > 0 {
            assert r[i] == rest[i - 1];
          }
        }
      } else {
        var r := [x] + sorted;
        forall i, j | 0 <= i < j < |r| ensures r[i].categoryId != r[j].categoryId {
          assert r[j] == sorted[j - 1];
          if i > 0 {
            assert r[i] == sorted[i - 1];
          }
        }
      }
    }
  }

  /** Inserting adds the row's total to the sum. */
  lemma {:induction false} InsertDescendingSum(sorted: seq<CategoryTotal>, x: CategoryTotal)
    ensures Sum(InsertDescending(sorted, x), GroupTotal) == Sum(sorted, GroupTotal) + x.total
    decreases |sorted|
  {
    if |sorted| > 0 {
      var tail := sorted[1..];
      if sorted[0].total >= x.total {
        InsertDescendingSum(tail, x);
        var rest := InsertDescending(tail, x);
        SumConcat([sorted[0]], rest, GroupTotal);
        SumConcat([sorted[0]], tail, GroupTotal);
        assert [sorted[0]] + tail == sorted;
        SumOne(sorted[0]);
      } else {
        SumConcat([x], sorted, GroupTotal);
        SumOne(x);
      }
    } else {
      SumOne(x);
    }
  }

  lemma SumOne(x: CategoryTotal)
    ensures Sum([x], GroupTotal) == x.total
  {
    assert [x][..0] == [];
  }

  lemma {:induction false} SortDescendingSound(groups: seq<CategoryTotal>)
    requires DistinctKeys(groups)
    ensures Descending(SortDescending(groups))
    ensures DistinctKeys(SortDescending(groups))
    ensures Sum(SortDescending(groups), GroupTotal) == Sum(groups, GroupTotal)
    decreases |groups|
  {
    if |groups| > 0 {
      var n := |groups| - 1;
      var init := groups[..n];
      SortDescendingSound(init);
      var sorted := SortDescending(init);
      forall i | 0 <= i < |sorted| ensures sorted[i].categoryId != groups[n].categoryId {
        assert sorted[i] in sorted;
        var k :| 0 <= k < n && init[k] == sorted[i];
      }
      InsertDescendingOrder(sorted, groups[n]);
      InsertDescendingKeys(sorted, groups[n]);
      InsertDescendingSum(sorted, groups[n]);
    }
  }

  /** `sumTransactionsByCategory(type, fiscalYearId, periodId)`: like
      `sumTransactions`, a truthy fiscal year takes precedence over the period. */
  function SumTransactionsByCategory(s: State, kind: TxType, fiscalYearId: Option<int>, periodId: Option<int>)
    : (r: seq<CategoryTotal>)
    ensures Descending(r)
    ensures DistinctKeys(r)
    ensures Sum(r, GroupTotal) == SumTransactions(s, kind, periodId, fiscalYearId)
  {
    var sc := TransactionScope(periodId, fiscalYearId);
    var groups := GroupRows(s.categories, s.periods, sc, kind, s.transactions);
    GroupRowsSum(s.categories, s.periods, sc, kind, s.transactions);
    SortDescendingSound(groups);
    SortDescending(groups)
  }

  /** Every row of the breakdown is the total of its own category's rows and
      carries that category's name and icon (None when the left join finds no
      category); every category with a row in scope is listed, and a category
      missing from the breakdown sums to 0. */
  lemma ByCategoryTotals(s: State, kind: TxType, fiscalYearId: Option<int>, periodId: Option<int>)
    ensures var sc := TransactionScope(periodId, fiscalYearId);
            var r := SumTransactionsByCategory(s, kind, fiscalYearId, periodId);
            && (forall i :: 0 <= i < |r| ==>
                  r[i].total == Sum(s.transactions, KeyContribution(s.periods, sc, kind, r[i].categoryId)))
            && (forall key :: (forall i :: 0 <= i < |r| ==> r[i].categoryId != key) ==>
                  Sum(s.transactions, KeyContribution(s.periods, sc, kind, key)) == 0.0)
    ensures var r := SumTransactionsByCategory(s, kind, fiscalYearId, periodId);
            forall i :: 0 <= i < |r| ==>
              r[i].name == CategoryName(s.categories, r[i].categoryId)
              && r[i].icon == CategoryIcon(s.categories, r[i].categoryId)
    ensures var sc := TransactionScope(periodId, fiscalYearId);
            var r := SumTransactionsByCategory(s, kind, fiscalYearId, periodId);
            forall j :: 0 <= j < |s.transactions| && s.transactions[j].kind == kind
                        && Multiplicity(s.periods, sc, s.transactions[j]) > 0 ==>
              exists i :: 0 <= i < |r| && r[i].categoryId == s.transactions[j].categoryId
  {
    ByCategoryListing(s, kind, fiscalYearId, periodId);
    var sc := TransactionScope(periodId, fiscalYearId);
    var groups := GroupRows(s.categories, s.periods, sc, kind, s.transactions);
    GroupRowsPerKey(s.categories, s.periods, sc, kind, s.transactions);
    var r := SumTransactionsByCategory(s, kind, fiscalYearId, periodId);
    assert r == SortDescending(groups);
    forall i | 0 <= i < |r|
      ensures r[i].total == Sum(s.transactions, KeyContribution(s.periods, sc, kind, r[i].categoryId))
    {
      assert r[i] in r;
      var k :| 0 <= k < |groups| && groups[k] == r[i];
    }
    forall key | forall i :: 0 <= i < |r| ==> r[i].categoryId != key
      ensures Sum(s.transactions, KeyContribution(s.periods, sc, kind, key)) == 0.0
    {
      forall k | 0 <= k < |groups| ensures groups[k].categoryId != key {
        assert groups[k] in r;
      }
      assert GroupIndex(groups, key).None?;
    }
  }

  /** The labels and completeness of the breakdown, carried over the sort. */
  lemma ByCategoryListing(s: State, kind: TxType, fiscalYearId: Option<int>, periodId: Option<int>)
    ensures var r := SumTransactionsByCategory(s, kind, fiscalYearId, periodId);
            forall i :: 0 <= i < |r| ==> Labelled(s.categories, r[i])
    ensures var sc := TransactionScope(periodId, fiscalYearId);
            var r := SumTransactionsByCategory(s, kind, fiscalYearId, periodId);
            forall j :: 0 <= j < |s.transactions| && s.transactions[j].kind == kind
                        && Multiplicity(s.periods, sc, s.transactions[j]) > 0 ==>
              exists i :: 0 <= i < |r| && r[i].categoryId == s.transactions[j].categoryId
  {
    var sc := TransactionScope(periodId, fiscalYearId);
    var groups := GroupRows(s.categories, s.periods, sc, kind, s.transactions);
    GroupRowsLabelledComplete(s.categories, s.periods, sc, kind, s.transactions);
    var r := SumTransactionsByCategory(s, kind, fiscalYearId, periodId);
    assert r == SortDescending(groups);
    forall i | 0 <= i < |r| ensures Labelled(s.categories, r[i]) {
      assert r[i] in r;
      var k :| 0 <= k < |groups| && groups[k] == r[i];
    }
    forall j | 0 <= j < |s.transactions| && s.transactions[j].kind == kind
               && Multiplicity(s.periods, sc, s.transactions[j]) > 0
      ensures exists i :: 0 <= i < |r| && r[i].categoryId == s.transactions[j].categoryId
    {
      var k := GroupIndex(groups, s.transactions[j].categoryId).value;
      assert groups[k] in r;
      var i :| 0 <= i < |r| && r[i] == groups[k];
    }
  }

  // --- The running totals behind the cash formula ---

  function DividendAmount(d: Dividend): real { d.totalAmount }
  function Principal(l: Loan): real { l.principal }
  function PaymentAmount(p: LoanPayment): real { p.amount }
  function PrincipalPart(p: LoanPayment): real { p.principalPart }
  /** `total_value - remaining_balance` of one lease. */
  function LeaseCapitalPaid(l: Lease): real { l.totalValue - l.remainingBalance }
  /** `purchase_price` of an asset that did not come from a lease, else 0. */
  function DirectPurchase(a: Asset): real { if a.fromLeaseId.None? then a.purchasePrice else 0.0 }
  /** `sold_price` of a sold asset, else 0. */
  function SaleProceeds(a: Asset): real { if a.soldPrice.Some? then a.soldPrice.value else 0.0 }

  function TotalDividendsPaid(s: State): real { Sum(s.dividends, DividendAmount) }
  function TotalLoanProceeds(s: State): real { Sum(s.loans, Principal) }
  function TotalLoanPaymentsMade(s: State): real { Sum(s.loanPayments, PaymentAmount) }
  function TotalLoanPrincipalPayments(s: State): real { Sum(s.loanPayments, PrincipalPart) }
  function TotalLeaseCapitalOutflow(s: State): real { Sum(s.leases, LeaseCapitalPaid) }
  function TotalAssetPurchases(s: State): real { Sum(s.assets, DirectPurchase) }
  function TotalAssetSales(s: State): real { Sum(s.assets, SaleProceeds) }

  function Price(a: Asset): real { a.purchasePrice }
  function SoldPrice(a: Asset): real { a.soldPrice.GetOr(0.0) }
  predicate NotLeased(a: Asset) { a.fromLeaseId.None? }
  predicate HasSalePrice(a: Asset) { a.soldPrice.Some? }

  /** The `WHERE` clauses of the asset totals: purchases count only assets with
      no lease, sales only assets with a sale price. */
  lemma AssetTotalsSelect(s: State)
    ensures TotalAssetPurchases(s) == Sum(Filter(s.assets, NotLeased), Price)
    ensures TotalAssetSales(s) == Sum(Filter(s.assets, HasSalePrice), SoldPrice)
  {
    SumFilter(s.assets, NotLeased, Price, DirectPurchase);
    SumFilter(s.assets, HasSalePrice, SoldPrice, SaleProceeds);
  }
}
