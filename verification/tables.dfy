/** The store the engine works on: one record type per table, the settings
    with the defaults the application falls back to, and the row-level
    primitives of src/db/queries.ts (insert with a fresh id, update by id,
    "current" row selection, month naming). */
module Tables {
  import opened Base

  datatype TxType = Revenue | Expense
  datatype AssetType = Vehicle | Implement | Building | Land
  datatype LeaseStatus = LeaseActive | Purchased | Returned
  datatype LoanStatus = LoanActive | PaidOff
  datatype DividendType = Mandatory | Manual

  datatype FiscalYear = FiscalYear(
    id: int, name: string, startedAt: string, closedAt: Option<string>, openingCash: real)

  /** `name` is None where the month lookup read past the month table (stored as NULL). */
  datatype Period = Period(
    id: int, fiscalYearId: int, name: Option<string>, startedAt: string, closedAt: Option<string>,
    depreciationBooked: real)

  datatype Category = Category(id: int, name: string, kind: TxType, icon: string)

  datatype Transaction = Transaction(
    id: int, periodId: int, date: string, title: string, amount: real, kind: TxType,
    categoryId: Option<int>, notes: Option<string>)

  datatype Asset = Asset(
    id: int, name: string, assetType: AssetType, purchasePrice: real, purchaseDate: string,
    depreciationYears: Option<int>, accumulatedDepreciation: real, fromLeaseId: Option<int>,
    soldDate: Option<string>, soldPrice: Option<real>)

  datatype Lease = Lease(
    id: int, name: string, totalValue: real, initialPayment: real, monthlyPayment: real,
    durationMonths: int, residualValue: real, startDate: string, paymentsMade: int,
    status: LeaseStatus, interestRate: real, remainingBalance: real)

  datatype Loan = Loan(
    id: int, name: string, principal: real, interestRate: real, monthlyPayment: real,
    startDate: string, remainingBalance: real, status: LoanStatus)

  datatype LoanPayment = LoanPayment(
    id: int, loanId: int, periodId: int, amount: real, principalPart: real,
    interestPart: real, date: string)

  /** `perShare` is None where the source divides by a share count of 0. */
  datatype Dividend = Dividend(
    id: int, fiscalYearId: Option<int>, totalAmount: real, perShare: Option<real>,
    kind: DividendType, date: string)

  datatype Snapshot = Snapshot(
    id: int, periodId: Option<int>, date: string, cash: real, totalAssetNbv: real,
    totalDebt: real, totalLeaseObligations: real, valuation: real, sharePrice: real)

  /** The settings table, already parsed; None is a missing key. */
  datatype Settings = Settings(
    saveName: Option<string>, initialCapital: Option<real>, totalShares: Option<real>,
    investorShares: Option<real>, farmShares: Option<real>, initialSharePrice: Option<real>,
    buybackMultiplier: Option<real>, accumulatedLosses: Option<real>, taxRate: Option<real>,
    depYearsVehicle: Option<int>, depYearsImplement: Option<int>, depYearsBuilding: Option<int>,
    startMonth: Option<int>, setupComplete: bool)

  datatype State = State(
    settings: Settings,
    fiscalYears: seq<FiscalYear>,
    periods: seq<Period>,
    categories: seq<Category>,
    transactions: seq<Transaction>,
    assets: seq<Asset>,
    leases: seq<Lease>,
    loans: seq<Loan>,
    loanPayments: seq<LoanPayment>,
    dividends: seq<Dividend>,
    snapshots: seq<Snapshot>)

  /** Why a command left the store untouched: the three form errors the
      handlers show ("No open period", "Please fill in all required fields",
      "Amount must be greater than zero") and their silent early returns. */
  datatype Reason =
    | NoOpenPeriod | NoOpenYear | NoSelection | MissingField | InvalidAmount
    | NotFound | NothingToPay | NonFinitePayment

  /** Every command either applies in full or changes nothing. */
  datatype Outcome = Applied(state: State) | Rejected(reason: Reason)

  function Unchanged(s: State, o: Outcome): State {
    if o.Applied? then o.state else s
  }

  // --- Settings, with the fallbacks the source uses when a key is missing ---

  const NoSettings := Settings(None, None, None, None, None, None, None, None, None,
                               None, None, None, None, false)

  function InitialCapital(st: Settings): real { st.initialCapital.GetOr(500000.0) }
  function TotalShares(st: Settings): real { st.totalShares.GetOr(5000.0) }
  function InvestorShares(st: Settings): real { st.investorShares.GetOr(2500.0) }
  function InitialSharePrice(st: Settings): real { st.initialSharePrice.GetOr(100.0) }
  function BuybackMultiplier(st: Settings): real { st.buybackMultiplier.GetOr(4.0) }
  function AccumulatedLosses(st: Settings): real { st.accumulatedLosses.GetOr(0.0) }
  function TaxRatePercent(st: Settings): real { st.taxRate.GetOr(25.0) }
  function StartMonth(st: Settings): int { st.startMonth.GetOr(8) }

  predicate ValidStartMonth(st: Settings) {
    1 <= StartMonth(st) <= 12
  }

  // --- Month names ---

  const MonthNames: seq<string> := [
    "January", "February", "March", "April", "May", "June",
    "July", "August", "September", "October", "November", "December"]

  /** `getMonthName(startMonth, periodIndex)`: `MONTH_NAMES[(startMonth - 1 + periodIndex) % 12]`.
      JavaScript's `%` keeps the sign of the dividend, so a negative index reads
      past the table (undefined) unless it is a multiple of 12 (`-0` reads January). */
  function MonthName(startMonth: int, periodIndex: nat): (name: Option<string>)
    ensures name.Some? ==> name.value in MonthNames
  {
    var n := (startMonth - 1) + periodIndex;
    if n >= 0 then Some(MonthNames[n % 12])
    else if n % 12 == 0 then Some(MonthNames[0])
    else None
  }

  /** For a start month in 1..12 every index names a month, index 0 names the
      start month itself, and names repeat every 12 periods. */
  lemma MonthNameCycle(startMonth: int, periodIndex: nat)
    requires 1 <= startMonth <= 12
    ensures MonthName(startMonth, periodIndex).Some?
    ensures MonthName(startMonth, 0) == Some(MonthNames[startMonth - 1])
    ensures MonthName(startMonth, periodIndex + 12) == MonthName(startMonth, periodIndex)
  {
    var n := (startMonth - 1) + periodIndex;
    var m := n % 12;
    ModTwelveShift(n);
    assert MonthName(startMonth, periodIndex) == Some(MonthNames[m]);
    assert MonthName(startMonth, periodIndex + 12) == Some(MonthNames[m]);
  }

  lemma ModTwelveShift(n: nat)
    ensures (n + 12) % 12 == n % 12
  {
  }

  /** Outside 1..12: a start month past 12 names what the start month 12
      lower names; when the position `startMonth - 1 + periodIndex` is
      negative (a start month below 1 and a small index) JavaScript's `%`
      reads past the table, and there is a name, January, exactly when the
      position is a multiple of 12. */
  lemma MonthNameOutOfRange(startMonth: int, periodIndex: nat)
    ensures startMonth > 12 ==> MonthName(startMonth, periodIndex) == MonthName(startMonth - 12, periodIndex)
    ensures startMonth - 1 + periodIndex < 0 ==>
              (MonthName(startMonth, periodIndex).Some? <==> (startMonth - 1 + periodIndex) % 12 == 0)
    ensures startMonth - 1 + periodIndex < 0 && MonthName(startMonth, periodIndex).Some? ==>
              MonthName(startMonth, periodIndex) == Some("January")
    ensures startMonth - 1 + periodIndex >= 0 ==> MonthName(startMonth, periodIndex).Some?
  {
    if startMonth > 12 {
      ModTwelveShift(startMonth - 13 + periodIndex);
    }
  }

  // --- Ids ---

  /** SQLite's next rowid: one more than the largest id in the table. */
  function NextId<T>(rows: seq<T>, id: T -> int): (n: int)
    ensures n >= 1
    ensures forall i :: 0 <= i < |rows| ==> id(rows[i]) < n
    decreases |rows|
  {
    if |rows| == 0 then 1
    else
      var rest := NextId(rows[..|rows| - 1], id);
      var last := id(rows[|rows| - 1]);
      if last + 1 > rest then last + 1 else rest
  }

  /** The row with the largest id among those `keep` selects
      (`... WHERE <keep> ORDER BY id DESC LIMIT 1`). */
  function LatestWhere<T>(rows: seq<T>, keep: T -> bool, id: T -> int): (r: Option<T>)
    ensures r.None? <==> forall i :: 0 <= i < |rows| ==> !keep(rows[i])
    ensures r.Some? ==> r.value in rows && keep(r.value)
    ensures r.Some? ==> forall i :: 0 <= i < |rows| && keep(rows[i]) ==> id(rows[i]) <= id(r.value)
    decreases |rows|
  {
    if |rows| == 0 then None
    else
      var rest := LatestWhere(rows[..|rows| - 1], keep, id);
      var last := rows[|rows| - 1];
      if !keep(last) then rest
      else if rest.Some? && id(rest.value) > id(last) then rest
      else Some(last)
  }

  /** The row with the smallest id among those `keep` selects (`.find` over rows ordered by id). */
  function EarliestWhere<T>(rows: seq<T>, keep: T -> bool, id: T -> int): (r: Option<T>)
    ensures r.None? <==> forall i :: 0 <= i < |rows| ==> !keep(rows[i])
    ensures r.Some? ==> r.value in rows && keep(r.value)
    ensures r.Some? ==> forall i :: 0 <= i < |rows| && keep(rows[i]) ==> id(r.value) <= id(rows[i])
    decreases |rows|
  {
    if |rows| == 0 then None
    else
      var rest := EarliestWhere(rows[..|rows| - 1], keep, id);
      var last := rows[|rows| - 1];
      if !keep(last) then rest
      else if rest.Some? && id(rest.value) <= id(last) then rest
      else Some(last)
  }

  /** Appending a row whose id is fresh makes it the latest kept row, if it is kept. */
  lemma LatestIsFresh<T>(rows: seq<T>, x: T, keep: T -> bool, id: T -> int)
    requires keep(x) && id(x) == NextId(rows, id)
    ensures LatestWhere(rows + [x], keep, id) == Some(x)
  {
    var r := LatestWhere(rows + [x], keep, id);
    var k :| 0 <= k < |rows + [x]| && (rows + [x])[k] == r.value;
    if k < |rows| {
      assert id(rows[k]) < NextId(rows, id);
    }
  }

  function FiscalYearId(f: FiscalYear): int { f.id }
  function PeriodId(p: Period): int { p.id }
  function TransactionId(t: Transaction): int { t.id }
  function AssetId(a: Asset): int { a.id }
  function LeaseId(l: Lease): int { l.id }
  function LoanId(l: Loan): int { l.id }
  function LoanPaymentId(p: LoanPayment): int { p.id }
  function DividendId(d: Dividend): int { d.id }
  function SnapshotId(v: Snapshot): int { v.id }

  /** `rows.find((r) => r.id === key)`, and `SELECT ... WHERE id = ?` without an
      order: the first row with that id. */
  function FindById<T>(rows: seq<T>, id: T -> int, key: int): (r: Option<T>)
    ensures r.Some? ==> r.value in rows && id(r.value) == key
    ensures r.None? ==> forall i :: 0 <= i < |rows| ==> id(rows[i]) != key
    decreases |rows|
  {
    if |rows| == 0 then None
    else if id(rows[0]) == key then Some(rows[0])
    else FindById(rows[1..], id, key)
  }

  /** The lookup returns the first row with the key: the one at `i` when no
      earlier row has it. */
  lemma {:induction false} FindByIdFirst<T>(rows: seq<T>, id: T -> int, key: int, i: nat)
    requires i < |rows| && id(rows[i]) == key
    requires forall j :: 0 <= j < i ==> id(rows[j]) != key
    ensures FindById(rows, id, key) == Some(rows[i])
    decreases i
  {
    if i > 0 {
      assert id(rows[0]) != key;
      FindByIdFirst(rows[1..], id, key, i - 1);
    }
  }

  /** `rows'` is `rows` with `x` added under a fresh id: every earlier id is
      smaller, the lookup of the new id reads back `x`, and every other lookup
      finds what it found before. */
  ghost predicate AppendedFresh<T>(rows: seq<T>, rows': seq<T>, x: T, id: T -> int) {
    && (forall i :: 0 <= i < |rows| ==> id(rows[i]) < id(x))
    && FindById(rows', id, id(x)) == Some(x)
    && (forall key :: key != id(x) ==> FindById(rows', id, key) == FindById(rows, id, key))
  }

  /** A lookup in a table with one more row at the end: the earlier rows are searched first. */
  lemma {:induction false} FindInAppended<T>(rows: seq<T>, x: T, id: T -> int, key: int)
    ensures FindById(rows + [x], id, key)
            == if FindById(rows, id, key).Some? then FindById(rows, id, key)
               else if id(x) == key then Some(x) else None
    decreases |rows|
  {
    if |rows| == 0 {
      assert rows + [x] == [x] && [x][1..] == [];
    } else {
      assert (rows + [x])[0] == rows[0];
      assert (rows + [x])[1..] == rows[1..] + [x];
      FindInAppended(rows[1..], x, id, key);
    }
  }

  /** Inserting with `NextId` appends a fresh row. */
  lemma AppendFreshRow<T>(rows: seq<T>, x: T, id: T -> int)
    requires id(x) == NextId(rows, id)
    ensures AppendedFresh(rows, rows + [x], x, id)
  {
    FindInAppended(rows, x, id, id(x));
    forall key | key != id(x) ensures FindById(rows + [x], id, key) == FindById(rows, id, key) {
      FindInAppended(rows, x, id, key);
    }
  }

  /** `UPDATE ... SET ... WHERE id = ?`: applies `f` to every row with that id. */
  function UpdateById<T>(rows: seq<T>, id: T -> int, key: int, f: T -> T): (r: seq<T>)
    ensures |r| == |rows|
    ensures forall i :: 0 <= i < |r| && id(rows[i]) == key ==> r[i] == f(rows[i])
    ensures forall i :: 0 <= i < |r| && id(rows[i]) != key ==> r[i] == rows[i]
  {
    seq(|rows|, i requires 0 <= i < |rows| => if id(rows[i]) == key then f(rows[i]) else rows[i])
  }

  predicate FiscalYearOpen(f: FiscalYear) { f.closedAt.None? }
  predicate PeriodOpen(p: Period) { p.closedAt.None? }

  /** `getCurrentFiscalYear`: the open fiscal year with the largest id. */
  function CurrentFiscalYear(s: State): Option<FiscalYear> {
    LatestWhere(s.fiscalYears, FiscalYearOpen, FiscalYearId)
  }

  /** `getCurrentPeriod`: the open period with the largest id, whatever its year. */
  function CurrentPeriod(s: State): Option<Period> {
    LatestWhere(s.periods, PeriodOpen, PeriodId)
  }

  function InYear(fiscalYearId: int): Period -> bool {
    (p: Period) => p.fiscalYearId == fiscalYearId
  }

  /** `getPeriods(db, fiscalYearId)`: a falsy id (0) lists every period. */
  function PeriodsOf(periods: seq<Period>, fiscalYearId: int): (r: seq<Period>)
    ensures fiscalYearId != 0 ==> forall i :: 0 <= i < |r| ==> r[i].fiscalYearId == fiscalYearId
  {
    if fiscalYearId != 0 then Filter(periods, InYear(fiscalYearId)) else periods
  }

  /** The listing of a year holds that year's periods, every one of them and
      nothing else; a falsy id (0) lists every period. */
  lemma PeriodsOfSelects(periods: seq<Period>, fiscalYearId: int)
    ensures var r := PeriodsOf(periods, fiscalYearId);
            && (fiscalYearId != 0 ==> forall i :: 0 <= i < |r| ==> r[i] in periods && r[i].fiscalYearId == fiscalYearId)
            && (fiscalYearId != 0 ==>
                  forall i :: 0 <= i < |periods| && periods[i].fiscalYearId == fiscalYearId ==> periods[i] in r)
            && (fiscalYearId == 0 ==> r == periods)
  {
  }

  /** The fiscal year of the first period row with id `periodId` (the join `t.period_id = p.id`). */
  function PeriodYear(periods: seq<Period>, periodId: int): (r: Option<int>)
    ensures r.Some? ==> exists i :: 0 <= i < |periods| && periods[i].id == periodId
                                    && periods[i].fiscalYearId == r.value
    ensures r.None? ==> forall i :: 0 <= i < |periods| ==> periods[i].id != periodId
    decreases |periods|
  {
    if |periods| == 0 then None
    else if periods[0].id == periodId then Some(periods[0].fiscalYearId)
    else PeriodYear(periods[1..], periodId)
  }

  /** Id of the first category named `name` (of type `kind`, when given); None is "uncategorized". */
  function FindCategory(categories: seq<Category>, name: string, kind: Option<TxType>): (r: Option<int>)
    ensures r.Some? ==> exists i :: 0 <= i < |categories| && categories[i].id == r.value
                          && categories[i].name == name && (kind.Some? ==> categories[i].kind == kind.value)
    ensures r.None? ==> forall i :: 0 <= i < |categories| ==>
                          categories[i].name != name || (kind.Some? && categories[i].kind != kind.value)
    decreases |categories|
  {
    if |categories| == 0 then None
    else if categories[0].name == name && (kind.None? || categories[0].kind == kind.value)
    then Some(categories[0].id)
    else FindCategory(categories[1..], name, kind)
  }

  /** The category lookup returns the first match: the one at `i` when no
      earlier category matches. */
  lemma {:induction false} FindCategoryFirst(categories: seq<Category>, name: string, kind: Option<TxType>, i: nat)
    requires i < |categories| && categories[i].name == name && (kind.Some? ==> categories[i].kind == kind.value)
    requires forall j :: 0 <= j < i ==>
               categories[j].name != name || (kind.Some? && categories[j].kind != kind.value)
    ensures FindCategory(categories, name, kind) == Some(categories[i].id)
    decreases i
  {
    if i > 0 {
      assert categories[0].name != name || (kind.Some? && categories[0].kind != kind.value);
      FindCategoryFirst(categories[1..], name, kind, i - 1);
    }
  }

  // --- Row primitives of src/db/queries.ts ---

  /** `createTransaction`. */
  function InsertTransaction(s: State, periodId: int, date: string, title: string, amount: real,
                             kind: TxType, categoryId: Option<int>, notes: Option<string>): (s': State)
    ensures s'.transactions == s.transactions + [Transaction(NextId(s.transactions, TransactionId),
              periodId, date, title, amount, kind, categoryId, notes)]
    ensures s'.(transactions := s.transactions) == s
  {
    var t := Transaction(NextId(s.transactions, TransactionId), periodId, date, title, amount, kind,
                         categoryId, notes);
    s.(transactions := s.transactions + [t])
  }

  /** `createAsset`: accumulated depreciation starts at 0, the asset is unsold. */
  function InsertAsset(s: State, name: string, assetType: AssetType, price: real, date: string,
                       years: Option<int>, fromLeaseId: Option<int>): (s': State)
    ensures s'.assets == s.assets + [Asset(NextId(s.assets, AssetId), name, assetType, price, date,
              years, 0.0, fromLeaseId, None, None)]
    ensures s'.(assets := s.assets) == s
  {
    s.(assets := s.assets + [Asset(NextId(s.assets, AssetId), name, assetType, price, date,
                                   years, 0.0, fromLeaseId, None, None)])
  }

  /** `sellAsset`: records sale date and price on every row with that id. */
  function SellAssetRows(assets: seq<Asset>, id: int, date: string, price: real): (r: seq<Asset>)
    ensures |r| == |assets|
    ensures forall i :: 0 <= i < |r| && assets[i].id == id ==>
              r[i] == assets[i].(soldDate := Some(date), soldPrice := Some(price))
    ensures forall i :: 0 <= i < |r| && assets[i].id != id ==> r[i] == assets[i]
  {
    seq(|assets|, i requires 0 <= i < |assets| =>
      if assets[i].id == id then assets[i].(soldDate := Some(date), soldPrice := Some(price))
      else assets[i])
  }

  /** `createPeriod`: a new open period with nothing booked. */
  function InsertPeriod(s: State, fiscalYearId: int, name: Option<string>, startedAt: string): (s': State)
    ensures s'.periods == s.periods + [Period(NextId(s.periods, PeriodId), fiscalYearId, name,
              startedAt, None, 0.0)]
    ensures s'.(periods := s.periods) == s
  {
    s.(periods := s.periods + [Period(NextId(s.periods, PeriodId), fiscalYearId, name, startedAt,
                                      None, 0.0)])
  }

  /** `closePeriod`: closes every row with that id and stores the depreciation booked for it. */
  function ClosePeriodRows(periods: seq<Period>, id: int, closedAt: string, booked: real): (r: seq<Period>)
    ensures |r| == |periods|
    ensures forall i :: 0 <= i < |r| && periods[i].id == id ==>
              r[i] == periods[i].(closedAt := Some(closedAt), depreciationBooked := booked)
    ensures forall i :: 0 <= i < |r| && periods[i].id != id ==> r[i] == periods[i]
  {
    seq(|periods|, i requires 0 <= i < |periods| =>
      if periods[i].id == id then periods[i].(closedAt := Some(closedAt), depreciationBooked := booked)
      else periods[i])
  }

  /** `createFiscalYear`. */
  function InsertFiscalYear(s: State, name: string, startedAt: string, openingCash: real): (s': State)
    ensures s'.fiscalYears == s.fiscalYears + [FiscalYear(NextId(s.fiscalYears, FiscalYearId), name,
              startedAt, None, openingCash)]
    ensures s'.(fiscalYears := s.fiscalYears) == s
  {
    s.(fiscalYears := s.fiscalYears + [FiscalYear(NextId(s.fiscalYears, FiscalYearId), name,
                                                  startedAt, None, openingCash)])
  }

  /** `closeFiscalYear`. */
  function CloseFiscalYearRows(years: seq<FiscalYear>, id: int, closedAt: string): (r: seq<FiscalYear>)
    ensures |r| == |years|
    ensures forall i :: 0 <= i < |r| && years[i].id == id ==> r[i] == years[i].(closedAt := Some(closedAt))
    ensures forall i :: 0 <= i < |r| && years[i].id != id ==> r[i] == years[i]
  {
    seq(|years|, i requires 0 <= i < |years| =>
      if years[i].id == id then years[i].(closedAt := Some(closedAt)) else years[i])
  }

  /** `createDividend`. */
  function InsertDividend(s: State, fiscalYearId: Option<int>, total: real, perShare: Option<real>,
                          kind: DividendType, date: string): (s': State)
    ensures s'.dividends == s.dividends + [Dividend(NextId(s.dividends, DividendId), fiscalYearId,
              total, perShare, kind, date)]
    ensures s'.(dividends := s.dividends) == s
  {
    s.(dividends := s.dividends + [Dividend(NextId(s.dividends, DividendId), fiscalYearId, total,
                                            perShare, kind, date)])
  }

  /** `createValuationSnapshot`. */
  function InsertSnapshot(s: State, periodId: Option<int>, date: string, cash: real, nbv: real,
                          debt: real, leaseObligations: real, valuation: real, sharePrice: real): (s': State)
    ensures s'.snapshots == s.snapshots + [Snapshot(NextId(s.snapshots, SnapshotId), periodId, date,
              cash, nbv, debt, leaseObligations, valuation, sharePrice)]
    ensures s'.(snapshots := s.snapshots) == s
  {
    s.(snapshots := s.snapshots + [Snapshot(NextId(s.snapshots, SnapshotId), periodId, date, cash,
                                            nbv, debt, leaseObligations, valuation, sharePrice)])
  }

  // --- What the inserts promise their callers ---

  /** A new transaction reads back by its id with the fields written; nothing
      else in the store changes. */
  lemma InsertTransactionFresh(s: State, periodId: int, date: string, title: string, amount: real,
                               kind: TxType, categoryId: Option<int>, notes: Option<string>)
    ensures var t := Transaction(NextId(s.transactions, TransactionId), periodId, date, title, amount, kind,
                                 categoryId, notes);
            var s' := InsertTransaction(s, periodId, date, title, amount, kind, categoryId, notes);
            AppendedFresh(s.transactions, s'.transactions, t, TransactionId) && s'.(transactions := s.transactions) == s
  {
    AppendFreshRow(s.transactions, Transaction(NextId(s.transactions, TransactionId), periodId, date, title, amount,
                                               kind, categoryId, notes), TransactionId);
  }

  /** A new asset reads back by its id, unsold and with nothing depreciated yet. */
  lemma InsertAssetFresh(s: State, name: string, assetType: AssetType, price: real, date: string,
                         years: Option<int>, fromLeaseId: Option<int>)
    ensures var a := Asset(NextId(s.assets, AssetId), name, assetType, price, date, years, 0.0, fromLeaseId, None, None);
            var s' := InsertAsset(s, name, assetType, price, date, years, fromLeaseId);
            AppendedFresh(s.assets, s'.assets, a, AssetId) && s'.(assets := s.assets) == s
  {
    AppendFreshRow(s.assets, Asset(NextId(s.assets, AssetId), name, assetType, price, date, years, 0.0,
                                   fromLeaseId, None, None), AssetId);
  }

  /** A new month reads back by its id, open with nothing booked, and becomes
      the current month. */
  lemma InsertPeriodFresh(s: State, fiscalYearId: int, name: Option<string>, startedAt: string)
    ensures var p := Period(NextId(s.periods, PeriodId), fiscalYearId, name, startedAt, None, 0.0);
            var s' := InsertPeriod(s, fiscalYearId, name, startedAt);
            && AppendedFresh(s.periods, s'.periods, p, PeriodId) && s'.(periods := s.periods) == s
            && CurrentPeriod(s') == Some(p)
  {
    var p := Period(NextId(s.periods, PeriodId), fiscalYearId, name, startedAt, None, 0.0);
    AppendFreshRow(s.periods, p, PeriodId);
    LatestIsFresh(s.periods, p, PeriodOpen, PeriodId);
  }

  /** A new fiscal year reads back by its id, open with its opening cash, and
      becomes the current year. */
  lemma InsertFiscalYearFresh(s: State, name: string, startedAt: string, openingCash: real)
    ensures var y := FiscalYear(NextId(s.fiscalYears, FiscalYearId), name, startedAt, None, openingCash);
            var s' := InsertFiscalYear(s, name, startedAt, openingCash);
            && AppendedFresh(s.fiscalYears, s'.fiscalYears, y, FiscalYearId) && s'.(fiscalYears := s.fiscalYears) == s
            && CurrentFiscalYear(s') == Some(y)
  {
    var y := FiscalYear(NextId(s.fiscalYears, FiscalYearId), name, startedAt, None, openingCash);
    AppendFreshRow(s.fiscalYears, y, FiscalYearId);
    LatestIsFresh(s.fiscalYears, y, FiscalYearOpen, FiscalYearId);
  }

  /** A new dividend reads back by its id with the fields written. */
  lemma InsertDividendFresh(s: State, fiscalYearId: Option<int>, total: real, perShare: Option<real>,
                            kind: DividendType, date: string)
    ensures var d := Dividend(NextId(s.dividends, DividendId), fiscalYearId, total, perShare, kind, date);
            var s' := InsertDividend(s, fiscalYearId, total, perShare, kind, date);
            AppendedFresh(s.dividends, s'.dividends, d, DividendId) && s'.(dividends := s.dividends) == s
  {
    AppendFreshRow(s.dividends, Dividend(NextId(s.dividends, DividendId), fiscalYearId, total, perShare, kind, date),
                   DividendId);
  }

  /** A new snapshot reads back by its id holding the figures given. */
  lemma InsertSnapshotFresh(s: State, periodId: Option<int>, date: string, cash: real, nbv: real,
                            debt: real, leaseObligations: real, valuation: real, sharePrice: real)
    ensures var v := Snapshot(NextId(s.snapshots, SnapshotId), periodId, date, cash, nbv, debt, leaseObligations,
                              valuation, sharePrice);
            var s' := InsertSnapshot(s, periodId, date, cash, nbv, debt, leaseObligations, valuation, sharePrice);
            AppendedFresh(s.snapshots, s'.snapshots, v, SnapshotId) && s'.(snapshots := s.snapshots) == s
  {
    AppendFreshRow(s.snapshots, Snapshot(NextId(s.snapshots, SnapshotId), periodId, date, cash, nbv, debt,
                                         leaseObligations, valuation, sharePrice), SnapshotId);
  }
}
