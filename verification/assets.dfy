/** The asset handlers of src/components/Assets.tsx: buying, selling with a
    capital gain or loss, and the straight-line depreciation schedule. */
module AssetCommands {
  import opened Base
  import opened Tables
  import opened Depreciation
  import opened AssetConfig
  import opened Ledger
  import opened Calculations

  /** `assets.find((a) => a.id === id)`. */
  function FindAsset(assets: seq<Asset>, id: int): Option<Asset> {
    FindById(assets, AssetId, id)
  }

  /** `handleBuy`: `price` is None when the text does not parse. */
  function BuyAsset(s: State, name: string, assetType: AssetType, price: Option<real>, date: string): (o: Outcome)
    ensures CurrentPeriod(s).None? ==> o == Rejected(NoOpenPeriod)
    ensures CurrentPeriod(s).Some? && name == "" ==> o == Rejected(MissingField)
    ensures CurrentPeriod(s).Some? && name != "" && (price.None? || price.value <= 0.0) ==>
              o == Rejected(InvalidAmount)
    ensures o.Applied? <==> CurrentPeriod(s).Some? && name != "" && price.Some? && price.value > 0.0
    ensures o.Applied? ==>
              && o.state.assets == s.assets + [Asset(NextId(s.assets, AssetId), name, assetType, price.value, date,
                                                     DepreciationYears(s.settings, assetType), 0.0, None, None, None)]
              && o.state.(assets := s.assets) == s
  {
    if CurrentPeriod(s).None? then Rejected(NoOpenPeriod)
    else if name == "" then Rejected(MissingField)
    else if price.None? || price.value <= 0.0 then Rejected(InvalidAmount)
    else Applied(InsertAsset(s, name, assetType, price.value, date, DepreciationYears(s.settings, assetType), None))
  }

  /** Buying an asset moves its price from cash into net book value:
      cash falls by the price, the asset total rises by it, valuation is unchanged. */
  lemma BuyKeepsValuation(s: State, name: string, assetType: AssetType, price: Option<real>, date: string)
    requires BuyAsset(s, name, assetType, price, date).Applied?
    ensures var s' := BuyAsset(s, name, assetType, price, date).state;
            && CashBalance(s') == CashBalance(s) - price.value
            && TotalAssetsNbv(s') == TotalAssetsNbv(s) + price.value
            && Valuation(s') == Valuation(s)
  {
    var s' := BuyAsset(s, name, assetType, price, date).state;
    var a := s'.assets[|s.assets|];
    SumAppend(s.assets, a, DirectPurchase);
    SumAppend(s.assets, a, SaleProceeds);
    SumAppend(s.assets, a, UnsoldNbv);
  }

  /** A land asset bought through the form is never depreciated. */
  lemma BoughtLandIsNotDepreciated(s: State, name: string, price: Option<real>, date: string, months: nat)
    requires BuyAsset(s, name, Land, price, date).Applied?
    ensures var assets := BuyAsset(s, name, Land, price, date).state.assets;
            BookPeriodDepreciation(assets, months).0[|assets| - 1] == assets[|assets| - 1]
  {
    var assets := BuyAsset(s, name, Land, price, date).state.assets;
    LandNeverDepreciated(s.settings, assets, |assets| - 1, months);
  }

  /** `executeSell` (after `validateSell`): sells the asset at `salePrice` and
      posts the difference to its net book value as a capital gain or loss. */
  function SellAsset(s: State, assetId: Option<int>, salePrice: Option<real>, date: string): (o: Outcome)
    ensures CurrentPeriod(s).None? ==> o == Rejected(NoOpenPeriod)
    ensures CurrentPeriod(s).Some? && !Truthy(assetId) ==> o == Rejected(NoSelection)
    ensures CurrentPeriod(s).Some? && Truthy(assetId) && (salePrice.None? || salePrice.value < 0.0) ==>
              o == Rejected(InvalidAmount)
    ensures o.Applied? <==> CurrentPeriod(s).Some? && Truthy(assetId) && salePrice.Some? && salePrice.value >= 0.0
                            && FindAsset(s.assets, assetId.value).Some?
    ensures o.Applied? ==>
              && o.state.assets == SellAssetRows(s.assets, assetId.value, date, salePrice.value)
              && o.state.(assets := s.assets, transactions := s.transactions) == s
  {
    if CurrentPeriod(s).None? then Rejected(NoOpenPeriod)
    else if !Truthy(assetId) then Rejected(NoSelection)
    else if salePrice.None? || salePrice.value < 0.0 then Rejected(InvalidAmount)
    else
      match FindAsset(s.assets, assetId.value)
      case None => Rejected(NotFound)
      case Some(asset) =>
        var period := CurrentPeriod(s).value;
        var sp := salePrice.value;
        var nbv := NetBookValue(asset);
        var sold := s.(assets := SellAssetRows(s.assets, assetId.value, date, sp));
        var diff := sp - nbv;
        if diff > 0.0 then
          Applied(InsertTransaction(sold, period.id, date, "Capital gain: " + asset.name, diff, Revenue,
                                    FindCategory(s.categories, "Capital Gain", Some(Revenue)), None))
        else if diff < 0.0 then
          Applied(InsertTransaction(sold, period.id, date, "Capital loss: " + asset.name, Abs(diff), Expense,
                                    FindCategory(s.categories, "Capital Loss", Some(Expense)), None))
        else Applied(sold)
  }

  /** A sale posts a revenue row of sp - nbv when the price is above net book
      value, an expense row of nbv - sp when it is below, and nothing at par. */
  lemma SaleGainOrLoss(s: State, assetId: Option<int>, salePrice: Option<real>, date: string)
    requires SellAsset(s, assetId, salePrice, date).Applied?
    ensures var s' := SellAsset(s, assetId, salePrice, date).state;
            var nbv := NetBookValue(FindAsset(s.assets, assetId.value).value);
            var sp := salePrice.value;
            && (sp > nbv ==> |s'.transactions| == |s.transactions| + 1
                             && s'.transactions[..|s.transactions|] == s.transactions
                             && s'.transactions[|s.transactions|].kind == Revenue
                             && s'.transactions[|s.transactions|].amount == sp - nbv
                             && s'.transactions[|s.transactions|].periodId == CurrentPeriod(s).value.id)
            && (sp < nbv ==> |s'.transactions| == |s.transactions| + 1
                             && s'.transactions[..|s.transactions|] == s.transactions
                             && s'.transactions[|s.transactions|].kind == Expense
                             && s'.transactions[|s.transactions|].amount == nbv - sp
                             && s'.transactions[|s.transactions|].periodId == CurrentPeriod(s).value.id)
            && (sp == nbv ==> s'.transactions == s.transactions)
  {
  }

  /** The whole profit-and-loss effect of a sale, all-time revenue minus
      all-time expense, is exactly sale price minus net book value; a price
      of 0 is accepted. */
  lemma SaleProfitEffect(s: State, assetId: Option<int>, salePrice: Option<real>, date: string)
    requires SellAsset(s, assetId, salePrice, date).Applied?
    ensures var s' := SellAsset(s, assetId, salePrice, date).state;
            var nbv := NetBookValue(FindAsset(s.assets, assetId.value).value);
            (SumTransactions(s', Revenue, None, None) - SumTransactions(s', Expense, None, None))
            - (SumTransactions(s, Revenue, None, None) - SumTransactions(s, Expense, None, None))
            == salePrice.value - nbv
  {
    var s' := SellAsset(s, assetId, salePrice, date).state;
    var nbv := NetBookValue(FindAsset(s.assets, assetId.value).value);
    var sold := s.(assets := SellAssetRows(s.assets, assetId.value, date, salePrice.value));
    if salePrice.value != nbv {
      var t := s'.transactions[|s.transactions|];
      assert s'.transactions == s.transactions + [t];
      assert s' == sold.(transactions := s.transactions + [t]);
      AppendTransaction(sold, t, Revenue, AllRows);
      AppendTransaction(sold, t, Expense, AllRows);
    }
  }

  lemma ZeroPriceAccepted(s: State, id: int, date: string)
    requires CurrentPeriod(s).Some? && id != 0 && FindAsset(s.assets, id).Some?
    ensures SellAsset(s, Some(id), Some(0.0), date).Applied?
  {
  }

  predicate UniqueAssetIds(assets: seq<Asset>) {
    forall i, j :: 0 <= i < j < |assets| ==> assets[i].id != assets[j].id
  }

  /** With unique ids the lookup by id finds the row that carries it. */
  lemma FindUniqueAsset(assets: seq<Asset>, k: nat)
    requires UniqueAssetIds(assets) && k < |assets|
    ensures FindAsset(assets, assets[k].id) == Some(assets[k])
  {
    var asset := FindAsset(assets, assets[k].id).value;
    var j :| 0 <= j < |assets| && assets[j] == asset;
    if j < k { } else if j > k { }
  }

  /** With unique ids `sellAsset` touches exactly one row. */
  lemma SellOneAsset(assets: seq<Asset>, k: nat, date: string, price: real)
    requires UniqueAssetIds(assets) && k < |assets|
    ensures SellAssetRows(assets, assets[k].id, date, price)
            == assets[k := assets[k].(soldDate := Some(date), soldPrice := Some(price))]
  {
    var r := SellAssetRows(assets, assets[k].id, date, price);
    forall j | 0 <= j < |assets|
      ensures r[j] == assets[k := assets[k].(soldDate := Some(date), soldPrice := Some(price))][j]
    {
      if j != k {
        assert assets[j].id != assets[k].id by {
          if j < k { } else { }
        }
      }
    }
  }

  /** Neither sale column is set: how `createAsset` leaves a row until `sellAsset`. */
  predicate NeverSold(a: Asset) { a.soldDate.None? && a.soldPrice.None? }

  /** Selling the unsold asset at position `k` for `price` adds the price to
      cash as sale proceeds and takes its net book value off the asset total. */
  lemma SaleRowsEffect(s: State, k: nat, date: string, price: real)
    requires UniqueAssetIds(s.assets) && k < |s.assets| && NeverSold(s.assets[k])
    ensures var s' := s.(assets := SellAssetRows(s.assets, s.assets[k].id, date, price));
            && CashBalance(s') == CashBalance(s) + price
            && TotalAssetsNbv(s') == TotalAssetsNbv(s) - NetBookValue(s.assets[k])
  {
    SellOneAsset(s.assets, k, date, price);
    var sold := s.assets[k].(soldDate := Some(date), soldPrice := Some(price));
    SumUpdate(s.assets, k, sold, UnsoldNbv);
    SumUpdate(s.assets, k, sold, SaleProceeds);
    SumUpdate(s.assets, k, sold, DirectPurchase);
  }

  /** The valuation effect of a sale: the proceeds enter cash and the book
      value leaves the asset total, and the gain or loss row is counted in
      cash as well (the cash formula adds every revenue row and subtracts
      every expense row), so valuation moves by twice sp - nbv. */
  lemma SaleValuationEffect(s: State, k: nat, salePrice: Option<real>, date: string)
    requires UniqueAssetIds(s.assets) && k < |s.assets| && NeverSold(s.assets[k])
    requires SellAsset(s, Some(s.assets[k].id), salePrice, date).Applied?
    ensures var s' := SellAsset(s, Some(s.assets[k].id), salePrice, date).state;
            var nbv := NetBookValue(s.assets[k]);
            && TotalAssetsNbv(s') == TotalAssetsNbv(s) - nbv
            && CashBalance(s') == CashBalance(s) + salePrice.value + (salePrice.value - nbv)
            && Valuation(s') == Valuation(s) + 2.0 * (salePrice.value - nbv)
  {
    var id := s.assets[k].id;
    var sp := salePrice.value;
    FindUniqueAsset(s.assets, k);
    var asset := s.assets[k];
    var s' := SellAsset(s, Some(id), salePrice, date).state;
    var sold := s.(assets := SellAssetRows(s.assets, id, date, sp));
    SaleRowsEffect(s, k, date, sp);
    if sp != NetBookValue(asset) {
      var t := s'.transactions[|s.transactions|];
      assert s' == sold.(transactions := s.transactions + [t]);
      CashWithTransaction(sold, t);
    }
  }

  // --- getDepreciationSchedule ---

  /** One year of the schedule: annual charge, accumulated charge and net book value floored at 0. */
  datatype ScheduleRow = ScheduleRow(year: int, annual: real, accumulated: real, nbv: real)

  /** Row `y` (1-based) of the schedule of an asset with `n` depreciation years. */
  function ScheduleRowAt(price: real, n: int, y: int): ScheduleRow
    requires n != 0
  {
    var annual := price / n as real;
    var accumulated := annual * y as real;
    ScheduleRow(y, annual, accumulated, Max(price - accumulated, 0.0))
  }

  /** `getDepreciationSchedule`: empty without depreciation years, otherwise
      one row per year. */
  method DepreciationSchedule(a: Asset) returns (rows: seq<ScheduleRow>)
    ensures !Truthy(a.depreciationYears) ==> rows == []
    ensures Truthy(a.depreciationYears) ==>
              |rows| == (if a.depreciationYears.value > 0 then a.depreciationYears.value else 0)
    ensures Truthy(a.depreciationYears) ==>
              forall i :: 0 <= i < |rows| ==> rows[i] == ScheduleRowAt(a.purchasePrice, a.depreciationYears.value, i + 1)
  {
    rows := [];
    if !Truthy(a.depreciationYears) {
      return;
    }
    var n := a.depreciationYears.value;
    var y := 1;
    while y <= n
      invariant 1 <= y
      invariant n > 0 ==> y <= n + 1
      invariant n <= 0 ==> y == 1
      invariant |rows| == y - 1
      invariant forall i :: 0 <= i < |rows| ==> rows[i] == ScheduleRowAt(a.purchasePrice, n, i + 1)
      decreases n - y + 1
    {
      var annual := a.purchasePrice / n as real;
      var accumulated := annual * y as real;
      var nbv := a.purchasePrice - accumulated;
      rows := rows + [ScheduleRow(y, annual, accumulated, Max(nbv, 0.0))];
      y := y + 1;
    }
  }

  /** The schedule's net book values are never negative, never rise for a
      non-negative price, reach 0 in the last year, and year y's accumulated
      charge is the fraction y/n of the price. */
  lemma {:induction false} ScheduleShape(price: real, n: int, y: int, z: int)
    requires n > 0 && 1 <= y <= z <= n
    ensures ScheduleRowAt(price, n, y).nbv >= 0.0
    ensures price >= 0.0 ==> ScheduleRowAt(price, n, y).nbv >= ScheduleRowAt(price, n, z).nbv
    ensures ScheduleRowAt(price, n, n).accumulated == price
    ensures ScheduleRowAt(price, n, n).nbv == 0.0
    ensures ScheduleRowAt(price, n, y).accumulated * n as real == price * y as real
  {
    var annual := price / n as real;
    assert annual * n as real == price;
    if price >= 0.0 {
      assert annual >= 0.0;
      assert annual * y as real <= annual * z as real;
    }
  }

  /** The schedule agrees with the booking engine: for a fresh depreciable
      asset, row y's accumulated charge is what 12 * y months of booking add. */
  lemma ScheduleMatchesBooking(a: Asset, y: int)
    requires Depreciable(a) && Sound(a) && a.accumulatedDepreciation == 0.0
    requires 1 <= y <= a.depreciationYears.value
    ensures Charge(a, 12 * y) == ScheduleRowAt(a.purchasePrice, a.depreciationYears.value, y).accumulated
  {
    var n := a.depreciationYears.value;
    var mc := MonthlyCharge(a);
    var annual := a.purchasePrice / n as real;
    assert mc * 12.0 == annual;
    assert mc * (12 * y) as real == annual * y as real;
    ScheduleShape(a.purchasePrice, n, y, n);
    assert annual * y as real <= a.purchasePrice;
  }
}
