/** Straight-line, capped depreciation booking (`bookPeriodDepreciation` in
    src/db/queries.ts) and net book value (src/lib/calculations.ts). */
module Depreciation {
  import opened Base
  import opened Tables

  /** Assets the booking loop touches: unsold, with truthy depreciation years
      (null and 0 both mean "not depreciated"). */
  predicate Depreciable(a: Asset) {
    a.soldDate.None? && Truthy(a.depreciationYears)
  }

  function MonthlyCharge(a: Asset): real
    requires Truthy(a.depreciationYears)
  {
    a.purchasePrice / ((a.depreciationYears.value * 12) as real)
  }

  /** Amount one booking of `months` months adds to `a`: the straight-line
      charge, capped at what is left of the purchase price. */
  function Charge(a: Asset, months: nat): real {
    if !Depreciable(a) then 0.0
    else
      var remaining := a.purchasePrice - a.accumulatedDepreciation;
      if remaining <= 0.0 then 0.0 else Min(MonthlyCharge(a) * months as real, remaining)
  }

  function ChargeFor(months: nat): Asset -> real {
    (a: Asset) => Charge(a, months)
  }

  /** `getNetBookValue`: never floored. */
  function NetBookValue(a: Asset): real {
    a.purchasePrice - a.accumulatedDepreciation
  }

  function Accumulated(a: Asset): real { a.accumulatedDepreciation }

  function AccumulatedTotal(assets: seq<Asset>): real {
    Sum(assets, Accumulated)
  }

  /** The bookkeeping invariant of an asset row. */
  predicate Sound(a: Asset) {
    && 0.0 <= a.accumulatedDepreciation <= a.purchasePrice
    && (a.depreciationYears.Some? ==> a.depreciationYears.value >= 0)
  }

  predicate AllSound(assets: seq<Asset>) {
    forall i :: 0 <= i < |assets| ==> Sound(assets[i])
  }

  lemma ChargeBounds(a: Asset, months: nat)
    requires Sound(a)
    ensures 0.0 <= Charge(a, months) <= NetBookValue(a)
  {
    if Depreciable(a) && a.purchasePrice - a.accumulatedDepreciation > 0.0 {
      var m := MonthlyCharge(a);
      assert m >= 0.0;
      assert m * months as real >= 0.0;
    }
  }

  /** `bookPeriodDepreciation(months)`: returns the new asset rows and the total booked. */
  function BookPeriodDepreciation(assets: seq<Asset>, months: nat): (r: (seq<Asset>, real))
    ensures |r.0| == |assets|
    ensures forall i :: 0 <= i < |assets| ==>
              r.0[i] == assets[i].(accumulatedDepreciation := assets[i].accumulatedDepreciation
                                                               + Charge(assets[i], months))
    ensures r.1 == Sum(assets, ChargeFor(months))
    decreases |assets|
  {
    if |assets| == 0 then ([], 0.0)
    else
      var n := |assets| - 1;
      var prefix := BookPeriodDepreciation(assets[..n], months);
      var a := assets[n];
      var c := Charge(a, months);
      (prefix.0 + [a.(accumulatedDepreciation := a.accumulatedDepreciation + c)], prefix.1 + c)
  }

  /** Sold assets and assets without depreciation years are left unchanged;
      booking 0 months changes nothing and returns 0. */
  lemma BookLeavesSkippedAssets(assets: seq<Asset>, months: nat)
    ensures forall i :: 0 <= i < |assets| && !Depreciable(assets[i]) ==>
              BookPeriodDepreciation(assets, months).0[i] == assets[i]
    ensures months == 0 ==> BookPeriodDepreciation(assets, 0).0 == assets
                            && BookPeriodDepreciation(assets, 0).1 == 0.0
  {
    var r := BookPeriodDepreciation(assets, months);
    if months == 0 {
      forall i | 0 <= i < |assets| ensures Charge(assets[i], 0) == 0.0 {
        if Depreciable(assets[i]) {
          assert MonthlyCharge(assets[i]) * 0 as real == 0.0;
        }
      }
      SumZero(assets, ChargeFor(0));
      assert r.0 == assets;
    }
  }

  /** Booking keeps 0 <= accumulated <= price on every row, never lowers an
      accumulated value, and returns a total >= 0 that is exactly the growth
      of the accumulated depreciation over all rows. */
  lemma {:induction false} BookKeepsSound(assets: seq<Asset>, months: nat)
    requires AllSound(assets)
    ensures AllSound(BookPeriodDepreciation(assets, months).0)
    ensures forall i :: 0 <= i < |assets| ==>
              BookPeriodDepreciation(assets, months).0[i].accumulatedDepreciation
              >= assets[i].accumulatedDepreciation
    ensures BookPeriodDepreciation(assets, months).1 >= 0.0
    ensures BookPeriodDepreciation(assets, months).1
            == AccumulatedTotal(BookPeriodDepreciation(assets, months).0) - AccumulatedTotal(assets)
    decreases |assets|
  {
    var r := BookPeriodDepreciation(assets, months);
    forall i | 0 <= i < |assets| ensures 0.0 <= Charge(assets[i], months) <= NetBookValue(assets[i]) {
      ChargeBounds(assets[i], months);
    }
    SumNonNegative(assets, ChargeFor(months));
    if |assets| > 0 {
      var n := |assets| - 1;
      BookKeepsSound(assets[..n], months);
      assert r.0[..n] == BookPeriodDepreciation(assets[..n], months).0;
    }
  }

  /** Booking m months and then n months is booking m + n months, for one asset. */
  lemma ChargeAdditive(a: Asset, m: nat, n: nat)
    requires Sound(a)
    ensures Charge(a, m) + Charge(a.(accumulatedDepreciation := a.accumulatedDepreciation
                                                                + Charge(a, m)), n)
            == Charge(a, m + n)
  {
    var a1 := a.(accumulatedDepreciation := a.accumulatedDepreciation + Charge(a, m));
    if Depreciable(a) {
      var mc := MonthlyCharge(a);
      assert mc >= 0.0;
      assert MonthlyCharge(a1) == mc;
      var r := a.purchasePrice - a.accumulatedDepreciation;
      assert mc * (m + n) as real == mc * m as real + mc * n as real;
      assert mc * n as real >= 0.0;
    }
  }

  /** Booking m months then n months equals booking m + n months once:
      the same rows and the same combined total. */
  lemma {:induction false} BookAdditive(assets: seq<Asset>, m: nat, n: nat)
    requires AllSound(assets)
    ensures BookPeriodDepreciation(BookPeriodDepreciation(assets, m).0, n).0
            == BookPeriodDepreciation(assets, m + n).0
    ensures BookPeriodDepreciation(assets, m).1
            + BookPeriodDepreciation(BookPeriodDepreciation(assets, m).0, n).1
            == BookPeriodDepreciation(assets, m + n).1
  {
    var first := BookPeriodDepreciation(assets, m).0;
    var second := BookPeriodDepreciation(first, n).0;
    var once := BookPeriodDepreciation(assets, m + n).0;
    forall i | 0 <= i < |assets|
      ensures second[i] == once[i]
      ensures Charge(assets[i], m) + Charge(first[i], n) == Charge(assets[i], m + n)
    {
      ChargeAdditive(assets[i], m, n);
    }
    SumAdd(assets, ChargeFor(m), (a: Asset) => Charge(a.(accumulatedDepreciation := a.accumulatedDepreciation + Charge(a, m)), n), ChargeFor(m + n));
    SumOfBooked(assets, m, n);
  }

  /** The second booking's total, read back on the original rows. */
  lemma {:induction false} SumOfBooked(assets: seq<Asset>, m: nat, n: nat)
    ensures Sum(BookPeriodDepreciation(assets, m).0, ChargeFor(n))
            == Sum(assets, (a: Asset) => Charge(a.(accumulatedDepreciation := a.accumulatedDepreciation + Charge(a, m)), n))
    decreases |assets|
  {
    if |assets| > 0 {
      var k := |assets| - 1;
      var first := BookPeriodDepreciation(assets, m).0;
      assert first[..k] == BookPeriodDepreciation(assets[..k], m).0;
      SumOfBooked(assets[..k], m, n);
    }
  }

  /** `months` single-month bookings in a row (one close-month each);
      returns the rows and the sum of the amounts returned. */
  function BookMonthly(assets: seq<Asset>, months: nat): (r: (seq<Asset>, real))
    ensures |r.0| == |assets|
    decreases months
  {
    if months == 0 then (assets, 0.0)
    else
      var before := BookMonthly(assets, months - 1);
      var step := BookPeriodDepreciation(before.0, 1);
      (step.0, before.1 + step.1)
  }

  /** Monthly bookings add up to one booking of the whole span: the same
      rows and the same total. */
  lemma {:induction false} MonthlyEqualsOnce(assets: seq<Asset>, months: nat)
    requires AllSound(assets)
    ensures BookMonthly(assets, months).0 == BookPeriodDepreciation(assets, months).0
    ensures BookMonthly(assets, months).1 == BookPeriodDepreciation(assets, months).1
    decreases months
  {
    if months > 0 {
      var k: nat := months - 1;
      MonthlyEqualsOnce(assets, k);
      MonthlyStep(assets, k);
    } else {
      BookLeavesSkippedAssets(assets, 0);
    }
  }

  /** One more month on top of a span already known to match one booking. */
  lemma MonthlyStep(assets: seq<Asset>, k: nat)
    requires AllSound(assets)
    requires BookMonthly(assets, k).0 == BookPeriodDepreciation(assets, k).0
    requires BookMonthly(assets, k).1 == BookPeriodDepreciation(assets, k).1
    ensures BookMonthly(assets, k + 1).0 == BookPeriodDepreciation(assets, k + 1).0
    ensures BookMonthly(assets, k + 1).1 == BookPeriodDepreciation(assets, k + 1).1
  {
    var before := BookMonthly(assets, k);
    var step := BookPeriodDepreciation(before.0, 1);
    assert BookMonthly(assets, k + 1).0 == step.0;
    assert BookMonthly(assets, k + 1).1 == before.1 + step.1;
    BookAdditive(assets, k, 1);
  }

  /** Over its whole life (12 months per year) an undepreciated asset is
      charged exactly its purchase price. */
  lemma ChargeOverLife(a: Asset)
    requires Sound(a) && Depreciable(a) && a.accumulatedDepreciation == 0.0
    ensures a.depreciationYears.value > 0
    ensures Charge(a, 12 * a.depreciationYears.value) == a.purchasePrice
  {
    var y := a.depreciationYears.value;
    var mc := MonthlyCharge(a);
    var d := (y * 12) as real;
    assert d > 0.0;
    assert mc * d == a.purchasePrice;
    assert (12 * y) as real == d;
  }

  /** A fresh asset with n depreciation years is fully depreciated after
      12 * n monthly bookings, and every later booking charges 0. */
  lemma FullyDepreciatedAfterLife(assets: seq<Asset>, i: nat, later: nat)
    requires AllSound(assets) && i < |assets|
    requires Depreciable(assets[i]) && assets[i].accumulatedDepreciation == 0.0
    ensures assets[i].depreciationYears.value > 0
    ensures var after := BookMonthly(assets, 12 * assets[i].depreciationYears.value).0;
            && after[i].accumulatedDepreciation == assets[i].purchasePrice
            && NetBookValue(after[i]) == 0.0
            && Charge(after[i], later) == 0.0
  {
    var a := assets[i];
    ChargeOverLife(a);
    var k: nat := 12 * a.depreciationYears.value;
    MonthlyEqualsOnce(assets, k);
    var after := BookPeriodDepreciation(assets, k).0;
    assert after[i] == a.(accumulatedDepreciation := a.purchasePrice);
  }
}

/** `getAssetTypeConfig` in src/lib/assetConfig.ts: depreciation years per asset type. */
module AssetConfig {
  import opened Base
  import opened Tables
  import Depreciation

  /** Years for a new asset of type `t`; land is never depreciated. */
  function DepreciationYears(st: Settings, t: AssetType): (r: Option<int>)
    ensures t == Land <==> r.None?
  {
    match t
    case Vehicle => Some(st.depYearsVehicle.GetOr(5))
    case Implement => Some(st.depYearsImplement.GetOr(5))
    case Building => Some(st.depYearsBuilding.GetOr(10))
    case Land => None
  }

  /** With no settings stored the defaults are 5, 5 and 10 years. */
  lemma DefaultYears()
    ensures DepreciationYears(NoSettings, Vehicle) == Some(5)
    ensures DepreciationYears(NoSettings, Implement) == Some(5)
    ensures DepreciationYears(NoSettings, Building) == Some(10)
  {
  }

  /** Each depreciable type reads its own setting key and no other. */
  lemma OwnKeyOnly(st: Settings, t: AssetType, years: int)
    ensures t != Vehicle ==> DepreciationYears(st.(depYearsVehicle := Some(years)), t) == DepreciationYears(st, t)
    ensures t != Implement ==> DepreciationYears(st.(depYearsImplement := Some(years)), t) == DepreciationYears(st, t)
    ensures t != Building ==> DepreciationYears(st.(depYearsBuilding := Some(years)), t) == DepreciationYears(st, t)
    ensures t == Vehicle ==> DepreciationYears(st.(depYearsVehicle := Some(years)), t) == Some(years)
    ensures t == Implement ==> DepreciationYears(st.(depYearsImplement := Some(years)), t) == Some(years)
    ensures t == Building ==> DepreciationYears(st.(depYearsBuilding := Some(years)), t) == Some(years)
  {
  }

  /** A land asset created from the configuration is left alone by every booking. */
  lemma LandNeverDepreciated(st: Settings, assets: seq<Asset>, i: nat, months: nat)
    requires i < |assets| && assets[i].assetType == Land
    requires assets[i].depreciationYears == DepreciationYears(st, Land)
    ensures Depreciation.BookPeriodDepreciation(assets, months).0[i] == assets[i]
  {
  }
}
