/** The Transactions page (src/components/Transactions.tsx): the category
    picker with its fixed groups and the legacy names of older databases,
    the search box, and the form that adds a revenue or expense row. */
module TransactionsPage {
  import opened Base
  import opened Tables
  import opened Ledger
  import opened Calculations
  import opened Periods
  import opened BalanceSheet

  // --- Category groups ---

  datatype CategoryGroup = CategoryGroup(title: string, names: seq<string>)

  const RevenueGroups: seq<CategoryGroup> := [
    CategoryGroup("Grains", ["Wheat", "Barley", "Oat", "Canola", "Corn", "Sorghum", "Soybean", "Sunflower", "Rice",
                             "Long Grain Rice"]),
    CategoryGroup("Root Crops", ["Potato", "Sugar Beet", "Sugarcane", "Red Beet", "Carrots", "Parsnip"]),
    CategoryGroup("Vegetables & Herbs", ["Spinach", "Peas", "Green Beans", "Lettuce", "Tomatoes", "Cabbage", "Chili",
                                         "Garlic", "Spring Onion"]),
    CategoryGroup("Fruits & Mushrooms", ["Grapes", "Olives", "Strawberries", "Mushrooms"]),
    CategoryGroup("Forage & Fiber", ["Grass", "Hay", "Straw", "Silage", "Cotton", "Poplar"]),
    CategoryGroup("Livestock", ["Cattle", "Pigs", "Sheep", "Chickens", "Horses", "Goats", "Water Buffalo"]),
    CategoryGroup("Animal Products", ["Milk", "Eggs", "Wool", "Honey"]),
    CategoryGroup("Forestry", ["Wood", "Wood Chips", "Planks"]),
    CategoryGroup("Dairy", ["Butter", "Cheese", "Goat Cheese", "Buffalo Mozzarella", "Bottled Milk"]),
    CategoryGroup("Oils", ["Sunflower Oil", "Olive Oil", "Canola Oil"]),
    CategoryGroup("Bakery & Food", ["Flour", "Rice Flour", "Sugar", "Bread", "Cake", "Cereal", "Chocolate",
                                    "Potato Chips"]),
    CategoryGroup("Preserved & Packed", ["Raisins", "Grape Juice", "Soup", "Kimchi", "Canned Vegetables"]),
    CategoryGroup("Textiles", ["Fabric", "Clothes", "Rope"]),
    CategoryGroup("Crafted & Industrial", ["Furniture", "Piano", "Paper", "Barrels", "Wagons", "Toy Tractors"]),
    CategoryGroup("Construction", ["Cement", "Concrete Tiles", "Roof Tiles", "Prefab Walls"]),
    CategoryGroup("Contract Income", ["Contracts", "Missions"]),
    CategoryGroup("Other", ["Subsidies", "Other Revenue"])
  ]

  const ExpenseGroups: seq<CategoryGroup> := [
    CategoryGroup("Inputs", ["Seeds", "Fertilizer", "Lime", "Herbicide"]),
    CategoryGroup("Operations", ["Fuel", "Worker Wages", "Maintenance", "Hand Tools", "Vehicle Rent"]),
    CategoryGroup("Animals", ["Animal Feed"]),
    CategoryGroup("Other", ["Other Expenses"])
  ]

  /** `LEGACY_NAMES`: the current name of a category renamed since older
      databases were created; None for any other name. */
  function LegacyName(name: string): Option<string> {
    if name == "Grain Sales" then Some("Wheat")
    else if name == "Wood Sales" then Some("Wood")
    else if name == "Animal Sales" then Some("Cattle")
    else if name == "Milk / Eggs" then Some("Milk")
    else if name == "Salaries" then Some("Worker Wages")
    else if name == "Maintenance / Repairs" then Some("Maintenance")
    else if name == "Land Rent" then Some("Vehicle Rent")
    else None
  }

  /** The category a listed name stands for: the first category with exactly
      that name, or failing that the first whose legacy name maps to it. */
  function Pick(categories: seq<Category>, name: string): (r: Option<Category>)
    ensures r.Some? ==> r.value in categories && (r.value.name == name || LegacyName(r.value.name) == Some(name))
    ensures (exists i :: 0 <= i < |categories| && categories[i].name == name) ==> r.Some? && r.value.name == name
    ensures r.None? <==> forall i :: 0 <= i < |categories| ==>
                           categories[i].name != name && LegacyName(categories[i].name) != Some(name)
  {
    var exact := FindWhere(categories, (c: Category) => c.name == name);
    if exact.Some? then exact else FindWhere(categories, (c: Category) => LegacyName(c.name) == Some(name))
  }

  /** `Array.prototype.find`. */
  function FindWhere(categories: seq<Category>, match_: Category -> bool): (r: Option<Category>)
    ensures r.Some? ==> r.value in categories && match_(r.value)
    ensures r.None? <==> forall i :: 0 <= i < |categories| ==> !match_(categories[i])
    decreases |categories|
  {
    if |categories| == 0 then None
    else if match_(categories[0]) then Some(categories[0])
    else FindWhere(categories[1..], match_)
  }

  /** `names.map(pick).filter(found)`: the picked categories, in name order. */
  function PickAll(categories: seq<Category>, names: seq<string>): (r: seq<Category>)
    ensures |r| <= |names|
    ensures forall i :: 0 <= i < |r| ==> exists j :: 0 <= j < |names| && Pick(categories, names[j]) == Some(r[i])
    ensures forall j :: 0 <= j < |names| && Pick(categories, names[j]).Some? ==> Pick(categories, names[j]).value in r
    decreases |names|
  {
    if |names| == 0 then []
    else
      var rest := PickAll(categories, names[1..]);
      assert forall i :: 0 <= i < |rest| ==> exists j :: 1 <= j < |names| && Pick(categories, names[j]) == Some(rest[i]) by {
        forall i | 0 <= i < |rest|
          ensures exists j :: 1 <= j < |names| && Pick(categories, names[j]) == Some(rest[i])
        {
          var k :| 0 <= k < |names[1..]| && Pick(categories, names[1..][k]) == Some(rest[i]);
          assert names[k + 1] == names[1..][k];
        }
      }
      assert forall j :: 1 <= j < |names| ==> names[j] == names[1..][j - 1];
      match Pick(categories, names[0])
      case Some(c) => [c] + rest
      case None => rest
  }

  /** A group as the picker shows it. */
  datatype ShownGroup = ShownGroup(title: string, names: seq<string>, categories: seq<Category>)

  function Shown(categories: seq<Category>, g: CategoryGroup): ShownGroup {
    ShownGroup(g.title, g.names, PickAll(categories, g.names))
  }

  predicate NonEmptyGroup(g: ShownGroup) { |g.categories| > 0 }

  /** `groupCategories`: every group with its picked categories, dropping the
      groups where nothing was picked. */
  function GroupCategories(categories: seq<Category>, groups: seq<CategoryGroup>): (r: seq<ShownGroup>)
    ensures |r| <= |groups|
    ensures forall i :: 0 <= i < |r| ==> 0 < |r[i].categories| <= |r[i].names|
    decreases |groups|
  {
    if |groups| == 0 then []
    else
      var g := Shown(categories, groups[0]);
      var rest := GroupCategories(categories, groups[1..]);
      if NonEmptyGroup(g) then [g] + rest else rest
  }

  /** Every group with its picked categories, before empty groups are dropped. */
  function AllShown(categories: seq<Category>, groups: seq<CategoryGroup>): (r: seq<ShownGroup>)
    ensures |r| == |groups|
  {
    seq(|groups|, i requires 0 <= i < |groups| => Shown(categories, groups[i]))
  }

  /** Filtering a sequence with one more row in front. */
  lemma FilterCons<T>(x: T, s: seq<T>, keep: T -> bool)
    ensures Filter([x] + s, keep) == (if keep(x) then [x] else []) + Filter(s, keep)
  {
    calc {
      Filter([x] + s, keep);
    == { FilterAppend([x], s, keep); }
      Filter([x], keep) + Filter(s, keep);
    == { FilterOne(x, keep); }
      (if keep(x) then [x] else []) + Filter(s, keep);
    }
  }

  lemma FilterOne<T>(x: T, keep: T -> bool)
    ensures Filter([x], keep) == if keep(x) then [x] else []
  {
    assert [x][..0] == [];
  }

  /** The groups come out in the input order: the result is exactly the
      non-empty groups of the full list. */
  lemma {:induction false} GroupOrder(categories: seq<Category>, groups: seq<CategoryGroup>)
    ensures GroupCategories(categories, groups) == Filter(AllShown(categories, groups), NonEmptyGroup)
    decreases |groups|
  {
    if |groups| > 0 {
      GroupOrder(categories, groups[1..]);
      assert AllShown(categories, groups) == [Shown(categories, groups[0])] + AllShown(categories, groups[1..]);
      FilterCons(Shown(categories, groups[0]), AllShown(categories, groups[1..]), NonEmptyGroup);
    }
  }

  /** Each group shown is an input group with its picked categories, and every
      input group with something picked is shown. */
  lemma GroupsListed(categories: seq<Category>, groups: seq<CategoryGroup>)
    ensures var r := GroupCategories(categories, groups);
            && (forall i :: 0 <= i < |r| ==> exists j :: 0 <= j < |groups| && r[i] == Shown(categories, groups[j]))
            && (forall j :: 0 <= j < |groups| && NonEmptyGroup(Shown(categories, groups[j])) ==>
                  Shown(categories, groups[j]) in r)
  {
    GroupOrder(categories, groups);
    var all := AllShown(categories, groups);
    var r := GroupCategories(categories, groups);
    forall i | 0 <= i < |r| ensures exists j :: 0 <= j < |groups| && r[i] == Shown(categories, groups[j]) {
      var j :| 0 <= j < |all| && all[j] == r[i];
    }
    forall j | 0 <= j < |groups| && NonEmptyGroup(Shown(categories, groups[j]))
      ensures Shown(categories, groups[j]) in r
    {
      assert all[j] == Shown(categories, groups[j]);
    }
  }

  function OfType(kind: TxType): Category -> bool {
    (c: Category) => c.kind == kind
  }

  /** The groups of the revenue or expense tab, built from the categories of that type only. */
  function TabGroups(categories: seq<Category>, tab: TxType): seq<ShownGroup> {
    GroupCategories(Filter(categories, OfType(tab)), if tab == Revenue then RevenueGroups else ExpenseGroups)
  }

  /** A tab never offers a category of the other type. */
  lemma TabKeepsType(categories: seq<Category>, tab: TxType)
    ensures forall i, k :: 0 <= i < |TabGroups(categories, tab)| && 0 <= k < |TabGroups(categories, tab)[i].categories|
              ==> TabGroups(categories, tab)[i].categories[k].kind == tab
  {
    var cs := Filter(categories, OfType(tab));
    var groups := if tab == Revenue then RevenueGroups else ExpenseGroups;
    var r := TabGroups(categories, tab);
    GroupsListed(cs, groups);
    forall i, k | 0 <= i < |r| && 0 <= k < |r[i].categories|
      ensures r[i].categories[k].kind == tab
    {
      var j :| 0 <= j < |groups| && r[i] == Shown(cs, groups[j]);
      var n :| 0 <= n < |groups[j].names| && Pick(cs, groups[j].names[n]) == Some(r[i].categories[k]);
      assert r[i].categories[k] in cs;
    }
  }

  // --- Search ---

  /** ASCII `toLowerCase` of one character. */
  function LowerChar(c: char): char {
    if 'A' <= c <= 'Z' then (c as int + 32) as char else c
  }

  function Lower(s: string): (r: string)
    ensures |r| == |s|
    ensures forall i :: 0 <= i < |s| ==> r[i] == LowerChar(s[i])
  {
    seq(|s|, i requires 0 <= i < |s| => LowerChar(s[i]))
  }

  /** Lowering twice is lowering once. */
  lemma LowerIdempotent(s: string)
    ensures Lower(Lower(s)) == Lower(s)
  {
    forall i | 0 <= i < |s| ensures Lower(Lower(s))[i] == Lower(s)[i] {
      var c := s[i];
      if 'A' <= c <= 'Z' {
        assert LowerChar(c) as int == c as int + 32;
      }
    }
  }

  /** `part` occurs in `s` starting at position `i`. */
  predicate OccursAt(s: string, part: string, i: int) {
    0 <= i && i + |part| <= |s| && s[i..i + |part|] == part
  }

  /** Occurrences in the tail are the occurrences past the first position. */
  lemma OccursShift(s: string, part: string)
    requires |s| > 0
    ensures forall i :: OccursAt(s[1..], part, i) ==> OccursAt(s, part, i + 1)
    ensures forall i :: OccursAt(s, part, i) ==> i == 0 || OccursAt(s[1..], part, i - 1)
  {
    forall i | OccursAt(s[1..], part, i) ensures OccursAt(s, part, i + 1) {
      assert s[1..][i..i + |part|] == s[i + 1..i + 1 + |part|];
    }
    forall i | OccursAt(s, part, i) && i != 0 ensures OccursAt(s[1..], part, i - 1) {
      assert s[1..][i - 1..i - 1 + |part|] == s[i..i + |part|];
    }
  }

  /** `String.prototype.includes`, by scanning start positions. */
  function Includes(s: string, part: string): (b: bool)
    ensures b <==> exists i :: OccursAt(s, part, i)
    decreases |s|
  {
    if OccursAt(s, part, 0) then true
    else if |s| == 0 then false
    else
      var rest := Includes(s[1..], part);
      OccursShift(s, part);
      rest
  }

  function Matches(query: string): Category -> bool {
    (c: Category) => Includes(Lower(c.name), query)
  }

  /** The categories of a group shown for the search text: all of them when
      the search is empty, otherwise those whose lower-cased name contains the
      lower-cased search. */
  function Visible(categories: seq<Category>, search: string): (r: seq<Category>)
    ensures forall c :: c in r <==> c in categories && Includes(Lower(c.name), Lower(search))
    ensures search == "" ==> r == categories
  {
    if search == "" then categories
    else Filter(categories, Matches(Lower(search)))
  }

  /** The search ignores letter case: two searches that lower-case alike show the same categories. */
  lemma SearchIgnoresCase(categories: seq<Category>, a: string, b: string)
    requires Lower(a) == Lower(b)
    ensures Visible(categories, a) == Visible(categories, b)
  {
    assert |a| == |Lower(a)| == |Lower(b)| == |b|;
  }

  // --- handleAdd ---

  /** The notes field: an empty text is stored as null. */
  function NotesValue(notes: string): Option<string> {
    if notes == "" then None else Some(notes)
  }

  /** `handleAdd`: `amount` is None when the text does not parse (NaN). */
  function AddTransaction(s: State, selected: Option<Category>, amount: Option<real>, notes: string,
                          today: string): (o: Outcome)
    ensures CurrentPeriod(s).None? ==> o == Rejected(NoOpenPeriod)
    ensures CurrentPeriod(s).Some? && selected.None? ==> o == Rejected(NoSelection)
    ensures CurrentPeriod(s).Some? && selected.Some? && (amount.None? || amount.value <= 0.0) ==>
              o == Rejected(InvalidAmount)
    ensures o.Applied? <==> CurrentPeriod(s).Some? && selected.Some? && amount.Some? && amount.value > 0.0
    ensures o.Applied? ==>
              var c := selected.value;
              && o.state.transactions == s.transactions + [Transaction(NextId(s.transactions, TransactionId),
                   CurrentPeriod(s).value.id, today, c.name, amount.value, c.kind, Some(c.id), NotesValue(notes))]
              && o.state.(transactions := s.transactions) == s
  {
    if CurrentPeriod(s).None? then Rejected(NoOpenPeriod)
    else if selected.None? then Rejected(NoSelection)
    else if amount.None? || amount.value <= 0.0 then Rejected(InvalidAmount)
    else
      var c := selected.value;
      Applied(InsertTransaction(s, CurrentPeriod(s).value.id, today, c.name, amount.value, c.kind, Some(c.id),
                                NotesValue(notes)))
  }

  /** An added revenue row raises cash by its amount and an expense row lowers
      it; the month's total of that type grows by the amount; and under the
      lifecycle invariant the balance sheet stays as balanced as it was. */
  lemma AddTransactionEffect(s: State, selected: Option<Category>, amount: Option<real>, notes: string,
                             today: string)
    requires AddTransaction(s, selected, amount, notes, today).Applied?
    ensures var s' := AddTransaction(s, selected, amount, notes, today).state;
            var p := CurrentPeriod(s).value;
            var kind := selected.value.kind;
            && CashBalance(s') == CashBalance(s) + (if kind == Revenue then amount.value else -amount.value)
            && (p.id != 0 ==> SumTransactions(s', kind, Some(p.id), None)
                              == SumTransactions(s, kind, Some(p.id), None) + amount.value)
            && (Lifecycle(s) ==> Imbalance(s') == Imbalance(s))
  {
    var s' := AddTransaction(s, selected, amount, notes, today).state;
    var t := s'.transactions[|s.transactions|];
    assert s' == s.(transactions := s.transactions + [t]);
    CashWithTransaction(s, t);
    AppendTransaction(s, t, selected.value.kind, TransactionScope(Some(CurrentPeriod(s).value.id), None));
    if Lifecycle(s) {
      PostingKeepsBalance(s, t);
    }
  }
}
