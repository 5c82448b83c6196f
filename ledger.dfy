/**
 What BakerySimulator in bakery.py computes, stated on values: serving one
 customer, serving a day's customers, the day's record (sales, revenue,
 restocked list, closing stock) and a run of consecutive days. Each function
 takes the product dictionary it reads as a Menu; the constant catalog is one.
 The methods in bakery.dfy are proved against these functions.
 */
module Ledger {
  import opened Catalog
  import opened Stock

  /** The live state of a business day: the stock, per-product sales so far and revenue so far. */
  datatype Shop = Shop(stocks: Stocks, sales: map<string, int>, revenue: int)

  /** One entry of the simulator's history. */
  datatype DayRecord = DayRecord(
    day: int,
    sales: map<string, int>,
    revenue: int,
    restocked: seq<string>,
    inventory: Stocks)

  /**
   The random draws of one day, supplied from outside: the customer count
   that randint returned and the product each customer picked.
   */
  datatype Draw = Draw(customers: int, choices: seq<string>)

  /** randint(lo, hi) with hi < lo raises instead of returning a count. */
  datatype SimError = EmptyCustomerRange

  /** The default arguments of simulate_day and simulate. */
  const DefaultCustomersMin: int := 5
  const DefaultCustomersMax: int := 20
  const DefaultDays: int := 7

  predicate Chosen(m: Menu, items: seq<string>)
  {
    forall i :: 0 <= i < |items| ==> items[i] in m.products
  }

  /** range(customers) runs max(customers, 0) times, and each run picks a product of the menu. */
  predicate WellFormedDraw(m: Menu, d: Draw)
  {
    |d.choices| == (if d.customers < 0 then 0 else d.customers) && Chosen(m, d.choices)
  }

  /** A draw randint(lo, hi) and choice could have produced, when randint returns at all. */
  predicate ValidDraw(m: Menu, d: Draw, lo: int, hi: int)
  {
    WellFormedDraw(m, d) && (lo <= hi ==> lo <= d.customers <= hi)
  }

  predicate AllChosen(m: Menu, draws: seq<Draw>)
  {
    forall i :: 0 <= i < |draws| ==> Chosen(m, draws[i].choices)
  }

  /** Every product starts the day with zero sales. */
  function OpeningSales(m: Menu): (sales: map<string, int>)
    ensures sales.Keys == m.products.Keys
    ensures forall p :: p in sales ==> sales[p] == 0
  {
    map p | p in m.products :: 0
  }

  // ---- totals over the menu ----

  function SumOver(names: seq<string>, sales: map<string, int>): int
    requires forall i :: 0 <= i < |names| ==> names[i] in sales
  {
    if names == [] then 0 else sales[names[0]] + SumOver(names[1..], sales)
  }

  function RevenueOver(m: Menu, names: seq<string>, sales: map<string, int>): int
    requires forall i :: 0 <= i < |names| ==> names[i] in sales && names[i] in m.products
  {
    if names == [] then 0
    else sales[names[0]] * m.products[names[0]].price + RevenueOver(m, names[1..], sales)
  }

  /** Total items sold, over the menu's products. */
  function TotalSales(m: Menu, sales: map<string, int>): int
    requires WellFormedMenu(m) && sales.Keys == m.products.Keys
  {
    SumOver(m.names, sales)
  }

  /** The sum over the menu of count times price. */
  function Revenue(m: Menu, sales: map<string, int>): int
    requires WellFormedMenu(m) && sales.Keys == m.products.Keys
  {
    RevenueOver(m, m.names, sales)
  }

  lemma {:induction false} SumOverBump(m: Menu, names: seq<string>, sales: map<string, int>, k: string)
    requires Distinct(names) && k in sales
    requires forall i :: 0 <= i < |names| ==> names[i] in sales && names[i] in m.products
    ensures SumOver(names, sales[k := sales[k] + 1]) == SumOver(names, sales) + (if k in names then 1 else 0)
    ensures RevenueOver(m, names, sales[k := sales[k] + 1]) ==
      RevenueOver(m, names, sales) + (if k in names then m.products[k].price else 0)
  {
    if names != [] {
      var rest := names[1..];
      assert Distinct(rest) by {
        forall i, j | 0 <= i < j < |rest| ensures rest[i] != rest[j] {
          assert rest[i] == names[i + 1] && rest[j] == names[j + 1];
        }
      }
      SumOverBump(m, rest, sales, k);
      if names[0] == k {
        assert k !in rest by {
          forall i | 0 <= i < |rest| ensures rest[i] != k { assert rest[i] == names[i + 1]; }
        }
        var c, p := sales[k], m.products[k].price;
        assert (c + 1) * p == c * p + p;
      } else {
        assert k in names <==> k in rest;
      }
    }
  }

  lemma {:induction false} SumOverZero(m: Menu, names: seq<string>, sales: map<string, int>)
    requires forall i :: 0 <= i < |names| ==> names[i] in sales && names[i] in m.products && sales[names[i]] == 0
    ensures SumOver(names, sales) == 0 && RevenueOver(m, names, sales) == 0
  {
    if names != [] {
      SumOverZero(m, names[1..], sales);
    }
  }

  lemma {:induction false} SumOverNonNegative(names: seq<string>, sales: map<string, int>)
    requires forall i :: 0 <= i < |names| ==> names[i] in sales && sales[names[i]] >= 0
    ensures SumOver(names, sales) >= 0
  {
    if names != [] {
      SumOverNonNegative(names[1..], sales);
    }
  }

  // ---- one customer, one day of customers ----

  /**
   One customer asking for `item`: if the recipe can be made, consume it,
   count the sale and add the price; otherwise nothing changes. This follows
   the source on well-formed menus (WellFormedMenu: positive amounts), where a
   makeable recipe never reaches a missing ingredient (ConsumeFeasible); on a
   recipe asking 0 of an unstocked ingredient the source raises KeyError instead.
   */
  function Serve(m: Menu, st: Shop, item: string): (r: Shop)
    requires item in m.products && item in st.sales
    ensures r.sales.Keys == st.sales.Keys && r.stocks.Keys == st.stocks.Keys
  {
    var p := m.products[item];
    if CanMakeFrom(st.stocks, p.ingredients) then
      Shop(ConsumeSteps(st.stocks, p.ingredients).stocks,
           st.sales[item := st.sales[item] + 1],
           st.revenue + p.price)
    else st
  }

  /** Serve, unfolded for a customer whose product can be made. */
  lemma ServeMade(m: Menu, st: Shop, item: string)
    requires item in m.products && item in st.sales && CanMakeFrom(st.stocks, m.products[item].ingredients)
    ensures Serve(m, st, item) ==
      Shop(ConsumeSteps(st.stocks, m.products[item].ingredients).stocks,
           st.sales[item := st.sales[item] + 1],
           st.revenue + m.products[item].price)
  {
  }

  /** Serve, unfolded for a customer who is turned away. */
  lemma ServeRefused(m: Menu, st: Shop, item: string)
    requires item in m.products && item in st.sales && !CanMakeFrom(st.stocks, m.products[item].ingredients)
    ensures Serve(m, st, item) == st
  {
  }

  /** The first n customers of a day, served in order. */
  function ServeFirst(m: Menu, st: Shop, items: seq<string>, n: nat): (r: Shop)
    requires Chosen(m, items) && n <= |items| && m.products.Keys <= st.sales.Keys
    ensures r.sales.Keys == st.sales.Keys && r.stocks.Keys == st.stocks.Keys
  {
    if n == 0 then st else Serve(m, ServeFirst(m, st, items, n - 1), items[n - 1])
  }

  /** Sales cover exactly the menu, are never negative, and revenue is count times price summed. */
  predicate Balanced(m: Menu, st: Shop)
  {
    && WellFormedMenu(m)
    && st.sales.Keys == m.products.Keys
    && (forall p :: p in st.sales ==> st.sales[p] >= 0)
    && st.revenue == Revenue(m, st.sales)
  }

  /**
   A sale is recorded only when the recipe could be made, and then it lowers
   each recipe ingredient by exactly its amount, leaves the other ingredients,
   counts one sale and adds the price. A customer turned away changes nothing.
   */
  lemma ServeStep(m: Menu, st: Shop, item: string)
    requires WellFormedMenu(m) && item in m.products && item in st.sales
    ensures var recipe, r := m.products[item].ingredients, Serve(m, st, item);
      CanMakeFrom(st.stocks, recipe) ==>
        && r.sales == st.sales[item := st.sales[item] + 1]
        && r.revenue == st.revenue + m.products[item].price
        && r.stocks.Keys == st.stocks.Keys
        && (forall i :: 0 <= i < |recipe| ==>
              recipe[i].0 in st.stocks && r.stocks[recipe[i].0] == st.stocks[recipe[i].0] - recipe[i].1)
        && (forall k :: k in st.stocks && !Uses(recipe, k) ==> r.stocks[k] == st.stocks[k])
    ensures !CanMakeFrom(st.stocks, m.products[item].ingredients) ==> Serve(m, st, item) == st
  {
    var recipe := m.products[item].ingredients;
    if CanMakeFrom(st.stocks, recipe) {
      ConsumeExact(st.stocks, recipe);
      ConsumeStepsFrame(st.stocks, recipe);
    }
  }

  /** Serving one customer keeps the books balanced and sells at most one item. */
  lemma ServeBalanced(m: Menu, st: Shop, item: string)
    requires Balanced(m, st) && item in m.products
    ensures Balanced(m, Serve(m, st, item))
    ensures TotalSales(m, Serve(m, st, item).sales) <= TotalSales(m, st.sales) + 1
  {
    if CanMakeFrom(st.stocks, m.products[item].ingredients) {
      ServeMade(m, st, item);
      SumOverBump(m, m.names, st.sales, item);
    } else {
      ServeRefused(m, st, item);
    }
  }

  /** A day's customers keep the books balanced, and no more items sell than there are customers. */
  lemma {:induction false} ServeFirstBalanced(m: Menu, st: Shop, items: seq<string>, n: nat)
    requires Balanced(m, st) && Chosen(m, items) && n <= |items|
    ensures Balanced(m, ServeFirst(m, st, items, n))
    ensures TotalSales(m, ServeFirst(m, st, items, n).sales) <= TotalSales(m, st.sales) + n
  {
    if n > 0 {
      ServeFirstBalanced(m, st, items, n - 1);
      var prev, item := ServeFirst(m, st, items, n - 1), items[n - 1];
      assert item in m.products;
      ServeBalanced(m, prev, item);
      var next := ServeFirst(m, st, items, n);
      assert next == Serve(m, prev, item);
      assert TotalSales(m, next.sales) <= TotalSales(m, prev.sales) + 1;
    }
  }

  /**
   Serving customers keeps a non-negative stock non-negative and never raises
   a quantity.
   */
  lemma {:induction false} ServeFirstStock(m: Menu, st: Shop, items: seq<string>, n: nat)
    requires WellFormedMenu(m) && Chosen(m, items) && n <= |items| && m.products.Keys <= st.sales.Keys
    requires NonNegative(st.stocks)
    ensures NonNegative(ServeFirst(m, st, items, n).stocks)
    ensures forall k :: k in st.stocks ==> ServeFirst(m, st, items, n).stocks[k] <= st.stocks[k]
  {
    if n > 0 {
      ServeFirstStock(m, st, items, n - 1);
      var prev := ServeFirst(m, st, items, n - 1);
      var recipe := m.products[items[n - 1]].ingredients;
      ConsumeStepsFrame(prev.stocks, recipe);
      ConsumeStepsDecreases(prev.stocks, recipe);
    }
  }

  // ---- the day record ----

  /** The state after the day's customers, before the restock. */
  function AfterService(m: Menu, s: Stocks, d: Draw): (r: Shop)
    requires Chosen(m, d.choices)
    ensures r.sales.Keys == m.products.Keys && r.stocks.Keys == s.Keys
  {
    ServeFirst(m, Shop(s, OpeningSales(m), 0), d.choices, |d.choices|)
  }

  /** simulate_day: serve the customers, restock with the defaults, and record the day. */
  function DayOutcome(m: Menu, day: int, s: Stocks, keys: seq<string>, d: Draw): (r: DayRecord)
    requires (forall i :: 0 <= i < |keys| ==> keys[i] in s) && Chosen(m, d.choices)
    ensures r.inventory.Keys == s.Keys
  {
    var served := AfterService(m, s, d);
    DayRecord(day, served.sales, served.revenue,
              UnderThreshold(served.stocks, keys, DefaultThreshold),
              RestockSteps(served.stocks, keys, DefaultThreshold, DefaultRestockAmount))
  }

  /** The record of a day whose service ended in `served`. */
  lemma DayOutcomeOf(m: Menu, day: int, s: Stocks, keys: seq<string>, d: Draw, served: Shop)
    requires KeyOrder(keys, s) && Chosen(m, d.choices) && served == AfterService(m, s, d)
    ensures forall k :: 0 <= k < |keys| ==> keys[k] in served.stocks
    ensures DayOutcome(m, day, s, keys, d) ==
      DayRecord(day, served.sales, served.revenue,
                UnderThreshold(served.stocks, keys, DefaultThreshold),
                RestockSteps(served.stocks, keys, DefaultThreshold, DefaultRestockAmount))
  {
  }

  /**
   The record's sales cover exactly the menu and are never negative, sum to
   at most the number of customers, and the revenue is the sum of count times price.
   */
  lemma DaySales(m: Menu, day: int, s: Stocks, keys: seq<string>, d: Draw)
    requires WellFormedMenu(m) && KeyOrder(keys, s) && WellFormedDraw(m, d)
    ensures var r := DayOutcome(m, day, s, keys, d);
      && r.day == day
      && r.sales.Keys == m.products.Keys
      && (forall p :: p in r.sales ==> r.sales[p] >= 0)
      && 0 <= TotalSales(m, r.sales) <= (if d.customers < 0 then 0 else d.customers)
      && r.revenue == Revenue(m, r.sales)
  {
    var opening := Shop(s, OpeningSales(m), 0);
    SumOverZero(m, m.names, OpeningSales(m));
    assert Balanced(m, opening);
    ServeFirstBalanced(m, opening, d.choices, |d.choices|);
    SumOverNonNegative(m.names, AfterService(m, s, d).sales);
  }

  /**
   The record's restocked list names exactly the ingredients that ended the
   service below 500, each once, in the stock's key order; each of them gained
   2000 in the record's inventory, and every other ingredient kept its quantity.
   */
  lemma DayRestock(m: Menu, day: int, s: Stocks, keys: seq<string>, d: Draw)
    requires WellFormedMenu(m) && KeyOrder(keys, s) && Chosen(m, d.choices)
    ensures var a, r := AfterService(m, s, d).stocks, DayOutcome(m, day, s, keys, d);
      && a.Keys == s.Keys
      && (forall k :: k in r.restocked <==> k in s && a[k] < DefaultThreshold)
      && (forall k :: k in s ==>
            r.inventory[k] == if k in r.restocked then a[k] + DefaultRestockAmount else a[k])
      && Distinct(r.restocked)
      && InKeyOrder(r.restocked, keys)
  {
    RestockList(AfterService(m, s, d).stocks, keys, DefaultThreshold);
    RestockStepsAll(AfterService(m, s, d).stocks, keys, DefaultThreshold, DefaultRestockAmount);
  }

  /** From a non-negative stock, the day ends with every ingredient at 500 or more. */
  lemma DayStockFloor(m: Menu, day: int, s: Stocks, keys: seq<string>, d: Draw)
    requires WellFormedMenu(m) && KeyOrder(keys, s) && Chosen(m, d.choices) && NonNegative(s)
    ensures NonNegative(DayOutcome(m, day, s, keys, d).inventory)
    ensures var inv := DayOutcome(m, day, s, keys, d).inventory;
      forall k :: k in inv ==> inv[k] >= DefaultThreshold
  {
    ServeFirstStock(m, Shop(s, OpeningSales(m), 0), d.choices, |d.choices|);
    RestockFloor(AfterService(m, s, d).stocks, keys, DefaultThreshold, DefaultRestockAmount);
  }

  /**
   Ingredients already below 500 at opening are restocked whatever the
   customers buy, in the stock's key order.
   */
  lemma DayRestocksLow(m: Menu, day: int, s: Stocks, keys: seq<string>, d: Draw, x: int, y: int)
    requires WellFormedMenu(m) && KeyOrder(keys, s) && Chosen(m, d.choices) && NonNegative(s)
    requires 0 <= x < y < |keys| && s[keys[x]] < DefaultThreshold && s[keys[y]] < DefaultThreshold
    ensures ListedBefore(DayOutcome(m, day, s, keys, d).restocked, keys[x], keys[y])
  {
    var served := AfterService(m, s, d);
    var a := served.stocks;
    ServeFirstStock(m, Shop(s, OpeningSales(m), 0), d.choices, |d.choices|);
    DayOutcomeOf(m, day, s, keys, d, served);
    KeyOrderKeys(keys, s, a);
    UnderThresholdPair(a, keys, DefaultThreshold, x, y);
  }

  /**
   Starting from the initial stock, whatever the customers buy, the day's
   restocked list contains yeast and, after it, eggs.
   */
  lemma DayOneRestocksYeastThenEggs(day: int, d: Draw)
    requires Chosen(ProductMenu, d.choices)
    ensures WellFormedMenu(ProductMenu) && KeyOrder(IngredientOrder, InitialInventory)
    ensures ListedBefore(DayOutcome(ProductMenu, day, InitialInventory, IngredientOrder, d).restocked, "yeast", "eggs")
  {
    CatalogWellFormed();
    InitialInventoryShape();
    DayRestocksLow(ProductMenu, day, InitialInventory, IngredientOrder, d, 1, 4);
  }

  /** The stock one Bread leaves behind, from the initial stock. */
  const AfterOneBread: Stocks := map["flour" := 4800, "yeast" := 195, "water" := 4900, "sugar" := 2000,
                                     "eggs" := 100, "oil" := 1000, "butter" := 800]

  lemma OneBreadConsumption()
    ensures CanMakeFrom(InitialInventory, Products["Bread"].ingredients)
    ensures ConsumeSteps(InitialInventory, Products["Bread"].ingredients).stocks == AfterOneBread
  {
    var bread := Products["Bread"].ingredients;
    assert bread == [("flour", 200), ("yeast", 5), ("water", 100)];
    assert bread[1..] == [("yeast", 5), ("water", 100)] && bread[2..] == [("water", 100)] && bread[3..] == [];
    var s1 := InitialInventory["flour" := 4800];
    var s2 := s1["yeast" := 195];
    var s3 := s2["water" := 4900];
    assert ConsumeSteps(InitialInventory, bread) == ConsumeSteps(s1, bread[1..]);
    assert ConsumeSteps(s1, bread[1..]) == ConsumeSteps(s2, bread[2..]);
    assert ConsumeSteps(s2, bread[2..]) == ConsumeSteps(s3, bread[3..]);
    assert s3 == AfterOneBread;
  }

  lemma OneBreadService()
    ensures AfterService(ProductMenu, InitialInventory, Draw(1, ["Bread"])) ==
      Shop(AfterOneBread, map["Bread" := 1, "Cake" := 0, "Donut" := 0, "Cookie" := 0], 40)
  {
    OneBreadConsumption();
    var opening := Shop(InitialInventory, OpeningSales(ProductMenu), 0);
    assert ServeFirst(ProductMenu, opening, ["Bread"], 1) == Serve(ProductMenu, opening, "Bread");
    assert OpeningSales(ProductMenu) == map["Bread" := 0, "Cake" := 0, "Donut" := 0, "Cookie" := 0];
  }

  lemma OneBreadRestockList()
    ensures UnderThreshold(AfterOneBread, IngredientOrder, DefaultThreshold) == ["yeast", "eggs"]
  {
    var after, keys := AfterOneBread, IngredientOrder;
    assert keys[..1][..0] == [] && keys[..2][..1] == keys[..1] && keys[..3][..2] == keys[..2];
    assert keys[..4][..3] == keys[..3] && keys[..5][..4] == keys[..4] && keys[..6][..5] == keys[..5];
    assert keys[..7] == keys && keys[..7][..6] == keys[..6];
    assert UnderThreshold(after, keys[..1], DefaultThreshold) == [];
    assert UnderThreshold(after, keys[..2], DefaultThreshold) == ["yeast"];
    assert UnderThreshold(after, keys[..3], DefaultThreshold) == ["yeast"];
    assert UnderThreshold(after, keys[..4], DefaultThreshold) == ["yeast"];
    assert UnderThreshold(after, keys[..5], DefaultThreshold) == ["yeast", "eggs"];
    assert UnderThreshold(after, keys[..6], DefaultThreshold) == ["yeast", "eggs"];
  }

  /**
   The one-Bread day as the code computes it: one Bread from the initial stock
   leaves yeast at 195 and eggs at 100, both below 500, so both are restocked.
   */
  lemma OneBreadDay()
    ensures WellFormedMenu(ProductMenu) && KeyOrder(IngredientOrder, InitialInventory)
    ensures var r := DayOutcome(ProductMenu, 1, InitialInventory, IngredientOrder, Draw(1, ["Bread"]));
      && r.sales == map["Bread" := 1, "Cake" := 0, "Donut" := 0, "Cookie" := 0]
      && r.revenue == 40
      && r.restocked == ["yeast", "eggs"]
      && r.inventory == AfterOneBread["yeast" := 2195]["eggs" := 2100]
  {
    CatalogWellFormed();
    InitialInventoryShape();
    var d := Draw(1, ["Bread"]);
    OneBreadService();
    DayOutcomeOf(ProductMenu, 1, InitialInventory, IngredientOrder, d, AfterService(ProductMenu, InitialInventory, d));
    OneBreadRestockList();
    OneBreadRestocked();
  }

  /** Topping the one-Bread stock up key by key raises exactly yeast and eggs. */
  lemma OneBreadToppedByKey()
    ensures var want := AfterOneBread["yeast" := 2195]["eggs" := 2100];
      forall j :: 0 <= j < |IngredientOrder| ==>
        want[IngredientOrder[j]] == Topped(AfterOneBread[IngredientOrder[j]], DefaultThreshold, DefaultRestockAmount)
  {
    var want := AfterOneBread["yeast" := 2195]["eggs" := 2100];
    forall j | 0 <= j < |IngredientOrder|
      ensures want[IngredientOrder[j]] ==
        Topped(AfterOneBread[IngredientOrder[j]], DefaultThreshold, DefaultRestockAmount)
    {
      var k := IngredientOrder[j];
      if j == 0 { assert k == "flour"; }
      else if j == 1 { assert k == "yeast"; }
      else if j == 2 { assert k == "water"; }
      else if j == 3 { assert k == "sugar"; }
      else if j == 4 { assert k == "eggs"; }
      else if j == 5 { assert k == "oil"; }
      else { assert k == "butter"; }
    }
  }

  lemma OneBreadRestocked()
    ensures RestockSteps(AfterOneBread, IngredientOrder, DefaultThreshold, DefaultRestockAmount) ==
      AfterOneBread["yeast" := 2195]["eggs" := 2100]
  {
    InitialInventoryShape();
    assert KeyOrder(IngredientOrder, InitialInventory);
    assert AfterOneBread.Keys == InitialInventory.Keys;
    KeyOrderKeys(IngredientOrder, InitialInventory, AfterOneBread);
    RestockStepsAll(AfterOneBread, IngredientOrder, DefaultThreshold, DefaultRestockAmount);
    OneBreadToppedByKey();
    RestockedByKey(AfterOneBread, AfterOneBread["yeast" := 2195]["eggs" := 2100], IngredientOrder,
                   DefaultThreshold, DefaultRestockAmount);
  }

  // ---- a run of days ----

  /** The stock a run leaves behind. */
  function Closing(s: Stocks, run: seq<DayRecord>): Stocks
  {
    if run == [] then s else run[|run| - 1].inventory
  }

  /**
   simulate: the first n days, numbered `first`, `first + 1`, ..., day j
   served with draws[j] from the stock the days before it left.
   */
  function RunDays(m: Menu, first: int, s: Stocks, keys: seq<string>, draws: seq<Draw>, n: nat): (run: seq<DayRecord>)
    requires (forall i :: 0 <= i < |keys| ==> keys[i] in s) && AllChosen(m, draws) && n <= |draws|
    ensures |run| == n
    ensures Closing(s, run).Keys == s.Keys
  {
    if n == 0 then []
    else
      var earlier := RunDays(m, first, s, keys, draws, n - 1);
      earlier + [DayOutcome(m, first + n - 1, Closing(s, earlier), keys, draws[n - 1])]
  }

  /** Taking a prefix of a prefix. */
  lemma PrefixOfPrefix<T>(r: seq<T>, n: nat, i: nat)
    requires i <= n <= |r|
    ensures r[..n][..i] == r[..i]
  {
  }

  /** The run of n - 1 days is the run of n days without its last day. */
  lemma RunDaysInit(m: Menu, first: int, s: Stocks, keys: seq<string>, draws: seq<Draw>, n: nat)
    requires (forall i :: 0 <= i < |keys| ==> keys[i] in s) && AllChosen(m, draws) && 0 < n <= |draws|
    ensures RunDays(m, first, s, keys, draws, n - 1) == RunDays(m, first, s, keys, draws, n)[..n - 1]
  {
  }

  /** The first i days of a run of n days are the run of i days. */
  lemma {:induction false} RunDaysPrefix(m: Menu, first: int, s: Stocks, keys: seq<string>, draws: seq<Draw>, i: nat, n: nat)
    requires (forall i :: 0 <= i < |keys| ==> keys[i] in s) && AllChosen(m, draws) && i <= n <= |draws|
    ensures RunDays(m, first, s, keys, draws, i) == RunDays(m, first, s, keys, draws, n)[..i]
    decreases n
  {
    if i < n {
      RunDaysPrefix(m, first, s, keys, draws, i, n - 1);
      RunDaysInit(m, first, s, keys, draws, n);
      PrefixOfPrefix(RunDays(m, first, s, keys, draws, n), n - 1, i);
    } else {
      PrefixOfPrefix(RunDays(m, first, s, keys, draws, n), n, n);
    }
  }

  /** The last day of a run of n days is simulated from the stock the first n - 1 days left. */
  lemma RunDaysLast(m: Menu, first: int, s: Stocks, keys: seq<string>, draws: seq<Draw>, n: nat)
    requires (forall i :: 0 <= i < |keys| ==> keys[i] in s) && AllChosen(m, draws) && 0 < n <= |draws|
    ensures var earlier := RunDays(m, first, s, keys, draws, n - 1);
      && (forall i :: 0 <= i < |keys| ==> keys[i] in Closing(s, earlier))
      && RunDays(m, first, s, keys, draws, n)[n - 1] == DayOutcome(m, first + n - 1, Closing(s, earlier), keys, draws[n - 1])
      && Closing(s, RunDays(m, first, s, keys, draws, n)) == RunDays(m, first, s, keys, draws, n)[n - 1].inventory
  {
  }

  /**
   Day i of a run, numbered first + i, is the day simulated with draws[i] from
   the stock the i days before it closed with.
   */
  lemma RunDaysDay(m: Menu, first: int, s: Stocks, keys: seq<string>, draws: seq<Draw>, i: nat, n: nat)
    requires KeyOrder(keys, s) && AllChosen(m, draws) && i < n <= |draws|
    ensures var r := RunDays(m, first, s, keys, draws, n);
      && KeyOrder(keys, Closing(s, r[..i]))
      && r[i] == DayOutcome(m, first + i, Closing(s, r[..i]), keys, draws[i])
  {
    var r := RunDays(m, first, s, keys, draws, n);
    RunDaysPrefix(m, first, s, keys, draws, i + 1, n);
    RunDaysPrefix(m, first, s, keys, draws, i, n);
    RunDaysLast(m, first, s, keys, draws, i + 1);
    KeyOrderKeys(keys, s, Closing(s, r[..i]));
    assert r[..i + 1][i] == r[i];
  }

  /** Each day after the first of a run starts from the inventory the day before recorded. */
  lemma RunDaysChain(m: Menu, first: int, s: Stocks, keys: seq<string>, draws: seq<Draw>, i: nat, n: nat)
    requires KeyOrder(keys, s) && AllChosen(m, draws) && 0 < i < n <= |draws|
    ensures var r := RunDays(m, first, s, keys, draws, n);
      && KeyOrder(keys, r[i - 1].inventory)
      && r[i] == DayOutcome(m, first + i, r[i - 1].inventory, keys, draws[i])
  {
    var r := RunDays(m, first, s, keys, draws, n);
    RunDaysDay(m, first, s, keys, draws, i, n);
    assert r[..i][i - 1] == r[i - 1];
  }

  /** A day run from a non-negative closing stock closes non-negative too. */
  lemma RunDaysClosingStep(m: Menu, first: int, s: Stocks, keys: seq<string>, draws: seq<Draw>, n: nat)
    requires WellFormedMenu(m) && KeyOrder(keys, s) && AllChosen(m, draws) && 0 < n <= |draws|
    requires NonNegative(Closing(s, RunDays(m, first, s, keys, draws, n - 1)))
    ensures NonNegative(Closing(s, RunDays(m, first, s, keys, draws, n)))
  {
    RunDaysLast(m, first, s, keys, draws, n);
    var opening := Closing(s, RunDays(m, first, s, keys, draws, n - 1));
    KeyOrderKeys(keys, s, opening);
    DayStockFloor(m, first + n - 1, opening, keys, draws[n - 1]);
  }

  /** From a non-negative stock, a run of days leaves a non-negative stock. */
  lemma {:induction false} RunDaysClosing(m: Menu, first: int, s: Stocks, keys: seq<string>, draws: seq<Draw>, n: nat)
    requires WellFormedMenu(m) && KeyOrder(keys, s) && AllChosen(m, draws) && n <= |draws| && NonNegative(s)
    ensures NonNegative(Closing(s, RunDays(m, first, s, keys, draws, n)))
    decreases n
  {
    if n > 0 {
      RunDaysClosing(m, first, s, keys, draws, n - 1);
      RunDaysClosingStep(m, first, s, keys, draws, n);
    }
  }

  /** From a non-negative stock, every recorded inventory of a run holds at least 500 of each ingredient. */
  lemma RunDaysStockFloor(m: Menu, first: int, s: Stocks, keys: seq<string>, draws: seq<Draw>, i: nat, n: nat)
    requires WellFormedMenu(m) && KeyOrder(keys, s) && AllChosen(m, draws) && i < n <= |draws| && NonNegative(s)
    ensures var inv := RunDays(m, first, s, keys, draws, n)[i].inventory;
      forall k :: k in inv ==> inv[k] >= DefaultThreshold
  {
    var r := RunDays(m, first, s, keys, draws, n);
    RunDaysDay(m, first, s, keys, draws, i, n);
    RunDaysPrefix(m, first, s, keys, draws, i, n);
    RunDaysClosing(m, first, s, keys, draws, i);
    DayStockFloor(m, first + i, Closing(s, r[..i]), keys, draws[i]);
  }
}
