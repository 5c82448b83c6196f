/**
 The two classes of bakery.py. Inventory owns a stock that its methods update
 in place; BakerySimulator drives it through customer days and keeps the
 history. Each mutating method is proved against the functions of Stock and
 Ledger, whose properties are proved there.
 */
module Bakery {
  import opened Wrappers
  import opened Catalog
  import opened Stock
  import opened Ledger

  class Inventory {
    var stocks: Stocks
    /** The dict's iteration order; no operation adds or removes a key. */
    const order: seq<string>
    /** The product catalog whose recipes can_make and consume read. */
    const menu: Menu

    ghost predicate Valid()
      reads this
    {
      KeyOrder(order, stocks)
    }

    /** Maps are values, so keeping `initial` is the deep copy of the source. */
    constructor (initial: Stocks, order: seq<string>)
      requires KeyOrder(order, initial)
      ensures Valid() && stocks == initial && this.order == order
      ensures menu == ProductMenu && WellFormedMenu(menu)
    {
      stocks := initial;
      this.order := order;
      menu := ProductMenu;
      CatalogWellFormed();
    }

    /** can_make: every ingredient of the product's recipe is stocked at least the amount asked. */
    function CanMake(name: string): (b: bool)
      reads this
      requires name in menu.products
      ensures b <==> forall i :: 0 <= i < |menu.products[name].ingredients| ==>
        Get(stocks, menu.products[name].ingredients[i].0) >= menu.products[name].ingredients[i].1
    {
      CanMakeIff(stocks, menu.products[name].ingredients);
      CanMakeFrom(stocks, menu.products[name].ingredients)
    }

    /**
     consume: subtract each recipe amount, clamping at zero. A recipe ingredient
     the stock does not list stops the loop, as the source's KeyError does, and
     is returned; the deductions made before it stay.
     */
    method Consume(name: string) returns (missing: Option<string>)
      requires Valid() && name in menu.products
      modifies this
      ensures Valid()
      ensures Consumption(stocks, missing) == ConsumeSteps(old(stocks), menu.products[name].ingredients)
    {
      var recipe := menu.products[name].ingredients;
      var i := 0;
      while i < |recipe|
        invariant 0 <= i <= |recipe|
        invariant stocks.Keys == old(stocks).Keys
        invariant ConsumeSteps(stocks, recipe[i..]) == ConsumeSteps(old(stocks), recipe)
      {
        var (ing, amt) := recipe[i];
        assert recipe[i..][0] == (ing, amt) && recipe[i..][1..] == recipe[i + 1..];
        if ing !in stocks {
          return Some(ing);
        }
        ghost var before := stocks;
        stocks := stocks[ing := stocks[ing] - amt];
        if stocks[ing] < 0 {
          stocks := stocks[ing := 0];
        }
        assert stocks == before[ing := Deducted(before[ing], amt)];
        i := i + 1;
      }
      return None;
    }

    /**
     restock_if_needed: walk the keys in order; each one below the threshold
     gains `amount` and is appended to the returned list.
     */
    method RestockIfNeeded(threshold: int := DefaultThreshold, amount: int := DefaultRestockAmount)
      returns (restocked: seq<string>)
      requires Valid()
      modifies this
      ensures Valid()
      ensures stocks == Restocked(old(stocks), threshold, amount)
      ensures restocked == UnderThreshold(old(stocks), order, threshold)
    {
      ghost var s0 := stocks;
      restocked := [];
      var i := 0;
      while i < |order|
        invariant 0 <= i <= |order|
        invariant Valid() && stocks.Keys == s0.Keys
        invariant RestockedUpTo(s0, i, threshold, amount)
        invariant restocked == UnderThreshold(s0, order[..i], threshold)
      {
        restocked := RestockOne(s0, i, threshold, amount, restocked);
        i := i + 1;
      }
      assert order[..|order|] == order;
      RestockedByKey(s0, stocks, order, threshold, amount);
    }

    /** The first i keys of the order are topped up from `s0`; the others still hold their `s0` quantity. */
    ghost predicate RestockedUpTo(s0: Stocks, i: int, threshold: int, amount: int)
      reads this
      requires Valid() && stocks.Keys == s0.Keys
    {
      forall j :: 0 <= j < |order| ==>
        stocks[order[j]] == if j < i then Topped(s0[order[j]], threshold, amount) else s0[order[j]]
    }

    /**
     One turn of restock_if_needed's loop: the i-th key, if below the
     threshold, gains `amount` and is appended to the list.
     */
    method RestockOne(ghost s0: Stocks, i: nat, threshold: int, amount: int, restocked: seq<string>)
      returns (restocked': seq<string>)
      requires Valid() && stocks.Keys == s0.Keys && i < |order|
      requires RestockedUpTo(s0, i, threshold, amount)
      requires restocked == UnderThreshold(s0, order[..i], threshold)
      modifies this
      ensures Valid() && stocks.Keys == s0.Keys
      ensures RestockedUpTo(s0, i + 1, threshold, amount)
      ensures restocked' == UnderThreshold(s0, order[..i + 1], threshold)
    {
      var ing := order[i];
      var qty := stocks[ing];
      assert qty == s0[ing];
      UnderThresholdNext(s0, order, i, threshold);
      assert forall j :: 0 <= j < |order| && j != i ==> order[j] != ing;
      restocked' := restocked;
      if qty < threshold {
        stocks := stocks[ing := qty + amount];
        restocked' := restocked' + [ing];
      }
    }

    /** snapshot: the current stock, as a value that later updates cannot reach. */
    function Snapshot(): (m: Stocks)
      reads this
      ensures m == stocks
    {
      stocks
    }
  }

  /**
   A snapshot keeps the quantities it was taken with, whatever the inventory
   does afterwards.
   */
  method SnapshotIsIndependent(inv: Inventory, name: string) returns (snap: Stocks)
    requires inv.Valid() && name in inv.menu.products
    modifies inv
    ensures snap == old(inv.stocks)
    ensures inv.stocks == ConsumeSteps(snap, inv.menu.products[name].ingredients).stocks
  {
    snap := inv.Snapshot();
    var _ := inv.Consume(name);
  }

  class BakerySimulator {
    const inventory: Inventory
    /** The products customers choose from, with their prices. */
    const products: Menu
    var history: seq<DayRecord>

    ghost predicate Valid()
      reads this, inventory
    {
      inventory.Valid() && products == inventory.menu && WellFormedMenu(products)
    }

    /** The inventory is shared, not copied; the history starts empty. */
    constructor (inventory: Inventory, products: Menu)
      requires inventory.Valid() && products == inventory.menu && WellFormedMenu(products)
      ensures Valid() && this.inventory == inventory && this.products == products && history == []
    {
      this.inventory := inventory;
      this.products := products;
      history := [];
    }

    /**
     One customer of simulate_day: if the chosen product can be made, it is
     consumed, counted and paid for; otherwise the customer is turned away.
     */
    method ServeOne(item: string, sales: map<string, int>, revenue: int)
      returns (sales': map<string, int>, revenue': int)
      requires Valid() && item in products.products && item in sales
      modifies inventory
      ensures Valid()
      ensures Shop(inventory.stocks, sales', revenue') == Serve(products, Shop(old(inventory.stocks), sales, revenue), item)
    {
      ghost var before := Shop(inventory.stocks, sales, revenue);
      sales', revenue' := sales, revenue;
      if inventory.CanMake(item) {
        ServeMade(products, before, item);
        var missing := inventory.Consume(item);
        assert missing == None by {
          ConsumeFeasible(before.stocks, products.products[item].ingredients);
        }
        sales' := sales'[item := sales'[item] + 1];
        revenue' := revenue' + products.products[item].price;
      } else {
        ServeRefused(products, before, item);
      }
    }

    /** The customer loop of simulate_day: the customers are served in the order they came. */
    method ServeCustomers(choices: seq<string>) returns (sales: map<string, int>, revenue: int)
      requires Valid() && Chosen(products, choices)
      modifies inventory
      ensures Valid()
      ensures Shop(inventory.stocks, sales, revenue) ==
        ServeFirst(products, Shop(old(inventory.stocks), OpeningSales(products), 0), choices, |choices|)
    {
      sales := OpeningSales(products);
      revenue := 0;
      ghost var opening := Shop(inventory.stocks, sales, revenue);
      var i := 0;
      while i < |choices|
        invariant 0 <= i <= |choices|
        invariant Valid()
        invariant Shop(inventory.stocks, sales, revenue) == ServeFirst(products, opening, choices, i)
      {
        sales, revenue := ServeOne(choices[i], sales, revenue);
        i := i + 1;
      }
    }

    /**
     simulate_day: `draw` stands for what randint and choice returned. An empty
     customer range fails before anything changes. Otherwise the customers are
     served in order, the stock is restocked with the defaults, and the day's
     record, returned, is appended to the history.
     */
    method SimulateDay(day: int, draw: Draw,
                       customersMin: int := DefaultCustomersMin, customersMax: int := DefaultCustomersMax)
      returns (r: Result<DayRecord, SimError>)
      requires Valid() && ValidDraw(products, draw, customersMin, customersMax)
      modifies this, inventory
      ensures Valid()
      ensures customersMax < customersMin ==>
        r == Err(EmptyCustomerRange) && history == old(history) && inventory.stocks == old(inventory.stocks)
      ensures customersMin <= customersMax ==>
        && r == Ok(DayOutcome(products, day, old(inventory.stocks), inventory.order, draw))
        && history == old(history) + [r.value]
        && inventory.stocks == r.value.inventory
    {
      if customersMax < customersMin {
        return Err(EmptyCustomerRange);
      }
      var sales, revenue := ServeCustomers(draw.choices);
      DayOutcomeOf(products, day, old(inventory.stocks), inventory.order, draw, Shop(inventory.stocks, sales, revenue));
      ghost var served := inventory.stocks;
      RestockStepsAll(served, inventory.order, DefaultThreshold, DefaultRestockAmount);
      var restocked := inventory.RestockIfNeeded();
      var rec := DayRecord(day, sales, revenue, restocked, inventory.Snapshot());
      history := history + [rec];
      return Ok(rec);
    }

    /**
     simulate: days 1 to `days`, in order, each with its own draw; returns the
     whole history. An empty customer range fails on day 1, before any change.
     */
    method Simulate(draws: seq<Draw>, days: int := DefaultDays,
                    customersMin: int := DefaultCustomersMin, customersMax: int := DefaultCustomersMax)
      returns (r: Result<seq<DayRecord>, SimError>)
      requires Valid()
      requires |draws| == (if days < 1 then 0 else days)
      requires forall i :: 0 <= i < |draws| ==> ValidDraw(products, draws[i], customersMin, customersMax)
      modifies this, inventory
      ensures Valid()
      ensures days >= 1 && customersMax < customersMin ==>
        r == Err(EmptyCustomerRange) && history == old(history) && inventory.stocks == old(inventory.stocks)
      ensures days < 1 || customersMin <= customersMax ==>
        && AllChosen(products, draws)
        && KeyOrder(inventory.order, old(inventory.stocks))
        && var run := RunDays(products, 1, old(inventory.stocks), inventory.order, draws, |draws|);
        && history == old(history) + run
        && r == Ok(history)
        && inventory.stocks == Closing(old(inventory.stocks), run)
    {
      assert AllChosen(products, draws);
      var d := 1;
      while d <= days
        invariant 1 <= d && d - 1 <= |draws| && (d <= days ==> d <= |draws|)
        invariant d > 1 ==> customersMin <= customersMax
        invariant Valid()
        invariant KeyOrder(inventory.order, old(inventory.stocks))
        invariant history == old(history) + RunDays(products, 1, old(inventory.stocks), inventory.order, draws, d - 1)
        invariant inventory.stocks ==
          Closing(old(inventory.stocks), RunDays(products, 1, old(inventory.stocks), inventory.order, draws, d - 1))
      {
        var day := SimulateDay(d, draws[d - 1], customersMin, customersMax);
        if day.Err? {
          return Err(day.error);
        }
        d := d + 1;
      }
      return Ok(history);
    }
  }
}
