/**
 What the Inventory of bakery.py does to its ingredient stock, stated on
 values: a stock is a map from ingredient to quantity. The class in
 bakery.dfy is proved against these functions.
 */
module Stock {
  import opened Wrappers
  import opened Catalog

  type Stocks = map<string, int>

  /** The default arguments of restock_if_needed. */
  const DefaultThreshold: int := 500
  const DefaultRestockAmount: int := 2000

  /** Quantity on hand; an ingredient the stock does not list reads as 0. */
  function Get(s: Stocks, ing: string): int
  {
    if ing in s then s[ing] else 0
  }

  predicate NonNegative(s: Stocks)
  {
    forall k :: k in s ==> s[k] >= 0
  }

  predicate Distinct(keys: seq<string>)
  {
    forall i, j :: 0 <= i < j < |keys| ==> keys[i] != keys[j]
  }

  /** `keys` is an iteration order of `s`: each of its keys exactly once. */
  predicate KeyOrder(keys: seq<string>, s: Stocks)
  {
    && Distinct(keys)
    && (forall i :: 0 <= i < |keys| ==> keys[i] in s)
    && (forall k :: k in s ==> k in keys)
  }

  /** The key order of a stock is the key order of any stock with the same keys. */
  lemma KeyOrderKeys(keys: seq<string>, s: Stocks, t: Stocks)
    requires KeyOrder(keys, s) && t.Keys == s.Keys
    ensures KeyOrder(keys, t)
  {
    assert forall k :: k in t <==> k in s;
  }

  /** `a` occurs in `r` at an earlier position than `b`. */
  predicate ListedBefore(r: seq<string>, a: string, b: string)
  {
    exists i, j :: 0 <= i < j < |r| && r[i] == a && r[j] == b
  }

  /** `r` lists its elements in the order in which they occur in `keys`. */
  predicate InKeyOrder(r: seq<string>, keys: seq<string>)
  {
    forall a, b, i, j ::
      (0 <= a < b < |r| && 0 <= i < |keys| && 0 <= j < |keys| && r[a] == keys[i] && r[b] == keys[j]) ==> i < j
  }

  // ---- can_make ----

  /** The feasibility check, walking the recipe and failing at the first short ingredient. */
  function CanMakeFrom(s: Stocks, recipe: Recipe): bool
  {
    if recipe == [] then true
    else if Get(s, recipe[0].0) < recipe[0].1 then false
    else CanMakeFrom(s, recipe[1..])
  }

  /** The walk succeeds exactly when every ingredient is stocked at least the amount asked. */
  lemma {:induction false} CanMakeIff(s: Stocks, recipe: Recipe)
    ensures CanMakeFrom(s, recipe) <==>
      forall i :: 0 <= i < |recipe| ==> Get(s, recipe[i].0) >= recipe[i].1
  {
    if recipe != [] {
      CanMakeIff(s, recipe[1..]);
      if forall i :: 0 <= i < |recipe[1..]| ==> Get(s, recipe[1..][i].0) >= recipe[1..][i].1 {
        forall i | 1 <= i < |recipe| ensures Get(s, recipe[i].0) >= recipe[i].1 {
          assert recipe[i] == recipe[1..][i - 1];
        }
      }
    }
  }

  /** With positive amounts a feasible recipe names only ingredients that are in stock. */
  lemma CanMakePresent(s: Stocks, recipe: Recipe)
    requires PositiveAmounts(recipe) && CanMakeFrom(s, recipe)
    ensures forall i :: 0 <= i < |recipe| ==> recipe[i].0 in s
  {
    CanMakeIff(s, recipe);
  }

  /** With positive amounts, consuming a feasible recipe never stops at a missing ingredient. */
  lemma ConsumeFeasible(s: Stocks, recipe: Recipe)
    requires PositiveAmounts(recipe) && CanMakeFrom(s, recipe)
    ensures ConsumeSteps(s, recipe).missing == None
  {
    CanMakePresent(s, recipe);
    ConsumeStepsFrame(s, recipe);
  }

  // ---- consume ----

  /** One deduction: subtract, then clamp a negative result to zero. */
  function Deducted(q: int, amt: int): (r: int)
    ensures r >= 0 && r >= q - amt
    ensures r == q - amt || r == 0
  {
    var d := q - amt;
    if d < 0 then 0 else d
  }

  /** The stock after consume, and the ingredient whose lookup failed, if any. */
  datatype Consumption = Consumption(stocks: Stocks, missing: Option<string>)

  /**
   The consume loop: deductions in recipe order; an ingredient the stock does
   not list stops the loop (a KeyError in the source) with the deductions
   already made left in place.
   */
  function ConsumeSteps(s: Stocks, recipe: Recipe): (r: Consumption)
    ensures r.stocks.Keys == s.Keys
  {
    if recipe == [] then Consumption(s, None)
    else if recipe[0].0 !in s then Consumption(s, Some(recipe[0].0))
    else ConsumeSteps(s[recipe[0].0 := Deducted(s[recipe[0].0], recipe[0].1)], recipe[1..])
  }

  /** Consumption when every ingredient is present: each recipe ingredient clamps, the rest stay. */
  function Consumed(s: Stocks, recipe: Recipe): Stocks
  {
    map k | k in s :: if Uses(recipe, k) then Deducted(s[k], Amount(recipe, k)) else s[k]
  }

  /**
   A stock that lists every ingredient of the initial stock can consume any
   catalog recipe without a missing ingredient.
   */
  lemma CatalogConsumeNeverMissing(s: Stocks, p: string)
    requires p in Products && InitialInventory.Keys <= s.Keys
    ensures ConsumeSteps(s, Products[p].ingredients).missing == None
  {
    RecipeIngredientsStocked();
    ConsumeStepsFrame(s, Products[p].ingredients);
  }

  /**
   Whatever happens, consume keeps the key set, leaves the ingredients outside
   the recipe alone, never makes a non-negative stock negative, and fails exactly
   when some recipe ingredient is not a key, naming such an ingredient.
   */
  lemma {:induction false} ConsumeStepsFrame(s: Stocks, recipe: Recipe)
    ensures ConsumeSteps(s, recipe).stocks.Keys == s.Keys
    ensures forall k :: k in s && !Uses(recipe, k) ==> ConsumeSteps(s, recipe).stocks[k] == s[k]
    ensures NonNegative(s) ==> NonNegative(ConsumeSteps(s, recipe).stocks)
    ensures ConsumeSteps(s, recipe).missing == None <==>
      forall i :: 0 <= i < |recipe| ==> recipe[i].0 in s
    ensures ConsumeSteps(s, recipe).missing.Some? ==>
      var m := ConsumeSteps(s, recipe).missing.value; m !in s && Uses(recipe, m)
  {
    if recipe != [] && recipe[0].0 in s {
      var s' := s[recipe[0].0 := Deducted(s[recipe[0].0], recipe[0].1)];
      var rest := recipe[1..];
      ConsumeStepsFrame(s', rest);
      forall k | k in s && !Uses(recipe, k) ensures ConsumeSteps(s, recipe).stocks[k] == s[k] {
        assert k != recipe[0].0;
      }
      if forall i :: 0 <= i < |rest| ==> rest[i].0 in s' {
        forall i | 0 <= i < |recipe| ensures recipe[i].0 in s {
          if i > 0 { assert recipe[i] == rest[i - 1]; }
        }
      }
      if ConsumeSteps(s, recipe).missing.Some? {
        var m := ConsumeSteps(s, recipe).missing.value;
        var i :| 0 <= i < |rest| && rest[i].0 == m;
        assert recipe[i + 1] == rest[i];
      }
    } else if recipe != [] {
      assert Uses(recipe, recipe[0].0);
    }
  }

  /** With non-negative amounts, consume never raises a non-negative quantity. */
  lemma {:induction false} ConsumeStepsDecreases(s: Stocks, recipe: Recipe)
    requires NonNegative(s)
    requires forall i :: 0 <= i < |recipe| ==> recipe[i].1 >= 0
    ensures forall k :: k in s ==> k in ConsumeSteps(s, recipe).stocks && ConsumeSteps(s, recipe).stocks[k] <= s[k]
  {
    if recipe != [] && recipe[0].0 in s {
      var s' := s[recipe[0].0 := Deducted(s[recipe[0].0], recipe[0].1)];
      ConsumeStepsDecreases(s', recipe[1..]);
    }
  }

  /**
   When every ingredient is present, consume's walk equals the closed form:
   each recipe ingredient becomes max(old - amount, 0), everything else is unchanged.
   */
  lemma {:induction false} ConsumeStepsAllPresent(s: Stocks, recipe: Recipe)
    requires DistinctIngredients(recipe)
    requires forall i :: 0 <= i < |recipe| ==> recipe[i].0 in s
    ensures ConsumeSteps(s, recipe) == Consumption(Consumed(s, recipe), None)
  {
    if recipe == [] {
      assert Consumed(s, recipe) == s;
    } else {
      var ing, amt := recipe[0].0, recipe[0].1;
      var s' := s[ing := Deducted(s[ing], amt)];
      var rest := recipe[1..];
      forall i | 0 <= i < |rest| ensures rest[i].0 in s' {
        assert rest[i] == recipe[i + 1];
      }
      ConsumeStepsAllPresent(s', rest);
      forall k | k in s ensures Consumed(s', rest)[k] == Consumed(s, recipe)[k] {
        assert Uses(recipe, ing);
        if k != ing {
          if Uses(recipe, k) {
            var i :| 0 <= i < |recipe| && recipe[i].0 == k;
            assert rest[i - 1] == recipe[i];
          }
          if Uses(rest, k) {
            var i :| 0 <= i < |rest| && rest[i].0 == k;
            assert recipe[i + 1] == rest[i];
          }
        }
      }
      assert Consumed(s', rest) == Consumed(s, recipe);
    }
  }

  /**
   Consuming a feasible recipe (distinct ingredients, positive amounts) cannot
   fail, and lowers each of its ingredients by exactly the amount asked.
   */
  lemma ConsumeExact(s: Stocks, recipe: Recipe)
    requires DistinctIngredients(recipe) && PositiveAmounts(recipe) && CanMakeFrom(s, recipe)
    ensures ConsumeSteps(s, recipe).missing == None
    ensures ConsumeSteps(s, recipe).stocks.Keys == s.Keys
    ensures forall i :: 0 <= i < |recipe| ==>
      recipe[i].0 in s && ConsumeSteps(s, recipe).stocks[recipe[i].0] == s[recipe[i].0] - recipe[i].1
  {
    CanMakeIff(s, recipe);
    ConsumeStepsAllPresent(s, recipe);
    ConsumeStepsFrame(s, recipe);
    forall i | 0 <= i < |recipe|
      ensures ConsumeSteps(s, recipe).stocks[recipe[i].0] == s[recipe[i].0] - recipe[i].1
    {
      AmountAt(recipe, i);
      assert Uses(recipe, recipe[i].0);
    }
  }

  // ---- restock_if_needed ----

  /** One quantity after the restock: below the threshold it gains `amount`, otherwise it stays. */
  function Topped(q: int, threshold: int, amount: int): int
  {
    if q < threshold then q + amount else q
  }

  /** Every ingredient below the threshold gains `amount`; the others keep their quantity. */
  function Restocked(s: Stocks, threshold: int, amount: int): Stocks
  {
    map k | k in s :: Topped(s[k], threshold, amount)
  }

  /** A stock topped up key by key, over every key, is the restocked stock. */
  lemma RestockedByKey(s: Stocks, t: Stocks, keys: seq<string>, threshold: int, amount: int)
    requires KeyOrder(keys, s) && t.Keys == s.Keys
    requires forall j :: 0 <= j < |keys| ==> t[keys[j]] == Topped(s[keys[j]], threshold, amount)
    ensures t == Restocked(s, threshold, amount)
  {
    forall k | k in t ensures t[k] == Topped(s[k], threshold, amount) {
      var j :| 0 <= j < |keys| && keys[j] == k;
    }
  }

  /** restock_if_needed's loop: the keys visited in order, each topped up from its current quantity. */
  function RestockSteps(s: Stocks, keys: seq<string>, threshold: int, amount: int): (r: Stocks)
    requires forall i :: 0 <= i < |keys| ==> keys[i] in s
    ensures r.Keys == s.Keys
  {
    if keys == [] then s
    else
      var prev := RestockSteps(s, keys[..|keys| - 1], threshold, amount);
      var last := keys[|keys| - 1];
      prev[last := Topped(prev[last], threshold, amount)]
  }

  /** Visiting distinct keys tops up each visited key once and leaves the others alone. */
  lemma {:induction false} RestockStepsPointwise(s: Stocks, keys: seq<string>, threshold: int, amount: int)
    requires (forall i :: 0 <= i < |keys| ==> keys[i] in s) && Distinct(keys)
    ensures forall k :: k in s ==>
      RestockSteps(s, keys, threshold, amount)[k] == if k in keys then Topped(s[k], threshold, amount) else s[k]
  {
    if keys != [] {
      var n := |keys|;
      var init, last := keys[..n - 1], keys[n - 1];
      assert Distinct(init) by {
        forall i, j | 0 <= i < j < |init| ensures init[i] != init[j] { assert init[i] == keys[i] && init[j] == keys[j]; }
      }
      assert last !in init by {
        forall i | 0 <= i < n - 1 ensures init[i] != last { assert init[i] == keys[i]; }
      }
      RestockStepsPointwise(s, init, threshold, amount);
      assert keys == init + [last];
    }
  }

  /** Walking every key of the stock once restocks it as the pointwise definition says. */
  lemma RestockStepsAll(s: Stocks, keys: seq<string>, threshold: int, amount: int)
    requires KeyOrder(keys, s)
    ensures RestockSteps(s, keys, threshold, amount) == Restocked(s, threshold, amount)
  {
    RestockStepsPointwise(s, keys, threshold, amount);
  }

  /** The keys of `keys`, in that order, whose quantity is below the threshold. */
  function UnderThreshold(s: Stocks, keys: seq<string>, threshold: int): (r: seq<string>)
    requires forall i :: 0 <= i < |keys| ==> keys[i] in s
    ensures |r| <= |keys|
  {
    if keys == [] then []
    else
      var last := keys[|keys| - 1];
      UnderThreshold(s, keys[..|keys| - 1], threshold) + (if s[last] < threshold then [last] else [])
  }

  /** Visiting one more key appends it when it is below the threshold. */
  lemma UnderThresholdNext(s: Stocks, keys: seq<string>, i: nat, threshold: int)
    requires (forall j :: 0 <= j < |keys| ==> keys[j] in s) && i < |keys|
    ensures UnderThreshold(s, keys[..i + 1], threshold) ==
      UnderThreshold(s, keys[..i], threshold) + (if s[keys[i]] < threshold then [keys[i]] else [])
  {
    assert keys[..i + 1][..i] == keys[..i];
  }

  /** The restocked list holds exactly the keys below the threshold. */
  lemma {:induction false} UnderThresholdMembers(s: Stocks, keys: seq<string>, threshold: int)
    requires forall i :: 0 <= i < |keys| ==> keys[i] in s
    ensures forall k :: k in UnderThreshold(s, keys, threshold) <==> k in keys && s[k] < threshold
  {
    if keys != [] {
      var init := keys[..|keys| - 1];
      UnderThresholdMembers(s, init, threshold);
      assert keys == init + [keys[|keys| - 1]];
    }
  }

  /** A key listed once in `keys` is listed at most once in the restocked list, and in key order. */
  lemma {:induction false} UnderThresholdOrdered(s: Stocks, keys: seq<string>, threshold: int)
    requires forall i :: 0 <= i < |keys| ==> keys[i] in s
    requires Distinct(keys)
    ensures Distinct(UnderThreshold(s, keys, threshold))
    ensures InKeyOrder(UnderThreshold(s, keys, threshold), keys)
  {
    if keys != [] {
      var n := |keys|;
      var init := keys[..n - 1];
      var last := keys[n - 1];
      var r' := UnderThreshold(s, init, threshold);
      var r := UnderThreshold(s, keys, threshold);
      UnderThresholdOrdered(s, init, threshold);
      UnderThresholdMembers(s, init, threshold);
      assert last !in init by {
        forall i | 0 <= i < n - 1 ensures init[i] != last { assert init[i] == keys[i]; }
      }
      forall a, b, i, j | 0 <= a < b < |r| && 0 <= i < n && 0 <= j < n && r[a] == keys[i] && r[b] == keys[j]
        ensures i < j
      {
        assert r[a] == r'[a];
        assert r[a] in init;
        assert i < n - 1;
        assert r[a] == init[i];
        if b < |r'| {
          assert r[b] == r'[b];
          assert r[b] in init;
          assert j < n - 1;
          assert r[b] == init[j];
        } else {
          assert r[b] == last;
          assert j == n - 1;
        }
      }
      forall a, b | 0 <= a < b < |r| ensures r[a] != r[b] {
        if b < |r'| {
          assert r[a] == r'[a] && r[b] == r'[b];
        } else {
          assert r[a] == r'[a] && r[a] in init;
        }
      }
    }
  }

  /**
   restock_if_needed's list: exactly the keys below the threshold, each once,
   in the stock's key order.
   */
  lemma RestockList(s: Stocks, keys: seq<string>, threshold: int)
    requires KeyOrder(keys, s)
    ensures forall k :: k in UnderThreshold(s, keys, threshold) <==> k in s && s[k] < threshold
    ensures Distinct(UnderThreshold(s, keys, threshold))
    ensures InKeyOrder(UnderThreshold(s, keys, threshold), keys)
  {
    UnderThresholdMembers(s, keys, threshold);
    UnderThresholdOrdered(s, keys, threshold);
  }

  /** Two keys below the threshold are both listed, in their key order. */
  lemma {:induction false} UnderThresholdPair(s: Stocks, keys: seq<string>, threshold: int, x: int, y: int)
    requires forall i :: 0 <= i < |keys| ==> keys[i] in s
    requires 0 <= x < y < |keys| && s[keys[x]] < threshold && s[keys[y]] < threshold
    ensures ListedBefore(UnderThreshold(s, keys, threshold), keys[x], keys[y])
  {
    var n := |keys|;
    var init := keys[..n - 1];
    var r' := UnderThreshold(s, init, threshold);
    var r := UnderThreshold(s, keys, threshold);
    assert init[x] == keys[x];
    if y == n - 1 {
      UnderThresholdMembers(s, init, threshold);
      var i :| 0 <= i < |r'| && r'[i] == keys[x];
      assert r[i] == keys[x] && r[|r'|] == keys[y];
    } else {
      UnderThresholdPair(s, init, threshold, x, y);
      var i, j :| 0 <= i < j < |r'| && r'[i] == keys[x] && r'[j] == keys[y];
      assert r[i] == keys[x] && r[j] == keys[y];
    }
  }

  /** With a non-negative stock and an amount at least the threshold, nothing is left below the threshold. */
  lemma RestockFloor(s: Stocks, keys: seq<string>, threshold: int, amount: int)
    requires KeyOrder(keys, s) && NonNegative(s) && threshold <= amount
    ensures NonNegative(RestockSteps(s, keys, threshold, amount))
    ensures forall k :: k in s ==> RestockSteps(s, keys, threshold, amount)[k] >= threshold
  {
    RestockStepsAll(s, keys, threshold, amount);
  }
}
