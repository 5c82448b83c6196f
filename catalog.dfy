/**
 The recipe catalog and the starting stock of the bakery (data.py): constant
 dictionaries, modelled as constants. A recipe keeps the dictionary's insertion
 order as a sequence of (ingredient, amount) pairs.
 */
module Catalog {

  type Recipe = seq<(string, int)>

  datatype Product = Product(price: int, ingredients: Recipe)

  /** A product dictionary: its keys in insertion order and the products they name. */
  datatype Menu = Menu(names: seq<string>, products: map<string, Product>)

  /** The catalog's keys in insertion order. */
  const ProductNames: seq<string> := ["Bread", "Cake", "Donut", "Cookie"]

  const Products: map<string, Product> := map[
    "Bread"  := Product(40,  [("flour", 200), ("yeast", 5), ("water", 100)]),
    "Cake"   := Product(150, [("flour", 300), ("sugar", 100), ("eggs", 3), ("butter", 50)]),
    "Donut"  := Product(50,  [("flour", 80), ("sugar", 20), ("oil", 15)]),
    "Cookie" := Product(20,  [("flour", 50), ("sugar", 30), ("butter", 15)])
  ]

  /** PRODUCTS, with its key order. */
  const ProductMenu: Menu := Menu(ProductNames, Products)

  /** The starting stock's keys in insertion order. */
  const IngredientOrder: seq<string> := ["flour", "yeast", "water", "sugar", "eggs", "oil", "butter"]

  const InitialInventory: map<string, int> := map[
    "flour" := 5000, "yeast" := 200, "water" := 5000, "sugar" := 2000,
    "eggs" := 100, "oil" := 1000, "butter" := 800
  ]

  // ---- recipes ----

  /** True when `ing` is one of the recipe's ingredients. */
  predicate Uses(recipe: Recipe, ing: string)
  {
    exists i :: 0 <= i < |recipe| && recipe[i].0 == ing
  }

  /** The amount the recipe asks of `ing` (its first entry), 0 when it does not use it. */
  function Amount(recipe: Recipe, ing: string): int
  {
    if recipe == [] then 0
    else if recipe[0].0 == ing then recipe[0].1
    else Amount(recipe[1..], ing)
  }

  /** A dictionary has each key once. */
  predicate DistinctIngredients(recipe: Recipe)
  {
    forall i, j :: 0 <= i < j < |recipe| ==> recipe[i].0 != recipe[j].0
  }

  predicate PositiveAmounts(recipe: Recipe)
  {
    forall i :: 0 <= i < |recipe| ==> recipe[i].1 > 0
  }

  /** Every entry of a recipe without repeated ingredients is what Amount reports. */
  lemma {:induction false} AmountAt(recipe: Recipe, i: nat)
    requires DistinctIngredients(recipe) && i < |recipe|
    ensures Amount(recipe, recipe[i].0) == recipe[i].1
  {
    if i > 0 {
      assert recipe[0].0 != recipe[i].0;
      assert recipe[1..][i - 1] == recipe[i];
      AmountAt(recipe[1..], i - 1);
    }
  }

  /**
   What the simulation relies on in a product dictionary: its key order lists
   each product once, and every recipe lists each ingredient once with a
   strictly positive amount.
   */
  predicate WellFormedMenu(m: Menu)
  {
    && (forall i, j :: 0 <= i < j < |m.names| ==> m.names[i] != m.names[j])
    && (forall i :: 0 <= i < |m.names| ==> m.names[i] in m.products)
    && (forall p :: p in m.products ==> p in m.names)
    && (forall p :: p in m.products ==>
          DistinctIngredients(m.products[p].ingredients) && PositiveAmounts(m.products[p].ingredients))
  }

  // ---- facts about the constants ----

  /** The catalog holds exactly Bread, Cake, Donut and Cookie, priced 40, 150, 50 and 20. */
  lemma CatalogProducts()
    ensures Products.Keys == {"Bread", "Cake", "Donut", "Cookie"}
    ensures Products["Bread"].price == 40 && Products["Cake"].price == 150
    ensures Products["Donut"].price == 50 && Products["Cookie"].price == 20
    ensures forall p :: p in Products <==> p in ProductNames
    ensures forall i, j :: 0 <= i < j < |ProductNames| ==> ProductNames[i] != ProductNames[j]
  {
  }

  /**
   The catalog's key order lists each product once, and every recipe lists each
   ingredient once and asks a strictly positive amount of it.
   */
  lemma CatalogWellFormed()
    ensures WellFormedMenu(ProductMenu)
  {
    CatalogProducts();
    RecipesWellFormed();
  }

  /** Every recipe lists each ingredient once and asks a strictly positive amount of it. */
  lemma RecipesWellFormed()
    ensures forall p :: p in Products ==>
      DistinctIngredients(Products[p].ingredients) && PositiveAmounts(Products[p].ingredients)
  {
    forall p | p in Products
      ensures DistinctIngredients(Products[p].ingredients) && PositiveAmounts(Products[p].ingredients)
    {
      var r := Products[p].ingredients;
      if p == "Bread" {
        assert r == [("flour", 200), ("yeast", 5), ("water", 100)];
      } else if p == "Cake" {
        assert r == [("flour", 300), ("sugar", 100), ("eggs", 3), ("butter", 50)];
      } else if p == "Donut" {
        assert r == [("flour", 80), ("sugar", 20), ("oil", 15)];
      } else {
        assert r == [("flour", 50), ("sugar", 30), ("butter", 15)];
      }
    }
  }

  /** Every ingredient a recipe names is a key of the starting stock. */
  lemma RecipeIngredientsStocked()
    ensures forall p, i :: p in Products && 0 <= i < |Products[p].ingredients| ==>
      Products[p].ingredients[i].0 in InitialInventory
  {
  }

  /**
   The starting stock is non-negative, its key order lists each key once, and
   yeast (200) and eggs (100), in that order, start below the restock threshold 500.
   */
  lemma InitialInventoryShape()
    ensures forall k :: k in InitialInventory ==> InitialInventory[k] >= 0
    ensures forall i, j :: 0 <= i < j < |IngredientOrder| ==> IngredientOrder[i] != IngredientOrder[j]
    ensures forall k :: k in InitialInventory <==> k in IngredientOrder
    ensures IngredientOrder[1] == "yeast" && InitialInventory["yeast"] == 200 < 500
    ensures IngredientOrder[4] == "eggs" && InitialInventory["eggs"] == 100 < 500
  {
  }
}
