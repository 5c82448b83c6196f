# Bakery simulator: inventory and day simulation

A Dafny model of the core of a small bakery simulator. `Inventory` keeps a
stock of ingredients. It answers whether a product's recipe can be made,
deducts a recipe (clamping at zero) and tops up every ingredient below a
threshold, reporting which ones in key order. It also hands out value
snapshots. `BakerySimulator` runs a day of customers against that inventory.
It counts sales and revenue per product, restocks at closing and appends the
day's record to its history; `simulate` runs days 1..N in order. The product
catalog and the starting stock are constants.

Layout:

- `wrappers.dfy` (`Wrappers`): `Option` and `Result`.
- `catalog.dfy` (`Catalog`): the `PRODUCTS` catalog and `INITIAL_INVENTORY`
  as constants. A dictionary becomes a sequence of pairs (a recipe) or a map
  plus its key order (a `Menu`), so insertion order is kept.
- `stock.dfy` (`Stock`): what the inventory operations do, stated as
  functions on maps. It holds the consume walk, the restock walk, the
  restocked list and their proved properties.
- `ledger.dfy` (`Ledger`): serving one customer, a day of customers, the
  day's record and a run of days, all as functions. It also holds the
  invariants they keep and the concrete one-Bread day.
- `bakery.dfy` (`Bakery`): the two classes. Their fields are updated in place
  by methods whose postconditions tie the new state to the functions above.

Randomness is an input. `randint` and `choice` become a `Draw` per day: the
customer count and the product each customer picked. A valid draw has a
count within the bounds and exactly max(count, 0) choices, each a catalog key.

One-Bread day, as the code computes it (`Ledger.OneBreadDay`): one Bread from
the initial stock leaves yeast at 195 and eggs at 100, both below the
default threshold of 500. So the day restocks `["yeast", "eggs"]` and records
yeast 2195 and eggs 2100.

## Model

| member | source | states |
|---|---|---|
| Catalog.CatalogProducts | data.py:3-20 | the catalog holds exactly Bread, Cake, Donut and Cookie, priced 40, 150, 50 and 20, each key once in the key order |
| Catalog.RecipesWellFormed | data.py:3-20 | every recipe lists each ingredient once, with a strictly positive amount |
| Catalog.CatalogWellFormed | data.py:3-20 | the catalog with its key order is a well-formed product dictionary |
| Catalog.RecipeIngredientsStocked | data.py:3-31 | every ingredient a recipe names is a key of the initial stock |
| Catalog.InitialInventoryShape | data.py:23-31 | initial quantities are non-negative; the key order lists each key once; yeast (200) and then eggs (100) start below 500 |
| Stock.CanMakeIff | bakery.py:15-20 | the early-exit walk over the recipe succeeds iff every ingredient (missing reads as 0) is stocked at least the amount asked |
| Stock.CanMakePresent | bakery.py:15-20 | with positive amounts, a makeable recipe names only ingredients that are keys of the stock |
| Stock.ConsumeFeasible | bakery.py:22-27 | consuming a recipe that can_make accepted never hits a missing key |
| Stock.CatalogConsumeNeverMissing | bakery.py:25 | a stock with every initial key can consume any catalog recipe without a KeyError |
| Stock.Deducted | bakery.py:25-27 | one deduction gives max(q − amt, 0): never negative, and q − amt whenever that is not negative |
| Stock.ConsumeSteps | bakery.py:22-27 | consume keeps the stock's key set, also when it stops at a missing ingredient |
| Stock.ConsumeStepsFrame | bakery.py:22-27 | consume keeps the key set and leaves non-recipe ingredients alone; it keeps a non-negative stock non-negative; it fails iff some recipe ingredient is not a key, and then names such an ingredient |
| Stock.ConsumeStepsDecreases | bakery.py:22-27 | with non-negative amounts, consume never raises a non-negative quantity |
| Stock.ConsumeStepsAllPresent | bakery.py:22-27 | when every ingredient is a key, consume equals the closed form: each recipe ingredient becomes max(old − amt, 0) and the rest are unchanged |
| Stock.ConsumeExact | bakery.py:15-27 | after can_make holds, consume succeeds and lowers each recipe ingredient by exactly its amount |
| Stock.RestockedByKey | bakery.py:31-37 | a stock topped up key by key over the whole key order is the restocked stock |
| Stock.RestockSteps | bakery.py:31-37 | the restock walk keeps the key set |
| Stock.RestockStepsPointwise | bakery.py:31-37 | walking distinct keys tops up each visited key from its own old quantity and leaves unvisited keys alone |
| Stock.RestockStepsAll | bakery.py:31-37 | walking the whole key order gives the pointwise restock: below the threshold +amount, otherwise unchanged |
| Stock.UnderThreshold | bakery.py:32-37 | the list restock_if_needed returns, built by walking the keys in order; never longer than the keys walked |
| Stock.UnderThresholdNext | bakery.py:33-36 | walking one more key appends it exactly when its quantity is below the threshold |
| Stock.UnderThresholdMembers | bakery.py:31-37 | the returned list holds exactly the visited keys below the threshold |
| Stock.UnderThresholdOrdered | bakery.py:31-37 | the returned list has no repeats and follows the key order |
| Stock.RestockList | bakery.py:31-37 | over the whole key order, the returned list is exactly the keys below the threshold, each once, in key order |
| Stock.UnderThresholdPair | bakery.py:31-37 | two keys below the threshold both appear in the returned list, in their key order |
| Stock.RestockFloor | bakery.py:31-37 | with a non-negative stock and amount ≥ threshold, every ingredient ends at or above the threshold |
| Ledger.OpeningSales | bakery.py:60 | the day starts with one sales entry per product, all zero |
| Ledger.Serve | bakery.py:68-75 | serving one customer keeps the sales keys and the stock keys |
| Ledger.ServeStep | bakery.py:69-75 | a sale happens only if can_make held; then each recipe ingredient drops by exactly its amount, other ingredients stay, the count rises by one and the price is added; a refused customer changes nothing |
| Ledger.ServeBalanced | bakery.py:69-72 | one customer keeps sales on the product keys and non-negative; revenue stays the sum of count × price; at most one more item is sold |
| Ledger.ServeFirst | bakery.py:66-75 | serving customers in order keeps the sales keys and the stock keys |
| Ledger.ServeFirstBalanced | bakery.py:58-75 | a day's customers keep the books balanced, and the items sold number at most the customers served |
| Ledger.ServeFirstStock | bakery.py:66-75 | serving customers keeps a non-negative stock non-negative and never raises a quantity |
| Ledger.AfterService | bakery.py:60-75 | after the day's customers, the sales cover exactly the products and the stock keeps its key set |
| Ledger.DayOutcome | bakery.py:57-82 | the day's recorded inventory has the stock's key set |
| Ledger.DaySales | bakery.py:58-75 | the record's sales cover exactly the products, each ≥ 0, sum to at most the customer count, and revenue = Σ sales × price |
| Ledger.DayRestock | bakery.py:77-80 | the record's restocked list is exactly the ingredients below 500 after service, each once, in key order; those gained 2000 in the recorded inventory and the others kept their quantity |
| Ledger.DayStockFloor | bakery.py:77-80 | from a non-negative stock, the recorded inventory has every ingredient at 500 or more |
| Ledger.DayRestocksLow | bakery.py:66-79 | two ingredients already below 500 at opening are restocked whatever the customers buy, in key order |
| Ledger.DayOneRestocksYeastThenEggs | data.py:23-31 | from the initial stock, any day restocks yeast and, after it, eggs |
| Ledger.OneBreadConsumption | bakery.py:22-27 | one Bread from the initial stock is makeable and leaves flour 4800, yeast 195, water 4900, the rest unchanged |
| Ledger.OneBreadService | bakery.py:66-75 | a one-Bread day sells one Bread for 40 and leaves that stock |
| Ledger.OneBreadRestockList | bakery.py:31-37 | after one Bread, the restock returns ["yeast", "eggs"] |
| Ledger.OneBreadRestocked | bakery.py:31-37 | after one Bread, the restock raises yeast to 2195 and eggs to 2100 and nothing else |
| Ledger.OneBreadDay | bakery.py:57-82 | the one-Bread day's record: sales, revenue 40, restocked ["yeast", "eggs"], the restocked inventory |
| Ledger.RunDays | bakery.py:84-87 | a run of n days has n records and closes with the stock's key set |
| Ledger.RunDaysPrefix | bakery.py:84-87 | the first i days of a run are the run of i days: later days never rewrite earlier records |
| Ledger.RunDaysDay | bakery.py:84-87 | record i is day first + i, simulated with draw i from the stock the earlier days left |
| Ledger.RunDaysChain | bakery.py:84-87 | each day after the first starts from the inventory the previous record holds |
| Ledger.RunDaysClosing | bakery.py:84-87 | from a non-negative stock, a run leaves a non-negative stock |
| Ledger.RunDaysStockFloor | bakery.py:84-87 | from a non-negative stock, every recorded inventory of a run has each ingredient at 500 or more |
| Bakery.Inventory.constructor | bakery.py:12-13 | the inventory holds a copy of the given stock, with its key order |
| Bakery.Inventory.CanMake | bakery.py:15-20 | true iff every recipe ingredient (missing reads as 0) is stocked at least its amount; reads only |
| Bakery.Inventory.Consume | bakery.py:22-27 | the in-place loop leaves the stock and the KeyError outcome that the consume walk specifies |
| Bakery.Inventory.RestockIfNeeded | bakery.py:31-37 | the in-place loop leaves the pointwise restocked stock and returns exactly the under-threshold keys in key order |
| Bakery.Inventory.RestockOne | bakery.py:33-36 | one turn of the restock loop: the next key gains the amount exactly when it is below the threshold, and the returned list grows to the under-threshold keys walked so far |
| Bakery.Inventory.Snapshot | bakery.py:39-40 | the snapshot is the current stock, as a value |
| Bakery.SnapshotIsIndependent | bakery.py:39-40 | after consume, the snapshot still holds the old quantities while the live stock is the consumed snapshot |
| Bakery.BakerySimulator.constructor | bakery.py:43-55 | the simulator shares the inventory, keeps the products and starts with an empty history |
| Bakery.BakerySimulator.ServeOne | bakery.py:68-75 | one customer, in place: the stock, sales and revenue become what Serve specifies |
| Bakery.BakerySimulator.ServeCustomers | bakery.py:66-75 | the customer loop leaves the stock, sales and revenue of the customers served in order |
| Bakery.BakerySimulator.SimulateDay | bakery.py:57-82 | an empty customer range fails with no change; otherwise it returns the day's record, appends exactly that record and leaves the recorded inventory |
| Bakery.BakerySimulator.Simulate | bakery.py:84-87 | the history grows by the run of days 1..days, and the stock is the run's closing stock; an empty customer range fails on day 1 with no change |

## Left out

- Plotting and table export (`history_to_dataframe`, `plot_inventory`) and main.py are not part of this model: they are reporting, file and console I/O.
- Seeding the random generators is left out. `randint` and `choice` become explicit `Draw` parameters constrained by `ValidDraw`.
- Revenue is an `int`. The source starts it at `0.0`, but every price is an integer, so the float sum is the same whole number.
- `randint` with max < min raises `ValueError` before anything changes. The model returns `Err(EmptyCustomerRange)` from `SimulateDay` and `Simulate` instead.
- `consume` raises `KeyError` at a recipe ingredient that is not in the stock, keeping the deductions already made. The model returns that ingredient as `Some(name)`; `ConsumeFeasible` proves it never happens after `can_make`.
- Bakery.Inventory.CanMake: a product name outside the catalog raises `KeyError` in the source; the model requires a catalog key, since every caller draws from the catalog.
- Bakery.Inventory.Consume: a product name outside the catalog raises `KeyError` at the recipe lookup in the source; the model requires a catalog key, for the same reason as `CanMake`.
- Bakery.BakerySimulator.constructor: `can_make` and `consume` read the global catalog while the simulator draws from its own `products`. The model requires the two to be the same dictionary. A product of `products` missing from the global catalog would raise `KeyError`, and the only caller, main.py, passes the global catalog itself.
- Bakery.Inventory.constructor: the stock's key order is passed in next to the map, because a Dafny map has no insertion order.
- Bakery.BakerySimulator.Simulate: takes one draw per day, so it requires `|draws| == max(days, 0)`.
- Aliasing of the returned history list is not modelled: the history is a sequence value.
