/**
 `AddCustomTechDataToOriginalDictionary`: every recipe a mod registered is
 translated into the game's own `CraftData.TechData` record and written into
 `CraftData.techData`, overwriting an existing entry; the pass counts how many
 keys it added and how many it replaced.
 */
module TechDataMerge {
  import opened Wrappers
  import opened ListOps
  import opened Maps

  /** `IIngredient` and `CraftData.Ingredient`: a TechType with an amount. */
  datatype Ingredient<T> = Ingredient(techType: T, amount: int)

  /**
   `ITechData` as the merge reads it: a craft amount and two counted
   collections read through `GetIngredient(i)` and `GetLinkedItem(l)`.
   */
  datatype SmlTechData<T> = SmlTechData(
    craftAmount: int,
    ingredientCount: int,
    getIngredient: nat -> Ingredient<T>,
    linkedItemCount: int,
    getLinkedItem: nat -> T)

  /** `CraftData.TechData`; a list field the merge does not set keeps its default, taken to be null. */
  datatype TechData<T> = TechData(
    techType: T,
    craftAmount: int,
    ingredients: Nullable<seq<Ingredient<T>>>,
    linkedItems: Nullable<seq<T>>)

  /** The state the merge loop threads through: the game dictionary and the two counters. */
  datatype MergeState<T> = MergeState(techData: map<T, TechData<T>>, added: nat, replaced: nat)

  /** `get(0)`, ..., `get(count - 1)` in index order, as a counted `for` loop appends them. */
  function Collect<X>(get: nat -> X, count: int): (r: seq<X>)
    ensures |r| == if count <= 0 then 0 else count
    ensures forall i :: 0 <= i < |r| ==> r[i] == get(i)
    decreases count
  {
    if count <= 0 then [] else Collect(get, count - 1) + [get(count - 1)]
  }

  /** The record the merge builds for the custom entry `techType -> sml`. */
  function Translate<T>(techType: T, sml: SmlTechData<T>): (r: TechData<T>)
    ensures r.techType == techType && r.craftAmount == sml.craftAmount
    ensures r.ingredients.NonNull? <==> sml.ingredientCount > 0
    ensures r.ingredients.NonNull? ==>
              && |r.ingredients.value| == sml.ingredientCount
              && forall i :: 0 <= i < sml.ingredientCount ==> r.ingredients.value[i] == sml.getIngredient(i)
    ensures r.linkedItems.NonNull? <==> sml.linkedItemCount > 0
    ensures r.linkedItems.NonNull? ==>
              && |r.linkedItems.value| == sml.linkedItemCount
              && forall l :: 0 <= l < sml.linkedItemCount ==> r.linkedItems.value[l] == sml.getLinkedItem(l)
  {
    TechData(
      techType,
      sml.craftAmount,
      if sml.ingredientCount > 0 then NonNull(Collect(sml.getIngredient, sml.ingredientCount)) else Null,
      if sml.linkedItemCount > 0 then NonNull(Collect(sml.getLinkedItem, sml.linkedItemCount)) else Null)
  }

  /** One iteration of the loop, for the custom key `techType`. */
  function Step<T(==)>(state: MergeState<T>, custom: map<T, SmlTechData<T>>, techType: T): MergeState<T>
    requires techType in custom
  {
    var instance := Translate(techType, custom[techType]);
    if techType in state.techData then
      MergeState(state.techData[techType := instance], state.added, state.replaced + 1)
    else
      MergeState(state.techData[techType := instance], state.added + 1, state.replaced)
  }

  /** The loop over the custom keys, in the order `keys` enumerates them. */
  function MergeKeys<T(==)>(state: MergeState<T>, custom: map<T, SmlTechData<T>>, keys: seq<T>): MergeState<T>
    requires forall k :: k in keys ==> k in custom
    decreases |keys|
  {
    if |keys| == 0 then state
    else MergeKeys(Step(state, custom, keys[0]), custom, keys[1..])
  }

  /**
   What the loop leaves behind: every enumerated key holds its translated
   record, every other key keeps its entry, and each key bumps one counter.
   */
  lemma {:induction false} MergeKeysEffect<T>(state: MergeState<T>, custom: map<T, SmlTechData<T>>, keys: seq<T>)
    requires forall k :: k in keys ==> k in custom
    requires NoDuplicates(keys)
    ensures
      var r := MergeKeys(state, custom, keys);
      && r.techData.Keys == state.techData.Keys + (set k | k in keys)
      && (forall k :: k in keys ==> r.techData[k] == Translate(k, custom[k]))
      && (forall k :: k in state.techData && k !in keys ==> r.techData[k] == state.techData[k])
      && r.added + r.replaced == state.added + state.replaced + |keys|
    decreases |keys|
  {
    if |keys| > 0 {
      var k, rest := keys[0], keys[1..];
      assert keys == [k] + rest;
      assert k !in rest;
      MergeKeysEffect(Step(state, custom, k), custom, rest);
    }
  }

  /** The keys of `keys` that `m` already holds. */
  function Present<T(==), V>(keys: seq<T>, m: map<T, V>): set<T> {
    set k | k in keys && k in m
  }

  /** Taking one more key off the front adds one to the count exactly when the map holds it. */
  lemma PresentCons<T, V>(k: T, rest: seq<T>, m: map<T, V>)
    requires k !in rest
    ensures |Present([k] + rest, m)| == |Present(rest, m)| + (if k in m then 1 else 0)
  {
    if k in m {
      assert Present([k] + rest, m) == {k} + Present(rest, m);
    } else {
      assert Present([k] + rest, m) == Present(rest, m);
    }
  }

  /** Only a key the game dictionary already held before the loop reached it counts as replaced. */
  lemma {:induction false} MergeKeysReplaced<T>(state: MergeState<T>, custom: map<T, SmlTechData<T>>, keys: seq<T>)
    requires forall k :: k in keys ==> k in custom
    requires NoDuplicates(keys)
    ensures MergeKeys(state, custom, keys).replaced == state.replaced + |Present(keys, state.techData)|
    decreases |keys|
  {
    if |keys| == 0 {
      assert Present(keys, state.techData) == {};
    } else {
      var k, rest := keys[0], keys[1..];
      assert keys == [k] + rest;
      var next := Step(state, custom, k);
      MergeKeysReplaced(next, custom, rest);
      assert Present(rest, next.techData) == Present(rest, state.techData);
      PresentCons(k, rest, state.techData);
    }
  }

  /** A sequence without duplicates has as many elements as it has distinct values. */
  lemma {:induction false} DistinctCardinality<T>(keys: seq<T>)
    requires NoDuplicates(keys)
    ensures |set k | k in keys| == |keys|
    decreases |keys|
  {
    if |keys| > 0 {
      var rest := keys[1..];
      assert NoDuplicates(rest);
      DistinctCardinality(rest);
      assert keys[0] !in rest;
      assert (set k | k in keys) == {keys[0]} + (set k | k in rest);
    }
  }

  /**
   What the merge promises about its result `r` on the game dictionary
   `techData` and the registered recipes `custom`.
   */
  ghost predicate Merged<T>(techData: map<T, TechData<T>>, custom: map<T, SmlTechData<T>>, r: MergeState<T>) {
    && r.techData.Keys == techData.Keys + custom.Keys
    && (forall k :: k in custom ==> r.techData[k] == Translate(k, custom[k]))
    && (forall k :: k in techData && k !in custom ==> r.techData[k] == techData[k])
    && r.replaced == |custom.Keys * techData.Keys|
    && r.added == |custom.Keys - techData.Keys|
  }

  /**
   `AddCustomTechDataToOriginalDictionary` on the game dictionary `techData`
   with the registered recipes `custom`, whose keys the loop meets in the order
   `order` (every key once, as enumerating a dictionary's keys gives them).
   */
  function AddCustomTechDataToOriginalDictionary<T(==)>(
    techData: map<T, TechData<T>>, custom: map<T, SmlTechData<T>>, order: seq<T>): (r: MergeState<T>)
    requires NoDuplicates(order)
    requires (forall k :: k in order ==> k in custom) && (forall k :: k in custom ==> k in order)
    ensures Merged(techData, custom, r)
    ensures r.added + r.replaced == |custom|
  {
    MergeFromEmptyCounters(techData, custom, order);
    MergeKeys(MergeState(techData, 0, 0), custom, order)
  }

  /** The loop started with both counters at zero keeps every promise of the merge. */
  lemma MergeFromEmptyCounters<T>(techData: map<T, TechData<T>>, custom: map<T, SmlTechData<T>>, order: seq<T>)
    requires NoDuplicates(order)
    requires (forall k :: k in order ==> k in custom) && (forall k :: k in custom ==> k in order)
    ensures
      var r := MergeKeys(MergeState(techData, 0, 0), custom, order);
      Merged(techData, custom, r) && r.added + r.replaced == |custom|
  {
    var start := MergeState(techData, 0, 0);
    MergeKeysEffect(start, custom, order);
    MergeKeysReplaced(start, custom, order);
    KeyCounts(techData, custom, order);
  }

  /** How the enumerated custom keys split into those the game dictionary holds and the new ones. */
  lemma KeyCounts<T, V, W>(techData: map<T, V>, custom: map<T, W>, order: seq<T>)
    requires NoDuplicates(order)
    requires (forall k :: k in order ==> k in custom) && (forall k :: k in custom ==> k in order)
    ensures (set k | k in order) == custom.Keys
    ensures |order| == |custom|
    ensures |Present(order, techData)| == |custom.Keys * techData.Keys|
    ensures |custom.Keys - techData.Keys| == |custom| - |custom.Keys * techData.Keys|
  {
    assert (set k | k in order) == custom.Keys by {
      assert forall k :: k in custom.Keys ==> k in order;
    }
    DistinctCardinality(order);
    assert Present(order, techData) == custom.Keys * techData.Keys;
    SplitCardinality(custom.Keys, techData.Keys);
  }

  /** A set splits into the part inside another set and the part outside it. */
  lemma SplitCardinality<T>(a: set<T>, b: set<T>)
    ensures |a| == |a * b| + |a - b|
  {
    assert a == (a * b) + (a - b);
    assert (a * b) !! (a - b);
  }

  /** The outcome of the merge does not depend on the order the custom keys are enumerated in. */
  lemma MergeOrderIrrelevant<T>(
    techData: map<T, TechData<T>>, custom: map<T, SmlTechData<T>>, order1: seq<T>, order2: seq<T>)
    requires NoDuplicates(order1) && (forall k :: k in order1 ==> k in custom) && (forall k :: k in custom ==> k in order1)
    requires NoDuplicates(order2) && (forall k :: k in order2 ==> k in custom) && (forall k :: k in custom ==> k in order2)
    ensures AddCustomTechDataToOriginalDictionary(techData, custom, order1)
         == AddCustomTechDataToOriginalDictionary(techData, custom, order2)
  {
    var r1 := AddCustomTechDataToOriginalDictionary(techData, custom, order1);
    var r2 := AddCustomTechDataToOriginalDictionary(techData, custom, order2);
    MapExtensional(r1.techData, r2.techData);
  }

  /** A second merge over a dictionary that already holds every custom key replaces them all with themselves. */
  lemma RemergeChangesNothing<T>(
    techData: map<T, TechData<T>>, custom: map<T, SmlTechData<T>>, once: MergeState<T>, twice: MergeState<T>)
    requires Merged(techData, custom, once)
    requires Merged(once.techData, custom, twice)
    ensures twice.techData == once.techData && twice.added == 0 && twice.replaced == |custom|
  {
    assert custom.Keys * once.techData.Keys == custom.Keys;
    assert custom.Keys - once.techData.Keys == {};
    MapExtensional(twice.techData, once.techData);
  }

  /**
   Merging the same recipes a second time changes nothing in the dictionary
   and reports every custom key as replaced.
   */
  lemma MergeTwice<T>(techData: map<T, TechData<T>>, custom: map<T, SmlTechData<T>>, order: seq<T>)
    requires NoDuplicates(order)
    requires (forall k :: k in order ==> k in custom) && (forall k :: k in custom ==> k in order)
    ensures
      var once := AddCustomTechDataToOriginalDictionary(techData, custom, order);
      var twice := AddCustomTechDataToOriginalDictionary(once.techData, custom, order);
      && twice.techData == once.techData
      && twice.added == 0
      && twice.replaced == |custom|
  {
    var once := AddCustomTechDataToOriginalDictionary(techData, custom, order);
    var twice := AddCustomTechDataToOriginalDictionary(once.techData, custom, order);
    RemergeChangesNothing(techData, custom, once, twice);
  }
}
