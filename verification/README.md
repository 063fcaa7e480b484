# CraftDataPatcher collection logic, in Dafny

SMLHelper is a modding library for a commercial game. Its `CraftDataPatcher` writes mod
content into the game's static `CraftData` collections. This project models the
collection logic of four of its members. The game's enums (TechType, TechGroup,
TechCategory) become type parameters. .NET `List<T>` becomes `seq` and
`Dictionary<K, V>` becomes `map`. Each mutating member becomes a pure function
from the old state to the new one.

- `CustomGroups` models `AddToCustomGroup` and `RemoveFromCustomGroup`. Both edit
  the TechType list under a (TechGroup, TechCategory) pair of `CraftData.groups`.
  Adding puts the new TechType right after the first occurrence of `after`. If
  `after` is absent, it goes at the end. Removing drops the first occurrence. A
  null group entry or a null category list makes the member return with
  everything unchanged. An absent key is different: the C# dictionary indexer
  throws `KeyNotFoundException` before any null check runs, and the model
  returns that as a `Failure`.
- `ListOps` models the `List<T>` members those two call: `IndexOf`, `Insert`
  and `Remove`. `List<T>.Add` (the append when `after` is absent) is
  `items + [techType]` inside `CustomGroups.InsertAfter`.
- `TechDataMerge` models `AddCustomTechDataToOriginalDictionary`. It turns every
  registered `ITechData` into a `CraftData.TechData` record. The ingredient list
  is set only when `ingredientCount > 0`, and the linked-item list only when
  `linkedItemCount > 0`. Each record overwrites any existing entry in
  `CraftData.techData`. The merge counts how many keys it added and how many it
  replaced. The order in which the custom dictionary's keys are enumerated is a
  parameter. Each key appears in it exactly once.
- `PrefabCache` models `PreparePrefabIDCachePostfix`. It writes every mod prefab
  into `techMapping` (TechType to ClassID) and `entClassTechTable` (ClassID to
  TechType), in the order `ModPrefab.Prefabs` enumerates them, so later prefabs overwrite earlier ones.

`Wrappers` holds `Nullable` (a C# reference that may be null) and `Result` (a
returned value or a raised exception). `Maps` holds map extensionality.

## Model

| member | source | states |
|---|---|---|
| ListOps.IndexOf | SMLHelper/Patchers/CraftDataPatcher.cs:46-48 | The result is -1 exactly when `after` is absent. Otherwise it is an index holding `after` with no earlier `after`. |
| ListOps.Insert | SMLHelper/Patchers/CraftDataPatcher.cs:55 | Length grows by one and the new item sits at the given index. Earlier elements keep their index and later ones move up by one. |
| ListOps.RemoveFirst | SMLHelper/Patchers/CraftDataPatcher.cs:79 | An absent item leaves the list unchanged. Otherwise the length drops by one: elements before the first occurrence stay put and the ones after it move down by one. |
| ListOps.RemoveFirstUndoesInsert | SMLHelper/Patchers/CraftDataPatcher.cs:79 | Removing `x` restores the list after `x` was inserted at a point with no earlier `x`. `Remove` is the inverse of `Insert`. |
| ListOps.RemoveFirstMultiset | SMLHelper/Patchers/CraftDataPatcher.cs:79 | `Remove` takes out exactly one copy of the item when present, and none otherwise. |
| CustomGroups.InsertAfter | SMLHelper/Patchers/CraftDataPatcher.cs:46-58 | If `after` is absent, the new TechType is appended and every element keeps its position. If `after` first occurs at i, the new item is at i+1, elements 0..i are unchanged and elements after i move up by one. The length grows by one and the contents gain exactly the new item. |
| CustomGroups.InsertAfterFirstOccurrence | SMLHelper/Patchers/CraftDataPatcher.cs:46-55 | Reference definition: for every split `p + [after] + q` with no `after` in `p`, the result is `p + [after, techType] + q`. |
| CustomGroups.AddToCustomGroup | SMLHelper/Patchers/CraftDataPatcher.cs:28-59 | A missing group or category key raises `KeyNotFoundException`. A null group or null category returns with the groups unchanged. Otherwise only the list under (group, category) changes, and it becomes `InsertAfter` of the old list. |
| CustomGroups.RemoveFromCustomGroup | SMLHelper/Patchers/CraftDataPatcher.cs:61-82 | Same guards and frame as adding. The list under (group, category) loses its first occurrence of the TechType. |
| CustomGroups.RemoveUndoesInsertAfter | SMLHelper/Patchers/CraftDataPatcher.cs:46-55 | For a TechType not yet in the list, removing it after adding it restores the list, whatever `after` was. |
| CustomGroups.RemoveUndoesAdd | SMLHelper/Patchers/CraftDataPatcher.cs:28-82 | At group level, `RemoveFromCustomGroup` undoes `AddToCustomGroup` for a TechType the list did not yet hold. |
| TechDataMerge.Collect | SMLHelper/Patchers/CraftDataPatcher.cs:148-154 | The counted loop gathers exactly `count` items (none for a count of zero or less), and item i is `get(i)`. |
| TechDataMerge.Translate | SMLHelper/Patchers/CraftDataPatcher.cs:138-166 | The record carries the key and the source craft amount. Ingredients are set exactly when `ingredientCount > 0` and then list `GetIngredient(0..count-1)` in index order. Linked items follow the same rule with `linkedItemCount` and `GetLinkedItem`. |
| TechDataMerge.MergeKeysEffect | SMLHelper/Patchers/CraftDataPatcher.cs:134-182 | After the loop, every enumerated key holds its translated record and every other key keeps its entry. Each key adds one to `added + replaced`. |
| TechDataMerge.MergeKeysReplaced | SMLHelper/Patchers/CraftDataPatcher.cs:168-179 | `replaced` counts exactly the enumerated keys that the dictionary held before the loop. |
| TechDataMerge.AddCustomTechDataToOriginalDictionary | SMLHelper/Patchers/CraftDataPatcher.cs:130-189 | The keys become the old keys plus the custom keys. Each custom key maps to its translation, and keys not in the custom map keep their values. `added + replaced` is the number of custom keys. `replaced` counts the custom keys already present and `added` counts the rest. |
| TechDataMerge.MergeOrderIrrelevant | SMLHelper/Patchers/CraftDataPatcher.cs:134 | The dictionary and both counters are the same for every enumeration order of the custom keys. |
| TechDataMerge.MergeTwice | SMLHelper/Patchers/CraftDataPatcher.cs:168-181 | Running the merge again leaves the dictionary as it is, adds nothing and replaces every custom key. |
| PrefabCache.PreparePrefabIDCachePostfix | SMLHelper/Patchers/CraftDataPatcher.cs:118-128 | In both tables, each key a prefab carries gets the value from the last prefab with that key. Every other entry is untouched, and the new key set is the old keys plus the prefabs' keys. |
| PrefabCache.WritePrefabsTechMapping | SMLHelper/Patchers/CraftDataPatcher.cs:123-125 | The loop leaves `techMapping[TechType]` equal to the ClassID of the last prefab carrying that TechType. Other TechTypes are untouched. |
| PrefabCache.WritePrefabsClassTable | SMLHelper/Patchers/CraftDataPatcher.cs:123-127 | The loop leaves `entClassTechTable[ClassID]` equal to the TechType of the last prefab carrying that ClassID. Other ClassIDs are untouched. |
| PrefabCache.PostfixIdempotent | SMLHelper/Patchers/CraftDataPatcher.cs:118-128 | Running the postfix a second time with the same prefabs changes neither table. |
| PrefabCache.WritePrefabsAppend | SMLHelper/Patchers/CraftDataPatcher.cs:123-127 | Processing `first + second` is the same as processing `first` and then `second`. |
| PrefabCache.PrefabTablesInverse | SMLHelper/Patchers/CraftDataPatcher.cs:123-127 | If no two prefabs share a TechType or a ClassID, each prefab's entries in the two tables point back to each other. |

## Left out

- `Patch` (lines 93-116) is not modelled. It hands dictionaries to `PatchUtils.PatchDictionary`/`PatchList` and hooks `PreparePrefabIDCache` through Harmony reflection. `PatchUtils` is not part of this model, and runtime method patching of the game has no counterpart here.
- `AddToCustomTechData` (lines 84-87) is not modelled. It calls `Add` on a `SelfCheckingDictionary`, and that class is not part of this model.
- The static field initializers (lines 12-22) are not modelled. They only create the custom collections, including the `float` crafting times.
- `Logger.Log` calls are not modelled because they are output only. In the group helpers, the `Exit` value records which return path was taken. On the editing path of `AddToCustomGroup`, which of its two messages is logged also depends on whether `after` is in the list.
- Aliasing is not modelled. In the game, two categories could share one `List<TechType>` object, and an edit through one would show through the other. The model treats every list as a value.
- TechDataMerge.AddCustomTechDataToOriginalDictionary: `added` and `replaced` are unbounded naturals. The source's `short` counters would wrap past 32767 entries, and the source makes no promise about that case.
- TechDataMerge.Translate: `GetIngredient` and `GetLinkedItem` are total functions. An `ITechData` whose getter throws for an index below its count is not modelled. A null `IIngredient` returned by `GetIngredient` is not modelled either: it would throw `NullReferenceException` at line 152, where its properties are first read. That ends the whole merge, and the keys of earlier iterations stay written at line 181.
- TechDataMerge.Translate: a list field the merge leaves unset is taken to be null. That assumes the game's `CraftData.TechData` has no field initializers, and that class is not part of this model.
- TechDataMerge.AddCustomTechDataToOriginalDictionary: a null `ITechData` value in the custom dictionary is not modelled. It would throw `NullReferenceException` at line 141 and abort the loop, with the entries of earlier iterations already written at line 181. `AddToCustomTechData` (line 86) does not reject null values.
- The order of `CraftData.techData` entries after a remove-then-add is not modelled. A `map` has no enumeration order.
- PrefabCache.PreparePrefabIDCachePostfix: a ClassID is never null here. With a null ClassID, the dictionary write would throw `ArgumentNullException`.
- PrefabCache.PreparePrefabIDCachePostfix: a null entry in `ModPrefab.Prefabs` is not modelled. It would throw `NullReferenceException` at line 125 and abort the loop, with the writes for earlier prefabs already in place.
- The key comparers passed to some custom dictionaries are not modelled. TechType keys are compared by value.
