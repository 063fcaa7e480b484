/**
 `PreparePrefabIDCachePostfix`: after the game has built its prefab caches,
 every registered mod prefab is written into both directions of the cache,
 `CraftData.techMapping` (TechType to ClassID) and
 `CraftData.entClassTechTable` (ClassID to TechType), in the order
 `ModPrefab.Prefabs` enumerates them; the sequence of prefabs is that order.
 */
module PrefabCache {
  import opened Maps

  /** `ModPrefab` as the postfix reads it. */
  datatype ModPrefab<T> = ModPrefab(classID: string, techType: T)

  /** The two game dictionaries the postfix writes. */
  datatype PrefabTables<T> = PrefabTables(techMapping: map<T, string>, entClassTechTable: map<string, T>)

  function TechTypes<T(==)>(prefabs: seq<ModPrefab<T>>): set<T> {
    set p | p in prefabs :: p.techType
  }

  function ClassIDs<T(==)>(prefabs: seq<ModPrefab<T>>): set<string> {
    set p | p in prefabs :: p.classID
  }

  /** `prefabs[i]` is the last prefab carrying its TechType. */
  predicate LastOfTechType<T(==)>(prefabs: seq<ModPrefab<T>>, i: int) {
    && 0 <= i < |prefabs|
    && forall j :: i < j < |prefabs| ==> prefabs[j].techType != prefabs[i].techType
  }

  /** `prefabs[i]` is the last prefab carrying its ClassID. */
  predicate LastOfClassID<T>(prefabs: seq<ModPrefab<T>>, i: int) {
    && 0 <= i < |prefabs|
    && forall j :: i < j < |prefabs| ==> prefabs[j].classID != prefabs[i].classID
  }

  /** The `foreach` over `prefabs`: each prefab writes both tables, later ones over earlier ones. */
  function WritePrefabs<T(==)>(tables: PrefabTables<T>, prefabs: seq<ModPrefab<T>>): PrefabTables<T>
    decreases |prefabs|
  {
    if |prefabs| == 0 then tables
    else
      var before := WritePrefabs(tables, prefabs[..|prefabs| - 1]);
      var p := prefabs[|prefabs| - 1];
      PrefabTables(before.techMapping[p.techType := p.classID], before.entClassTechTable[p.classID := p.techType])
  }

  /**
   What the postfix promises about `techMapping`: each TechType a prefab
   carries maps to the ClassID of the last prefab carrying it, and every
   other entry is untouched.
   */
  ghost predicate TechMapped<T>(before: map<T, string>, prefabs: seq<ModPrefab<T>>, after: map<T, string>) {
    && after.Keys == before.Keys + TechTypes(prefabs)
    && (forall i :: LastOfTechType(prefabs, i) ==> after[prefabs[i].techType] == prefabs[i].classID)
    && (forall t :: t in before && t !in TechTypes(prefabs) ==> after[t] == before[t])
  }

  /**
   What the postfix promises about `entClassTechTable`: each ClassID a prefab
   carries maps to the TechType of the last prefab carrying it, and every
   other entry is untouched.
   */
  ghost predicate ClassMapped<T>(before: map<string, T>, prefabs: seq<ModPrefab<T>>, after: map<string, T>) {
    && after.Keys == before.Keys + ClassIDs(prefabs)
    && (forall i :: LastOfClassID(prefabs, i) ==> after[prefabs[i].classID] == prefabs[i].techType)
    && (forall c :: c in before && c !in ClassIDs(prefabs) ==> after[c] == before[c])
  }

  ghost predicate Cached<T>(tables: PrefabTables<T>, prefabs: seq<ModPrefab<T>>, r: PrefabTables<T>) {
    && TechMapped(tables.techMapping, prefabs, r.techMapping)
    && ClassMapped(tables.entClassTechTable, prefabs, r.entClassTechTable)
  }

  /** The loop keeps its promise about `techMapping`, one prefab at a time. */
  lemma {:induction false} WritePrefabsTechMapping<T>(tables: PrefabTables<T>, prefabs: seq<ModPrefab<T>>)
    ensures TechMapped(tables.techMapping, prefabs, WritePrefabs(tables, prefabs).techMapping)
    decreases |prefabs|
  {
    if |prefabs| > 0 {
      var n := |prefabs| - 1;
      var init, p := prefabs[..n], prefabs[n];
      WritePrefabsTechMapping(tables, init);
      assert prefabs == init + [p];
      assert TechTypes(prefabs) == TechTypes(init) + {p.techType};
      forall i | LastOfTechType(prefabs, i) && i < n
        ensures LastOfTechType(init, i)
      {
      }
    }
  }

  /** The loop keeps its promise about `entClassTechTable`, one prefab at a time. */
  lemma {:induction false} WritePrefabsClassTable<T>(tables: PrefabTables<T>, prefabs: seq<ModPrefab<T>>)
    ensures ClassMapped(tables.entClassTechTable, prefabs, WritePrefabs(tables, prefabs).entClassTechTable)
    decreases |prefabs|
  {
    if |prefabs| > 0 {
      var n := |prefabs| - 1;
      var init, p := prefabs[..n], prefabs[n];
      WritePrefabsClassTable(tables, init);
      assert prefabs == init + [p];
      assert ClassIDs(prefabs) == ClassIDs(init) + {p.classID};
      forall i | LastOfClassID(prefabs, i) && i < n
        ensures LastOfClassID(init, i)
      {
      }
    }
  }

  /** `PreparePrefabIDCachePostfix` on the game tables `tables` with the registered `prefabs`. */
  function PreparePrefabIDCachePostfix<T(==)>(tables: PrefabTables<T>, prefabs: seq<ModPrefab<T>>): (r: PrefabTables<T>)
    ensures Cached(tables, prefabs, r)
  {
    WritePrefabsTechMapping(tables, prefabs);
    WritePrefabsClassTable(tables, prefabs);
    WritePrefabs(tables, prefabs)
  }

  /** Every TechType a prefab carries has a last prefab carrying it. */
  lemma LastIndexOfTechType<T>(prefabs: seq<ModPrefab<T>>, t: T) returns (i: int)
    requires t in TechTypes(prefabs)
    ensures LastOfTechType(prefabs, i) && prefabs[i].techType == t
  {
    var p :| p in prefabs && p.techType == t;
    var k :| 0 <= k < |prefabs| && prefabs[k] == p;
    i := k;
    while i + 1 < |prefabs| && exists j :: i < j < |prefabs| && prefabs[j].techType == t
      invariant 0 <= i < |prefabs| && prefabs[i].techType == t
      decreases |prefabs| - i
    {
      var j :| i < j < |prefabs| && prefabs[j].techType == t;
      i := j;
    }
  }

  /** Every ClassID a prefab carries has a last prefab carrying it. */
  lemma LastIndexOfClassID<T>(prefabs: seq<ModPrefab<T>>, c: string) returns (i: int)
    requires c in ClassIDs(prefabs)
    ensures LastOfClassID(prefabs, i) && prefabs[i].classID == c
  {
    var p :| p in prefabs && p.classID == c;
    var k :| 0 <= k < |prefabs| && prefabs[k] == p;
    i := k;
    while i + 1 < |prefabs| && exists j :: i < j < |prefabs| && prefabs[j].classID == c
      invariant 0 <= i < |prefabs| && prefabs[i].classID == c
      decreases |prefabs| - i
    {
      var j :| i < j < |prefabs| && prefabs[j].classID == c;
      i := j;
    }
  }

  /** Tables that already reflect `prefabs` are unchanged by processing them again. */
  lemma RecachingChangesNothing<T>(
    tables: PrefabTables<T>, prefabs: seq<ModPrefab<T>>, once: PrefabTables<T>, twice: PrefabTables<T>)
    requires Cached(tables, prefabs, once)
    requires Cached(once, prefabs, twice)
    ensures twice == once
  {
    forall t | t in twice.techMapping
      ensures twice.techMapping[t] == once.techMapping[t]
    {
      if t in TechTypes(prefabs) {
        var i := LastIndexOfTechType(prefabs, t);
      }
    }
    forall c | c in twice.entClassTechTable
      ensures twice.entClassTechTable[c] == once.entClassTechTable[c]
    {
      if c in ClassIDs(prefabs) {
        var i := LastIndexOfClassID(prefabs, c);
      }
    }
    MapExtensional(twice.techMapping, once.techMapping);
    MapExtensional(twice.entClassTechTable, once.entClassTechTable);
  }

  /** Running the postfix a second time with the same prefabs leaves both tables as they are. */
  lemma PostfixIdempotent<T>(tables: PrefabTables<T>, prefabs: seq<ModPrefab<T>>)
    ensures
      var once := PreparePrefabIDCachePostfix(tables, prefabs);
      PreparePrefabIDCachePostfix(once, prefabs) == once
  {
    var once := PreparePrefabIDCachePostfix(tables, prefabs);
    RecachingChangesNothing(tables, prefabs, once, PreparePrefabIDCachePostfix(once, prefabs));
  }

  /** The loop over a concatenation is the loop over its two parts in turn. */
  lemma {:induction false} WritePrefabsAppend<T>(tables: PrefabTables<T>, first: seq<ModPrefab<T>>, second: seq<ModPrefab<T>>)
    ensures WritePrefabs(tables, first + second) == WritePrefabs(WritePrefabs(tables, first), second)
    decreases |second|
  {
    if |second| == 0 {
      assert first + second == first;
    } else {
      var n := |second| - 1;
      WritePrefabsAppend(tables, first, second[..n]);
      assert (first + second)[..|first| + n] == first + second[..n];
      assert (first + second)[|first| + n] == second[n];
    }
  }

  /**
   When no two prefabs share a TechType or a ClassID, the two tables are
   inverse to each other on every prefab.
   */
  lemma PrefabTablesInverse<T>(tables: PrefabTables<T>, prefabs: seq<ModPrefab<T>>)
    requires forall i, j :: 0 <= i < j < |prefabs| ==>
               prefabs[i].techType != prefabs[j].techType && prefabs[i].classID != prefabs[j].classID
    ensures
      var r := PreparePrefabIDCachePostfix(tables, prefabs);
      forall p :: p in prefabs ==>
        && r.techMapping[p.techType] == p.classID
        && r.entClassTechTable[r.techMapping[p.techType]] == p.techType
  {
    var r := PreparePrefabIDCachePostfix(tables, prefabs);
    forall p | p in prefabs
      ensures r.techMapping[p.techType] == p.classID
      ensures r.entClassTechTable[p.classID] == p.techType
    {
      var i :| 0 <= i < |prefabs| && prefabs[i] == p;
      assert LastOfTechType(prefabs, i);
      assert LastOfClassID(prefabs, i);
    }
  }
}
