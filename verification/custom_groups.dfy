/**
 `CraftData.groups` and the two helpers that edit it: `AddToCustomGroup` and
 `RemoveFromCustomGroup`. The structure is a dictionary from TechGroup to a
 (possibly null) dictionary from TechCategory to a (possibly null) list of
 TechTypes; the game's enums are type parameters.
 */
module CustomGroups {
  import opened Wrappers
  import opened ListOps

  type Categories<C, T> = map<C, Nullable<seq<T>>>
  type Groups<G, C, T> = map<G, Nullable<Categories<C, T>>>

  /** The `KeyNotFoundException` a dictionary indexer raises for an absent key. */
  datatype KeyNotFound = GroupKeyNotFound | CategoryKeyNotFound

  /** Where a helper returned: at one of the two null guards, or after editing the list. */
  datatype Exit = InvalidTechGroup | InvalidTechCategory | Edited

  datatype Outcome<G, C, T> = Outcome(groups: Groups<G, C, T>, exit: Exit)

  /** What the two indexer reads `groups[group]` and `techGroup[category]` meet. */
  datatype Slot<T> = NoGroupKey | NullGroup | NoCategoryKey | NullCategory | Found(items: seq<T>)

  function Locate<G, C, T>(groups: Groups<G, C, T>, group: G, category: C): Slot<T> {
    if group !in groups then NoGroupKey
    else match groups[group]
      case Null => NullGroup
      case NonNull(categories) =>
        if category !in categories then NoCategoryKey
        else match categories[category]
          case Null => NullCategory
          case NonNull(items) => Found(items)
  }

  /** `groups` with the list under (group, category) replaced by `items`. */
  function Store<G, C, T>(groups: Groups<G, C, T>, group: G, category: C, items: seq<T>): Groups<G, C, T>
    requires Locate(groups, group, category).Found?
  {
    groups[group := NonNull(groups[group].value[category := NonNull(items)])]
  }

  /**
   `after` differs from `before` in the list under (group, category) at most:
   the same groups and categories exist, and every other entry is unchanged.
   */
  ghost predicate OnlyListChanged<G, C, T>(before: Groups<G, C, T>, after: Groups<G, C, T>, group: G, category: C) {
    && Locate(before, group, category).Found?
    && Locate(after, group, category).Found?
    && before.Keys == after.Keys
    && (forall g :: g in before && g != group ==> after[g] == before[g])
    && before[group].value.Keys == after[group].value.Keys
    && (forall c :: c in before[group].value && c != category ==> after[group].value[c] == before[group].value[c])
  }

  /**
   The list after `AddToCustomGroup` has edited it: `techType` right after the
   first `after`, or at the end when `after` is not in the list.
   */
  function InsertAfter<T(==)>(items: seq<T>, techType: T, after: T): (r: seq<T>)
    ensures |r| == |items| + 1
    ensures after !in items ==> r[..|items|] == items && r[|items|] == techType
    ensures after in items ==>
              var i := IndexOf(items, after);
              r[..i + 1] == items[..i + 1] && r[i + 1] == techType && r[i + 2..] == items[i + 1..]
    ensures multiset(r) == multiset(items) + multiset{techType}
  {
    var index := IndexOf(items, after);
    if index == -1 then
      items + [techType]
    else
      var r := Insert(items, index + 1, techType);
      assert r == items[..index + 1] + [techType] + items[index + 1..];
      assert items == items[..index + 1] + items[index + 1..];
      r
  }

  /** `AddToCustomGroup(group, category, techType, after)` on the state `groups`. */
  function AddToCustomGroup<G, C, T(==)>(groups: Groups<G, C, T>, group: G, category: C, techType: T, after: T)
    : (r: Result<Outcome<G, C, T>, KeyNotFound>)
    ensures Locate(groups, group, category).NoGroupKey? ==> r == Failure(GroupKeyNotFound)
    ensures Locate(groups, group, category).NullGroup? ==> r == Success(Outcome(groups, InvalidTechGroup))
    ensures Locate(groups, group, category).NoCategoryKey? ==> r == Failure(CategoryKeyNotFound)
    ensures Locate(groups, group, category).NullCategory? ==> r == Success(Outcome(groups, InvalidTechCategory))
    ensures Locate(groups, group, category).Found? ==>
              && r.Success?
              && r.value.exit == Edited
              && OnlyListChanged(groups, r.value.groups, group, category)
              && Locate(r.value.groups, group, category).items
                 == InsertAfter(Locate(groups, group, category).items, techType, after)
  {
    match Locate(groups, group, category)
    case NoGroupKey => Failure(GroupKeyNotFound)
    case NullGroup => Success(Outcome(groups, InvalidTechGroup))
    case NoCategoryKey => Failure(CategoryKeyNotFound)
    case NullCategory => Success(Outcome(groups, InvalidTechCategory))
    case Found(items) => Success(Outcome(Store(groups, group, category, InsertAfter(items, techType, after)), Edited))
  }

  /** `RemoveFromCustomGroup(group, category, techType)` on the state `groups`. */
  function RemoveFromCustomGroup<G, C, T(==)>(groups: Groups<G, C, T>, group: G, category: C, techType: T)
    : (r: Result<Outcome<G, C, T>, KeyNotFound>)
    ensures Locate(groups, group, category).NoGroupKey? ==> r == Failure(GroupKeyNotFound)
    ensures Locate(groups, group, category).NullGroup? ==> r == Success(Outcome(groups, InvalidTechGroup))
    ensures Locate(groups, group, category).NoCategoryKey? ==> r == Failure(CategoryKeyNotFound)
    ensures Locate(groups, group, category).NullCategory? ==> r == Success(Outcome(groups, InvalidTechCategory))
    ensures Locate(groups, group, category).Found? ==>
              && r.Success?
              && r.value.exit == Edited
              && OnlyListChanged(groups, r.value.groups, group, category)
              && Locate(r.value.groups, group, category).items
                 == RemoveFirst(Locate(groups, group, category).items, techType)
  {
    match Locate(groups, group, category)
    case NoGroupKey => Failure(GroupKeyNotFound)
    case NullGroup => Success(Outcome(groups, InvalidTechGroup))
    case NoCategoryKey => Failure(CategoryKeyNotFound)
    case NullCategory => Success(Outcome(groups, InvalidTechCategory))
    case Found(items) => Success(Outcome(Store(groups, group, category, RemoveFirst(items, techType)), Edited))
  }

  /**
   The insertion point does not depend on anything after the first `after`:
   for every split of the list at its first `after`, the new item goes right behind it.
   */
  lemma InsertAfterFirstOccurrence<T>(p: seq<T>, after: T, q: seq<T>, techType: T)
    requires after !in p
    ensures InsertAfter(p + [after] + q, techType, after) == p + [after, techType] + q
  {
    var items := p + [after] + q;
    IndexOfAfterPrefix(p, after, q);
    assert InsertAfter(items, techType, after) == Insert(items, |p| + 1, techType);
    assert items[..|p| + 1] == p + [after];
    assert items[|p| + 1..] == q;
  }

  /** Removing an item that was not in the list undoes adding it, wherever it was added. */
  lemma RemoveUndoesInsertAfter<T>(items: seq<T>, techType: T, after: T)
    requires techType !in items
    ensures RemoveFirst(InsertAfter(items, techType, after), techType) == items
  {
    var index := IndexOf(items, after);
    var at := if index == -1 then |items| else index + 1;
    assert techType !in items[..at];
    assert InsertAfter(items, techType, after) == Insert(items, at, techType);
    RemoveFirstUndoesInsert(items, at, techType);
  }

  /** Writing back the list a slot already holds leaves the groups as they were. */
  lemma StoreUnchanged<G, C, T>(groups: Groups<G, C, T>, group: G, category: C)
    requires Locate(groups, group, category).Found?
    ensures Store(groups, group, category, Locate(groups, group, category).items) == groups
  {
    var categories := groups[group].value;
    assert categories[category := categories[category]] == categories;
    assert groups[group := NonNull(categories)] == groups;
  }

  /**
   `RemoveFromCustomGroup` undoes `AddToCustomGroup` for a TechType the list
   did not hold yet.
   */
  lemma RemoveUndoesAdd<G, C, T>(groups: Groups<G, C, T>, group: G, category: C, techType: T, after: T)
    requires Locate(groups, group, category).Found?
    requires techType !in Locate(groups, group, category).items
    ensures
      var added := AddToCustomGroup(groups, group, category, techType, after);
      && added.Success?
      && RemoveFromCustomGroup(added.value.groups, group, category, techType) == Success(Outcome(groups, Edited))
  {
    var items := Locate(groups, group, category).items;
    var grown := Store(groups, group, category, InsertAfter(items, techType, after));
    assert AddToCustomGroup(groups, group, category, techType, after) == Success(Outcome(grown, Edited));
    assert Locate(grown, group, category) == Found(InsertAfter(items, techType, after));
    RemoveUndoesInsertAfter(items, techType, after);
    assert RemoveFromCustomGroup(grown, group, category, techType)
        == Success(Outcome(Store(grown, group, category, items), Edited));
    var categories := groups[group].value;
    assert grown[group].value == categories[category := NonNull(InsertAfter(items, techType, after))];
    assert grown[group].value[category := NonNull(items)] == categories[category := NonNull(items)];
    assert Store(grown, group, category, items) == Store(groups, group, category, items);
    StoreUnchanged(groups, group, category);
  }
}
