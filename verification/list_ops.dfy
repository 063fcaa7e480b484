/**
 The three members of the .NET `List<T>` the patcher calls on a category list:
 `IndexOf`, `Insert` and `Remove`, over immutable sequences.
 */
module ListOps {

  /** No element occurs twice. */
  predicate NoDuplicates<T(==)>(s: seq<T>) {
    forall i, j :: 0 <= i < j < |s| ==> s[i] != s[j]
  }

  /** `List<T>.IndexOf`: the index of the first element equal to `x`, or -1 when there is none. */
  function IndexOf<T(==)>(s: seq<T>, x: T): (i: int)
    ensures -1 <= i < |s|
    ensures i == -1 <==> x !in s
    ensures 0 <= i ==> s[i] == x && forall j :: 0 <= j < i ==> s[j] != x
  {
    if |s| == 0 then -1
    else if s[0] == x then 0
    else
      var j := IndexOf(s[1..], x);
      if j == -1 then -1 else j + 1
  }

  /** `List<T>.Insert`: `x` lands at index `i`; the elements from `i` onward move up by one. */
  function Insert<T>(s: seq<T>, i: int, x: T): (r: seq<T>)
    requires 0 <= i <= |s|
    ensures |r| == |s| + 1
    ensures r[i] == x
    ensures forall j :: 0 <= j < i ==> r[j] == s[j]
    ensures forall j :: i <= j < |s| ==> r[j + 1] == s[j]
  {
    s[..i] + [x] + s[i..]
  }

  /**
   `List<T>.Remove`: the first element equal to `x` is dropped and the others
   keep their relative order; without such an element nothing changes.
   */
  function RemoveFirst<T(==)>(s: seq<T>, x: T): (r: seq<T>)
    ensures x !in s ==> r == s
    ensures x in s ==> |r| == |s| - 1
    ensures x in s ==> forall j :: 0 <= j < IndexOf(s, x) ==> r[j] == s[j]
    ensures x in s ==> forall j :: IndexOf(s, x) <= j < |r| ==> r[j] == s[j + 1]
  {
    var i := IndexOf(s, x);
    if i == -1 then s else s[..i] + s[i + 1..]
  }

  /** The first occurrence of `x` in `p + [x] + q` is the one after `p` when `p` has none. */
  lemma IndexOfAfterPrefix<T>(p: seq<T>, x: T, q: seq<T>)
    requires x !in p
    ensures IndexOf(p + [x] + q, x) == |p|
  {
    var s := p + [x] + q;
    assert s[|p|] == x;
    assert s[..|p|] == p;
  }

  /** Removing the first `x` undoes inserting `x` anywhere that has no `x` before it. */
  lemma RemoveFirstUndoesInsert<T>(s: seq<T>, i: int, x: T)
    requires 0 <= i <= |s|
    requires x !in s[..i]
    ensures RemoveFirst(Insert(s, i, x), x) == s
  {
    var t := Insert(s, i, x);
    assert t == s[..i] + [x] + s[i..];
    IndexOfAfterPrefix(s[..i], x, s[i..]);
    assert t[..i] == s[..i];
    assert t[i + 1..] == s[i..];
    assert s[..i] + s[i..] == s;
  }

  /** `Remove` takes exactly one occurrence of `x` out of the list and leaves the rest. */
  lemma RemoveFirstMultiset<T>(s: seq<T>, x: T)
    ensures x in s ==> multiset(RemoveFirst(s, x)) == multiset(s) - multiset{x}
    ensures x !in s ==> multiset(RemoveFirst(s, x)) == multiset(s)
  {
    if x in s {
      var i := IndexOf(s, x);
      assert s == s[..i] + [x] + s[i + 1..];
      assert RemoveFirst(s, x) == s[..i] + s[i + 1..];
    }
  }
}
