/**
 * Queries over an in-memory table (a sequence of documents in insertion order), standing
 * for the `findOne`, `findById` and `find` calls the controllers make on the document database.
 */
module Collections {
  import opened Wrappers

  /** The index of the first element satisfying `p`, as `findOne` returns the first match. */
  function FirstIndex<T>(s: seq<T>, p: T -> bool): (r: Option<nat>)
    ensures r.Some? ==> r.value < |s| && p(s[r.value])
    ensures r.Some? ==> forall j :: 0 <= j < r.value ==> !p(s[j])
    ensures r.None? <==> forall j :: 0 <= j < |s| ==> !p(s[j])
  {
    if s == [] then None
    else if p(s[0]) then Some(0)
    else
      match FirstIndex(s[1..], p)
      case None => None
      case Some(i) => Some(i + 1)
  }

  /** The first element satisfying `p`, if any. */
  function FindFirst<T(!new)>(s: seq<T>, p: T -> bool): (r: Option<T>)
    ensures r.Some? ==> r.value in s && p(r.value)
    ensures r.None? <==> forall x :: x in s ==> !p(x)
  {
    match FirstIndex(s, p)
    case None => None
    case Some(i) => Some(s[i])
  }

  /** The elements of `s` satisfying `p`, in their original order, as `find` with a filter returns them. */
  function Filter<T(!new)>(s: seq<T>, p: T -> bool): (r: seq<T>)
    ensures forall x :: x in r <==> x in s && p(x)
    ensures forall x :: multiset(r)[x] == if p(x) then multiset(s)[x] else 0
    ensures multiset(r) <= multiset(s)
    ensures |r| <= |s|
  {
    if s == [] then []
    else
      assert s == [s[0]] + s[1..];
      var rest := Filter(s[1..], p);
      if p(s[0]) then
        assert multiset([s[0]] + rest) == multiset{s[0]} + multiset(rest);
        [s[0]] + rest
      else rest
  }

  /** A later match never hides an earlier one: appending to a table does not change what a lookup finds. */
  lemma {:induction false} FirstIndexAppend<T>(s: seq<T>, x: T, p: T -> bool)
    requires FirstIndex(s, p).None?
    requires p(x)
    ensures FirstIndex(s + [x], p) == Some(|s|)
  {
    if s != [] {
      assert (s + [x])[1..] == s[1..] + [x];
      FirstIndexAppend(s[1..], x, p);
    }
  }

  /** Filtering with a predicate that holds everywhere keeps the whole table. */
  lemma {:induction false} FilterAll<T(!new)>(s: seq<T>, p: T -> bool)
    requires forall x :: x in s ==> p(x)
    ensures Filter(s, p) == s
  {
    if s != [] {
      FilterAll(s[1..], p);
    }
  }

  /**
   * Replacing the first match by another element that still matches leaves the lookup where it was,
   * as saving a document found by a lookup does.
   */
  lemma {:induction false} FirstIndexReplace<T>(s: seq<T>, i: nat, x: T, p: T -> bool)
    requires FirstIndex(s, p) == Some(i)
    requires p(x)
    ensures FirstIndex(s[i := x], p) == Some(i)
  {
    if i > 0 {
      assert s[i := x][1..] == s[1..][i - 1 := x];
      FirstIndexReplace(s[1..], i - 1, x, p);
    }
  }
}
