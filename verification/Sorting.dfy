/** A stable sort, as `Array.prototype.sort` is: equal elements keep the order they came in. */
module Sorting {

  ghost predicate Preorder<T(!new)>(le: (T, T) -> bool) {
    && (forall a, b :: le(a, b) || le(b, a))
    && (forall a, b, c :: le(a, b) && le(b, c) ==> le(a, c))
  }

  ghost predicate Sorted<T>(s: seq<T>, le: (T, T) -> bool) {
    forall i, j :: 0 <= i < j < |s| ==> le(s[i], s[j])
  }

  function Insert<T>(x: T, s: seq<T>, le: (T, T) -> bool): (r: seq<T>)
    ensures |r| == |s| + 1
  {
    if s == [] then [x]
    else if le(x, s[0]) then [x] + s
    else [s[0]] + Insert(x, s[1..], le)
  }

  function Sort<T>(s: seq<T>, le: (T, T) -> bool): (r: seq<T>)
    ensures |r| == |s|
  {
    if s == [] then [] else Insert(s[0], Sort(s[1..], le), le)
  }

  lemma {:induction false} InsertKeeps<T>(x: T, s: seq<T>, le: (T, T) -> bool)
    ensures multiset(Insert(x, s, le)) == multiset{x} + multiset(s)
  {
    if s != [] && !le(x, s[0]) {
      InsertKeeps(x, s[1..], le);
      assert s == [s[0]] + s[1..];
    }
  }

  /** Sorting neither loses nor invents elements. */
  lemma {:induction false} SortKeeps<T>(s: seq<T>, le: (T, T) -> bool)
    ensures multiset(Sort(s, le)) == multiset(s)
  {
    if s != [] {
      SortKeeps(s[1..], le);
      InsertKeeps(s[0], Sort(s[1..], le), le);
      assert s == [s[0]] + s[1..];
    }
  }

  lemma {:induction false} InsertSorted<T(!new)>(x: T, s: seq<T>, le: (T, T) -> bool)
    requires Preorder(le) && Sorted(s, le)
    ensures Sorted(Insert(x, s, le), le)
  {
    if s != [] && !le(x, s[0]) {
      InsertSorted(x, s[1..], le);
      var rest := Insert(x, s[1..], le);
      InsertKeeps(x, s[1..], le);
      forall y | y in rest ensures le(s[0], y) {
        assert y in multiset(rest);
        if y != x {
          assert y in multiset(s[1..]);
          var i :| 0 <= i < |s[1..]| && s[1..][i] == y;
          assert s[i + 1] == y;
        }
      }
    }
  }

  lemma {:induction false} SortSorts<T(!new)>(s: seq<T>, le: (T, T) -> bool)
    requires Preorder(le)
    ensures Sorted(Sort(s, le), le)
  {
    if s != [] {
      SortSorts(s[1..], le);
      InsertSorted(s[0], Sort(s[1..], le), le);
    }
  }

  function Kept<T>(s: seq<T>, same: T -> bool): seq<T> {
    if s == [] then [] else if same(s[0]) then [s[0]] + Kept(s[1..], same) else Kept(s[1..], same)
  }

  lemma KeptCons<T>(x: T, s: seq<T>, same: T -> bool)
    ensures Kept([x] + s, same) == if same(x) then [x] + Kept(s, same) else Kept(s, same)
  {
    assert ([x] + s)[1..] == s;
  }

  /** Those of a kind rank alike. */
  ghost predicate Alike<T(!new)>(le: (T, T) -> bool, same: T -> bool) {
    forall a, b :: same(a) && same(b) ==> le(a, b)
  }

  lemma {:induction false} InsertIsStable<T(!new)>(x: T, s: seq<T>, le: (T, T) -> bool, same: T -> bool)
    requires Alike(le, same)
    ensures Kept(Insert(x, s, le), same) == if same(x) then [x] + Kept(s, same) else Kept(s, same)
  {
    if s == [] || le(x, s[0]) {
      KeptCons(x, s, same);
      assert s == [] ==> [x] + s == [x];
    } else {
      InsertIsStable(x, s[1..], le, same);
      KeptCons(s[0], Insert(x, s[1..], le), same);
      assert !(same(x) && same(s[0]));
    }
  }

  /** Elements that rank alike stay in the order they came in. */
  lemma {:induction false} SortIsStable<T(!new)>(s: seq<T>, le: (T, T) -> bool, same: T -> bool)
    requires Alike(le, same)
    ensures Kept(Sort(s, le), same) == Kept(s, same)
  {
    if s != [] {
      SortIsStable(s[1..], le, same);
      InsertIsStable(s[0], Sort(s[1..], le), le, same);
    }
  }

  lemma SortMembers<T>(s: seq<T>, le: (T, T) -> bool)
    ensures forall x :: x in Sort(s, le) <==> x in s
  {
    SortKeeps(s, le);
    forall x ensures x in Sort(s, le) <==> x in s {
      assert x in Sort(s, le) <==> x in multiset(Sort(s, le));
      assert x in s <==> x in multiset(s);
    }
  }

  ghost predicate Distinct<T>(s: seq<T>) {
    forall i, j :: 0 <= i < j < |s| ==> s[i] != s[j]
  }

  /** Distinct elements are those that occur once. */
  lemma {:induction false} DistinctOnce<T>(s: seq<T>)
    ensures Distinct(s) <==> forall x :: x in s ==> multiset(s)[x] == 1
  {
    if s != [] {
      DistinctOnce(s[1..]);
      assert s == [s[0]] + s[1..];
      assert forall x :: multiset(s)[x] == (if x == s[0] then 1 else 0) + multiset(s[1..])[x];
      if Distinct(s) {
        forall x | x in s ensures multiset(s)[x] == 1 {
          if x == s[0] { assert x !in s[1..]; } else { assert x in s[1..]; }
        }
      } else if forall x :: x in s ==> multiset(s)[x] == 1 {
        assert s[0] !in s[1..];
        forall x | x in s[1..] ensures multiset(s[1..])[x] == 1 { assert x in s; }
        forall i, j | 0 <= i < j < |s| ensures s[i] != s[j] {
          assert s[j] == s[1..][j - 1];
          if i > 0 { assert s[i] == s[1..][i - 1]; }
        }
      }
    }
  }

  lemma SortDistinct<T>(s: seq<T>, le: (T, T) -> bool)
    ensures Distinct(Sort(s, le)) <==> Distinct(s)
  {
    SortKeeps(s, le);
    DistinctOnce(s);
    DistinctOnce(Sort(s, le));
    SortMembers(s, le);
  }
}
