/** Python's `list.sort(key=…)` for keys in the integers: stable insertion by key. */
module Sorting {

  /** Inserts behind every element whose key is not greater. */
  function Insert<T>(s: seq<T>, x: T, key: T -> int): seq<T> {
    if s == [] || key(s[|s| - 1]) <= key(x) then s + [x] else Insert(s[..|s| - 1], x, key) + [s[|s| - 1]]
  }

  function SortBy<T>(s: seq<T>, key: T -> int): seq<T> {
    if s == [] then [] else Insert(SortBy(s[..|s| - 1], key), s[|s| - 1], key)
  }

  predicate SortedBy<T>(s: seq<T>, key: T -> int) {
    forall i, j | 0 <= i < j < |s| :: key(s[i]) <= key(s[j])
  }

  lemma {:induction false} InsertContents<T>(s: seq<T>, x: T, key: T -> int)
    ensures multiset(Insert(s, x, key)) == multiset(s) + multiset{x}
  {
    if s != [] && key(s[|s| - 1]) > key(x) {
      InsertContents(s[..|s| - 1], x, key);
      assert s == s[..|s| - 1] + [s[|s| - 1]];
    }
  }

  lemma InsertMembers<T>(s: seq<T>, x: T, key: T -> int, y: T)
    ensures y in Insert(s, x, key) <==> y in s || y == x
  {
    InsertContents(s, x, key);
    assert y in multiset(Insert(s, x, key)) <==> y in multiset(s) || y == x;
  }

  lemma {:induction false} InsertSorts<T>(s: seq<T>, x: T, key: T -> int)
    requires SortedBy(s, key)
    ensures SortedBy(Insert(s, x, key), key)
  {
    if s != [] && key(s[|s| - 1]) > key(x) {
      var front, last := s[..|s| - 1], s[|s| - 1];
      InsertSorts(front, x, key);
      var inserted := Insert(front, x, key);
      forall i | 0 <= i < |inserted| ensures key(inserted[i]) <= key(last) {
        InsertMembers(front, x, key, inserted[i]);
      }
    }
  }

  lemma {:induction false} SortSorts<T>(s: seq<T>, key: T -> int)
    ensures SortedBy(SortBy(s, key), key) && multiset(SortBy(s, key)) == multiset(s)
  {
    hide Insert, SortedBy;
    if s != [] {
      var front, last := s[..|s| - 1], s[|s| - 1];
      SortSorts(front, key);
      InsertSorts(SortBy(front, key), last, key);
      InsertContents(SortBy(front, key), last, key);
      assert multiset(s) == multiset(front) + multiset{last} by {
        assert s == front + [last];
      }
    } else {
      NothingIsSorted(key);
    }
  }

  lemma NothingIsSorted<T>(key: T -> int)
    ensures SortedBy([], key)
  {
  }

  lemma {:induction false} SortedIsFixed<T>(s: seq<T>, key: T -> int)
    requires SortedBy(s, key)
    ensures SortBy(s, key) == s
  {
    if s != [] {
      SortedIsFixed(s[..|s| - 1], key);
    }
  }

  lemma {:induction false} InsertFirst<T>(s: seq<T>, x: T, key: T -> int)
    requires forall i | 0 <= i < |s| :: key(s[i]) > key(x)
    ensures Insert(s, x, key) == [x] + s
  {
    if s != [] {
      InsertFirst(s[..|s| - 1], x, key);
    }
  }

  /** A set that is not empty has a member. */
  lemma Member<T>(s: set<T>) returns (x: T)
    requires s != {}
    ensures x in s
  {
    x :| x in s;
  }
}
