/**
 * Model of `Array.prototype.sort(compare)`. Since ECMAScript 2019 the sort is stable, so on every consistent
 * comparator it returns what a stable insertion sort by that comparator returns; on an inconsistent one the
 * order is implementation-defined, and this model picks the insertion sort's. The comparator and the key it
 * is compared against are parameters, so the facts here hold for any order a caller passes.
 */
module JsSort {

  /** Places `x` after every element of `t` that the comparator does not rank above it. */
  function Insert<T>(cmp: (T, T) -> int, t: seq<T>, x: T): seq<T>
  {
    if |t| == 0 then [x]
    else if cmp(t[|t| - 1], x) > 0 then Insert(cmp, t[..|t| - 1], x) + [t[|t| - 1]]
    else t + [x]
  }

  /** `s.sort(cmp)` on a copy of `s`. */
  function Sort<T>(cmp: (T, T) -> int, s: seq<T>): seq<T>
  {
    if |s| == 0 then [] else Insert(cmp, Sort(cmp, s[..|s| - 1]), s[|s| - 1])
  }

  /** On the elements of `s`, `cmp(a, b)` is `key(a) - key(b)`. */
  ghost predicate KeyComparator<T>(cmp: (T, T) -> int, key: T -> int, s: seq<T>)
  {
    forall a, b :: a in s && b in s ==> cmp(a, b) == key(a) - key(b)
  }

  /** `key` never decreases along `s`. */
  ghost predicate Ascending<T>(key: T -> int, s: seq<T>)
  {
    forall i, j :: 0 <= i < j < |s| ==> key(s[i]) <= key(s[j])
  }

  /** The elements of `s` whose key is `k`, in their order in `s`. */
  function ClassOf<T>(key: T -> int, s: seq<T>, k: int): seq<T>
  {
    if |s| == 0 then []
    else ClassOf(key, s[..|s| - 1], k) + (if key(s[|s| - 1]) == k then [s[|s| - 1]] else [])
  }

  // ---------------------------------------------------------------- the sort permutes

  lemma MultisetOfLast<T>(s: seq<T>)
    requires |s| > 0
    ensures multiset(s) == multiset(s[..|s| - 1]) + multiset{s[|s| - 1]}
  {
    assert s == s[..|s| - 1] + [s[|s| - 1]];
  }

  lemma {:induction false} InsertPermutes<T>(cmp: (T, T) -> int, t: seq<T>, x: T)
    ensures multiset(Insert(cmp, t, x)) == multiset(t) + multiset{x}
  {
    if |t| > 0 && cmp(t[|t| - 1], x) > 0 {
      InsertPermutes(cmp, t[..|t| - 1], x);
      MultisetOfLast(t);
    }
  }

  /** Every sort returns a permutation of its input. */
  lemma {:induction false} SortPermutes<T>(cmp: (T, T) -> int, s: seq<T>)
    ensures multiset(Sort(cmp, s)) == multiset(s)
  {
    if |s| > 0 {
      var init := s[..|s| - 1];
      SortPermutes(cmp, init);
      InsertPermutes(cmp, Sort(cmp, init), s[|s| - 1]);
      MultisetOfLast(s);
    }
  }

  // ---------------------------------------------------------------- small steps

  lemma SortSnoc<T>(cmp: (T, T) -> int, s: seq<T>)
    requires |s| > 0
    ensures Sort(cmp, s) == Insert(cmp, Sort(cmp, s[..|s| - 1]), s[|s| - 1])
  {
  }

  /** An element the comparator ranks below the last one is inserted before it. */
  lemma InsertMoves<T>(cmp: (T, T) -> int, t: seq<T>, x: T)
    requires |t| > 0 && cmp(t[|t| - 1], x) > 0
    ensures Insert(cmp, t, x) == Insert(cmp, t[..|t| - 1], x) + [t[|t| - 1]]
  {
  }

  /** An element the comparator does not rank below the last one goes at the end. */
  lemma InsertAtEnd<T>(cmp: (T, T) -> int, t: seq<T>, x: T)
    requires |t| == 0 || cmp(t[|t| - 1], x) <= 0
    ensures Insert(cmp, t, x) == t + [x]
  {
  }

  /** A key comparator on `s` is one on every list whose elements all occur in `s`. */
  lemma KeyComparatorSub<T>(cmp: (T, T) -> int, key: T -> int, s: seq<T>, u: seq<T>)
    requires KeyComparator(cmp, key, s) && multiset(u) <= multiset(s)
    ensures KeyComparator(cmp, key, u)
  {
    forall a, b | a in u && b in u ensures cmp(a, b) == key(a) - key(b) {
      assert a in multiset(u) && b in multiset(u);
    }
  }

  /** Dropping the element before the new one keeps the comparator a key comparator. */
  lemma KeyComparatorPrefix<T>(cmp: (T, T) -> int, key: T -> int, t: seq<T>, x: T)
    requires |t| > 0 && KeyComparator(cmp, key, t + [x])
    ensures KeyComparator(cmp, key, t[..|t| - 1] + [x])
  {
    var init := t[..|t| - 1];
    MultisetOfLast(t);
    KeyComparatorSub(cmp, key, t + [x], init + [x]);
  }

  /** The comparator on the last element and the new one is their key difference. */
  lemma KeyPair<T>(cmp: (T, T) -> int, key: T -> int, t: seq<T>, x: T)
    requires |t| > 0 && KeyComparator(cmp, key, t + [x])
    ensures cmp(t[|t| - 1], x) == key(t[|t| - 1]) - key(x)
  {
    assert t[|t| - 1] in t + [x] && x in t + [x];
  }

  lemma AscendingPrefix<T>(key: T -> int, s: seq<T>)
    requires Ascending(key, s) && |s| > 0
    ensures Ascending(key, s[..|s| - 1])
  {
  }

  /** In an ascending list no key exceeds the last one. */
  lemma BelowLast<T>(key: T -> int, s: seq<T>)
    requires Ascending(key, s) && |s| > 0
    ensures forall i :: 0 <= i < |s| ==> key(s[i]) <= key(s[|s| - 1])
  {
  }

  /** An ascending list stays ascending when an element with a key at least its last one's is appended. */
  lemma AscendingSnoc<T>(key: T -> int, u: seq<T>, y: T)
    requires Ascending(key, u)
    requires |u| == 0 || key(u[|u| - 1]) <= key(y)
    ensures Ascending(key, u + [y])
  {
    if |u| > 0 {
      BelowLast(key, u);
    }
  }

  /** Inserting keeps every key at most `b` when the list and the new element already are. */
  lemma InsertBelow<T>(cmp: (T, T) -> int, key: T -> int, t: seq<T>, x: T, b: int)
    requires forall i :: 0 <= i < |t| ==> key(t[i]) <= b
    requires key(x) <= b
    ensures forall i :: 0 <= i < |Insert(cmp, t, x)| ==> key(Insert(cmp, t, x)[i]) <= b
  {
    var u := Insert(cmp, t, x);
    InsertPermutes(cmp, t, x);
    forall i | 0 <= i < |u| ensures key(u[i]) <= b {
      assert u[i] in multiset(u);
      if u[i] != x {
        assert u[i] in multiset(t);
        var k :| 0 <= k < |t| && t[k] == u[i];
      }
    }
  }

  // ---------------------------------------------------------------- the sort orders by the key

  lemma {:induction false} InsertAscending<T>(cmp: (T, T) -> int, key: T -> int, t: seq<T>, x: T)
    requires Ascending(key, t) && KeyComparator(cmp, key, t + [x])
    ensures Ascending(key, Insert(cmp, t, x))
  {
    if |t| > 0 {
      KeyPair(cmp, key, t, x);
      if cmp(t[|t| - 1], x) > 0 {
        AscendingPrefix(key, t);
        KeyComparatorPrefix(cmp, key, t, x);
        InsertAscending(cmp, key, t[..|t| - 1], x);
        InsertAscendingStep(cmp, key, t, x);
      } else {
        InsertAtEnd(cmp, t, x);
        AscendingSnoc(key, t, x);
      }
    }
  }

  /** One step of InsertAscending: `x` goes before the last element, which stays last and above the rest. */
  lemma InsertAscendingStep<T>(cmp: (T, T) -> int, key: T -> int, t: seq<T>, x: T)
    requires |t| > 0 && Ascending(key, t)
    requires cmp(t[|t| - 1], x) > 0 && cmp(t[|t| - 1], x) == key(t[|t| - 1]) - key(x)
    requires Ascending(key, Insert(cmp, t[..|t| - 1], x))
    ensures Ascending(key, Insert(cmp, t, x))
  {
    var init, last := t[..|t| - 1], t[|t| - 1];
    BelowLast(key, t);
    InsertBelow(cmp, key, init, x, key(last));
    InsertMoves(cmp, t, x);
    AscendingSnoc(key, Insert(cmp, init, x), last);
  }

  /** When the comparator is a key difference, the sort orders by that key. */
  lemma {:induction false} SortAscending<T>(cmp: (T, T) -> int, key: T -> int, s: seq<T>)
    requires KeyComparator(cmp, key, s)
    ensures Ascending(key, Sort(cmp, s))
  {
    if |s| > 0 {
      var init, x := s[..|s| - 1], s[|s| - 1];
      MultisetOfLast(s);
      KeyComparatorSub(cmp, key, s, init);
      SortAscending(cmp, key, init);
      SortPermutes(cmp, init);
      KeyComparatorSub(cmp, key, s, Sort(cmp, init) + [x]);
      InsertAscending(cmp, key, Sort(cmp, init), x);
      SortSnoc(cmp, s);
    }
  }

  // ---------------------------------------------------------------- the sort is stable

  lemma ClassSnoc<T>(key: T -> int, u: seq<T>, y: T, k: int)
    ensures ClassOf(key, u + [y], k) == ClassOf(key, u, k) + (if key(y) == k then [y] else [])
  {
    assert (u + [y])[..|u|] == u;
  }

  lemma {:induction false} InsertClass<T>(cmp: (T, T) -> int, key: T -> int, t: seq<T>, x: T, k: int)
    requires KeyComparator(cmp, key, t + [x])
    ensures ClassOf(key, Insert(cmp, t, x), k) == ClassOf(key, t, k) + (if key(x) == k then [x] else [])
  {
    if |t| == 0 {
      assert [x][..0] == [];
    } else {
      var init, last := t[..|t| - 1], t[|t| - 1];
      KeyPair(cmp, key, t, x);
      if cmp(last, x) > 0 {
        KeyComparatorPrefix(cmp, key, t, x);
        InsertClass(cmp, key, init, x, k);
        InsertMoves(cmp, t, x);
        assert t == init + [last];
        InsertClassStep(key, init, Insert(cmp, init, x), last, x, k);
      } else {
        InsertAtEnd(cmp, t, x);
        ClassSnoc(key, t, x, k);
      }
    }
  }

  /** One step of InsertClass: `last`, whose key differs from `x`'s, goes after the insertion into `init`. */
  lemma InsertClassStep<T>(key: T -> int, init: seq<T>, u: seq<T>, last: T, x: T, k: int)
    requires key(last) != key(x)
    requires ClassOf(key, u, k) == ClassOf(key, init, k) + (if key(x) == k then [x] else [])
    ensures ClassOf(key, u + [last], k) == ClassOf(key, init + [last], k) + (if key(x) == k then [x] else [])
  {
    ClassSnoc(key, u, last, k);
    ClassSnoc(key, init, last, k);
  }

  /** The sort is stable: the elements sharing a key keep their relative order. */
  lemma {:induction false} SortStable<T>(cmp: (T, T) -> int, key: T -> int, s: seq<T>, k: int)
    requires KeyComparator(cmp, key, s)
    ensures ClassOf(key, Sort(cmp, s), k) == ClassOf(key, s, k)
  {
    if |s| > 0 {
      var init, x := s[..|s| - 1], s[|s| - 1];
      MultisetOfLast(s);
      KeyComparatorSub(cmp, key, s, init);
      SortStable(cmp, key, init, k);
      SortPermutes(cmp, init);
      KeyComparatorSub(cmp, key, s, Sort(cmp, init) + [x]);
      InsertClass(cmp, key, Sort(cmp, init), x, k);
      SortSnoc(cmp, s);
    }
  }

  // ---------------------------------------------------------------- sorting twice

  /** In an ascending list the comparator never ranks the last element below the one before it. */
  lemma LastPair<T>(cmp: (T, T) -> int, key: T -> int, s: seq<T>)
    requires KeyComparator(cmp, key, s) && Ascending(key, s) && |s| >= 2
    ensures cmp(s[|s| - 2], s[|s| - 1]) <= 0
  {
    assert s[|s| - 2] in s && s[|s| - 1] in s;
  }

  /** A list already ascending by the key is its own sort. */
  lemma {:induction false} SortOfAscending<T>(cmp: (T, T) -> int, key: T -> int, s: seq<T>)
    requires KeyComparator(cmp, key, s) && Ascending(key, s)
    ensures Sort(cmp, s) == s
  {
    if |s| > 0 {
      var init, last := s[..|s| - 1], s[|s| - 1];
      MultisetOfLast(s);
      KeyComparatorSub(cmp, key, s, init);
      AscendingPrefix(key, s);
      SortOfAscending(cmp, key, init);
      SortOfAscendingStep(cmp, key, s);
    }
  }

  /** One step of SortOfAscending: the last element of an ascending list stays where it is. */
  lemma SortOfAscendingStep<T>(cmp: (T, T) -> int, key: T -> int, s: seq<T>)
    requires |s| > 0 && KeyComparator(cmp, key, s) && Ascending(key, s)
    requires Sort(cmp, s[..|s| - 1]) == s[..|s| - 1]
    ensures Sort(cmp, s) == s
  {
    var init, last := s[..|s| - 1], s[|s| - 1];
    if |init| > 0 {
      LastPair(cmp, key, s);
    }
    InsertAtEnd(cmp, init, last);
    SortSnoc(cmp, s);
    assert init + [last] == s;
  }

  /** Sorting a sorted list again by the same key comparator changes nothing. */
  lemma SortIdempotent<T>(cmp: (T, T) -> int, key: T -> int, s: seq<T>)
    requires KeyComparator(cmp, key, s)
    ensures Sort(cmp, Sort(cmp, s)) == Sort(cmp, s)
  {
    SortAscending(cmp, key, s);
    SortPermutes(cmp, s);
    KeyComparatorSub(cmp, key, s, Sort(cmp, s));
    SortOfAscending(cmp, key, Sort(cmp, s));
  }
}
