/** A stable sort over any strict weak order, standing for `Array.prototype.sort`. */
module StableSort {

  ghost predicate StrictWeakOrder<T(!new)>(less: (T, T) -> bool) {
    && (forall a, b :: less(a, b) ==> !less(b, a))
    && (forall a, b, c :: !less(b, a) && !less(c, b) ==> !less(c, a))
  }

  predicate Sorted<T>(s: seq<T>, less: (T, T) -> bool) {
    forall i, j :: 0 <= i < j < |s| ==> !less(s[j], s[i])
  }

  /** Every element goes after those it is not less than. */
  function Sort<T>(s: seq<T>, less: (T, T) -> bool): seq<T> {
    if s == [] then [] else Insert(Sort(s[..|s| - 1], less), s[|s| - 1], less)
  }

  function Insert<T>(s: seq<T>, x: T, less: (T, T) -> bool): seq<T> {
    if s == [] || !less(x, s[|s| - 1]) then s + [x] else Insert(s[..|s| - 1], x, less) + [s[|s| - 1]]
  }

  lemma {:induction false} InsertKeepsAll<T>(s: seq<T>, x: T, less: (T, T) -> bool)
    ensures multiset(Insert(s, x, less)) == multiset(s) + multiset{x}
  {
    if s != [] && less(x, s[|s| - 1]) {
      InsertKeepsAll(s[..|s| - 1], x, less);
      assert s == s[..|s| - 1] + [s[|s| - 1]];
    }
  }

  lemma {:induction false} InsertSorts<T(!new)>(s: seq<T>, x: T, less: (T, T) -> bool)
    requires Sorted(s, less) && StrictWeakOrder(less)
    ensures Sorted(Insert(s, x, less), less)
  {
    if s == [] {
    } else if !less(x, s[|s| - 1]) {
      forall i | 0 <= i < |s| ensures !less(x, s[i]) {
        assert i < |s| - 1 ==> !less(s[|s| - 1], s[i]);
      }
    } else {
      var last, init := s[|s| - 1], s[..|s| - 1];
      InsertSorts(init, x, less);
      InsertKeepsAll(init, x, less);
      var inserted := Insert(init, x, less);
      forall i | 0 <= i < |inserted| ensures !less(last, inserted[i]) {
        assert inserted[i] in multiset(inserted);
        assert inserted[i] == x || inserted[i] in init;
      }
    }
  }

  lemma {:induction false} SortIsSort<T(!new)>(s: seq<T>, less: (T, T) -> bool)
    requires StrictWeakOrder(less)
    ensures Sorted(Sort(s, less), less) && multiset(Sort(s, less)) == multiset(s)
  {
    hide StrictWeakOrder, Insert, Sorted;
    if s == [] {
      EmptyIsSorted(less);
    } else {
      var init := s[..|s| - 1];
      SortIsSort(init, less);
      InsertSorts(Sort(init, less), s[|s| - 1], less);
      InsertKeepsAll(Sort(init, less), s[|s| - 1], less);
      assert s == init + [s[|s| - 1]];
    }
  }

  lemma EmptyIsSorted<T>(less: (T, T) -> bool)
    ensures Sorted([], less)
  {
  }

  lemma {:induction false} SortedStays<T>(s: seq<T>, less: (T, T) -> bool)
    requires Sorted(s, less)
    ensures Sort(s, less) == s
  {
    if s != [] {
      SortedStays(s[..|s| - 1], less);
      assert s == s[..|s| - 1] + [s[|s| - 1]];
    }
  }

  /** Elements that neither precedes are the same element. */
  ghost predicate Separates<T>(s: seq<T>, less: (T, T) -> bool) {
    forall i, j :: 0 <= i < |s| && 0 <= j < |s| && !less(s[i], s[j]) && !less(s[j], s[i]) ==> s[i] == s[j]
  }

  /** Then there is only one sorted arrangement. */
  lemma {:induction false} SortedIsUnique<T>(a: seq<T>, b: seq<T>, less: (T, T) -> bool)
    requires Sorted(a, less) && Sorted(b, less) && multiset(a) == multiset(b) && Separates(a, less)
    ensures a == b
  {
    hide Sorted, Separates;
    if a == [] {
      assert |multiset(b)| == 0;
    } else {
      assert a[0] in multiset(b) && b[0] in multiset(a);
      FirstsAgree(a, b, less);
      TailsKeep(a, b, less);
      SortedIsUnique(a[1..], b[1..], less);
    }
  }

  lemma TailsKeep<T>(a: seq<T>, b: seq<T>, less: (T, T) -> bool)
    requires a != [] && b != [] && a[0] == b[0] && multiset(a) == multiset(b)
    requires Sorted(a, less) && Sorted(b, less) && Separates(a, less)
    ensures Sorted(a[1..], less) && Sorted(b[1..], less) && multiset(a[1..]) == multiset(b[1..])
            && Separates(a[1..], less)
    ensures a == [a[0]] + a[1..] && b == [b[0]] + b[1..]
  {
    TailMultiset(a);
    TailMultiset(b);
  }

  lemma TailMultiset<T>(a: seq<T>)
    requires a != []
    ensures a == [a[0]] + a[1..] && multiset(a[1..]) == multiset(a) - multiset{a[0]}
  {
    assert a == [a[0]] + a[1..];
  }

  lemma FirstsAgree<T>(a: seq<T>, b: seq<T>, less: (T, T) -> bool)
    requires a != [] && b != [] && Sorted(a, less) && Sorted(b, less) && a[0] in b && b[0] in a && Separates(a, less)
    ensures a[0] == b[0]
  {
    var i :| 0 <= i < |b| && b[i] == a[0];
    var j :| 0 <= j < |a| && a[j] == b[0];
    assert j > 0 ==> !less(b[0], a[0]);
    assert i > 0 ==> !less(a[0], b[0]);
  }
}
