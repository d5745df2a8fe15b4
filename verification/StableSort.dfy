/** `list.sort` with an integer key: the stable sort. */
module StableSort {

  datatype Keyed<+T> = Keyed(key: int, value: T)

  ghost predicate IsSorted<T>(s: seq<Keyed<T>>) {
    forall i, j :: 0 <= i < j < |s| ==> s[i].key <= s[j].key
  }

  /** Puts `x` behind everything whose key is not greater. */
  function Insert<T>(x: Keyed<T>, s: seq<Keyed<T>>): (r: seq<Keyed<T>>)
    ensures |r| == |s| + 1
  {
    if s == [] || s[|s| - 1].key <= x.key then s + [x]
    else Insert(x, s[..|s| - 1]) + [s[|s| - 1]]
  }

  function Sort<T>(s: seq<Keyed<T>>): (r: seq<Keyed<T>>)
    ensures |r| == |s|
  {
    if s == [] then [] else Insert(s[|s| - 1], Sort(s[..|s| - 1]))
  }

  /** The elements that satisfy `keep`, in order. */
  function Filter<T>(s: seq<T>, keep: T -> bool): (r: seq<T>)
    ensures forall x <- r :: keep(x) && x in s
  {
    if s == [] then []
    else
      var front := Filter(s[..|s| - 1], keep);
      if keep(s[|s| - 1]) then front + [s[|s| - 1]] else front
  }

  lemma FilterSnoc<T>(s: seq<T>, x: T, keep: T -> bool)
    ensures Filter(s + [x], keep) == if keep(x) then Filter(s, keep) + [x] else Filter(s, keep)
  {
    assert (s + [x])[..|s|] == s;
  }

  lemma {:induction false} InsertKeepsElements<T>(x: Keyed<T>, s: seq<Keyed<T>>)
    ensures multiset(Insert(x, s)) == multiset(s) + multiset{x}
  {
    if s != [] && s[|s| - 1].key > x.key {
      var front, last := s[..|s| - 1], s[|s| - 1];
      InsertKeepsElements(x, front);
      assert s == front + [last];
    }
  }

  lemma SortedSnoc<T>(s: seq<Keyed<T>>, x: Keyed<T>)
    requires IsSorted(s) && forall y <- s :: y.key <= x.key
    ensures IsSorted(s + [x])
  {
  }

  lemma {:induction false} InsertKeepsOrder<T>(x: Keyed<T>, s: seq<Keyed<T>>)
    requires IsSorted(s)
    ensures IsSorted(Insert(x, s))
  {
    if s != [] {
      LastIsGreatest(s);
      var front, last := s[..|s| - 1], s[|s| - 1];
      if last.key > x.key {
        InsertKeepsOrder(x, front);
        assert forall y <- front :: y in s;
        InsertedKeys(x, front, last.key);
        SortedSnoc(Insert(x, front), last);
      } else {
        SortedSnoc(s, x);
      }
    }
  }

  lemma {:induction false} InsertedKeys<T>(x: Keyed<T>, s: seq<Keyed<T>>, bound: int)
    requires x.key <= bound && forall y <- s :: y.key <= bound
    ensures forall y <- Insert(x, s) :: y.key <= bound
  {
    if s != [] && s[|s| - 1].key > x.key {
      InsertedKeys(x, s[..|s| - 1], bound);
    }
  }

  /** Sorting orders by key and keeps every element. */
  lemma {:induction false} SortFacts<T>(s: seq<Keyed<T>>)
    ensures IsSorted(Sort(s)) && multiset(Sort(s)) == multiset(s)
  {
    if s != [] {
      SortFacts(s[..|s| - 1]);
      InsertKeepsOrder(s[|s| - 1], Sort(s[..|s| - 1]));
      InsertKeepsElements(s[|s| - 1], Sort(s[..|s| - 1]));
      assert s == s[..|s| - 1] + [s[|s| - 1]];
    }
  }

  lemma LastIsGreatest<T>(s: seq<Keyed<T>>)
    requires IsSorted(s) && s != []
    ensures forall x <- s :: x.key <= s[|s| - 1].key
  {
  }

  lemma {:induction false} FilterSorted<T>(s: seq<Keyed<T>>, keep: Keyed<T> -> bool)
    requires IsSorted(s)
    ensures IsSorted(Filter(s, keep))
  {
    if s != [] {
      FilterSorted(s[..|s| - 1], keep);
      LastIsGreatest(s);
      assert forall x <- Filter(s[..|s| - 1], keep) :: x in s;
    }
  }

  lemma {:induction false} FilterInsert<T>(x: Keyed<T>, s: seq<Keyed<T>>, keep: Keyed<T> -> bool)
    requires IsSorted(s)
    ensures Filter(Insert(x, s), keep) == if keep(x) then Insert(x, Filter(s, keep)) else Filter(s, keep)
  {
    if s == [] || s[|s| - 1].key <= x.key {
      FilterSnoc(s, x, keep);
      if s != [] {
        LastIsGreatest(s);
        assert forall y <- Filter(s, keep) :: y.key <= x.key;
      }
    } else {
      var front, last := s[..|s| - 1], s[|s| - 1];
      FilterInsert(x, front, keep);
      FilterSnoc(Insert(x, front), last, keep);
      FilterSnoc(front, last, keep);
      if keep(last) {
        assert (Filter(front, keep) + [last])[..|Filter(front, keep)|] == Filter(front, keep);
      } else if keep(x) {
        InsertBeforeEnd(x, s, keep);
      }
    }
  }

  lemma InsertBeforeEnd<T>(x: Keyed<T>, s: seq<Keyed<T>>, keep: Keyed<T> -> bool)
    requires s != [] && !keep(s[|s| - 1])
    ensures Filter(s, keep) == Filter(s[..|s| - 1], keep)
  {
  }

  /** Sorting is stable: picking out elements and sorting commute. */
  lemma {:induction false} SortIsStable<T>(s: seq<Keyed<T>>, keep: Keyed<T> -> bool)
    ensures Filter(Sort(s), keep) == Sort(Filter(s, keep))
  {
    if s != [] {
      var front, last := s[..|s| - 1], s[|s| - 1];
      SortIsStable(front, keep);
      SortFacts(front);
      FilterInsert(last, Sort(front), keep);
      if keep(last) {
        assert (Filter(front, keep) + [last])[..|Filter(front, keep)|] == Filter(front, keep);
      }
    }
  }

  /** A sorted list is left as it is. */
  lemma {:induction false} SortOfSorted<T>(s: seq<Keyed<T>>)
    requires IsSorted(s)
    ensures Sort(s) == s
  {
    if s != [] {
      SortOfSorted(s[..|s| - 1]);
    }
  }
}
