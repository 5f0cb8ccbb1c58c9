/**
 Python's stable `sort(reverse=True)` and taking the first element a condition holds
 of, for any total preorder `ge` ("at least as large").
 */
module StableSort {
  import opened Wrappers

  /** Puts an element behind all that are at least as large. */
  function Insert<T>(x: T, sorted: seq<T>, ge: (T, T) -> bool): seq<T> {
    if sorted == [] || !ge(sorted[0], x) then [x] + sorted else [sorted[0]] + Insert(x, sorted[1..], ge)
  }

  /** Largest first, equal ones in the order given. */
  function Sorted<T>(xs: seq<T>, ge: (T, T) -> bool): seq<T> {
    if xs == [] then [] else Insert(xs[|xs| - 1], Sorted(xs[..|xs| - 1], ge), ge)
  }

  function Select<T>(xs: seq<T>, p: T -> bool): seq<T> {
    if xs == [] then [] else if p(xs[0]) then [xs[0]] + Select(xs[1..], p) else Select(xs[1..], p)
  }

  /** The first element that no other of the list is larger than. */
  function Best<T>(xs: seq<T>, ge: (T, T) -> bool): Option<T> {
    if xs == [] then None
    else
      var best, last := Best(xs[..|xs| - 1], ge), xs[|xs| - 1];
      if best.None? || !ge(best.value, last) then Some(last) else best
  }

  ghost predicate TotalOn<T(!new)>(ge: (T, T) -> bool, among: iset<T>) {
    && (forall a, b :: a in among && b in among ==> ge(a, b) || ge(b, a))
    && (forall a, b, c :: a in among && b in among && c in among && ge(a, b) && ge(b, c) ==> ge(a, c))
  }

  ghost predicate AllIn<T>(xs: seq<T>, among: iset<T>) {
    forall i :: 0 <= i < |xs| ==> xs[i] in among
  }

  ghost predicate Descending<T>(xs: seq<T>, ge: (T, T) -> bool) {
    forall i, j :: 0 <= i < j < |xs| ==> ge(xs[i], xs[j])
  }

  /** What the best element is: none only of none; at least as large as all, larger than those before it. */
  lemma {:induction false} BestIsFirstLargest<T(!new)>(xs: seq<T>, ge: (T, T) -> bool, among: iset<T>) returns (k: nat)
    requires TotalOn(ge, among) && AllIn(xs, among)
    ensures Best(xs, ge).None? <==> xs == []
    ensures xs != [] ==> k < |xs| && xs[k] == Best(xs, ge).value
    ensures xs != [] ==> forall j :: 0 <= j < |xs| ==> ge(xs[k], xs[j]) && (j < k ==> !ge(xs[j], xs[k]))
    decreases |xs|
  {
    k := 0;
    if |xs| > 1 {
      var front, last := xs[..|xs| - 1], xs[|xs| - 1];
      k := BestIsFirstLargest(front, ge, among);
      var best := front[k];
      if !ge(best, last) {
        k := |front|;
      }
      forall j | 0 <= j < |xs|
        ensures ge(xs[k], xs[j]) && (j < k ==> !ge(xs[j], xs[k]))
      {
        assert j < |front| ==> xs[j] == front[j];
      }
    } else if |xs| == 1 {
      assert xs[..0] == [];
    }
  }

  lemma {:induction false} InsertSorts<T(!new)>(x: T, sorted: seq<T>, ge: (T, T) -> bool, among: iset<T>)
    requires TotalOn(ge, among) && AllIn(sorted, among) && x in among && Descending(sorted, ge)
    ensures Descending(Insert(x, sorted, ge), ge) && AllIn(Insert(x, sorted, ge), among)
    ensures forall y :: y in Insert(x, sorted, ge) <==> y == x || y in sorted
  {
    if sorted != [] {
      var head, rest := sorted[0], sorted[1..];
      assert sorted == [head] + rest;
      if ge(head, x) {
        InsertSorts(x, rest, ge, among);
        forall y | y in Insert(x, rest, ge)
          ensures ge(head, y)
        {
          if y in rest {
            var j :| 0 <= j < |rest| && rest[j] == y;
            assert sorted[j + 1] == y;
          }
        }
      }
    }
  }

  lemma {:induction false} SortedIs<T(!new)>(xs: seq<T>, ge: (T, T) -> bool, among: iset<T>)
    requires TotalOn(ge, among) && AllIn(xs, among)
    ensures Descending(Sorted(xs, ge), ge) && AllIn(Sorted(xs, ge), among)
    ensures Sorted(xs, ge) == [] <==> xs == []
    ensures xs != [] ==> Best(xs, ge) == Some(Sorted(xs, ge)[0])
    ensures forall x :: x in Sorted(xs, ge) <==> x in xs
  {
    if xs != [] {
      var front, last := xs[..|xs| - 1], xs[|xs| - 1];
      SortedIs(front, ge, among);
      InsertSorts(last, Sorted(front, ge), ge, among);
      assert xs == front + [last];
    }
  }

  lemma {:induction false} InsertKeeps<T(!new)>(x: T, sorted: seq<T>, ge: (T, T) -> bool)
    ensures multiset(Insert(x, sorted, ge)) == multiset(sorted) + multiset{x}
  {
    if sorted != [] && ge(sorted[0], x) {
      InsertKeeps(x, sorted[1..], ge);
      assert sorted == [sorted[0]] + sorted[1..];
    }
  }

  /** Sorting loses nothing and repeats nothing, whatever the order. */
  lemma {:induction false} SortedKeeps<T(!new)>(xs: seq<T>, ge: (T, T) -> bool)
    ensures multiset(Sorted(xs, ge)) == multiset(xs)
  {
    if xs != [] {
      var front, last := xs[..|xs| - 1], xs[|xs| - 1];
      SortedKeeps(front, ge);
      InsertKeeps(last, Sorted(front, ge), ge);
      assert xs == front + [last];
    }
  }

  lemma {:induction false} SelectIs<T(!new)>(xs: seq<T>, p: T -> bool)
    ensures forall x :: x in Select(xs, p) <==> x in xs && p(x)
  {
    if xs != [] {
      SelectIs(xs[1..], p);
      assert xs == [xs[0]] + xs[1..];
    }
  }

  lemma {:induction false} SelectMore<T(!new)>(xs: seq<T>, x: T, p: T -> bool)
    ensures Select(xs + [x], p) == Select(xs, p) + if p(x) then [x] else []
  {
    if xs != [] {
      assert (xs + [x])[1..] == xs[1..] + [x];
      SelectMore(xs[1..], x, p);
    } else {
      assert [x][1..] == [] && xs + [x] == [x];
    }
  }

  lemma {:induction false} SelectInserted<T(!new)>(x: T, sorted: seq<T>, p: T -> bool, ge: (T, T) -> bool,
        among: iset<T>)
    requires TotalOn(ge, among) && AllIn(sorted, among) && x in among && Descending(sorted, ge)
    ensures Select(Insert(x, sorted, ge), p) == if p(x) then Insert(x, Select(sorted, p), ge) else Select(sorted, p)
  {
    if sorted == [] {
      assert [x][1..] == [];
    } else if ge(sorted[0], x) {
      var head, rest := sorted[0], sorted[1..];
      SelectInserted(x, rest, p, ge, among);
      assert ([head] + Insert(x, rest, ge))[1..] == Insert(x, rest, ge);
      if p(head) {
        assert ([head] + Select(rest, p))[1..] == Select(rest, p);
      }
    } else {
      assert ([x] + sorted)[1..] == sorted;
      SelectIs(sorted, p);
      if Select(sorted, p) != [] {
        var y := Select(sorted, p)[0];
        assert y in Select(sorted, p);
        var j :| 0 <= j < |sorted| && sorted[j] == y;
        assert ge(sorted[0], y);
      }
    }
  }

  /** Sorting and selecting can be done in either order: the sort is stable. */
  lemma {:induction false} SelectSorted<T(!new)>(xs: seq<T>, p: T -> bool, ge: (T, T) -> bool, among: iset<T>)
    requires TotalOn(ge, among) && AllIn(xs, among)
    ensures Select(Sorted(xs, ge), p) == Sorted(Select(xs, p), ge)
  {
    if xs != [] {
      var front, last := xs[..|xs| - 1], xs[|xs| - 1];
      assert xs == front + [last];
      SelectSorted(front, p, ge, among);
      SelectMore(front, last, p);
      SortedIs(front, ge, among);
      SelectInserted(last, Sorted(front, ge), p, ge, among);
      if p(last) {
        assert (Select(front, p) + [last])[..|Select(front, p)|] == Select(front, p);
      } else {
        assert Select(front, p) + [] == Select(front, p);
      }
    }
  }

  lemma {:induction false} SelectSkips<T(!new)>(xs: seq<T>, p: T -> bool, k: nat)
    requires k <= |xs| && forall j :: 0 <= j < k ==> !p(xs[j])
    ensures Select(xs, p) == Select(xs[k..], p)
  {
    if k > 0 {
      SelectSkips(xs[1..], p, k - 1);
      assert xs[1..][k - 1..] == xs[k..];
    } else {
      assert xs[0..] == xs;
    }
  }

  /** The first element `p` holds of, else the first of all. */
  function FirstOf<T>(xs: seq<T>, p: T -> bool): Option<T> {
    if Select(xs, p) != [] then Some(Select(xs, p)[0]) else if xs != [] then Some(xs[0]) else None
  }

  method FirstWith<T(!new)>(xs: seq<T>, p: T -> bool) returns (first: Option<T>)
    ensures first == FirstOf(xs, p)
  {
    for i := 0 to |xs|
      invariant forall j :: 0 <= j < i ==> !p(xs[j])
    {
      if p(xs[i]) {
        SelectSkips(xs, p, i);
        assert Select(xs, p)[0] == xs[i];
        return Some(xs[i]);
      }
    }
    SelectSkips(xs, p, |xs|);
    first := if xs == [] then None else Some(xs[0]);
  }

  /** Of a sorted list that is the best element `p` holds of, else the best of all. */
  lemma FirstOrBest<T(!new)>(xs: seq<T>, p: T -> bool, ge: (T, T) -> bool, among: iset<T>)
    requires TotalOn(ge, among) && AllIn(xs, among)
    ensures FirstOf(Sorted(xs, ge), p) == if Select(xs, p) != [] then Best(Select(xs, p), ge) else Best(xs, ge)
  {
    SelectIs(xs, p);
    forall i | 0 <= i < |Select(xs, p)|
      ensures Select(xs, p)[i] in among
    {
      assert Select(xs, p)[i] in xs;
    }
    SortedIs(xs, ge, among);
    SortedIs(Select(xs, p), ge, among);
    SelectSorted(xs, p, ge, among);
  }

  lemma {:induction false} FirstOfIs<T(!new)>(xs: seq<T>, p: T -> bool)
    ensures FirstOf(xs, p).None? <==> xs == []
    ensures FirstOf(xs, p).Some? ==>
              FirstOf(xs, p).value in xs && ((exists x :: x in xs && p(x)) ==> p(FirstOf(xs, p).value))
  {
    SelectIs(xs, p);
    if Select(xs, p) != [] {
      assert Select(xs, p)[0] in Select(xs, p);
    }
  }
}
