/** `filter` and the stable `sort` of JavaScript arrays, over any ordering that is total. */
module Sorting {

  /** `xs.filter(p)`. */
  function Filter<T(!new)>(xs: seq<T>, p: T -> bool): (r: seq<T>)
    ensures forall x :: x in r <==> x in xs && p(x)
    ensures |r| <= |xs|
  {
    if xs == [] then []
    else
      var front, last := xs[..|xs| - 1], xs[|xs| - 1];
      assert xs == front + [last];
      if p(last) then Filter(front, p) + [last] else Filter(front, p)
  }

  lemma FilterAppend<T(!new)>(xs: seq<T>, x: T, p: T -> bool)
    ensures Filter(xs + [x], p) == if p(x) then Filter(xs, p) + [x] else Filter(xs, p)
  {
    assert (xs + [x])[..|xs|] == xs;
  }

  ghost predicate Ordered<T(!new)>(xs: seq<T>, notAfter: (T, T) -> bool) {
    forall i, j :: 0 <= i < j < |xs| ==> notAfter(xs[i], xs[j])
  }

  /** Total, and so reflexive. */
  ghost predicate Total<T(!new)>(notAfter: (T, T) -> bool) { forall x, y :: notAfter(x, y) || notAfter(y, x) }

  ghost predicate Transitive<T(!new)>(notAfter: (T, T) -> bool) {
    forall x, y, z :: notAfter(x, y) && notAfter(y, z) ==> notAfter(x, z)
  }

  /** Places `x` after everything it does not strictly precede. */
  function Insert<T(!new)>(xs: seq<T>, x: T, notAfter: (T, T) -> bool): (r: seq<T>)
    ensures |r| == |xs| + 1
    ensures forall y :: y in r <==> y == x || y in xs
  {
    if xs == [] then [x]
    else
      var front, last := xs[..|xs| - 1], xs[|xs| - 1];
      assert xs == front + [last];
      if notAfter(last, x) then xs + [x] else Insert(front, x, notAfter) + [last]
  }

  /** `xs.sort(compare)`, where `notAfter(x, y)` says that `compare(x, y) <= 0`. */
  function StableSort<T(!new)>(xs: seq<T>, notAfter: (T, T) -> bool): (r: seq<T>)
    ensures |r| == |xs|
    ensures forall y :: y in r <==> y in xs
  {
    if xs == [] then []
    else
      var front, last := xs[..|xs| - 1], xs[|xs| - 1];
      assert xs == front + [last];
      Insert(StableSort(front, notAfter), last, notAfter)
  }

  lemma {:induction false} InsertOrdered<T(!new)>(xs: seq<T>, x: T, notAfter: (T, T) -> bool)
    requires Total(notAfter) && Transitive(notAfter) && Ordered(xs, notAfter)
    ensures Ordered(Insert(xs, x, notAfter), notAfter)
  {
    if xs != [] {
      var front, last := xs[..|xs| - 1], xs[|xs| - 1];
      if notAfter(last, x) {
        forall y | y in xs ensures notAfter(y, x) {
          var i :| 0 <= i < |xs| && xs[i] == y;
          assert i == |xs| - 1 || notAfter(xs[i], xs[|xs| - 1]);
        }
        OrderedAppend(xs, x, notAfter);
      } else {
        InsertOrdered(front, x, notAfter);
        forall y | y in Insert(front, x, notAfter) ensures notAfter(y, last) {
          if y in front {
            var i :| 0 <= i < |front| && front[i] == y;
            assert notAfter(xs[i], xs[|xs| - 1]);
          } else {
            assert notAfter(x, last) || notAfter(last, x);
          }
        }
        OrderedAppend(Insert(front, x, notAfter), last, notAfter);
      }
    }
  }

  lemma OrderedAppend<T(!new)>(xs: seq<T>, x: T, notAfter: (T, T) -> bool)
    requires Ordered(xs, notAfter) && forall y :: y in xs ==> notAfter(y, x)
    ensures Ordered(xs + [x], notAfter)
  {
  }

  lemma {:induction false} SortOrdered<T(!new)>(xs: seq<T>, notAfter: (T, T) -> bool)
    requires Total(notAfter) && Transitive(notAfter)
    ensures Ordered(StableSort(xs, notAfter), notAfter)
  {
    if xs != [] {
      var front, last := xs[..|xs| - 1], xs[|xs| - 1];
      SortOrdered(front, notAfter);
      InsertOrdered(StableSort(front, notAfter), last, notAfter);
    }
  }

  /** Elements that all tie keep their order, and none is lost or repeated. */
  lemma {:induction false} SortStable<T(!new)>(xs: seq<T>, notAfter: (T, T) -> bool, tied: T -> bool)
    requires forall x, y :: tied(x) && tied(y) ==> notAfter(x, y)
    ensures Filter(StableSort(xs, notAfter), tied) == Filter(xs, tied)
  {
    if xs != [] {
      var front, last := xs[..|xs| - 1], xs[|xs| - 1];
      SortStable(front, notAfter, tied);
      InsertStable(StableSort(front, notAfter), last, notAfter, tied);
      FilterAppend(StableSort(front, notAfter), last, tied);
    }
  }

  lemma {:induction false} InsertStable<T(!new)>(xs: seq<T>, x: T, notAfter: (T, T) -> bool, tied: T -> bool)
    requires forall x, y :: tied(x) && tied(y) ==> notAfter(x, y)
    ensures Filter(Insert(xs, x, notAfter), tied) == Filter(xs + [x], tied)
  {
    if xs == [] {
      assert xs + [x] == [x];
    } else if !notAfter(xs[|xs| - 1], x) {
      var front, last := xs[..|xs| - 1], xs[|xs| - 1];
      assert Insert(xs, x, notAfter) == Insert(front, x, notAfter) + [last];
      assert xs == front + [last];
      hide Filter, Insert;
      InsertStable(front, x, notAfter, tied);
      FilterAppend(Insert(front, x, notAfter), last, tied);
      FilterAppend(front, x, tied);
      FilterAppend(front, last, tied);
      FilterAppend(xs, x, tied);
      assert !tied(x) || !tied(last);
    }
  }

  /** A symmetric relation that holds pairwise in a list holds pairwise however it is sorted. */
  lemma {:induction false} SortPairwise<T(!new)>(xs: seq<T>, notAfter: (T, T) -> bool, related: (T, T) -> bool)
    requires forall x, y :: related(x, y) ==> related(y, x)
    requires Ordered(xs, related)
    ensures Ordered(StableSort(xs, notAfter), related)
  {
    if xs != [] {
      var front, last := xs[..|xs| - 1], xs[|xs| - 1];
      SortPairwise(front, notAfter, related);
      forall y | y in StableSort(front, notAfter) ensures related(y, last) {
        var i :| 0 <= i < |front| && front[i] == y;
        assert related(xs[i], xs[|xs| - 1]);
      }
      InsertPairwise(StableSort(front, notAfter), last, notAfter, related);
    }
  }

  lemma {:induction false} InsertPairwise<T(!new)>(xs: seq<T>, x: T, notAfter: (T, T) -> bool, related: (T, T) -> bool)
    requires forall x, y :: related(x, y) ==> related(y, x)
    requires Ordered(xs, related) && forall y :: y in xs ==> related(y, x)
    ensures Ordered(Insert(xs, x, notAfter), related)
  {
    if xs == [] || notAfter(xs[|xs| - 1], x) {
      OrderedAppend(xs, x, related);
    } else {
      var front, last := xs[..|xs| - 1], xs[|xs| - 1];
      InsertPairwise(front, x, notAfter, related);
      forall y | y in Insert(front, x, notAfter) ensures related(y, last) {
        if y in front {
          var i :| 0 <= i < |front| && front[i] == y;
          assert related(xs[i], xs[|xs| - 1]);
        }
      }
      OrderedAppend(Insert(front, x, notAfter), last, related);
    }
  }

  lemma {:induction false} FilterPairwise<T(!new)>(xs: seq<T>, p: T -> bool, related: (T, T) -> bool)
    requires Ordered(xs, related)
    ensures Ordered(Filter(xs, p), related)
  {
    if xs != [] {
      var front, last := xs[..|xs| - 1], xs[|xs| - 1];
      FilterPairwise(front, p, related);
      if p(last) {
        forall y | y in Filter(front, p) ensures related(y, last) {
          var i :| 0 <= i < |front| && front[i] == y;
          assert related(xs[i], xs[|xs| - 1]);
        }
        OrderedAppend(Filter(front, p), last, related);
      }
    }
  }

  /** What is cut off an ordered list comes after all that is kept. */
  lemma CutComesAfter<T(!new)>(xs: seq<T>, n: nat, notAfter: (T, T) -> bool, kept: T, cut: T)
    requires n <= |xs| && Ordered(xs, notAfter)
    requires kept in xs[..n] && cut in xs && cut !in xs[..n]
    ensures notAfter(kept, cut)
  {
    var i :| 0 <= i < n && xs[..n][i] == kept;
    var j :| 0 <= j < |xs| && xs[j] == cut;
    forall k | 0 <= k < n ensures xs[k] != cut { assert xs[..n][k] in xs[..n]; }
    assert notAfter(xs[i], xs[j]);
  }

  // --- what a filter does to a list as a whole --------------------------------

  lemma {:induction false} FilterConcat<T(!new)>(xs: seq<T>, ys: seq<T>, p: T -> bool)
    ensures Filter(xs + ys, p) == Filter(xs, p) + Filter(ys, p)
  {
    hide Filter;
    if ys == [] {
      assert xs + ys == xs;
      FilterNothing(p);
    } else {
      var front, last := ys[..|ys| - 1], ys[|ys| - 1];
      FilterConcat(xs, front, p);
      assert xs + ys == xs + front + [last] && ys == front + [last];
      FilterAppend(xs + front, last, p);
      FilterAppend(front, last, p);
    }
  }

  lemma FilterNothing<T(!new)>(p: T -> bool)
    ensures Filter([], p) == []
  {
  }

  lemma {:induction false} FilterFull<T(!new)>(xs: seq<T>, p: T -> bool)
    ensures |Filter(xs, p)| == |xs| <==> forall i :: 0 <= i < |xs| ==> p(xs[i])
  {
    if xs != [] {
      var front := xs[..|xs| - 1];
      FilterFull(front, p);
      assert forall i :: 0 <= i < |front| ==> front[i] == xs[i];
    }
  }

  lemma {:induction false} FilterEmpty<T(!new)>(xs: seq<T>, p: T -> bool)
    ensures |Filter(xs, p)| == 0 <==> forall i :: 0 <= i < |xs| ==> !p(xs[i])
  {
    if xs != [] {
      var front := xs[..|xs| - 1];
      FilterEmpty(front, p);
      assert forall i :: 0 <= i < |front| ==> front[i] == xs[i];
    }
  }

  // --- lists with some of their elements left out ------------------------------

  /** `xs` is `ys` with some left out. */
  predicate Within<T(==)>(xs: seq<T>, ys: seq<T>)
    decreases |ys|
  {
    xs == []
    || (ys != []
        && ((xs[|xs| - 1] == ys[|ys| - 1] && Within(xs[..|xs| - 1], ys[..|ys| - 1])) || Within(xs, ys[..|ys| - 1])))
  }

  lemma WithinMore<T>(xs: seq<T>, ys: seq<T>, y: T)
    requires Within(xs, ys)
    ensures Within(xs, ys + [y]) && Within(xs + [y], ys + [y])
  {
    assert (ys + [y])[..|ys|] == ys && (xs + [y])[..|xs|] == xs;
  }

  lemma {:induction false} WithinMembers<T>(xs: seq<T>, ys: seq<T>)
    requires Within(xs, ys)
    ensures forall x :: x in xs ==> x in ys
    decreases |ys|
  {
    if xs != [] {
      var front, rest := xs[..|xs| - 1], ys[..|ys| - 1];
      assert xs == front + [xs[|xs| - 1]] && ys == rest + [ys[|ys| - 1]];
      if Within(xs, rest) { WithinMembers(xs, rest); } else { WithinMembers(front, rest); }
    }
  }

  lemma {:induction false} FilterWithin<T(!new)>(xs: seq<T>, ys: seq<T>, p: T -> bool)
    requires Within(xs, ys)
    ensures Within(Filter(xs, p), Filter(ys, p))
    decreases |ys|
  {
    if xs != [] {
      var front, rest, last := xs[..|xs| - 1], ys[..|ys| - 1], ys[|ys| - 1];
      if Within(xs, rest) {
        FilterWithin(xs, rest, p);
        WithinMore(Filter(xs, p), Filter(rest, p), last);
      } else {
        FilterWithin(front, rest, p);
        WithinMore(Filter(front, p), Filter(rest, p), last);
      }
    }
  }

  lemma {:induction false} InsertWithin<T(!new)>(xs: seq<T>, ys: seq<T>, x: T, notAfter: (T, T) -> bool)
    requires Total(notAfter) && Transitive(notAfter) && Ordered(ys, notAfter) && Within(xs, ys)
    ensures Within(Insert(xs, x, notAfter), Insert(ys, x, notAfter))
    decreases |ys|
  {
    if ys != [] {
      var rest, last := ys[..|ys| - 1], ys[|ys| - 1];
      if notAfter(last, x) {
        forall y | y in xs ensures notAfter(y, x) {
          WithinMembers(xs, ys);
          var i :| 0 <= i < |ys| && ys[i] == y;
          assert i == |ys| - 1 || notAfter(ys[i], last);
        }
        assert xs != [] ==> xs[|xs| - 1] in xs;
        WithinMore(xs, ys, x);
        assert xs == [] ==> xs + [x] == [x];
      } else if Within(xs, rest) {
        InsertWithin(xs, rest, x, notAfter);
        WithinMore(Insert(xs, x, notAfter), Insert(rest, x, notAfter), last);
      } else {
        InsertWithin(xs[..|xs| - 1], rest, x, notAfter);
        WithinMore(Insert(xs[..|xs| - 1], x, notAfter), Insert(rest, x, notAfter), last);
      }
    }
  }

  /** Sorting keeps a list within another. */
  lemma {:induction false} SortWithin<T(!new)>(xs: seq<T>, ys: seq<T>, notAfter: (T, T) -> bool)
    requires Total(notAfter) && Transitive(notAfter) && Within(xs, ys)
    ensures Within(StableSort(xs, notAfter), StableSort(ys, notAfter))
    decreases |ys|
  {
    if xs != [] {
      var front, rest, last := xs[..|xs| - 1], ys[..|ys| - 1], ys[|ys| - 1];
      SortOrdered(rest, notAfter);
      if Within(xs, rest) {
        SortWithin(xs, rest, notAfter);
        WithinInserted(StableSort(xs, notAfter), StableSort(rest, notAfter), last, notAfter);
      } else {
        SortWithin(front, rest, notAfter);
        InsertWithin(StableSort(front, notAfter), StableSort(rest, notAfter), last, notAfter);
      }
    }
  }

  lemma {:induction false} WithinInserted<T(!new)>(xs: seq<T>, ys: seq<T>, x: T, notAfter: (T, T) -> bool)
    requires Within(xs, ys)
    ensures Within(xs, Insert(ys, x, notAfter))
    decreases |ys|
  {
    if ys != [] {
      var rest, last := ys[..|ys| - 1], ys[|ys| - 1];
      if notAfter(last, x) {
        WithinMore(xs, ys, x);
      } else if Within(xs, rest) {
        WithinInserted(xs, rest, x, notAfter);
        WithinMore(xs, Insert(rest, x, notAfter), last);
      } else {
        WithinInserted(xs[..|xs| - 1], rest, x, notAfter);
        WithinMore(xs[..|xs| - 1], Insert(rest, x, notAfter), last);
        assert xs == xs[..|xs| - 1] + [last];
      }
    }
  }

  /** An element of the smaller list stands in the larger one, with what came before it within what comes before it there. */
  lemma {:induction false} WithinAt<T>(xs: seq<T>, ys: seq<T>, i: nat) returns (j: nat)
    requires Within(xs, ys) && i < |xs|
    ensures j < |ys| && ys[j] == xs[i] && Within(xs[..i], ys[..j])
    decreases |ys|
  {
    var front, rest := xs[..|xs| - 1], ys[..|ys| - 1];
    if Within(xs, rest) {
      j := WithinAt(xs, rest, i);
      assert rest[..j] == ys[..j];
    } else if i == |xs| - 1 {
      j := |ys| - 1;
    } else {
      j := WithinAt(front, rest, i);
      assert rest[..j] == ys[..j] && front[..i] == xs[..i];
    }
  }
}
