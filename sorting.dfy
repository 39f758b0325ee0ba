/**
 * `Array.prototype.sort` with a comparator. ECMAScript 2019 and later
 * require the sort to be stable, so the result is fully determined: it is
 * ordered by the comparator and keeps equally ranked elements in their input
 * order. Stable insertion sort is the reference definition; `le(a, b)` holds
 * when the comparator lets `a` stay before `b` (`compare(a, b) <= 0`).
 */
module Sorting {
  import opened Seqs

  /** Any two elements compare, and comparisons chain. */
  ghost predicate TotalPreorder<T(!new)>(le: (T, T) -> bool) {
    && (forall x, y :: le(x, y) || le(y, x))
    && (forall x, y, z :: le(x, y) && le(y, z) ==> le(x, z))
  }

  ghost predicate Sorted<T>(s: seq<T>, le: (T, T) -> bool) {
    forall i, j :: 0 <= i < j < |s| ==> le(s[i], s[j])
  }

  /** Puts `x` after every element of `s` that may precede it, scanning from the back. */
  function Insert<T>(s: seq<T>, x: T, le: (T, T) -> bool): seq<T>
    decreases |s|
  {
    if |s| == 0 || le(s[|s| - 1], x) then s + [x]
    else Insert(s[..|s| - 1], x, le) + [s[|s| - 1]]
  }

  /** The stable sort of `s` under `le`. */
  function InsertionSort<T>(s: seq<T>, le: (T, T) -> bool): seq<T>
    decreases |s|
  {
    if |s| == 0 then []
    else Insert(InsertionSort(s[..|s| - 1], le), s[|s| - 1], le)
  }

  lemma {:induction false} InsertPermutes<T>(s: seq<T>, x: T, le: (T, T) -> bool)
    ensures multiset(Insert(s, x, le)) == multiset(s) + multiset{x}
    decreases |s|
  {
    if |s| > 0 && !le(s[|s| - 1], x) {
      InsertPermutes(s[..|s| - 1], x, le);
      assert s == s[..|s| - 1] + [s[|s| - 1]];
    }
  }

  /** The sort only reorders: the result is a permutation of the input. */
  lemma {:induction false} SortPermutes<T>(s: seq<T>, le: (T, T) -> bool)
    ensures multiset(InsertionSort(s, le)) == multiset(s)
    decreases |s|
  {
    if |s| > 0 {
      SortPermutes(s[..|s| - 1], le);
      InsertPermutes(InsertionSort(s[..|s| - 1], le), s[|s| - 1], le);
      assert s == s[..|s| - 1] + [s[|s| - 1]];
    }
  }

  /** Every element of the sorted sequence sits at some index of the input. */
  lemma SortOrigin<T>(s: seq<T>, le: (T, T) -> bool, i: nat) returns (k: nat)
    requires i < |InsertionSort(s, le)|
    ensures k < |s| && s[k] == InsertionSort(s, le)[i]
  {
    var sorted := InsertionSort(s, le);
    SortPermutes(s, le);
    assert sorted[i] in multiset(s);
    k :| 0 <= k < |s| && s[k] == sorted[i];
  }

  lemma {:induction false} InsertKeepsSorted<T(!new)>(s: seq<T>, x: T, le: (T, T) -> bool)
    requires TotalPreorder(le) && Sorted(s, le)
    ensures Sorted(Insert(s, x, le), le)
    decreases |s|
  {
    var r := Insert(s, x, le);
    if |s| == 0 || le(s[|s| - 1], x) {
      forall i, j | 0 <= i < j < |r| ensures le(r[i], r[j]) {
        if j == |s| && i < |s| - 1 {
          assert le(s[i], s[|s| - 1]);
        }
      }
    } else {
      var init, last := s[..|s| - 1], s[|s| - 1];
      InsertKeepsSorted(init, x, le);
      var m := Insert(init, x, le);
      InsertPermutes(init, x, le);
      assert le(x, last);
      forall i | 0 <= i < |m| ensures le(m[i], last) {
        assert m[i] in multiset(m);
        if m[i] != x {
          assert m[i] in multiset(init);
          var k :| 0 <= k < |init| && init[k] == m[i];
          assert le(s[k], s[|s| - 1]);
        }
      }
    }
  }

  /** The sort's result is ordered by `le`. */
  lemma {:induction false} SortSorts<T(!new)>(s: seq<T>, le: (T, T) -> bool)
    requires TotalPreorder(le)
    ensures Sorted(InsertionSort(s, le), le)
    decreases |s|
  {
    if |s| > 0 {
      SortSorts(s[..|s| - 1], le);
      InsertKeepsSorted(InsertionSort(s[..|s| - 1], le), s[|s| - 1], le);
    }
  }

  /** The elements ranked equally with `y`. */
  function RankedWith<T>(y: T, le: (T, T) -> bool): T -> bool {
    z => le(z, y) && le(y, z)
  }

  lemma {:induction false} InsertStable<T(!new)>(s: seq<T>, x: T, y: T, le: (T, T) -> bool)
    requires TotalPreorder(le)
    ensures Filter(Insert(s, x, le), RankedWith(y, le)) == Filter(s, RankedWith(y, le)) + Filter([x], RankedWith(y, le))
    decreases |s|
  {
    var p := RankedWith(y, le);
    if |s| == 0 || le(s[|s| - 1], x) {
      FilterAppend(s, [x], p);
    } else {
      var init, last := s[..|s| - 1], s[|s| - 1];
      var m := Insert(init, x, le);
      assert le(last, y) && le(y, x) ==> le(last, x);
      calc {
        Filter(Insert(s, x, le), p);
        Filter(m + [last], p);
        { FilterAppend(m, [last], p); }
        Filter(m, p) + Filter([last], p);
        { InsertStable(init, x, y, le); }
        Filter(init, p) + Filter([x], p) + Filter([last], p);
        { FilterSwap(Filter(init, p), x, last, p); }
        Filter(init, p) + Filter([last], p) + Filter([x], p);
        { FilterAppend(init, [last], p); assert s == init + [last]; }
        Filter(s, p) + Filter([x], p);
      }
    }
  }

  /** Two elements of which at most one is kept can trade places without changing what is kept. */
  lemma FilterSwap<T>(kept: seq<T>, x: T, z: T, p: T -> bool)
    requires !(p(x) && p(z))
    ensures kept + Filter([x], p) + Filter([z], p) == kept + Filter([z], p) + Filter([x], p)
  {
    FilterSingleton(x, p);
    FilterSingleton(z, p);
  }

  /** The sort is stable: equally ranked elements keep their input order. */
  lemma {:induction false} SortStable<T(!new)>(s: seq<T>, y: T, le: (T, T) -> bool)
    requires TotalPreorder(le)
    ensures Filter(InsertionSort(s, le), RankedWith(y, le)) == Filter(s, RankedWith(y, le))
    decreases |s|
  {
    if |s| > 0 {
      var init, last := s[..|s| - 1], s[|s| - 1];
      var p := RankedWith(y, le);
      calc {
        Filter(InsertionSort(s, le), p);
        Filter(Insert(InsertionSort(init, le), last, le), p);
        { InsertStable(InsertionSort(init, le), last, y, le); }
        Filter(InsertionSort(init, le), p) + Filter([last], p);
        { SortStable(init, y, le); }
        Filter(init, p) + Filter([last], p);
        { FilterAppend(init, [last], p); assert s == init + [last]; }
        Filter(s, p);
      }
    }
  }

  /** Elements that rank equally are equal. */
  ghost predicate Antisymmetric<T(!new)>(le: (T, T) -> bool) {
    forall x, y :: le(x, y) && le(y, x) ==> x == y
  }

  /** The first element of a sorted sequence may precede any of its elements. */
  lemma FirstIsLeast<T(!new)>(s: seq<T>, x: T, le: (T, T) -> bool)
    requires TotalPreorder(le) && Sorted(s, le) && x in multiset(s)
    ensures le(s[0], x)
  {
    var i :| 0 <= i < |s| && s[i] == x;
    if i > 0 {
      assert le(s[0], s[i]);
    } else {
      assert le(x, x) || le(x, x);
    }
  }

  lemma MultisetTails<T>(s: seq<T>, t: seq<T>)
    requires |s| > 0 && |t| > 0 && s[0] == t[0] && multiset(s) == multiset(t)
    ensures multiset(s[1..]) == multiset(t[1..])
  {
    assert s == [s[0]] + s[1..];
    assert t == [t[0]] + t[1..];
    assert multiset(s) == multiset{s[0]} + multiset(s[1..]);
    assert multiset(t) == multiset{s[0]} + multiset(t[1..]);
    assert multiset(s[1..]) == multiset(s) - multiset{s[0]};
  }

  /** Under an antisymmetric order there is only one sorted arrangement of a multiset. */
  lemma {:induction false} SortedUnique<T(!new)>(s: seq<T>, t: seq<T>, le: (T, T) -> bool)
    requires TotalPreorder(le) && Antisymmetric(le)
    requires Sorted(s, le) && Sorted(t, le) && multiset(s) == multiset(t)
    ensures s == t
    decreases |s|
  {
    assert |s| == |multiset(s)| == |multiset(t)| == |t|;
    if |s| > 0 {
      assert t[0] in multiset(t) && s[0] in multiset(s);
      FirstIsLeast(s, t[0], le);
      FirstIsLeast(t, s[0], le);
      assert s[0] == t[0];
      MultisetTails(s, t);
      SortedUnique(s[1..], t[1..], le);
    }
  }

  /** Under an antisymmetric order the sort's result depends only on which elements there are, not on their input order. */
  lemma SortCanonical<T(!new)>(s: seq<T>, t: seq<T>, le: (T, T) -> bool)
    requires TotalPreorder(le) && Antisymmetric(le) && multiset(s) == multiset(t)
    ensures InsertionSort(s, le) == InsertionSort(t, le)
  {
    SortSorts(s, le);
    SortSorts(t, le);
    SortPermutes(s, le);
    SortPermutes(t, le);
    SortedUnique(InsertionSort(s, le), InsertionSort(t, le), le);
  }

  /** Sorts `a` in place; the result is the stable sort of its old contents. */
  method SortInPlace<T>(a: array<T>, le: (T, T) -> bool)
    modifies a
    ensures a[..] == InsertionSort(old(a[..]), le)
  {
    ghost var input := a[..];
    var i := 0;
    while i < a.Length
      invariant 0 <= i <= a.Length
      invariant a[..i] == InsertionSort(input[..i], le)
      invariant a[i..] == input[i..]
    {
      assert a[i] == input[i] && a[i + 1..] == input[i + 1..] by {
        assert a[i] == a[i..][0] && a[i + 1..] == a[i..][1..];
      }
      InsertLast(a, i, le);
      SortPrefixSnoc(input, i, le);
      i := i + 1;
    }
    assert input[..a.Length] == input;
  }

  lemma SortPrefixSnoc<T>(s: seq<T>, i: nat, le: (T, T) -> bool)
    requires i < |s|
    ensures InsertionSort(s[..i + 1], le) == Insert(InsertionSort(s[..i], le), s[i], le)
  {
    assert s[..i + 1][..i] == s[..i];
  }

  /** Moves `a[i]` back into the already sorted `a[..i]`, shifting larger elements up by one. */
  method InsertLast<T>(a: array<T>, i: nat, le: (T, T) -> bool)
    requires i < a.Length
    modifies a
    ensures a[..i + 1] == Insert(old(a[..i]), old(a[i]), le)
    ensures a[i + 1..] == old(a[i + 1..])
  {
    var x := a[i];
    ghost var sorted, rest := a[..i], a[i + 1..];
    var j := i;
    ghost var hole := x;
    assert sorted[..j] == sorted && sorted[j..] == [];
    assert a[..] == sorted[..j] + [hole] + sorted[j..] + rest by {
      assert a[..] == a[..i] + [a[i]] + a[i + 1..];
    }
    while j > 0 && !le(a[j - 1], x)
      invariant 0 <= j <= i
      invariant a[..] == sorted[..j] + [hole] + sorted[j..] + rest
      invariant forall k :: j <= k < i ==> !le(sorted[k], x)
    {
      assert a[j - 1] == sorted[j - 1] by {
        assert a[j - 1] == a[..][j - 1];
      }
      ShiftUp(sorted[..j - 1], sorted[j - 1], hole, sorted[j..], rest);
      assert sorted[..j] == sorted[..j - 1] + [sorted[j - 1]] && sorted[j - 1..] == [sorted[j - 1]] + sorted[j..];
      a[j] := a[j - 1];
      hole := sorted[j - 1];
      j := j - 1;
    }
    assert j == 0 || le(sorted[j - 1], x) by {
      if j > 0 {
        assert a[j - 1] == a[..][j - 1];
      }
    }
    InsertAt(sorted, j, x, le);
    Fill(sorted[..j], hole, x, sorted[j..], rest);
    a[j] := x;
    SplitAt(sorted[..j] + [x] + sorted[j..], rest);
  }

  /** `x` goes right after the last element that may precede it, and before all the larger ones that follow. */
  lemma {:induction false} InsertAt<T>(sorted: seq<T>, j: nat, x: T, le: (T, T) -> bool)
    requires j <= |sorted| && (j == 0 || le(sorted[j - 1], x))
    requires forall k :: j <= k < |sorted| ==> !le(sorted[k], x)
    ensures Insert(sorted, x, le) == sorted[..j] + [x] + sorted[j..]
    decreases |sorted|
  {
    var n := |sorted|;
    if j == n {
      assert sorted[..j] == sorted && sorted[j..] == [];
    } else {
      var init := sorted[..n - 1];
      assert !le(sorted[n - 1], x);
      InsertAt(init, j, x, le);
      assert init[..j] == sorted[..j];
      assert init[j..] + [sorted[n - 1]] == sorted[j..];
    }
  }

  /** Copying the element before the hole into it moves the hole down by one. */
  lemma ShiftUp<T>(p: seq<T>, v: T, hole: T, q: seq<T>, rest: seq<T>)
    ensures (p + [v] + [hole] + q + rest)[|p| + 1 := v] == p + [v] + ([v] + q) + rest
  {
  }

  /** Writing into the hole. */
  lemma Fill<T>(p: seq<T>, hole: T, x: T, q: seq<T>, rest: seq<T>)
    ensures (p + [hole] + q + rest)[|p| := x] == p + [x] + q + rest
  {
  }

  lemma SplitAt<T>(p: seq<T>, rest: seq<T>)
    ensures (p + rest)[..|p|] == p && (p + rest)[|p|..] == rest
  {
  }
}
