/** The stable sort the engine calls on its match list and on its table rows
    (JavaScript's `Array.prototype.sort`, stable since ES2019), modelled as an
    insertion sort driven by a "strictly before" relation: the comparator
    returning a negative number. */
module Sorting {
  import opened LeagueModel

  /** `before` is a strict weak order: asymmetric, and "not before" is transitive.
      Every comparator built from integer keys and a consistent collation is one. */
  ghost predicate StrictWeakOrder<T(!new)>(before: (T, T) -> bool) {
    && (forall a, b :: before(a, b) ==> !before(b, a))
    && (forall a, b, c :: !before(a, b) && !before(b, c) ==> !before(a, c))
  }

  /** Neither element goes before the other: the comparator returns 0. */
  predicate Tied<T>(before: (T, T) -> bool, a: T, b: T) {
    !before(a, b) && !before(b, a)
  }

  /** No later element goes strictly before an earlier one. */
  ghost predicate Sorted<T>(s: seq<T>, before: (T, T) -> bool) {
    forall i, j :: 0 <= i < j < |s| ==> !before(s[j], s[i])
  }

  /** Places `x` after every element of `s` that it does not strictly precede. */
  function Insert<T>(x: T, s: seq<T>, before: (T, T) -> bool): seq<T> {
    if s == [] then [x]
    else if before(x, s[0]) then [x] + s
    else [s[0]] + Insert(x, s[1..], before)
  }

  /** Sorts by inserting each element, in input order, into the sorted prefix. */
  function StableSort<T>(s: seq<T>, before: (T, T) -> bool): seq<T> {
    if s == [] then [] else Insert(s[|s| - 1], StableSort(s[..|s| - 1], before), before)
  }

  /** The elements of `s` tied with `x`, in their order in `s`. */
  function TiedWith<T>(s: seq<T>, x: T, before: (T, T) -> bool): seq<T> {
    if s == [] then []
    else TiedWith(s[..|s| - 1], x, before) + (if Tied(before, x, s[|s| - 1]) then [s[|s| - 1]] else [])
  }

  /** Sum of `f` over a sequence. */
  function Total<T>(s: seq<T>, f: T -> int): int {
    if s == [] then 0 else Total(s[..|s| - 1], f) + f(s[|s| - 1])
  }

  // ---------------------------------------------------------------------------
  // Insert

  lemma {:induction false} InsertSplit<T>(x: T, s: seq<T>, before: (T, T) -> bool) returns (j: nat)
    ensures j <= |s| && Insert(x, s, before) == s[..j] + [x] + s[j..]
    ensures forall k :: 0 <= k < j ==> !before(x, s[k])
    ensures j < |s| ==> before(x, s[j])
  {
    if s == [] {
      j := 0;
    } else if before(x, s[0]) {
      j := 0;
    } else {
      var j' := InsertSplit(x, s[1..], before);
      j := j' + 1;
      assert s[1..][..j'] == s[1..j];
      assert s[1..][j'..] == s[j..];
      assert [s[0]] + s[1..j] == s[..j];
    }
  }

  lemma InsertPermutes<T>(x: T, s: seq<T>, before: (T, T) -> bool)
    ensures multiset(Insert(x, s, before)) == multiset(s) + multiset{x}
    ensures |Insert(x, s, before)| == |s| + 1
  {
    var j := InsertSplit(x, s, before);
    assert s == s[..j] + s[j..];
  }

  lemma {:induction false} InsertSorted<T(!new)>(x: T, s: seq<T>, before: (T, T) -> bool)
    requires StrictWeakOrder(before)
    requires Sorted(s, before)
    ensures Sorted(Insert(x, s, before), before)
  {
    var j := InsertSplit(x, s, before);
    var r := Insert(x, s, before);
    forall a, b | 0 <= a < b < |r| ensures !before(r[b], r[a]) {
      if a < j && b == j {
        assert r[a] == s[a] && r[b] == x;
        assert !before(x, s[a]);
        if before(x, s[a]) {}
        assert !before(r[b], r[a]);
      } else if a == j && b > j {
        assert r[a] == x && r[b] == s[b - 1];
        assert before(x, s[j]);
        assert !before(s[b - 1], s[j]) || b - 1 == j;
        if b - 1 == j {
        } else {
          assert !before(s[b - 1], s[j]);
        }
      } else if b < j {
        assert r[a] == s[a] && r[b] == s[b];
      } else if a > j {
        assert r[a] == s[a - 1] && r[b] == s[b - 1];
      } else {
        assert a < j < b;
        assert r[a] == s[a] && r[b] == s[b - 1];
      }
    }
  }

  lemma {:induction false} InsertTotal<T>(x: T, s: seq<T>, before: (T, T) -> bool, f: T -> int)
    ensures Total(Insert(x, s, before), f) == Total(s, f) + f(x)
  {
    var j := InsertSplit(x, s, before);
    TotalAppend(s[..j] + [x], s[j..], f);
    TotalAppend(s[..j], [x], f);
    TotalAppend(s[..j], s[j..], f);
    assert s == s[..j] + s[j..];
    assert Total([x], f) == Total([], f) + f(x);
  }

  lemma {:induction false} TotalAppend<T>(a: seq<T>, b: seq<T>, f: T -> int)
    ensures Total(a + b, f) == Total(a, f) + Total(b, f)
  {
    if b == [] {
      assert a + b == a;
    } else {
      TotalAppend(a, b[..|b| - 1], f);
      assert (a + b)[..|a + b| - 1] == a + b[..|b| - 1];
    }
  }

  // ---------------------------------------------------------------------------
  // StableSort

  /** The output is a permutation of the input. */
  lemma {:induction false} SortPermutes<T>(s: seq<T>, before: (T, T) -> bool)
    ensures multiset(StableSort(s, before)) == multiset(s)
    ensures |StableSort(s, before)| == |s|
  {
    if s != [] {
      var p := s[..|s| - 1];
      SortPermutes(p, before);
      InsertPermutes(s[|s| - 1], StableSort(p, before), before);
      assert s == p + [s[|s| - 1]];
    }
  }

  /** Every element of the output comes from the input and vice versa. */
  lemma SortMembers<T>(s: seq<T>, before: (T, T) -> bool)
    ensures |StableSort(s, before)| == |s|
    ensures forall y :: y in StableSort(s, before) <==> y in s
  {
    SortPermutes(s, before);
    forall y ensures y in StableSort(s, before) <==> y in s {
      assert y in StableSort(s, before) <==> y in multiset(StableSort(s, before));
      assert y in s <==> y in multiset(s);
    }
  }

  /** The output is ordered by the comparator. */
  lemma {:induction false} SortSorted<T(!new)>(s: seq<T>, before: (T, T) -> bool)
    requires StrictWeakOrder(before)
    ensures Sorted(StableSort(s, before), before)
  {
    if s != [] {
      SortSorted(s[..|s| - 1], before);
      InsertSorted(s[|s| - 1], StableSort(s[..|s| - 1], before), before);
    }
  }

  /** Sums are unchanged by sorting. */
  lemma {:induction false} SortTotal<T>(s: seq<T>, before: (T, T) -> bool, f: T -> int)
    ensures Total(StableSort(s, before), f) == Total(s, f)
  {
    if s != [] {
      var p := s[..|s| - 1];
      SortTotal(p, before, f);
      InsertTotal(s[|s| - 1], StableSort(p, before), before, f);
    }
  }

  // ---------------------------------------------------------------------------
  // Stability

  lemma {:induction false} TiedWithAppend<T>(a: seq<T>, b: seq<T>, x: T, before: (T, T) -> bool)
    ensures TiedWith(a + b, x, before) == TiedWith(a, x, before) + TiedWith(b, x, before)
  {
    if b == [] {
      assert a + b == a;
    } else {
      TiedWithAppend(a, b[..|b| - 1], x, before);
      assert (a + b)[..|a + b| - 1] == a + b[..|b| - 1];
    }
  }

  lemma TiedWithSingle<T>(y: T, x: T, before: (T, T) -> bool)
    ensures TiedWith([y], x, before) == if Tied(before, x, y) then [y] else []
  {
    assert [y][..0] == [];
  }

  lemma {:induction false} TiedWithNone<T>(s: seq<T>, x: T, before: (T, T) -> bool)
    requires forall k :: 0 <= k < |s| ==> !Tied(before, x, s[k])
    ensures TiedWith(s, x, before) == []
  {
    if s != [] {
      TiedWithNone(s[..|s| - 1], x, before);
    }
  }

  /** Whatever does not go before an element that `x`'s tie `y` precedes is not
      tied with `x`. */
  lemma NotTiedPast<T(!new)>(before: (T, T) -> bool, x: T, y: T, w: T, z: T)
    requires StrictWeakOrder(before)
    requires Tied(before, x, y) && before(y, w) && !before(z, w)
    ensures !Tied(before, x, z)
  {
    assert !before(x, z) ==> !before(y, z);
  }

  /** Inserting `y` into a sorted sequence adds it at the end of the elements tied with `x`
      if `y` is tied with `x`, and changes nothing among them otherwise. */
  lemma {:induction false} InsertTiedWith<T(!new)>(y: T, s: seq<T>, x: T, before: (T, T) -> bool)
    requires StrictWeakOrder(before)
    requires Sorted(s, before)
    ensures TiedWith(Insert(y, s, before), x, before)
         == TiedWith(s, x, before) + (if Tied(before, x, y) then [y] else [])
  {
    var j := InsertSplit(y, s, before);
    TiedWithAppend(s[..j] + [y], s[j..], x, before);
    TiedWithAppend(s[..j], [y], x, before);
    TiedWithSingle(y, x, before);
    TiedWithAppend(s[..j], s[j..], x, before);
    assert s == s[..j] + s[j..];
    if Tied(before, x, y) {
      forall k | 0 <= k < |s[j..]| ensures !Tied(before, x, s[j..][k]) {
        assert s[j..][k] == s[j + k];
        NotTiedPast(before, x, y, s[j], s[j + k]);
      }
      TiedWithNone(s[j..], x, before);
    }
  }

  /** Stability: the elements tied with any `x` keep their input order. */
  lemma {:induction false} SortStable<T(!new)>(s: seq<T>, x: T, before: (T, T) -> bool)
    requires StrictWeakOrder(before)
    ensures TiedWith(StableSort(s, before), x, before) == TiedWith(s, x, before)
  {
    if s != [] {
      var p := s[..|s| - 1];
      SortStable(p, x, before);
      SortSorted(p, before);
      InsertTiedWith(s[|s| - 1], StableSort(p, before), x, before);
    }
  }

  /** Sorting a sequence without repeats gives one without repeats. */
  lemma {:induction false} SortDistinct<T>(s: seq<T>, before: (T, T) -> bool)
    requires Distinct(s)
    ensures Distinct(StableSort(s, before))
  {
    if s != [] {
      var p, x := s[..|s| - 1], s[|s| - 1];
      SortDistinct(p, before);
      SortMembers(p, before);
      var sp := StableSort(p, before);
      assert x !in sp;
      var j := InsertSplit(x, sp, before);
      var r := Insert(x, sp, before);
      forall a, b | 0 <= a < b < |r| ensures r[a] != r[b] {
        if a == j {
          assert r[b] == sp[b - 1];
        } else if b == j {
          assert r[a] == sp[a];
        } else {
          assert r[a] == (if a < j then sp[a] else sp[a - 1]);
          assert r[b] == (if b < j then sp[b] else sp[b - 1]);
        }
      }
    }
  }
}
