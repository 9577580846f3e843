/**
 * A stable comparison sort, standing for `Array.prototype.sort` with a
 * comparator. The sort is stable (as the language requires since ES2019);
 * for a comparator that is a total preorder on the elements every stable
 * sort yields the same sequence, so this insertion sort is that result.
 * `le(a, b)` holds when the comparator does not put `b` strictly before `a`
 * (`cmp(a, b) <= 0`).
 */
module Sorting {
  import opened Seqs

  /** Every earlier element is `le` every later one. */
  ghost predicate Sorted<T>(s: seq<T>, le: (T, T) -> bool) {
    forall i, j :: 0 <= i < j < |s| ==> le(s[i], s[j])
  }

  /** `le` is total and transitive on the elements of `s`. */
  ghost predicate TotalPreorderOn<T>(s: seq<T>, le: (T, T) -> bool) {
    && (forall a, b {:trigger a in s, b in s} :: a in s && b in s ==> le(a, b) || le(b, a))
    && (forall a, b, c {:trigger a in s, b in s, c in s} ::
          a in s && b in s && c in s && le(a, b) && le(b, c) ==> le(a, c))
  }

  /**
   * Where `x` goes when it is inserted into `r` scanning from the right:
   * after the last element that does not sort strictly after `x`.
   */
  function InsertPos<T>(r: seq<T>, x: T, le: (T, T) -> bool): (k: nat)
    ensures k <= |r|
    ensures forall j :: k <= j < |r| ==> !le(r[j], x)
    ensures 0 < k ==> le(r[k - 1], x)
    decreases |r|
  {
    if r == [] then 0
    else if le(r[|r| - 1], x) then |r|
    else InsertPos(r[..|r| - 1], x, le)
  }

  function Insert<T>(r: seq<T>, x: T, le: (T, T) -> bool): (t: seq<T>)
    ensures |t| == |r| + 1
    ensures multiset(t) == multiset(r) + multiset{x}
  {
    var k := InsertPos(r, x, le);
    assert r == r[..k] + r[k..];
    r[..k] + [x] + r[k..]
  }

  /** The input sorted by `le`, equal elements kept in input order. */
  function InsertionSort<T>(s: seq<T>, le: (T, T) -> bool): (r: seq<T>)
    ensures |r| == |s|
    ensures multiset(r) == multiset(s)
    decreases |s|
  {
    if s == [] then []
    else
      assert s == s[..|s| - 1] + [s[|s| - 1]];
      Insert(InsertionSort(s[..|s| - 1], le), s[|s| - 1], le)
  }

  /** Element `i` of `Insert(r, x, le)`: before the insertion point `r[i]`, then `x`, then `r[i - 1]`. */
  lemma InsertAt<T>(r: seq<T>, x: T, le: (T, T) -> bool, i: nat)
    requires i <= |r|
    ensures Insert(r, x, le)[i] ==
      if i < InsertPos(r, x, le) then r[i] else if i == InsertPos(r, x, le) then x else r[i - 1]
  {
  }

  lemma InsertSorted<T>(r: seq<T>, x: T, le: (T, T) -> bool)
    requires Sorted(r, le)
    requires TotalPreorderOn(r + [x], le)
    ensures Sorted(Insert(r, x, le), le)
  {
    var k := InsertPos(r, x, le);
    var t := Insert(r, x, le);
    forall i, j | 0 <= i < j < |t|
      ensures le(t[i], t[j])
    {
      InsertAt(r, x, le, i);
      InsertAt(r, x, le, j);
      if j < k || i > k {
      } else if j == k {
        assert r[i] in r + [x] && r[k - 1] in r + [x] && x in r + [x];
      } else if i == k {
        assert r[j - 1] in r + [x] && x in r + [x];
      } else {
        assert r[i] in r + [x] && r[j - 1] in r + [x] && x in r + [x];
        assert le(r[i], x) by {
          assert r[k - 1] in r + [x];
        }
      }
    }
  }

  /** Sorting neither adds nor drops an element. */
  lemma InsertionSortMembers<T>(s: seq<T>, le: (T, T) -> bool)
    ensures forall x :: x in InsertionSort(s, le) <==> x in s
  {
    var r := InsertionSort(s, le);
    forall x
      ensures x in r <==> x in s
    {
      assert x in r <==> x in multiset(r);
      assert x in s <==> x in multiset(s);
    }
  }

  /** With a comparator that is a total preorder on the input, the output is sorted. */
  lemma {:induction false} InsertionSortSorted<T>(s: seq<T>, le: (T, T) -> bool)
    requires TotalPreorderOn(s, le)
    ensures Sorted(InsertionSort(s, le), le)
    decreases |s|
  {
    if s != [] {
      var init, x := s[..|s| - 1], s[|s| - 1];
      assert s == init + [x];
      assert forall a :: a in init ==> a in s;
      InsertionSortSorted(init, le);
      var r := InsertionSort(init, le);
      forall a | a in r + [x]
        ensures a in s
      {
        if a in r {
          assert a in multiset(r);
        }
      }
      InsertSorted(r, x, le);
    }
  }

  /** Inserting `x` appends it to the elements of its class `p`, and leaves the other classes alone. */
  lemma InsertFilter<T(!new)>(r: seq<T>, x: T, le: (T, T) -> bool, p: T -> bool)
    requires forall a, b :: p(a) && p(b) ==> le(a, b)
    ensures Filter(Insert(r, x, le), p) == Filter(r, p) + (if p(x) then [x] else [])
  {
    if p(x) {
      RightOfInsertOutsideClass(r, x, le, p);
    }
    InsertFilterRegroup(r, x, le, p);
  }

  lemma InsertFilterRegroup<T(!new)>(r: seq<T>, x: T, le: (T, T) -> bool, p: T -> bool)
    requires p(x) ==> Filter(r[InsertPos(r, x, le)..], p) == []
    ensures Filter(Insert(r, x, le), p) == Filter(r, p) + (if p(x) then [x] else [])
  {
    var k := InsertPos(r, x, le);
    FilterOfInsertAt(r, x, le, p);
    FilterSplit(r, k, p);
    Regroup(Filter(Insert(r, x, le), p), Filter(r, p), Filter(r[..k], p), Filter(r[k..], p), x, p(x));
  }

  lemma Regroup<T>(whole: seq<T>, rest: seq<T>, a: seq<T>, b: seq<T>, x: T, px: bool)
    requires whole == a + (if px then [x] else []) + b
    requires rest == a + b
    requires px ==> b == []
    ensures whole == rest + (if px then [x] else [])
  {
  }

  lemma FilterOfInsertAt<T(!new)>(r: seq<T>, x: T, le: (T, T) -> bool, p: T -> bool)
    ensures Filter(Insert(r, x, le), p) ==
      Filter(r[..InsertPos(r, x, le)], p) + (if p(x) then [x] else []) + Filter(r[InsertPos(r, x, le)..], p)
  {
    var k := InsertPos(r, x, le);
    assert Insert(r, x, le) == r[..k] + [x] + r[k..];
    FilterOfInsert(r[..k], x, r[k..], p);
  }

  lemma FilterOfInsert<T(!new)>(left: seq<T>, x: T, right: seq<T>, p: T -> bool)
    ensures Filter(left + [x] + right, p) == Filter(left, p) + (if p(x) then [x] else []) + Filter(right, p)
  {
    FilterConcat(left + [x], right, p);
    FilterConcat(left, [x], p);
    FilterSingleton(x, p);
  }

  lemma FilterSingleton<T(!new)>(x: T, p: T -> bool)
    ensures Filter([x], p) == if p(x) then [x] else []
  {
    assert [x][..0] == [];
  }

  lemma RightOfInsertOutsideClass<T(!new)>(r: seq<T>, x: T, le: (T, T) -> bool, p: T -> bool)
    requires forall a, b :: p(a) && p(b) ==> le(a, b)
    requires p(x)
    ensures Filter(r[InsertPos(r, x, le)..], p) == []
  {
    var k := InsertPos(r, x, le);
    forall j | 0 <= j < |r| - k
      ensures !p(r[k..][j])
    {
      assert r[k..][j] == r[k + j];
      assert !le(r[k + j], x);
    }
    FilterNone(r[k..], p);
  }

  /**
   * Stability: elements of a class `p` whose members never sort strictly
   * after one another keep their input order.
   */
  lemma {:induction false} InsertionSortStable<T(!new)>(s: seq<T>, le: (T, T) -> bool, p: T -> bool)
    requires forall a, b :: p(a) && p(b) ==> le(a, b)
    ensures Filter(InsertionSort(s, le), p) == Filter(s, p)
    decreases |s|
  {
    if s != [] {
      var init, x := s[..|s| - 1], s[|s| - 1];
      InsertionSortStable(init, le, p);
      InsertFilter(InsertionSort(init, le), x, le, p);
    }
  }

  /**
   * If `le` agrees with an integer key (never `le` against a smaller key,
   * always `le` against a larger one), the output is ordered by that key
   * whatever `le` does between elements of equal key.
   */
  lemma {:induction false} InsertionSortKeyOrdered<T>(s: seq<T>, le: (T, T) -> bool, key: T -> int)
    requires forall a, b :: le(a, b) ==> key(a) <= key(b)
    requires forall a, b :: !le(a, b) ==> key(b) <= key(a)
    ensures forall i, j :: 0 <= i < j < |s| ==> key(InsertionSort(s, le)[i]) <= key(InsertionSort(s, le)[j])
    decreases |s|
  {
    if s != [] {
      var init, x := s[..|s| - 1], s[|s| - 1];
      var r := InsertionSort(init, le);
      InsertionSortKeyOrdered(init, le, key);
      var k := InsertPos(r, x, le);
      var t := InsertionSort(s, le);
      assert t == Insert(r, x, le);
      forall i, j | 0 <= i < j < |t|
        ensures key(t[i]) <= key(t[j])
      {
        InsertAt(r, x, le, i);
        InsertAt(r, x, le, j);
        if j < k || i > k {
        } else if i == k {
          assert !le(r[j - 1], x);
        } else {
          if i < k - 1 {
            assert key(r[i]) <= key(r[k - 1]);
          }
          if j > k {
            assert !le(r[j - 1], x);
          }
        }
      }
    }
  }
}
