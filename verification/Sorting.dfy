// The stable sort that Python's `sort` and `sorted` promise, and what it determines.

module Sorting {
  import opened Sequences

  ghost predicate SortedBy<T>(xs: seq<T>, key: T -> real)
  {
    forall i, j :: 0 <= i <= j < |xs| ==> key(xs[i]) <= key(xs[j])
  }

  /** Insert `x` behind everything whose key is not larger. */
  function Insert<T>(xs: seq<T>, x: T, key: T -> real): seq<T>
  {
    if xs == [] || key(xs[|xs| - 1]) <= key(x) then xs + [x]
    else Insert(xs[..|xs| - 1], x, key) + [xs[|xs| - 1]]
  }

  function Sort<T>(xs: seq<T>, key: T -> real): seq<T>
  {
    if xs == [] then [] else Insert(Sort(xs[..|xs| - 1], key), xs[|xs| - 1], key)
  }

  // ---------------------------------------------------- a sorted permutation

  lemma {:induction false} SplitLast<T>(xs: seq<T>)
    requires xs != []
    ensures multiset(xs) == multiset(xs[..|xs| - 1]) + multiset{xs[|xs| - 1]}
  {
    assert xs == xs[..|xs| - 1] + [xs[|xs| - 1]];
  }

  lemma {:induction false} InsertPermutes<T>(xs: seq<T>, x: T, key: T -> real)
    ensures multiset(Insert(xs, x, key)) == multiset(xs) + multiset{x}
  {
    if xs != [] && key(xs[|xs| - 1]) > key(x) {
      InsertPermutes(xs[..|xs| - 1], x, key);
      SplitLast(xs);
    }
  }

  lemma {:induction false} SortPermutes<T>(xs: seq<T>, key: T -> real)
    ensures multiset(Sort(xs, key)) == multiset(xs)
    ensures |Sort(xs, key)| == |xs|
  {
    if xs != [] {
      var rest := xs[..|xs| - 1];
      SortPermutes(rest, key);
      InsertPermutes(Sort(rest, key), xs[|xs| - 1], key);
      SplitLast(xs);
    }
    assert |multiset(Sort(xs, key))| == |multiset(xs)|;
  }

  lemma {:induction false} InsertSorts<T>(xs: seq<T>, x: T, key: T -> real)
    requires SortedBy(xs, key)
    ensures SortedBy(Insert(xs, x, key), key)
  {
    if xs != [] && key(xs[|xs| - 1]) > key(x) {
      var rest, last := xs[..|xs| - 1], xs[|xs| - 1];
      InsertSorts(rest, x, key);
      InsertPermutes(rest, x, key);
      var inserted := Insert(rest, x, key);
      forall i | 0 <= i < |inserted|
        ensures key(inserted[i]) <= key(last)
      {
        assert inserted[i] in multiset(inserted);
        assert inserted[i] == x || inserted[i] in rest;
      }
    }
  }

  lemma {:induction false} SortSorts<T>(xs: seq<T>, key: T -> real)
    ensures SortedBy(Sort(xs, key), key)
  {
    if xs != [] {
      SortSorts(xs[..|xs| - 1], key);
      InsertSorts(Sort(xs[..|xs| - 1], key), xs[|xs| - 1], key);
    }
  }

  // ---------------------------------------------------------------- stability

  function HasKey<T>(key: T -> real, t: real): T -> Option<T>
  {
    (x: T) => if key(x) == t then Some(x) else None
  }

  lemma {:induction false} InsertStable<T>(xs: seq<T>, x: T, key: T -> real, t: real)
    ensures Keep(Insert(xs, x, key), HasKey(key, t)) == Keep(xs + [x], HasKey(key, t))
  {
    var f := HasKey(key, t);
    if xs != [] && key(xs[|xs| - 1]) > key(x) {
      var rest, last := xs[..|xs| - 1], xs[|xs| - 1];
      InsertStable(rest, x, key, t);
      KeepPush(Insert(rest, x, key), last, f);
      KeepPush(rest, x, f);
      KeepPush(xs, x, f);
    }
  }

  /** Elements that compare equal keep their order. */
  lemma {:induction false} SortStable<T>(xs: seq<T>, key: T -> real, t: real)
    ensures Keep(Sort(xs, key), HasKey(key, t)) == Keep(xs, HasKey(key, t))
  {
    if xs != [] {
      var rest, last := xs[..|xs| - 1], xs[|xs| - 1];
      SortStable(rest, key, t);
      InsertStable(Sort(rest, key), last, key, t);
      KeepPush(Sort(rest, key), last, HasKey(key, t));
    }
  }

  // ---------------------------------------------------- sorting and selecting

  /** A selection that reads off values with the same sort key. */
  ghost predicate KeepsKey<T(!new), U>(f: T -> Option<U>, key: T -> real, key': U -> real)
  {
    forall x :: f(x).Some? ==> key'(f(x).value) == key(x)
  }

  lemma {:induction false} InsertThenKeep<T(!new), U>(
    xs: seq<T>, x: T, f: T -> Option<U>, key: T -> real, key': U -> real)
    requires SortedBy(xs, key) && KeepsKey(f, key, key')
    ensures Keep(Insert(xs, x, key), f) == if f(x).Some? then Insert(Keep(xs, f), f(x).value, key') else Keep(xs, f)
  {
    if xs != [] && key(xs[|xs| - 1]) > key(x) {
      var rest, last := xs[..|xs| - 1], xs[|xs| - 1];
      InsertThenKeep(rest, x, f, key, key');
      KeepPush(Insert(rest, x, key), last, f);
    } else {
      KeepPush(xs, x, f);
      if f(x).Some? && Keep(xs, f) != [] {
        var i := Origin(xs, f, |Keep(xs, f)| - 1);
        assert key(xs[i]) <= key(xs[|xs| - 1]);
      }
    }
  }

  /** Sorting everything and selecting is selecting and then sorting. */
  lemma {:induction false} SortThenKeep<T(!new), U>(xs: seq<T>, f: T -> Option<U>, key: T -> real, key': U -> real)
    requires KeepsKey(f, key, key')
    ensures Keep(Sort(xs, key), f) == Sort(Keep(xs, f), key')
  {
    if xs != [] {
      var rest, last := xs[..|xs| - 1], xs[|xs| - 1];
      SortThenKeep(rest, f, key, key');
      SortSorts(rest, key);
      InsertThenKeep(Sort(rest, key), last, f, key, key');
    }
  }

  ghost predicate SameTies<T>(xs: seq<T>, ys: seq<T>, key: T -> real)
  {
    forall t: real :: Keep(xs, HasKey(key, t)) == Keep(ys, HasKey(key, t))
  }

  /** The last element of a sorted sequence, seen from any other sequence with the same ties. */
  lemma {:induction false} TiesReachLast<T>(xs: seq<T>, ys: seq<T>, key: T -> real)
    requires SameTies(xs, ys, key) && SortedBy(ys, key) && xs != []
    ensures ys != [] && key(xs[|xs| - 1]) <= key(ys[|ys| - 1])
  {
    var t := key(xs[|xs| - 1]);
    var f := HasKey(key, t);
    assert Keep(xs, f) != [];
    assert Keep(ys, f) != [];
    var i := Origin(ys, f, 0);
    assert key(ys[i]) == t;
  }

  /** Sorted sequences with the same ties are equal. */
  lemma {:induction false} TiesDetermineSorted<T>(xs: seq<T>, ys: seq<T>, key: T -> real)
    requires SortedBy(xs, key) && SortedBy(ys, key) && SameTies(xs, ys, key)
    ensures xs == ys
    decreases |xs|
  {
    if xs == [] {
      if ys != [] {
        TiesReachLast(ys, xs, key);
      }
    } else {
      TiesReachLast(xs, ys, key);
      TiesReachLast(ys, xs, key);
      var xr, yr := xs[..|xs| - 1], ys[..|ys| - 1];
      var x, y := xs[|xs| - 1], ys[|ys| - 1];
      var kx := Keep(xs, HasKey(key, key(x)));
      assert kx == Keep(ys, HasKey(key, key(x)));
      assert kx[|kx| - 1] == x && kx[|kx| - 1] == y;
      forall t: real
        ensures Keep(xr, HasKey(key, t)) == Keep(yr, HasKey(key, t))
      {
        var f := HasKey(key, t);
        assert Keep(xs, f) == Keep(ys, f);
        if key(x) == t {
          assert Keep(xs, f) == Keep(xr, f) + [x] && Keep(ys, f) == Keep(yr, f) + [x];
          assert Keep(xr, f) == (Keep(xr, f) + [x])[..|Keep(xr, f)|];
          assert Keep(yr, f) == (Keep(yr, f) + [x])[..|Keep(yr, f)|];
        } else {
          assert Keep(xs, f) == Keep(xr, f) && Keep(ys, f) == Keep(yr, f);
        }
      }
      TiesDetermineSorted(xr, yr, key);
    }
  }

  /** What a stable sort depends on: exactly the order within each group of equal keys. */
  lemma {:induction false} SortEqualIffSameTies<T>(xs: seq<T>, ys: seq<T>, key: T -> real)
    ensures Sort(xs, key) == Sort(ys, key) <==> SameTies(xs, ys, key)
  {
    forall t: real
      ensures Keep(Sort(xs, key), HasKey(key, t)) == Keep(xs, HasKey(key, t))
      ensures Keep(Sort(ys, key), HasKey(key, t)) == Keep(ys, HasKey(key, t))
    {
      SortStable(xs, key, t);
      SortStable(ys, key, t);
    }
    if SameTies(xs, ys, key) {
      SortSorts(xs, key);
      SortSorts(ys, key);
      TiesDetermineSorted(Sort(xs, key), Sort(ys, key), key);
    }
  }

  // -------------------------------------------------------------- permutations

  /** Equal keys mean equal elements. Distinct keys are the usual reason. */
  ghost predicate KeyDetermines<T>(xs: seq<T>, key: T -> real)
  {
    forall x, y :: x in xs && y in xs && key(x) == key(y) ==> x == y
  }

  lemma {:induction false} LastOfPermutation<T>(xs: seq<T>, ys: seq<T>, key: T -> real)
    requires SortedBy(xs, key) && SortedBy(ys, key) && multiset(xs) == multiset(ys)
    requires KeyDetermines(xs, key) && xs != []
    ensures ys != [] && xs[|xs| - 1] == ys[|ys| - 1]
  {
    assert |multiset(xs)| == |multiset(ys)|;
    var x, y := xs[|xs| - 1], ys[|ys| - 1];
    assert x in multiset(xs) && y in multiset(ys);
    assert x in ys && y in xs;
  }

  lemma {:induction false} PermutationDropLast<T>(xs: seq<T>, ys: seq<T>)
    requires multiset(xs) == multiset(ys) && xs != [] && ys != [] && xs[|xs| - 1] == ys[|ys| - 1]
    ensures multiset(xs[..|xs| - 1]) == multiset(ys[..|ys| - 1])
  {
    SplitLast(xs);
    SplitLast(ys);
    var one := multiset{xs[|xs| - 1]};
    assert multiset(xs[..|xs| - 1]) == multiset(xs) - one;
    assert multiset(ys[..|ys| - 1]) == multiset(ys) - one;
  }

  lemma {:induction false} KeyDeterminesPrefix<T>(xs: seq<T>, key: T -> real)
    requires KeyDetermines(xs, key) && xs != []
    ensures KeyDetermines(xs[..|xs| - 1], key)
  {
    assert forall z :: z in xs[..|xs| - 1] ==> z in xs;
  }

  lemma {:induction false} SortedPermutationUnique<T>(xs: seq<T>, ys: seq<T>, key: T -> real)
    requires SortedBy(xs, key) && SortedBy(ys, key) && multiset(xs) == multiset(ys)
    requires KeyDetermines(xs, key)
    ensures xs == ys
    decreases |xs|
  {
    if xs == [] {
      assert |multiset(ys)| == 0;
    } else {
      LastOfPermutation(xs, ys, key);
      PermutationDropLast(xs, ys);
      KeyDeterminesPrefix(xs, key);
      SortedPermutationUnique(xs[..|xs| - 1], ys[..|ys| - 1], key);
    }
  }

  /** Sorting forgets the order of its input when keys determine elements. */
  lemma {:induction false} SortOfPermutation<T>(xs: seq<T>, ys: seq<T>, key: T -> real)
    requires multiset(xs) == multiset(ys) && KeyDetermines(xs, key)
    ensures Sort(xs, key) == Sort(ys, key)
  {
    SortPermutes(xs, key);
    SortPermutes(ys, key);
    SortSorts(xs, key);
    SortSorts(ys, key);
    forall x | x in Sort(xs, key)
      ensures x in xs
    {
      assert x in multiset(Sort(xs, key));
    }
    SortedPermutationUnique(Sort(xs, key), Sort(ys, key), key);
  }
}
