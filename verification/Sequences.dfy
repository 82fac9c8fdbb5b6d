// Sequence vocabulary shared by every model: optional values, and the
// order-preserving selection that Python writes as a loop with `continue`.

module Sequences {

  datatype Option<+T> = None | Some(value: T)

  /** The values `f` selects from `xs`, in order. */
  function Keep<T, U>(xs: seq<T>, f: T -> Option<U>): seq<U>
  {
    if xs == [] then []
    else
      var rest := Keep(xs[..|xs| - 1], f);
      match f(xs[|xs| - 1])
      case None => rest
      case Some(u) => rest + [u]
  }

  /** One more loop iteration: the selection from a prefix grows by at most one value. */
  lemma {:induction false} KeepNext<T, U>(xs: seq<T>, f: T -> Option<U>, i: nat)
    requires i < |xs|
    ensures Keep(xs[..i + 1], f) == Keep(xs[..i], f) + (if f(xs[i]).Some? then [f(xs[i]).value] else [])
  {
    assert xs[..i + 1][..i] == xs[..i];
  }

  /** Where in `xs` the selected value at position `k` came from. */
  ghost function Origin<T, U>(xs: seq<T>, f: T -> Option<U>, k: nat): (i: nat)
    requires k < |Keep(xs, f)|
    ensures i < |xs| && f(xs[i]) == Some(Keep(xs, f)[k])
  {
    var n := |xs| - 1;
    if f(xs[n]).Some? && k == |Keep(xs, f)| - 1 then n else Origin(xs[..n], f, k)
  }

  /** Selection keeps the order of what it selects. */
  lemma {:induction false} OriginIncreasing<T, U>(xs: seq<T>, f: T -> Option<U>, k: nat, l: nat)
    requires k < l < |Keep(xs, f)|
    ensures Origin(xs, f, k) < Origin(xs, f, l)
  {
    var n := |xs| - 1;
    if !(f(xs[n]).Some? && l == |Keep(xs, f)| - 1) {
      OriginIncreasing(xs[..n], f, k, l);
    }
  }

  /** The position at which `xs[i]` lands when it is selected. */
  ghost function Rank<T, U>(xs: seq<T>, f: T -> Option<U>, i: nat): nat
    requires i <= |xs|
  {
    |Keep(xs[..i], f)|
  }

  lemma {:induction false} RankIsPosition<T, U>(xs: seq<T>, f: T -> Option<U>, i: nat)
    requires i < |xs| && f(xs[i]).Some?
    ensures Rank(xs, f, i) < |Keep(xs, f)|
    ensures Keep(xs, f)[Rank(xs, f, i)] == f(xs[i]).value
    decreases |xs|
  {
    var n := |xs| - 1;
    if i < n {
      RankIsPosition(xs[..n], f, i);
      assert xs[..n][..i] == xs[..i];
    }
  }

  lemma {:induction false} RankIncreasing<T, U>(xs: seq<T>, f: T -> Option<U>, i: nat, j: nat)
    requires i < j <= |xs|
    ensures Rank(xs, f, i) <= Rank(xs, f, j)
    ensures f(xs[i]).Some? ==> Rank(xs, f, i) < Rank(xs, f, j)
    decreases j
  {
    KeepNext(xs, f, j - 1);
    if i < j - 1 {
      RankIncreasing(xs, f, i, j - 1);
    }
  }

  /** A selection that refuses nothing is a map over the whole sequence. */
  lemma {:induction false} KeepAll<T, U>(xs: seq<T>, f: T -> Option<U>)
    requires forall i :: 0 <= i < |xs| ==> f(xs[i]).Some?
    ensures |Keep(xs, f)| == |xs|
    ensures forall i :: 0 <= i < |xs| ==> Keep(xs, f)[i] == f(xs[i]).value
  {
    if xs != [] {
      KeepAll(xs[..|xs| - 1], f);
    }
  }

  /** Two selections that agree pointwise are equal, even from different sequences. */
  lemma {:induction false} KeepCongruent<S, T, U>(xs: seq<S>, f: S -> Option<U>, ys: seq<T>, g: T -> Option<U>)
    requires |xs| == |ys|
    requires forall i :: 0 <= i < |xs| ==> f(xs[i]) == g(ys[i])
    ensures Keep(xs, f) == Keep(ys, g)
  {
    if xs != [] {
      KeepCongruent(xs[..|xs| - 1], f, ys[..|ys| - 1], g);
    }
  }

  /** Where the first selected value came from: nothing before it is selected. */
  lemma {:induction false} KeepFirst<T, U>(xs: seq<T>, f: T -> Option<U>) returns (i: nat)
    requires Keep(xs, f) != []
    ensures i < |xs| && f(xs[i]) == Some(Keep(xs, f)[0])
    ensures forall q :: 0 <= q < i ==> f(xs[q]).None?
  {
    var n := |xs| - 1;
    if Keep(xs[..n], f) == [] {
      i := n;
      KeepEmpty(xs[..n], f);
    } else {
      i := KeepFirst(xs[..n], f);
    }
  }

  /** Where the last selected value came from: nothing after it is selected. */
  lemma {:induction false} KeepLast<T, U>(xs: seq<T>, f: T -> Option<U>) returns (i: nat)
    requires Keep(xs, f) != []
    ensures i < |xs| && f(xs[i]) == Some(Keep(xs, f)[|Keep(xs, f)| - 1])
    ensures forall q :: i < q < |xs| ==> f(xs[q]).None?
  {
    var n := |xs| - 1;
    if f(xs[n]).Some? {
      i := n;
    } else {
      i := KeepLast(xs[..n], f);
    }
  }

  lemma {:induction false} KeepEmpty<T, U>(xs: seq<T>, f: T -> Option<U>)
    ensures Keep(xs, f) == [] <==> forall q :: 0 <= q < |xs| ==> f(xs[q]).None?
  {
    if xs != [] {
      KeepEmpty(xs[..|xs| - 1], f);
      assert forall q :: 0 <= q < |xs| - 1 ==> xs[..|xs| - 1][q] == xs[q];
    }
  }

  lemma {:induction false} KeepPush<T, U>(xs: seq<T>, x: T, f: T -> Option<U>)
    ensures Keep(xs + [x], f) == Keep(xs, f) + if f(x).Some? then [f(x).value] else []
  {
    assert (xs + [x])[..|xs|] == xs;
  }

  lemma {:induction false} KeepConcat<T, U>(xs: seq<T>, ys: seq<T>, f: T -> Option<U>)
    ensures Keep(xs + ys, f) == Keep(xs, f) + Keep(ys, f)
  {
    if ys == [] {
      assert xs + ys == xs;
    } else {
      KeepConcat(xs, ys[..|ys| - 1], f);
      assert (xs + ys)[..|xs + ys| - 1] == xs + ys[..|ys| - 1];
    }
  }

  lemma {:induction false} KeepMiddle<T, U>(before: seq<T>, x: T, after: seq<T>, f: T -> Option<U>)
    ensures multiset(Keep(before + [x] + after, f)) ==
            multiset(Keep(before + after, f)) + if f(x).Some? then multiset{f(x).value} else multiset{}
  {
    KeepPush(before, x, f);
    KeepConcat(before + [x], after, f);
    KeepConcat(before, after, f);
  }

  lemma {:induction false} TakeOut<T>(ys: seq<T>, j: nat)
    requires j < |ys|
    ensures ys == ys[..j] + [ys[j]] + ys[j + 1..]
    ensures multiset(ys) == multiset(ys[..j] + ys[j + 1..]) + multiset{ys[j]}
  {
    assert ys == ys[..j] + [ys[j]] + ys[j + 1..];
  }

  lemma {:induction false} CancelOne<T>(a: multiset<T>, b: multiset<T>, x: T)
    requires a + multiset{x} == b + multiset{x}
    ensures a == b
  {
    assert a == (a + multiset{x}) - multiset{x};
    assert b == (b + multiset{x}) - multiset{x};
  }

  lemma {:induction false} RemoveFromPermutation<T>(xs: seq<T>, ys: seq<T>) returns (j: nat)
    requires multiset(xs) == multiset(ys) && xs != []
    ensures j < |ys| && ys[j] == xs[|xs| - 1]
    ensures ys == ys[..j] + [ys[j]] + ys[j + 1..]
    ensures multiset(xs[..|xs| - 1]) == multiset(ys[..j] + ys[j + 1..])
  {
    var n := |xs| - 1;
    assert xs[n] in multiset(ys);
    j :| 0 <= j < |ys| && ys[j] == xs[n];
    TakeOut(ys, j);
    TakeOut(xs, n);
    assert xs[..n] + xs[n + 1..] == xs[..n];
    CancelOne(multiset(xs[..n]), multiset(ys[..j] + ys[j + 1..]), xs[n]);
  }

  /** A selection is permuted along with what it selects from. */
  lemma {:induction false} KeepPermuted<T, U>(xs: seq<T>, ys: seq<T>, f: T -> Option<U>)
    requires multiset(xs) == multiset(ys)
    ensures multiset(Keep(xs, f)) == multiset(Keep(ys, f))
    decreases |xs|
  {
    if xs == [] {
      assert |multiset(ys)| == 0;
    } else {
      var j := RemoveFromPermutation(xs, ys);
      KeepPermuted(xs[..|xs| - 1], ys[..j] + ys[j + 1..], f);
      KeepMiddle(ys[..j], ys[j], ys[j + 1..], f);
    }
  }

  // ------------------------------------------------------ one element replaced

  /** A sequence without its element i. */
  function Without<T>(xs: seq<T>, i: nat): seq<T>
    requires i < |xs|
  {
    xs[..i] + xs[i + 1..]
  }

  function Optionally<T>(x: Option<T>): seq<T>
  {
    if x.Some? then [x.value] else []
  }

  /** What is selected when position i holds x. */
  lemma {:induction false} KeepReplaced<T, U>(xs: seq<T>, f: T -> Option<U>, i: nat, x: T)
    requires i < |xs|
    ensures Keep(xs[i := x], f) == Keep(xs[..i], f) + Optionally(f(x)) + Keep(xs[i + 1..], f)
  {
    var before, after := xs[..i], xs[i + 1..];
    assert xs[i := x] == (before + [x]) + after;
    KeepConcat(before + [x], after, f);
    KeepPush(before, x, f);
  }

  /** Replacing an element by one that is refused drops what it contributed, and nothing else. */
  lemma {:induction false} KeepLost<T, U>(xs: seq<T>, f: T -> Option<U>, i: nat, x: T)
    requires i < |xs| && f(x).None?
    ensures f(xs[i]).None? ==> Keep(xs[i := x], f) == Keep(xs, f)
    ensures f(xs[i]).Some? ==>
              && Rank(xs, f, i) < |Keep(xs, f)|
              && Keep(xs, f)[Rank(xs, f, i)] == f(xs[i]).value
              && Keep(xs[i := x], f) == Without(Keep(xs, f), Rank(xs, f, i))
  {
    KeepReplaced(xs, f, i, x);
    KeepReplaced(xs, f, i, xs[i]);
    assert xs[i := xs[i]] == xs;
  }

  /** Replacing a selected element by another selected one updates the selection in place. */
  lemma {:induction false} KeepUpdated<T, U>(xs: seq<T>, f: T -> Option<U>, i: nat, x: T)
    requires i < |xs| && f(xs[i]).Some? && f(x).Some?
    ensures Rank(xs, f, i) < |Keep(xs, f)|
    ensures Keep(xs, f)[Rank(xs, f, i)] == f(xs[i]).value
    ensures Keep(xs[i := x], f) == Keep(xs, f)[Rank(xs, f, i) := f(x).value]
  {
    KeepReplaced(xs, f, i, x);
    KeepReplaced(xs, f, i, xs[i]);
    assert xs[i := xs[i]] == xs;
  }

  /** How many are selected depends only on which are. */
  lemma {:induction false} KeepCount<T, U>(xs: seq<T>, f: T -> Option<U>, i: nat, x: T)
    requires i < |xs|
    ensures |Keep(xs[i := x], f)| ==
            |Keep(xs, f)| + (if f(x).Some? then 1 else 0) - (if f(xs[i]).Some? then 1 else 0)
  {
    KeepReplaced(xs, f, i, x);
    KeepReplaced(xs, f, i, xs[i]);
    assert xs[i := xs[i]] == xs;
  }

  lemma {:induction false} KeepSame<T, U>(xs: seq<T>, f: T -> Option<U>, i: nat, x: T)
    requires i < |xs| && f(x) == f(xs[i])
    ensures Keep(xs[i := x], f) == Keep(xs, f)
  {
    KeepCongruent(xs[i := x], f, xs, f);
  }

  /** A sequence of which exactly two elements are selected. */
  lemma {:induction false} KeepTwo<T, U>(xs: seq<T>, f: T -> Option<U>, a: nat, b: nat)
    requires a < b < |xs|
    requires forall k :: 0 <= k < |xs| ==> (f(xs[k]).Some? <==> k == a || k == b)
    ensures Keep(xs, f) == [f(xs[a]).value, f(xs[b]).value]
  {
    KeepReplaced(xs, f, b, xs[b]);
    assert xs[b := xs[b]] == xs;
    var before := xs[..b];
    KeepReplaced(before, f, a, before[a]);
    assert before[a := before[a]] == before;
    KeepEmpty(before[..a], f);
    KeepEmpty(before[a + 1..], f);
    KeepEmpty(xs[b + 1..], f);
  }

  function Then<T, U, V>(f: T -> Option<U>, g: U -> Option<V>): T -> Option<V>
  {
    (x: T) => if f(x).Some? then g(f(x).value) else None
  }

  /** Selecting twice is selecting once by both tests. */
  lemma {:induction false} KeepThen<T, U, V>(xs: seq<T>, f: T -> Option<U>, g: U -> Option<V>)
    ensures Keep(Keep(xs, f), g) == Keep(xs, Then(f, g))
  {
    if xs != [] {
      KeepThen(xs[..|xs| - 1], f, g);
      var last := f(xs[|xs| - 1]);
      if last.Some? {
        KeepPush(Keep(xs[..|xs| - 1], f), last.value, g);
      }
    }
  }

  // ------------------------------------------------------ positions and counts

  /** The position of a selected element's origin is its own. */
  lemma {:induction false} OriginRank<T, U>(xs: seq<T>, f: T -> Option<U>, k: nat)
    requires k < |Keep(xs, f)|
    ensures Rank(xs, f, Origin(xs, f, k)) == k
  {
    var n := |xs| - 1;
    if !(f(xs[n]).Some? && k == |Keep(xs, f)| - 1) {
      OriginRank(xs[..n], f, k);
      var i := Origin(xs[..n], f, k);
      assert xs[..n][..i] == xs[..i];
    }
  }

  /** A selected element is the origin of what stands at its position. */
  lemma {:induction false} RankedOrigin<T, U>(xs: seq<T>, f: T -> Option<U>, i: nat)
    requires i < |xs| && f(xs[i]).Some?
    ensures Rank(xs, f, i) < |Keep(xs, f)| && Origin(xs, f, Rank(xs, f, i)) == i
  {
    RankIsPosition(xs, f, i);
    var o := Origin(xs, f, Rank(xs, f, i));
    OriginRank(xs, f, Rank(xs, f, i));
    if o < i {
      RankIncreasing(xs, f, o, i);
    } else if i < o {
      RankIncreasing(xs, f, i, o);
    }
  }

  /** Elements a and b are selected, and nothing between them is. */
  ghost predicate Adjacent<T, U>(xs: seq<T>, f: T -> Option<U>, a: int, b: int)
  {
    0 <= a < b < |xs| && f(xs[a]).Some? && f(xs[b]).Some? && forall q :: a < q < b ==> f(xs[q]).None?
  }

  /** Neighbours in the selection come from adjacent elements ... */
  lemma {:induction false} NeighboursAreAdjacent<T, U>(xs: seq<T>, f: T -> Option<U>, k: nat) returns (a: nat, b: nat)
    requires 0 < k < |Keep(xs, f)|
    ensures Adjacent(xs, f, a, b) && Rank(xs, f, a) == k - 1 && Rank(xs, f, b) == k
    ensures f(xs[a]) == Some(Keep(xs, f)[k - 1]) && f(xs[b]) == Some(Keep(xs, f)[k])
  {
    a, b := Origin(xs, f, k - 1), Origin(xs, f, k);
    OriginIncreasing(xs, f, k - 1, k);
    OriginRank(xs, f, k - 1);
    OriginRank(xs, f, k);
    forall q | a < q < b
      ensures f(xs[q]).None?
    {
      RankIncreasing(xs, f, a, q);
      RankIncreasing(xs, f, q, b);
    }
  }

  /** ... and adjacent elements become neighbours. */
  lemma {:induction false} AdjacentAreNeighbours<T, U>(xs: seq<T>, f: T -> Option<U>, a: nat, b: nat)
    requires Adjacent(xs, f, a, b)
    ensures Rank(xs, f, b) == Rank(xs, f, a) + 1 < |Keep(xs, f)|
    ensures Keep(xs, f)[Rank(xs, f, a)] == f(xs[a]).value && Keep(xs, f)[Rank(xs, f, b)] == f(xs[b]).value
  {
    RankIsPosition(xs, f, a);
    RankIsPosition(xs, f, b);
    assert xs[..b] == xs[..a + 1] + xs[a + 1..b];
    KeepConcat(xs[..a + 1], xs[a + 1..b], f);
    KeepEmpty(xs[a + 1..b], f);
    KeepNext(xs, f, a);
  }

  /** The indices of the selected elements. */
  ghost function Selected<T, U>(xs: seq<T>, f: T -> Option<U>): set<int>
  {
    set i | 0 <= i < |xs| && f(xs[i]).Some?
  }

  /** How many are selected, counted by index. */
  lemma {:induction false} KeepCountsIndices<T, U>(xs: seq<T>, f: T -> Option<U>)
    ensures |Keep(xs, f)| == |Selected(xs, f)|
  {
    if xs == [] {
      assert Selected(xs, f) == {};
    } else {
      var n := |xs| - 1;
      KeepCountsIndices(xs[..n], f);
      assert Selected(xs, f) == if f(xs[n]).Some? then Selected(xs[..n], f) + {n} else Selected(xs[..n], f);
    }
  }

  /** The numbers below n that pass a test. */
  ghost function Passing(n: nat, test: int -> bool): set<int>
  {
    set b | 0 <= b < n && test(b)
  }

  lemma {:induction false} PassingNext(n: nat, test: int -> bool)
    ensures |Passing(n + 1, test)| == |Passing(n, test)| + if test(n) then 1 else 0
  {
    assert Passing(n + 1, test) == Passing(n, test) + if test(n) then {n} else {};
  }
}
