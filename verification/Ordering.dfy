/** Text in code-point order, and the stable sort of `sorted`. */
module Ordering {

  /** Code-point order on strings, as Python compares them. */
  predicate TextLeq(a: string, b: string) {
    if a == "" then true
    else if b == "" then false
    else if a[0] != b[0] then a[0] < b[0]
    else TextLeq(a[1..], b[1..])
  }

  lemma {:induction false} TextLeqIsAntisymmetric(a: string, b: string)
    requires TextLeq(a, b) && TextLeq(b, a)
    ensures a == b
  {
    if a == "" || b == "" {
    } else {
      TextLeqIsAntisymmetric(a[1..], b[1..]);
      assert a == [a[0]] + a[1..] && b == [b[0]] + b[1..];
    }
  }

  lemma {:induction false} PrefixComesFirst(a: string, rest: string)
    ensures TextLeq(a, a + rest)
  {
    if a == "" {
    } else {
      assert (a + rest)[1..] == a[1..] + rest;
      PrefixComesFirst(a[1..], rest);
    }
  }

  lemma {:induction false} TextLeqIsTransitive(a: string, b: string, c: string)
    requires TextLeq(a, b) && TextLeq(b, c)
    ensures TextLeq(a, c)
  {
    if a != "" && b != "" && c != "" && a[0] == b[0] == c[0] {
      TextLeqIsTransitive(a[1..], b[1..], c[1..]);
    }
  }

  lemma {:induction false} TextLeqIsTotal(a: string, b: string)
    ensures TextLeq(a, b) || TextLeq(b, a)
  {
    if a == "" || b == "" {
    } else {
      TextLeqIsTotal(a[1..], b[1..]);
    }
  }

  // ---------------------------------------------------------------- stable sorting

  ghost predicate TotalPreorder<T(!new)>(leq: (T, T) -> bool) {
    && (forall a, b :: leq(a, b) || leq(b, a))
    && (forall a, b, c :: leq(a, b) && leq(b, c) ==> leq(a, c))
  }

  predicate Ordered<T>(xs: seq<T>, leq: (T, T) -> bool) {
    forall i, j | 0 <= i < j < |xs| :: leq(xs[i], xs[j])
  }

  /** After everything not greater than it. */
  function Insert<T>(xs: seq<T>, x: T, leq: (T, T) -> bool): seq<T> {
    if xs == [] then [x]
    else if leq(xs[|xs| - 1], x) then xs + [x]
    else Insert(xs[..|xs| - 1], x, leq) + [xs[|xs| - 1]]
  }

  /** `sorted`: equal elements keep their order. */
  function Sort<T>(xs: seq<T>, leq: (T, T) -> bool): seq<T> {
    if xs == [] then [] else Insert(Sort(xs[..|xs| - 1], leq), xs[|xs| - 1], leq)
  }

  lemma {:induction false} InsertAdds<T(!new)>(xs: seq<T>, x: T, leq: (T, T) -> bool)
    ensures multiset(Insert(xs, x, leq)) == multiset(xs) + multiset{x}
    ensures forall y | y in Insert(xs, x, leq) :: y in xs || y == x
    decreases |xs|
  {
    if xs == [] || leq(xs[|xs| - 1], x) {
    } else {
      assert xs == xs[..|xs| - 1] + [xs[|xs| - 1]];
      InsertAdds(xs[..|xs| - 1], x, leq);
    }
  }

  lemma {:induction false} InsertOrders<T(!new)>(xs: seq<T>, x: T, leq: (T, T) -> bool)
    requires TotalPreorder(leq) && Ordered(xs, leq)
    ensures Ordered(Insert(xs, x, leq), leq)
    decreases |xs|
  {
    if xs == [] {
    } else {
      var front, last := xs[..|xs| - 1], xs[|xs| - 1];
      if leq(last, x) {
        assert forall i | 0 <= i < |xs| :: leq(xs[i], last);
      } else {
        InsertOrders(front, x, leq);
        InsertAdds(front, x, leq);
        var inserted := Insert(front, x, leq);
        forall i | 0 <= i < |inserted| ensures leq(inserted[i], last) {
          assert inserted[i] in front || inserted[i] == x;
        }
      }
    }
  }

  lemma {:induction false} SortOrders<T(!new)>(xs: seq<T>, leq: (T, T) -> bool)
    requires TotalPreorder(leq)
    ensures Ordered(Sort(xs, leq), leq) && multiset(Sort(xs, leq)) == multiset(xs)
    decreases |xs|
  {
    if xs == [] {
    } else {
      assert xs == xs[..|xs| - 1] + [xs[|xs| - 1]];
      SortOrders(xs[..|xs| - 1], leq);
      InsertOrders(Sort(xs[..|xs| - 1], leq), xs[|xs| - 1], leq);
      InsertAdds(Sort(xs[..|xs| - 1], leq), xs[|xs| - 1], leq);
    }
  }

  /** No two different elements are equal in the order. */
  ghost predicate Distinguishes<T(!new)>(xs: seq<T>, leq: (T, T) -> bool) {
    forall a, b | a in xs && b in xs && leq(a, b) && leq(b, a) :: a == b
  }

  lemma LastsAgree<T(!new)>(xs: seq<T>, ys: seq<T>, leq: (T, T) -> bool)
    requires xs != [] && ys != [] && (forall x :: x in xs <==> x in ys)
    requires Ordered(xs, leq) && Ordered(ys, leq) && Distinguishes(xs, leq)
    ensures xs[|xs| - 1] == ys[|ys| - 1]
  {
    var a, b := xs[|xs| - 1], ys[|ys| - 1];
    assert a in ys && b in xs;
    var i :| 0 <= i < |xs| && xs[i] == b;
    var j :| 0 <= j < |ys| && ys[j] == a;
    assert i < |xs| - 1 ==> leq(b, a);
    assert j < |ys| - 1 ==> leq(a, b);
  }

  lemma WithoutLast<T(!new)>(xs: seq<T>, leq: (T, T) -> bool)
    requires xs != []
    ensures multiset(xs[..|xs| - 1]) == multiset(xs) - multiset{xs[|xs| - 1]}
    ensures Ordered(xs, leq) ==> Ordered(xs[..|xs| - 1], leq)
    ensures Distinguishes(xs, leq) ==> Distinguishes(xs[..|xs| - 1], leq)
  {
    assert xs == xs[..|xs| - 1] + [xs[|xs| - 1]];
  }

  /** When the order tells the elements apart, there is only one way to put them in order. */
  lemma {:induction false} OrderedIsUnique<T(!new)>(xs: seq<T>, ys: seq<T>, leq: (T, T) -> bool)
    requires Ordered(xs, leq) && Ordered(ys, leq) && multiset(xs) == multiset(ys) && Distinguishes(xs, leq)
    ensures xs == ys
    decreases |xs|
  {
    hide Ordered, Distinguishes;
    SameElements(xs, ys);
    if xs == [] {
    } else {
      LastsAgree(xs, ys, leq);
      WithoutLast(xs, leq);
      WithoutLast(ys, leq);
      OrderedIsUnique(xs[..|xs| - 1], ys[..|ys| - 1], leq);
      assert xs == xs[..|xs| - 1] + [xs[|xs| - 1]];
    }
  }

  lemma SameElements<T>(xs: seq<T>, ys: seq<T>)
    requires multiset(xs) == multiset(ys)
    ensures |xs| == |ys| && forall x :: x in xs <==> x in ys
  {
    assert |multiset(xs)| == |xs| && |multiset(ys)| == |ys|;
    forall x ensures x in xs <==> x in ys {
      assert x in xs <==> x in multiset(xs);
      assert x in ys <==> x in multiset(ys);
    }
  }

  /** Sorting forgets the order of its input exactly as far as the order tells elements apart. */
  lemma SortForgetsOrder<T(!new)>(xs: seq<T>, ys: seq<T>, leq: (T, T) -> bool)
    requires TotalPreorder(leq) && multiset(xs) == multiset(ys) && Distinguishes(xs, leq)
    ensures Sort(xs, leq) == Sort(ys, leq)
  {
    SortOrders(xs, leq);
    SortOrders(ys, leq);
    SameElements(xs, Sort(xs, leq));
    OrderedIsUnique(Sort(xs, leq), Sort(ys, leq), leq);
  }

  lemma {:induction false} OrderedSortsToItself<T(!new)>(xs: seq<T>, leq: (T, T) -> bool)
    requires Ordered(xs, leq)
    ensures Sort(xs, leq) == xs
    decreases |xs|
  {
    if xs == [] {
    } else {
      OrderedSortsToItself(xs[..|xs| - 1], leq);
      assert xs == xs[..|xs| - 1] + [xs[|xs| - 1]];
    }
  }

  // ---------------------------------------------------------------- stability

  predicate Equivalent<T>(a: T, b: T, leq: (T, T) -> bool) {
    leq(a, b) && leq(b, a)
  }

  /** The elements equal to `e` in the order, as they stand. */
  function Class<T>(xs: seq<T>, e: T, leq: (T, T) -> bool): seq<T> {
    if xs == [] then []
    else
      var last := xs[|xs| - 1];
      Class(xs[..|xs| - 1], e, leq) + if Equivalent(last, e, leq) then [last] else []
  }

  lemma OneMoreInClass<T>(xs: seq<T>, x: T, e: T, leq: (T, T) -> bool)
    ensures Class(xs + [x], e, leq) == Class(xs, e, leq) + if Equivalent(x, e, leq) then [x] else []
  {
    assert (xs + [x])[..|xs|] == xs;
  }

  lemma {:induction false} InsertIsStable<T(!new)>(xs: seq<T>, x: T, e: T, leq: (T, T) -> bool)
    requires TotalPreorder(leq)
    ensures Class(Insert(xs, x, leq), e, leq) == Class(xs, e, leq) + if Equivalent(x, e, leq) then [x] else []
    decreases |xs|
  {
    hide Class;
    OneMoreInClass(xs, x, e, leq);
    if xs == [] {
      assert [] + [x] == [x];
    } else {
      var front, last := xs[..|xs| - 1], xs[|xs| - 1];
      if !leq(last, x) {
        InsertIsStable(front, x, e, leq);
        OneMoreInClass(Insert(front, x, leq), last, e, leq);
        OneMoreInClass(front, last, e, leq);
        assert xs == front + [last];
        assert !(Equivalent(x, e, leq) && Equivalent(last, e, leq));
      }
    }
  }

  /** Equal elements keep their order. */
  lemma {:induction false} SortIsStable<T(!new)>(xs: seq<T>, e: T, leq: (T, T) -> bool)
    requires TotalPreorder(leq)
    ensures Class(Sort(xs, leq), e, leq) == Class(xs, e, leq)
    decreases |xs|
  {
    if xs == [] {
    } else {
      SortIsStable(xs[..|xs| - 1], e, leq);
      InsertIsStable(Sort(xs[..|xs| - 1], leq), xs[|xs| - 1], e, leq);
    }
  }

  function Reverse<T>(xs: seq<T>): seq<T> {
    if xs == [] then [] else [xs[|xs| - 1]] + Reverse(xs[..|xs| - 1])
  }

  lemma {:induction false} ReverseIsPermutation<T>(xs: seq<T>)
    ensures multiset(Reverse(xs)) == multiset(xs) && |Reverse(xs)| == |xs|
    ensures xs != [] ==> Reverse(xs)[0] == xs[|xs| - 1]
  {
    if xs == [] {
    } else {
      var front, last := xs[..|xs| - 1], xs[|xs| - 1];
      ReverseIsPermutation(front);
      assert xs == front + [last];
      assert multiset([last] + Reverse(front)) == multiset{last} + multiset(Reverse(front));
    }
  }

  lemma {:induction false} ClassOfConcat<T>(xs: seq<T>, ys: seq<T>, e: T, leq: (T, T) -> bool)
    ensures Class(xs + ys, e, leq) == Class(xs, e, leq) + Class(ys, e, leq)
    decreases |ys|
  {
    if ys == [] {
      assert xs + ys == xs;
    } else {
      assert (xs + ys)[..|xs + ys| - 1] == xs + ys[..|ys| - 1];
      ClassOfConcat(xs, ys[..|ys| - 1], e, leq);
    }
  }

  lemma {:induction false} ReverseOfConcat<T>(xs: seq<T>, ys: seq<T>)
    ensures Reverse(xs + ys) == Reverse(ys) + Reverse(xs)
    decreases |ys|
  {
    if ys == [] {
      assert xs + ys == xs;
    } else {
      assert (xs + ys)[..|xs + ys| - 1] == xs + ys[..|ys| - 1];
      ReverseOfConcat(xs, ys[..|ys| - 1]);
    }
  }

  lemma {:induction false} ClassOfReverse<T>(xs: seq<T>, e: T, leq: (T, T) -> bool)
    ensures Class(Reverse(xs), e, leq) == Reverse(Class(xs, e, leq))
    decreases |xs|
  {
    if xs == [] {
    } else {
      var front, last := xs[..|xs| - 1], xs[|xs| - 1];
      ClassOfReverse(front, e, leq);
      ClassOfConcat([last], Reverse(front), e, leq);
      var own := if Equivalent(last, e, leq) then [last] else [];
      assert [last][..0] == [];
      assert Class([last], e, leq) == own;
      ReverseOfConcat(Class(front, e, leq), own);
      assert Reverse(own) == own;
    }
  }

  predicate NoDuplicates<T(==)>(xs: seq<T>) {
    forall i, j | 0 <= i < j < |xs| :: xs[i] != xs[j]
  }

  lemma {:induction false} ClassKeepsDistinctness<T>(xs: seq<T>, e: T, leq: (T, T) -> bool)
    requires NoDuplicates(xs)
    ensures NoDuplicates(Class(xs, e, leq))
    ensures forall x :: x in Class(xs, e, leq) <==> x in xs && Equivalent(x, e, leq)
    decreases |xs|
  {
    if xs == [] {
    } else {
      var front, last := xs[..|xs| - 1], xs[|xs| - 1];
      ClassKeepsDistinctness(front, e, leq);
      assert xs == front + [last];
      assert last !in front;
    }
  }

  /** If two elements of a duplicate-free list are equal in the order, reversing the list changes its sort. */
  lemma TiesShow<T(!new)>(xs: seq<T>, a: T, b: T, leq: (T, T) -> bool)
    requires TotalPreorder(leq) && NoDuplicates(xs)
    requires a in xs && b in xs && a != b && Equivalent(a, b, leq)
    ensures Sort(Reverse(xs), leq) != Sort(xs, leq)
  {
    assert Equivalent(a, a, leq) && Equivalent(b, a, leq);
    SortIsStable(xs, a, leq);
    SortIsStable(Reverse(xs), a, leq);
    ClassOfReverse(xs, a, leq);
    ClassKeepsDistinctness(xs, a, leq);
    var tied := Class(xs, a, leq);
    ReverseIsPermutation(tied);
    assert a in tied && b in tied;
    var i :| 0 <= i < |tied| && tied[i] == a;
    var j :| 0 <= j < |tied| && tied[j] == b;
    assert i != j && |tied| >= 2;
    assert tied[0] != tied[|tied| - 1];
  }

  /** A duplicate-free list is a permutation of another when they have the same elements. */
  lemma {:induction false} DuplicateFreePermutation<T>(xs: seq<T>, ys: seq<T>)
    requires NoDuplicates(xs) && NoDuplicates(ys) && forall x :: x in xs <==> x in ys
    ensures multiset(xs) == multiset(ys)
  {
    forall x ensures multiset(xs)[x] == multiset(ys)[x] {
      CountOfDistinct(xs, x);
      CountOfDistinct(ys, x);
    }
  }

  lemma {:induction false} CountOfDistinct<T>(xs: seq<T>, x: T)
    requires NoDuplicates(xs)
    ensures multiset(xs)[x] == if x in xs then 1 else 0
    decreases |xs|
  {
    if xs == [] {
    } else {
      var front, last := xs[..|xs| - 1], xs[|xs| - 1];
      CountOfDistinct(front, x);
      assert xs == front + [last];
      assert last !in front;
    }
  }

  function Without<T>(xs: seq<T>, k: nat): seq<T>
    requires k < |xs|
  {
    xs[..k] + xs[k + 1..]
  }

  lemma PutBack<T>(xs: seq<T>, k: nat)
    requires k < |xs|
    ensures xs == xs[..k] + [xs[k]] + xs[k + 1..]
  {
  }

  lemma WithoutOne<T>(xs: seq<T>, k: nat)
    requires k < |xs|
    ensures multiset(Without(xs, k)) == multiset(xs) - multiset{xs[k]} && |Without(xs, k)| == |xs| - 1
  {
    PutBack(xs, k);
  }

  /** Two places of a list are found again in any permutation of it. */
  lemma PairSurvives<T>(xs: seq<T>, ys: seq<T>, i: nat, j: nat) returns (p: nat, q: nat)
    requires multiset(xs) == multiset(ys) && i < |xs| && j < |xs| && i != j
    ensures p < |ys| && q < |ys| && p != q && ys[p] == xs[i] && ys[q] == xs[j]
  {
    SameElements(xs, ys);
    assert xs[i] in ys && xs[j] in ys;
    p :| 0 <= p < |ys| && ys[p] == xs[i];
    if xs[i] != xs[j] {
      q :| 0 <= q < |ys| && ys[q] == xs[j];
    } else {
      TwoPlacesCount(xs, i, j);
      q := SecondPlace(ys, p);
    }
  }

  lemma TwoPlacesCount<T>(xs: seq<T>, i: nat, j: nat)
    requires i < |xs| && j < |xs| && i != j && xs[i] == xs[j]
    ensures multiset(xs)[xs[i]] >= 2
  {
    var first, second := if i < j then i else j, if i < j then j else i;
    assert xs == xs[..second] + xs[second..];
    assert xs[first] in xs[..second] && xs[second] in xs[second..];
  }

  lemma SecondPlace<T>(ys: seq<T>, p: nat) returns (q: nat)
    requires p < |ys| && multiset(ys)[ys[p]] >= 2
    ensures q < |ys| && q != p && ys[q] == ys[p]
  {
    assert ys == ys[..p] + [ys[p]] + ys[p + 1..];
    if ys[p] in ys[..p] {
      q :| 0 <= q < p && ys[q] == ys[p];
    } else {
      assert ys[p] in multiset(ys[p + 1..]);
      assert ys[p] in ys[p + 1..];
      var k :| 0 <= k < |ys[p + 1..]| && ys[p + 1..][k] == ys[p];
      q := p + 1 + k;
    }
  }
}
