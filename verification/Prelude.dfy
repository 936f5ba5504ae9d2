/** Definitions shared by every layer: options, duplicate-free sequences, the stable sort and the
    shuffle the program takes from its run-time library, and counting facts about finite sets. */
module Prelude {

  datatype Option<+T> = None | Some(value: T)

  ghost predicate NoDup<T>(s: seq<T>) {
    forall i, j :: 0 <= i < j < |s| ==> s[i] != s[j]
  }

  ghost function Elements<T>(s: seq<T>): set<T> {
    set x | x in s
  }

  lemma ElementAt<T>(s: seq<T>, k: nat)
    requires k < |s|
    ensures s[k] in Elements(s)
  {
  }

  lemma LastIsNew<T>(s: seq<T>, k: nat)
    requires NoDup(s) && k < |s|
    ensures s[..k + 1] == s[..k] + [s[k]] && s[k] !in s[..k]
  {
  }

  /** Without repetition means: the front is, and the last element is new. */
  lemma NoDupSnoc<T>(front: seq<T>, last: T)
    ensures NoDup(front + [last]) <==> NoDup(front) && last !in front
  {
    var s := front + [last];
    assert forall i :: 0 <= i < |front| ==> s[i] == front[i];
    if last in front {
      var i :| 0 <= i < |front| && front[i] == last;
      assert s[i] == s[|front|];
    }
  }

  lemma ElementsSnoc<T>(s: seq<T>, x: T)
    ensures Elements(s + [x]) == Elements(s) + {x}
  {
    forall y ensures y in Elements(s + [x]) <==> y in Elements(s) + {x} {
      assert y in s + [x] <==> y in s || y == x;
    }
  }

  lemma ElementsConcat<T>(a: seq<T>, b: seq<T>)
    ensures Elements(a + b) == Elements(a) + Elements(b)
  {
    forall x ensures x in Elements(a + b) <==> x in Elements(a) + Elements(b) {
      assert x in a + b <==> x in a || x in b;
    }
  }

  function Min(a: int, b: int): int { if a <= b then a else b }

  lemma MinIs(a: int, b: int)
    ensures Min(a, b) == if a <= b then a else b
  {
  }

  function Max(a: int, b: int): int { if a >= b then a else b }

  // ---------------------------------------------------------------- permutations

  /** Two sequences with the same multiset have the same length and members, and are duplicate-free together. */
  lemma SameMultiset<T>(a: seq<T>, b: seq<T>)
    requires multiset(a) == multiset(b)
    ensures |a| == |b|
    ensures Elements(a) == Elements(b)
    ensures NoDup(a) ==> NoDup(b)
  {
    assert |multiset(a)| == |a| && |multiset(b)| == |b|;
    assert forall x :: x in a ==> x in multiset(b);
    assert forall x :: x in b ==> x in multiset(a);
    if NoDup(a) {
      forall i, j | 0 <= i < j < |b| ensures b[i] != b[j] {
        if b[i] == b[j] {
          TwiceMeansTwo(b, i, j);
          NoDupCountsOne(a, b[i]);
        }
      }
    }
  }

  lemma LastIn<T>(a: seq<T>, b: seq<T>) returns (k: nat)
    requires multiset(a) == multiset(b) && a != []
    ensures k < |b| && b[k] == a[|a| - 1] && multiset(a[..|a| - 1]) == multiset(b[..k] + b[k + 1..])
  {
    var n := |a| - 1;
    assert a[n] in multiset(a) && a[n] in multiset(b);
    k :| 0 <= k < |b| && b[k] == a[n];
    WithoutOne(b, k);
    WithoutOne(a, n);
    assert a[..n] + a[n + 1..] == a[..n];
  }

  lemma WithoutOne<T>(s: seq<T>, k: nat)
    requires k < |s|
    ensures multiset(s[..k] + s[k + 1..]) == multiset(s) - multiset{s[k]}
  {
    assert s == s[..k] + [s[k]] + s[k + 1..];
  }

  lemma RestOfPrefix<T>(s: seq<T>, k: nat)
    requires k < |s| - 1
    ensures var rest, n := s[..k] + s[k + 1..], |s| - 1;
      s[..n][..k] + s[..n][k + 1..] == rest[..|rest| - 1] && rest[|rest| - 1] == s[n] && s[..n][k] == s[k]
  {
  }

  lemma TwiceMeansTwo<T>(s: seq<T>, i: nat, j: nat)
    requires i < j < |s| && s[i] == s[j]
    ensures multiset(s)[s[i]] >= 2
  {
    assert s == s[..j] + s[j..];
    assert s[i] in s[..j] && s[j] in s[j..];
    assert multiset(s) == multiset(s[..j]) + multiset(s[j..]);
  }

  lemma NoDupCountsOne<T>(s: seq<T>, x: T)
    requires NoDup(s)
    ensures multiset(s)[x] <= 1
  {
    if s != [] {
      var front, last := s[..|s| - 1], s[|s| - 1];
      assert s == front + [last];
      NoDupCountsOne(front, x);
      if x == last { assert x !in front; }
    }
  }

  // ---------------------------------------------------------------- the shuffle

  /** One index for every position, none behind it. */
  ghost predicate ValidDraws(draws: seq<nat>, n: nat) {
    |draws| == n && forall j :: 0 <= j < n ==> draws[j] <= j
  }

  function Swapped<T>(s: seq<T>, i: nat, j: nat): (r: seq<T>)
    requires i < |s| && j < |s|
    ensures |r| == |s|
  {
    s[i := s[j]][j := s[i]]
  }

  /** The swaps of the positions below i, from the last one down to position 1, with the given draws. */
  ghost function Swaps<T>(s: seq<T>, i: nat, draws: seq<nat>): (r: seq<T>)
    requires i <= |s| && ValidDraws(draws, |s|)
    ensures |r| == |s|
    decreases i
  {
    if i <= 1 then s else Swaps(Swapped(s, i - 1, draws[i - 1]), i - 1, draws)
  }

  /** What the shuffle may return: the result of its swaps for some draws. */
  ghost predicate MayShuffle<T>(s: seq<T>, r: seq<T>) {
    exists draws :: ValidDraws(draws, |s|) && r == Swaps(s, |s|, draws)
  }

  lemma {:induction false} SwapsDepend<T>(s: seq<T>, i: nat, d: seq<nat>, e: seq<nat>)
    requires i <= |s| && ValidDraws(d, |s|) && ValidDraws(e, |s|) && forall j :: 0 <= j < i ==> d[j] == e[j]
    ensures Swaps(s, i, d) == Swaps(s, i, e)
    decreases i
  {
    if i > 1 { SwapsDepend(Swapped(s, i - 1, d[i - 1]), i - 1, d, e); }
  }

  lemma SwappedPermutes<T>(s: seq<T>, i: nat, j: nat)
    requires j <= i < |s|
    ensures multiset(Swapped(s, i, j)) == multiset(s)
    ensures multiset(Swapped(s, i, j)[..i]) == multiset(s[..i + 1]) - multiset{s[j]}
  {
    SwapKeepsAll(s, i, j);
    SwapKeepsAll(s[..i + 1], i, j);
    var r, q := Swapped(s, i, j), Swapped(s[..i + 1], i, j);
    assert q == r[..i] + [s[j]];
    assert multiset(q) == multiset(r[..i]) + multiset{s[j]};
  }

  lemma SwapKeepsAll<T>(s: seq<T>, i: nat, j: nat)
    requires i < |s| && j < |s|
    ensures multiset(Swapped(s, i, j)) == multiset(s)
  {
  }

  lemma {:induction false} SwapsPermute<T>(s: seq<T>, i: nat, draws: seq<nat>)
    requires i <= |s| && ValidDraws(draws, |s|)
    ensures multiset(Swaps(s, i, draws)) == multiset(s)
    decreases i
  {
    if i > 1 {
      SwappedPermutes(s, i - 1, draws[i - 1]);
      SwapsPermute(Swapped(s, i - 1, draws[i - 1]), i - 1, draws);
    }
  }

  /** r reorders the first i entries of s and keeps the others. */
  ghost predicate ReordersFront<T>(s: seq<T>, r: seq<T>, i: nat) {
    i <= |s| == |r| && multiset(s[..i]) == multiset(r[..i]) && s[i..] == r[i..]
  }

  /** Draws that turn s into r. */
  lemma {:induction false} DrawsFor<T>(s: seq<T>, r: seq<T>, i: nat) returns (draws: seq<nat>)
    requires i <= |s| && ReordersFront(s, r, i)
    ensures ValidDraws(draws, |s|) && Swaps(s, i, draws) == r
    decreases i
  {
    hide *;
    if i <= 1 {
      draws := NoDraws(|s|);
      NoDraw(s, r, i, draws);
    } else {
      var j := PlaceOf(s, r, i);
      NextDraw(s, r, i, j);
      var rest := DrawsFor(Swapped(s, i - 1, j), r, i - 1);
      draws := DrawFirst(s, i, j, rest);
    }
  }

  lemma NoDraws(n: nat) returns (draws: seq<nat>)
    ensures ValidDraws(draws, n)
  {
    draws := seq(n, _ => 0);
  }

  lemma NoDraw<T>(s: seq<T>, r: seq<T>, i: nat, draws: seq<nat>)
    requires i <= 1 && i <= |s| && ReordersFront(s, r, i) && ValidDraws(draws, |s|)
    ensures Swaps(s, i, draws) == r
  {
    OnlyOrder(s[..i], r[..i]);
    assert s == s[..i] + s[i..] && r == r[..i] + r[i..];
  }

  /** The draws rest, with j for position i - 1. */
  lemma DrawFirst<T>(s: seq<T>, i: nat, j: nat, rest: seq<nat>) returns (draws: seq<nat>)
    requires 1 < i <= |s| && j < i && ValidDraws(rest, |s|)
    ensures ValidDraws(draws, |s|) && Swaps(s, i, draws) == Swaps(Swapped(s, i - 1, j), i - 1, rest)
  {
    hide Swapped;
    draws := rest[i - 1 := j];
    SwapsDepend(Swapped(s, i - 1, j), i - 1, rest, draws);
  }

  lemma PlaceOf<T>(s: seq<T>, r: seq<T>, i: nat) returns (j: nat)
    requires 0 < i <= |s| && ReordersFront(s, r, i)
    ensures j < i && i <= |r| && s[j] == r[i - 1]
  {
    assert r[..i][i - 1] in multiset(r[..i]);
    assert r[i - 1] in multiset(s[..i]);
    j :| 0 <= j < i && s[..i][j] == r[i - 1];
  }

  lemma NextDraw<T>(s: seq<T>, r: seq<T>, i: nat, j: nat)
    requires 0 < i <= |s| && ReordersFront(s, r, i) && j < i && i <= |r| && s[j] == r[i - 1]
    ensures ReordersFront(Swapped(s, i - 1, j), r, i - 1)
  {
    hide Swapped;
    var k := i - 1;
    SwappedPermutes(s, k, j);
    SwapTail(s, k, j);
    LastApart(r, i);
    assert multiset(r[..i]) == multiset(r[..k]) + multiset{r[k]};
    assert multiset(Swapped(s, k, j)[..k]) == multiset(r[..k]);
  }

  lemma LastApart<T>(r: seq<T>, i: nat)
    requires 0 < i <= |r|
    ensures r[..i] == r[..i - 1] + [r[i - 1]] && r[i - 1..] == [r[i - 1]] + r[i..]
  {
  }

  lemma SwapTail<T>(s: seq<T>, i: nat, j: nat)
    requires j <= i < |s|
    ensures Swapped(s, i, j)[i..] == [s[j]] + s[i + 1..]
  {
  }

  lemma OnlyOrder<T>(a: seq<T>, b: seq<T>)
    requires multiset(a) == multiset(b) && |a| == |b| <= 1
    ensures a == b
  {
    if |a| == 1 { assert a[0] in multiset(b); }
  }

  /** The shuffle may return every permutation of its input, and nothing else. */
  lemma MayShuffleIff<T>(s: seq<T>, r: seq<T>)
    ensures MayShuffle(s, r) <==> multiset(r) == multiset(s)
  {
    hide Swaps;
    if MayShuffle(s, r) {
      var draws :| ValidDraws(draws, |s|) && r == Swaps(s, |s|, draws);
      SwapsPermute(s, |s|, draws);
    }
    if multiset(r) == multiset(s) {
      SameMultiset(s, r);
      assert s[..|s|] == s && r[..|r|] == r && ReordersFront(s, r, |s|);
      var draws := DrawsFor(s, r, |s|);
    }
  }

  /** Whatever is drawn for the positions up to i, the swaps still lead from arr to where they lead from s. */
  ghost predicate OnTheWay<T>(arr: seq<T>, s: seq<T>, i: nat, d: seq<nat>) {
    && i <= |arr| == |s| && ValidDraws(d, |arr|)
    && forall e :: ValidDraws(e, |arr|) && (forall j :: i <= j < |arr| ==> e[j] == d[j]) ==>
         Swaps(arr, |arr|, e) == Swaps(s, i, e)
  }

  lemma OneSwap<T>(arr: seq<T>, s: seq<T>, i: nat, d: seq<nat>, j: nat)
    requires OnTheWay(arr, s, i + 1, d) && 0 < i && j <= i
    ensures OnTheWay(arr, Swapped(s, i, j), i, d[i := j])
  {
    var d' := d[i := j];
    forall e | ValidDraws(e, |arr|) && (forall k :: i <= k < |arr| ==> e[k] == d'[k])
      ensures Swaps(arr, |arr|, e) == Swaps(Swapped(s, i, j), i, e) {
      assert e[i] == j;
      assert forall k :: i + 1 <= k < |arr| ==> e[k] == d[k];
    }
  }

  /** Fisher-Yates over a copy; every random draw is an arbitrary index, so callers see an arbitrary permutation. */
  method FisherYatesShuffle<T>(arr: seq<T>) returns (result: seq<T>)
    ensures multiset(result) == multiset(arr)
    ensures MayShuffle(arr, result)
  {
    result := arr;
    ghost var draws: seq<nat> := seq(|arr|, _ => 0);
    hide Swaps;
    var i := |result| - 1;
    while i > 0
      invariant -1 <= i < |result| && OnTheWay(arr, result, i + 1, draws)
    {
      var j :| 0 <= j <= i;
      OneSwap(arr, result, i, draws, j);
      result, draws := result[i := result[j]][j := result[i]], draws[i := j];
      i := i - 1;
    }
    LastSwap(arr, result, i + 1, draws);
    MayShuffleIff(arr, result);
  }

  lemma LastSwap<T>(arr: seq<T>, s: seq<T>, i: nat, d: seq<nat>)
    requires OnTheWay(arr, s, i, d) && i <= 1
    ensures ValidDraws(d, |arr|) && s == Swaps(arr, |arr|, d)
  {
    assert Swaps(s, i, d) == s;
  }

  /** Math.floor(Math.random() * n). */
  method RandomIndex(n: nat) returns (i: nat)
    requires n > 0
    ensures i < n
  {
    i :| 0 <= i < n;
  }

  /** The next element of a JavaScript Set, in an order left open. */
  method NextOf<T>(s: set<T>) returns (x: T)
    requires s != {}
    ensures x in s
  {
    x :| x in s;
  }

  // ---------------------------------------------------------------- stable sort

  ghost predicate SortedBy<T>(s: seq<T>, key: T -> int) {
    forall i, j :: 0 <= i < j < |s| ==> key(s[i]) <= key(s[j])
  }

  /** Insert x after every element whose key is not larger. */
  function InsertBy<T>(x: T, s: seq<T>, key: T -> int): (r: seq<T>)
    ensures multiset(r) == multiset(s) + multiset{x}
  {
    if s == [] then [x]
    else if key(s[|s| - 1]) <= key(x) then s + [x]
    else
      assert s == s[..|s| - 1] + [s[|s| - 1]];
      InsertBy(x, s[..|s| - 1], key) + [s[|s| - 1]]
  }

  /** Array.prototype.sort by an integer key: stable, and a permutation of its input. */
  function StableSort<T>(s: seq<T>, key: T -> int): (r: seq<T>)
    ensures multiset(r) == multiset(s)
  {
    if s == [] then []
    else
      assert s == s[..|s| - 1] + [s[|s| - 1]];
      InsertBy(s[|s| - 1], StableSort(s[..|s| - 1], key), key)
  }

  lemma {:induction false} InsertSorted<T>(x: T, s: seq<T>, key: T -> int)
    requires SortedBy(s, key)
    ensures SortedBy(InsertBy(x, s, key), key)
  {
    if s != [] && key(s[|s| - 1]) > key(x) {
      var front, last := s[..|s| - 1], s[|s| - 1];
      InsertSorted(x, front, key);
      var r := InsertBy(x, front, key);
      forall k | 0 <= k < |r| ensures key(r[k]) <= key(last) {
        assert r[k] in multiset(front) + multiset{x};
        if r[k] != x { assert r[k] in front; }
      }
    }
  }

  lemma {:induction false} StableSortSorts<T>(s: seq<T>, key: T -> int)
    ensures SortedBy(StableSort(s, key), key)
  {
    if s != [] {
      StableSortSorts(s[..|s| - 1], key);
      InsertSorted(s[|s| - 1], StableSort(s[..|s| - 1], key), key);
    }
  }

  /** a is listed before b. */
  ghost predicate Precedes<T>(s: seq<T>, a: T, b: T) {
    exists i, j :: 0 <= i < j < |s| && s[i] == a && s[j] == b
  }

  lemma PrecedesGrows<T>(s: seq<T>, x: T, a: T, b: T)
    ensures Precedes(s, a, b) ==> Precedes(s + [x], a, b)
    ensures a in s ==> Precedes(s + [x], a, x)
  {
    var t := s + [x];
    if Precedes(s, a, b) {
      var i, j :| 0 <= i < j < |s| && s[i] == a && s[j] == b;
      assert t[i] == a && t[j] == b;
    }
    if a in s {
      var i :| 0 <= i < |s| && s[i] == a;
      assert t[i] == a && t[|s|] == x;
    }
  }

  lemma PrecedesOneWay<T>(s: seq<T>, a: T, b: T)
    requires NoDup(s) && Precedes(s, a, b)
    ensures a != b && !Precedes(s, b, a)
  {
  }

  /** a has the smaller key, or the same key and is listed first in s. */
  ghost predicate ComesFirst<T>(s: seq<T>, key: T -> int, a: T, b: T) {
    key(a) < key(b) || (key(a) == key(b) && Precedes(s, a, b))
  }

  /** r is ordered by the key, and entries of one key are listed as in s. */
  ghost predicate StablyOrdered<T>(r: seq<T>, s: seq<T>, key: T -> int) {
    forall i, j :: 0 <= i < j < |r| ==> ComesFirst(s, key, r[i], r[j])
  }

  lemma StableSnoc<T>(r: seq<T>, x: T, s: seq<T>, key: T -> int)
    requires StablyOrdered(r, s, key) && forall i :: 0 <= i < |r| ==> ComesFirst(s, key, r[i], x)
    ensures StablyOrdered(r + [x], s, key)
  {
    hide ComesFirst;
  }

  lemma {:induction false} InsertStable<T>(x: T, r: seq<T>, s: seq<T>, key: T -> int)
    requires StablyOrdered(r, s, key) && forall i :: 0 <= i < |r| ==> Precedes(s, r[i], x)
    ensures StablyOrdered(InsertBy(x, r, key), s, key)
    ensures forall i :: 0 <= i < |InsertBy(x, r, key)| ==> InsertBy(x, r, key)[i] == x || InsertBy(x, r, key)[i] in r
  {
    hide Precedes;
    if r != [] {
      var front, last := r[..|r| - 1], r[|r| - 1];
      if key(last) <= key(x) {
        forall i | 0 <= i < |r| ensures ComesFirst(s, key, r[i], x) {
          if i < |r| - 1 { assert ComesFirst(s, key, r[i], last); }
        }
        StableSnoc(r, x, s, key);
      } else {
        InsertStable(x, front, s, key);
        var t := InsertBy(x, front, key);
        forall i | 0 <= i < |t| ensures ComesFirst(s, key, t[i], last) {
          if t[i] != x {
            var k :| 0 <= k < |front| && front[k] == t[i];
            assert ComesFirst(s, key, r[k], last);
          }
        }
        StableSnoc(t, last, s, key);
      }
    }
  }

  lemma StableGrows<T>(r: seq<T>, s: seq<T>, x: T, key: T -> int)
    requires StablyOrdered(r, s, key)
    ensures StablyOrdered(r, s + [x], key)
  {
    forall i, j | 0 <= i < j < |r| ensures ComesFirst(s + [x], key, r[i], r[j]) {
      assert ComesFirst(s, key, r[i], r[j]);
      PrecedesGrows(s, x, r[i], r[j]);
    }
  }

  /** The sort is stable. */
  lemma {:induction false} StableSortStable<T>(s: seq<T>, key: T -> int)
    ensures StablyOrdered(StableSort(s, key), s, key)
  {
    if s != [] {
      var front, x := s[..|s| - 1], s[|s| - 1];
      StableSortStable(front, key);
      var r := StableSort(front, key);
      assert s == front + [x];
      SortedMembers(front, key);
      hide StablyOrdered, Precedes, ComesFirst;
      StableGrows(r, front, x, key);
      forall i | 0 <= i < |r| ensures Precedes(s, r[i], x) {
        PrecedesGrows(front, x, r[i], x);
      }
      InsertStable(x, r, s, key);
    }
  }

  lemma SortedMembers<T>(s: seq<T>, key: T -> int)
    ensures forall i :: 0 <= i < |StableSort(s, key)| ==> StableSort(s, key)[i] in s
  {
    var r := StableSort(s, key);
    forall i | 0 <= i < |r| ensures r[i] in s {
      assert r[i] in multiset(r);
    }
  }

  // ---------------------------------------------------------------- counting

  lemma Member<T>(s: set<T>) returns (x: T)
    requires s != {}
    ensures x in s
  {
    x :| x in s;
  }

  /** A set that maps injectively into another is no larger. */
  lemma {:induction false} InjectionBound<A, B>(a: set<A>, m: map<A, B>, b: set<B>)
    requires a <= m.Keys
    requires forall x :: x in a ==> m[x] in b
    requires forall x, y :: x in a && y in a && x != y ==> m[x] != m[y]
    ensures |a| <= |b|
  {
    if a != {} {
      var x :| x in a;
      InjectionBound(a - {x}, m, b - {m[x]});
    }
  }

  lemma SubsetBound<A>(a: set<A>, b: set<A>)
    requires a <= b
    ensures |a| <= |b|
  {
    assert b == a + (b - a);
  }

  lemma SplitSize<A>(a: set<A>, b: set<A>)
    ensures |a| == |a * b| + |a - b|
  {
    assert a == a * b + (a - b);
  }

  lemma SubsetSameSize<A>(a: set<A>, b: set<A>)
    requires a <= b && |a| == |b|
    ensures a == b
  {
    if x :| x in b && x !in a {
      SubsetBound(a, b - {x});
    }
  }

  lemma {:induction false} NoDupSize<T>(s: seq<T>)
    requires NoDup(s)
    ensures |Elements(s)| == |s|
  {
    if s != [] {
      var front, last := s[..|s| - 1], s[|s| - 1];
      NoDupSize(front);
      assert Elements(s) == Elements(front) + {last};
      assert last !in front;
    }
  }
}
