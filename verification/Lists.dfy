/** Lists without repetitions, and sorting by a key. */
module Lists {
  ghost predicate NoRepeats<T>(xs: seq<T>) {
    forall i, j :: 0 <= i < j < |xs| ==> xs[i] != xs[j]
  }

  lemma NoRepeatsConcat<T>(a: seq<T>, b: seq<T>)
    requires NoRepeats(a) && NoRepeats(b) && forall x :: x in a ==> x !in b
    ensures NoRepeats(a + b)
  {
    var c := a + b;
    forall i, j | 0 <= i < j < |c| ensures c[i] != c[j] {
      if i < |a| <= j {
        assert c[i] in a && c[j] in b;
      }
    }
  }

  lemma Regroup<T>(a: seq<T>, b: seq<T>, c: seq<T>)
    ensures a + b + c == a + (b + c)
  {
  }

  lemma SameElements<T>(xs: seq<T>, ys: seq<T>)
    requires multiset(xs) == multiset(ys)
    ensures forall x :: x in xs <==> x in ys
    ensures |xs| == |ys|
  {
    assert forall x :: x in xs <==> x in multiset(xs);
    assert forall x :: x in ys <==> x in multiset(ys);
    assert |multiset(xs)| == |xs| && |multiset(ys)| == |ys|;
  }

  // ------------------------------------------------------------------ order by a key

  ghost predicate Sorted<T>(key: T -> int, xs: seq<T>) {
    forall i, j :: 0 <= i < j < |xs| ==> key(xs[i]) <= key(xs[j])
  }

  ghost predicate Ascending<T>(key: T -> int, xs: seq<T>) {
    forall i, j :: 0 <= i < j < |xs| ==> key(xs[i]) < key(xs[j])
  }

  ghost predicate DistinctKeys<T>(key: T -> int, xs: seq<T>) {
    forall i, j :: 0 <= i < j < |xs| ==> key(xs[i]) != key(xs[j])
  }

  function Insert<T>(key: T -> int, x: T, xs: seq<T>): (r: seq<T>)
    ensures r != []
    ensures xs == [] ==> r[0] == x
    ensures xs != [] ==> r[0] == if key(x) <= key(xs[0]) then x else xs[0]
  {
    if xs == [] then [x]
    else if key(x) <= key(xs[0]) then [x] + xs
    else [xs[0]] + Insert(key, x, xs[1..])
  }

  /** Sorted, stated step by step. */
  predicate Stepwise<T>(key: T -> int, xs: seq<T>) {
    |xs| <= 1 || (key(xs[0]) <= key(xs[1]) && Stepwise(key, xs[1..]))
  }

  lemma {:induction false} StepwiseSorted<T>(key: T -> int, xs: seq<T>)
    requires Stepwise(key, xs)
    ensures Sorted(key, xs)
  {
    if |xs| > 1 {
      StepwiseSorted(key, xs[1..]);
      assert forall k :: 1 <= k < |xs| ==> xs[k] == xs[1..][k - 1];
    }
  }

  lemma {:induction false} InsertStepwise<T>(key: T -> int, x: T, xs: seq<T>)
    requires Stepwise(key, xs)
    ensures Stepwise(key, Insert(key, x, xs))
  {
    if xs != [] {
      if key(x) <= key(xs[0]) {
        assert ([x] + xs)[1..] == xs;
      } else {
        var rest := Insert(key, x, xs[1..]);
        InsertStepwise(key, x, xs[1..]);
        assert ([xs[0]] + rest)[1..] == rest;
      }
    }
  }

  lemma {:induction false} InsertKeeps<T>(key: T -> int, x: T, xs: seq<T>)
    ensures multiset(Insert(key, x, xs)) == multiset(xs) + multiset{x}
  {
    if xs != [] {
      InsertKeeps(key, x, xs[1..]);
      assert xs == [xs[0]] + xs[1..];
    }
  }

  function SortBy<T>(key: T -> int, xs: seq<T>): (r: seq<T>) {
    if xs == [] then [] else Insert(key, xs[0], SortBy(key, xs[1..]))
  }

  lemma NothingToSort<T>(key: T -> int)
    ensures Stepwise(key, [])
  {
  }

  lemma {:induction false} SortLaw<T>(key: T -> int, xs: seq<T>)
    ensures Stepwise(key, SortBy(key, xs)) && Sorted(key, SortBy(key, xs))
    ensures multiset(SortBy(key, xs)) == multiset(xs)
  {
    hide Stepwise, Insert;
    if xs != [] {
      SortLaw(key, xs[1..]);
      InsertStepwise(key, xs[0], SortBy(key, xs[1..]));
      InsertKeeps(key, xs[0], SortBy(key, xs[1..]));
      assert xs == [xs[0]] + xs[1..];
    } else {
      NothingToSort(key);
    }
    StepwiseSorted(key, SortBy(key, xs));
  }

  /** Any sort; nothing but sortedness and the multiset of elements is promised. */
  method Sort<T>(key: T -> int, xs: seq<T>) returns (ys: seq<T>)
    ensures Sorted(key, ys) && multiset(ys) == multiset(xs)
  {
    SortLaw(key, xs);
    ys := SortBy(key, xs);
  }

  // ------------------------------------------------------------------ distinct keys

  lemma {:induction false} DistinctStays<T>(key: T -> int, xs: seq<T>, ys: seq<T>)
    requires DistinctKeys(key, xs) && multiset(xs) == multiset(ys) && Sorted(key, ys)
    ensures Ascending(key, ys)
  {
    forall i, j | 0 <= i < j < |ys| ensures key(ys[i]) < key(ys[j]) {
      if key(ys[i]) == key(ys[j]) {
        SameElements(xs, ys);
        assert ys[i] in ys && ys[j] in ys;
        var a :| 0 <= a < |xs| && xs[a] == ys[i];
        var b :| 0 <= b < |xs| && xs[b] == ys[j];
        assert a == b;
        TwiceOnce(ys, i, j);
        OnceOnly(key, xs, a);
      }
    }
  }

  lemma TwiceOnce<T>(ys: seq<T>, i: nat, j: nat)
    requires i < j < |ys| && ys[i] == ys[j]
    ensures multiset(ys)[ys[i]] >= 2
  {
    assert ys == ys[..i] + [ys[i]] + ys[i + 1..j] + [ys[j]] + ys[j + 1..];
  }

  lemma OnceOnly<T>(key: T -> int, xs: seq<T>, a: nat)
    requires DistinctKeys(key, xs) && a < |xs|
    ensures multiset(xs)[xs[a]] == 1
  {
    assert xs == xs[..a] + [xs[a]] + xs[a + 1..];
    assert xs[a] !in xs[..a] && xs[a] !in xs[a + 1..];
    assert xs[a] !in multiset(xs[..a]) && xs[a] !in multiset(xs[a + 1..]);
  }

  /** Ascending lists with the same elements are equal. */
  lemma {:induction false} AscendingUnique<T(!new)>(key: T -> int, xs: seq<T>, ys: seq<T>)
    requires Ascending(key, xs) && Ascending(key, ys) && forall e :: e in xs <==> e in ys
    ensures xs == ys
    decreases |xs|
  {
    assert ys != [] ==> ys[0] in ys;
    if xs != [] {
      assert xs[0] in ys && ys != [] && ys[0] in xs;
      assert xs[0] == ys[0];
      forall e ensures e in xs[1..] <==> e in ys[1..] {
        assert xs == [xs[0]] + xs[1..] && ys == [ys[0]] + ys[1..];
        if e in xs[1..] { assert e in ys && e != ys[0]; }
        if e in ys[1..] { assert e in xs && e != xs[0]; }
      }
      AscendingUnique(key, xs[1..], ys[1..]);
    }
  }

  /** With distinct keys there is only one way to be sorted, so stability does not matter. */
  lemma SortIsUnique<T(!new)>(key: T -> int, xs: seq<T>, ys: seq<T>)
    requires DistinctKeys(key, xs) && Sorted(key, ys) && multiset(ys) == multiset(xs)
    ensures Ascending(key, ys) && ys == SortBy(key, xs)
  {
    SortLaw(key, xs);
    DistinctStays(key, xs, ys);
    DistinctStays(key, xs, SortBy(key, xs));
    SameElements(ys, SortBy(key, xs));
    AscendingUnique(key, ys, SortBy(key, xs));
  }
}
