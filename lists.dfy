/** Generic list comprehensions the pipeline is built from. */
module Lists {
  import opened Options
  import opened Sorting

  function Identity<T>(x: T): T { x }

  /** `[f(x) for x in s]` */
  function Map<T, U>(s: seq<T>, f: T -> U): (r: seq<U>)
    ensures |r| == |s| && forall i :: 0 <= i < |s| ==> r[i] == f(s[i])
  {
    seq(|s|, i requires 0 <= i < |s| => f(s[i]))
  }

  lemma MapIdentity<T>(s: seq<T>)
    ensures Map(s, Identity) == s
  {
  }

  /** Mapping a key-preserving function over a list commutes with one insertion step of the sort. */
  lemma {:induction false} InsertMap<T>(x: T, s: seq<T>, key: T -> seq<real>, f: T -> T)
    requires forall y :: key(f(y)) == key(y)
    ensures Map(Insert(x, s, key), f) == Insert(f(x), Map(s, f), key)
    decreases |s|
  {
    var m := Map(s, f);
    if |s| == 0 {
      MapCons(x, [], f);
    } else {
      assert key(f(s[0])) == key(s[0]) && key(f(x)) == key(x);
      assert s == [s[0]] + s[1..];
      MapCons(s[0], s[1..], f);
      if LexLe(key(s[0]), key(x)) {
        var rest := Insert(x, s[1..], key);
        InsertMap(x, s[1..], key, f);
        MapCons(s[0], rest, f);
      } else {
        MapCons(x, s, f);
      }
    }
  }

  /** Mapping a key-preserving function over a list commutes with the stable sort. */
  lemma {:induction false} SortByMap<T>(s: seq<T>, key: T -> seq<real>, f: T -> T)
    requires forall y :: key(f(y)) == key(y)
    ensures Map(SortBy(s, key), f) == SortBy(Map(s, f), key)
    decreases |s|
  {
    if |s| > 0 {
      var init := s[..|s| - 1];
      SortByMap(init, key, f);
      InsertMap(s[|s| - 1], SortBy(init, key), key, f);
      assert Map(s, f)[..|s| - 1] == Map(init, f);
    }
  }

  lemma MapCons<T, U>(x: T, s: seq<T>, f: T -> U)
    ensures Map([x] + s, f) == [f(x)] + Map(s, f)
  {
  }

  lemma MapAppend<T, U>(a: seq<T>, b: seq<T>, f: T -> U)
    ensures Map(a + b, f) == Map(a, f) + Map(b, f)
  {
  }

  /** Mapping two permutations of each other gives permutations of each other. */
  lemma {:induction false} MapPermutation<T, U>(a: seq<T>, b: seq<T>, f: T -> U)
    requires multiset(a) == multiset(b)
    ensures multiset(Map(a, f)) == multiset(Map(b, f))
    decreases |a|
  {
    if |a| > 0 {
      var k := PermutationStep(a, b);
      MapPermutation(a[..|a| - 1], b[..k] + b[k + 1..], f);
      MapDropAt(b, k, f);
      MapDropAt(a, |a| - 1, f);
      assert a[..|a| - 1] + a[|a|..] == a[..|a| - 1];
    }
  }

  /** Where the last element of `a` sits in a permutation `b`, and what is left on both sides without it. */
  lemma PermutationStep<T>(a: seq<T>, b: seq<T>) returns (k: nat)
    requires multiset(a) == multiset(b) && |a| > 0
    ensures k < |b| && b[k] == a[|a| - 1]
    ensures multiset(a[..|a| - 1]) == multiset(b[..k] + b[k + 1..])
  {
    var init, x := a[..|a| - 1], a[|a| - 1];
    assert a == init + [x];
    assert multiset(init) == multiset(a) - multiset{x};
    assert x in multiset(b);
    k :| 0 <= k < |b| && b[k] == x;
    MultisetDropAt(b, k);
  }

  lemma MapDropAt<T, U>(b: seq<T>, k: nat, f: T -> U)
    requires k < |b|
    ensures multiset(Map(b, f)) == multiset(Map(b[..k] + b[k + 1..], f)) + multiset{f(b[k])}
  {
    var left, right := b[..k], b[k + 1..];
    SplitAt(b, k);
    MapAppend(left + [b[k]], right, f);
    MapAppend(left, [b[k]], f);
    MapAppend(left, right, f);
  }

  /** `[x for x in s if keep(x)]` */
  function Filter<T>(s: seq<T>, keep: T -> bool): seq<T> {
    FilterMap(s, keep, Identity)
  }

  /** The index of the first element satisfying `p`, or -1. */
  function FindIndex<T>(s: seq<T>, p: T -> bool): (r: int)
    ensures -1 <= r < |s|
    ensures r == -1 <==> forall i :: 0 <= i < |s| ==> !p(s[i])
    ensures r >= 0 ==> p(s[r]) && forall j :: 0 <= j < r ==> !p(s[j])
    decreases |s|
  {
    if |s| == 0 then -1
    else if p(s[0]) then 0
    else var k := FindIndex(s[1..], p); if k == -1 then -1 else k + 1
  }

  /** A search loop that stops at `i` found the first match. */
  lemma FindAt<T>(s: seq<T>, p: T -> bool, i: nat)
    requires i < |s| && p(s[i]) && forall j :: 0 <= j < i ==> !p(s[j])
    ensures Find(s, p) == Some(s[i])
  {
  }

  /** One more element that fails `p` extends a search loop's invariant. */
  lemma SearchStep<T>(s: seq<T>, p: T -> bool, i: nat)
    requires i < |s| && !p(s[i]) && forall j :: 0 <= j < i ==> !p(s[j])
    ensures forall j :: 0 <= j < i + 1 ==> !p(s[j])
  {
  }

  /** A search loop that runs to the end found nothing. */
  lemma FindNone<T>(s: seq<T>, p: T -> bool)
    requires forall j :: 0 <= j < |s| ==> !p(s[j])
    ensures Find(s, p) == None
  {
  }

  /** A search over a list holding a match finds one of its elements that matches. */
  lemma FindSome<T>(s: seq<T>, p: T -> bool, i: nat)
    requires i < |s| && p(s[i])
    ensures Find(s, p).Some? && Find(s, p).value in s && p(Find(s, p).value)
  {
  }

  /** `next((x for x in s if p(x)), None)` */
  function Find<T>(s: seq<T>, p: T -> bool): Option<T> {
    var k := FindIndex(s, p);
    if k == -1 then None else Some(s[k])
  }

  /** `[f(x) for x in s if keep(x)]` */
  function FilterMap<T, U>(s: seq<T>, keep: T -> bool, f: T -> U): (r: seq<U>)
    ensures |r| <= |s|
  {
    if |s| == 0 then []
    else FilterMap(s[..|s| - 1], keep, f) + (if keep(s[|s| - 1]) then [f(s[|s| - 1])] else [])
  }

  lemma FilterMapSnoc<T, U>(s: seq<T>, i: nat, keep: T -> bool, f: T -> U)
    requires i < |s|
    ensures FilterMap(s[..i + 1], keep, f) == FilterMap(s[..i], keep, f) + (if keep(s[i]) then [f(s[i])] else [])
  {
    assert s[..i + 1][..i] == s[..i];
  }

  /** One loop turn: the comprehension grows by `f(s[i])` exactly when the known verdict `k` on `s[i]` keeps it. */
  lemma FilterMapStep<T, U>(s: seq<T>, i: nat, keep: T -> bool, f: T -> U, acc: seq<U>, k: bool)
    requires i < |s| && acc == FilterMap(s[..i], keep, f) && k == keep(s[i])
    ensures FilterMap(s[..i + 1], keep, f) == if k then acc + [f(s[i])] else acc
  {
    FilterMapSnoc(s, i, keep, f);
  }

  /** The comprehension read from the front: the first element, then the rest. */
  lemma {:induction false} FilterMapCons<T, U>(x: T, s: seq<T>, keep: T -> bool, f: T -> U)
    ensures FilterMap([x] + s, keep, f) == (if keep(x) then [f(x)] else []) + FilterMap(s, keep, f)
    decreases |s|
  {
    if |s| == 0 {
      assert ([x] + s)[..0] == [];
    } else {
      var init := s[..|s| - 1];
      FilterMapCons(x, init, keep, f);
      assert ([x] + s)[..|[x] + s| - 1] == [x] + init;
    }
  }

  /** The filtered list holds exactly the images of the kept elements, in order. */
  lemma {:induction false} FilterMapMembers<T, U>(s: seq<T>, keep: T -> bool, f: T -> U)
    ensures forall y :: y in FilterMap(s, keep, f) ==> exists i :: 0 <= i < |s| && keep(s[i]) && y == f(s[i])
    ensures forall i :: 0 <= i < |s| && keep(s[i]) ==> f(s[i]) in FilterMap(s, keep, f)
  {
    if |s| > 0 {
      var init := s[..|s| - 1];
      FilterMapMembers(init, keep, f);
      assert forall i :: 0 <= i < |init| ==> init[i] == s[i];
      var ri := FilterMap(init, keep, f);
      forall y | y in FilterMap(s, keep, f)
        ensures exists i :: 0 <= i < |s| && keep(s[i]) && y == f(s[i])
      {
        if y in ri {
          var i :| 0 <= i < |init| && keep(init[i]) && y == f(init[i]);
          assert s[i] == init[i];
        } else {
          assert keep(s[|s| - 1]) && y == f(s[|s| - 1]);
        }
      }
      forall i | 0 <= i < |s| && keep(s[i])
        ensures f(s[i]) in FilterMap(s, keep, f)
      {
        if i < |init| {
          assert init[i] == s[i];
          assert f(s[i]) in ri;
        }
      }
    }
  }

  /** The comprehension keeps the order of the list: a relation holding between kept elements in list order holds between their images in the result. */
  lemma {:induction false} FilterMapOrder<T, U>(s: seq<T>, keep: T -> bool, f: T -> U, rel: (U, U) -> bool)
    requires forall a, b :: 0 <= a < b < |s| && keep(s[a]) && keep(s[b]) ==> rel(f(s[a]), f(s[b]))
    ensures forall i, j :: 0 <= i < j < |FilterMap(s, keep, f)| ==> rel(FilterMap(s, keep, f)[i], FilterMap(s, keep, f)[j])
  {
    if |s| > 0 {
      var init := s[..|s| - 1];
      var last := |s| - 1;
      assert forall a :: 0 <= a < |init| ==> init[a] == s[a];
      FilterMapOrder(init, keep, f, rel);
      FilterMapMembers(init, keep, f);
      var ri := FilterMap(init, keep, f);
      var r := FilterMap(s, keep, f);
      forall i, j | 0 <= i < j < |r|
        ensures rel(r[i], r[j])
      {
        if j >= |ri| {
          assert ri[i] in ri;
          var a :| 0 <= a < |init| && keep(init[a]) && ri[i] == f(init[a]);
          assert keep(s[last]) && r[j] == f(s[last]);
        }
      }
    }
  }

  /** Nothing survives a filter that every element fails. */
  lemma {:induction false} FilterMapNone<T, U>(s: seq<T>, keep: T -> bool, f: T -> U)
    requires forall i :: 0 <= i < |s| ==> !keep(s[i])
    ensures FilterMap(s, keep, f) == []
  {
    if |s| > 0 {
      FilterMapNone(s[..|s| - 1], keep, f);
    }
  }

  lemma FilterNone<T>(s: seq<T>, keep: T -> bool)
    requires forall i :: 0 <= i < |s| ==> !keep(s[i])
    ensures Filter(s, keep) == []
  {
    FilterMapNone(s, keep, Identity);
  }

  /** The head of any sort of a filtered list is the image of a kept element. */
  lemma SortedHead<T, U>(s: seq<T>, keep: T -> bool, f: T -> U, key: U -> seq<real>)
    ensures |FilterMap(s, keep, f)| > 0 <==> exists i :: 0 <= i < |s| && keep(s[i])
    ensures |FilterMap(s, keep, f)| > 0 ==>
      exists i :: 0 <= i < |s| && keep(s[i]) && SortBy(FilterMap(s, keep, f), key)[0] == f(s[i])
  {
    var r := FilterMap(s, keep, f);
    FilterMapMembers(s, keep, f);
    if |r| > 0 {
      var best := SortBy(r, key)[0];
      assert best in multiset(SortBy(r, key));
      assert best in r;
    }
  }

  /** The first element of the sorted list that satisfies `p` has the least key among all such elements. */
  lemma FindSortedLeast<T>(s: seq<T>, p: T -> bool, key: T -> seq<real>)
    ensures Find(SortBy(s, key), p).None? <==> forall x :: x in s ==> !p(x)
    ensures Find(SortBy(s, key), p).Some? ==>
      var x := Find(SortBy(s, key), p).value;
      x in s && p(x) && forall y :: y in s && p(y) ==> LexLe(key(x), key(y))
  {
    var t := SortBy(s, key);
    assert forall x :: x in s <==> x in multiset(t);
    SortBySorted(s, key);
    var k := FindIndex(t, p);
    if k >= 0 {
      forall y | y in s && p(y)
        ensures LexLe(key(t[k]), key(y))
      {
        assert y in t;
        var m :| 0 <= m < |t| && t[m] == y;
        if m == k {
          LexLeRefl(key(y));
        }
      }
    } else {
      forall x | x in s
        ensures !p(x)
      {
        assert x in t;
      }
    }
  }

  /** `s[:n]` */
  function Take<T>(s: seq<T>, n: nat): (r: seq<T>)
    ensures |r| <= n && |r| <= |s| && r == s[..|r|]
    ensures |s| <= n ==> r == s
  {
    if |s| <= n then s else s[..n]
  }

  /**
   * A search among the first `n` elements of a sorted list finds an
   * element of the list that every element with a strictly smaller key
   * fails; it finds one whenever the smallest element matches.
   */
  lemma FindInSortedPrefix<T>(s: seq<T>, key: T -> seq<real>, n: nat, p: T -> bool)
    ensures var f := Find(Take(SortBy(s, key), n), p);
      f.Some? ==>
        (f.value in s && p(f.value) && forall y :: y in s && !LexLe(key(f.value), key(y)) ==> !p(y))
    ensures n > 0 && |s| > 0 && p(SortBy(s, key)[0]) ==> Find(Take(SortBy(s, key), n), p).Some?
  {
    var sorted := SortBy(s, key);
    var top := Take(sorted, n);
    assert forall x :: x in s <==> x in multiset(sorted);
    var k := FindIndex(top, p);
    if k >= 0 {
      assert top[k] == sorted[k];
      assert top[k] in s;
      SortBySorted(s, key);
      forall y | y in s && !LexLe(key(top[k]), key(y))
        ensures !p(y)
      {
        assert y in multiset(sorted);
        var m :| 0 <= m < |sorted| && sorted[m] == y;
        if m == k {
          LexLeRefl(key(y));
        }
        assert m < k;
        assert top[m] == sorted[m];
      }
    } else if n > 0 && |s| > 0 {
      assert top[0] == sorted[0];
    }
  }

  /** The loop that appends `f(x)` for each `x` of `s` where `f` gives something, in order. */
  function Collect<T, U>(s: seq<T>, f: T -> Option<U>): (r: seq<U>)
    ensures |r| <= |s|
  {
    if |s| == 0 then []
    else Collect(s[..|s| - 1], f) + (match f(s[|s| - 1]) case None => [] case Some(y) => [y])
  }

  /** Every collected value is what `f` gives for some element. */
  /** The one member of a list of at most one element. */
  lemma SingleMember<T>(r: seq<T>, e: T)
    requires |r| <= 1 && e in r
    ensures |r| == 1 && e == r[0]
  {
  }

  /** The collection grown by one element whose image `c` is known. */
  lemma CollectSnoc<T, U>(s: seq<T>, i: nat, f: T -> Option<U>, c: Option<U>)
    requires i < |s| && c == f(s[i])
    ensures Collect(s[..i + 1], f) == if c.Some? then Collect(s[..i], f) + [c.value] else Collect(s[..i], f)
  {
    assert s[..i + 1][..i] == s[..i];
  }

  lemma {:induction false} CollectMembers<T, U>(s: seq<T>, f: T -> Option<U>)
    ensures forall y :: y in Collect(s, f) ==> exists i :: 0 <= i < |s| && f(s[i]) == Some(y)
  {
    if |s| > 0 {
      var init := s[..|s| - 1];
      CollectMembers(init, f);
      var ri := Collect(init, f);
      forall y | y in Collect(s, f)
        ensures exists i :: 0 <= i < |s| && f(s[i]) == Some(y)
      {
        if y in ri {
          var i :| 0 <= i < |init| && f(init[i]) == Some(y);
          assert s[i] == init[i];
        } else {
          assert f(s[|s| - 1]) == Some(y);
        }
      }
    }
  }

  /** `sum(1 for x in s if p(x))` */
  function Count<T>(s: seq<T>, p: T -> bool): (n: nat)
    ensures n <= |s|
  {
    if |s| == 0 then 0 else Count(s[..|s| - 1], p) + (if p(s[|s| - 1]) then 1 else 0)
  }

  lemma CountSnoc<T>(s: seq<T>, i: nat, p: T -> bool)
    requires i < |s|
    ensures Count(s[..i + 1], p) == Count(s[..i], p) + (if p(s[i]) then 1 else 0)
  {
    assert s[..i + 1][..i] == s[..i];
  }

  /** The comprehension holds one image per kept element. */
  lemma {:induction false} FilterMapLength<T, U>(s: seq<T>, keep: T -> bool, f: T -> U)
    ensures |FilterMap(s, keep, f)| == Count(s, keep)
  {
    if |s| > 0 {
      FilterMapLength(s[..|s| - 1], keep, f);
    }
  }

  lemma {:induction false} CountAppend<T>(a: seq<T>, b: seq<T>, p: T -> bool)
    ensures Count(a + b, p) == Count(a, p) + Count(b, p)
    decreases |b|
  {
    if |b| == 0 {
      assert a + b == a;
    } else {
      CountAppend(a, b[..|b| - 1], p);
      assert (a + b)[..|a + b| - 1] == a + b[..|b| - 1];
    }
  }

  /** Reordering a list does not change how many of its elements satisfy a predicate. */
  lemma {:induction false} CountPermutation<T>(a: seq<T>, b: seq<T>, p: T -> bool)
    requires multiset(a) == multiset(b)
    ensures Count(a, p) == Count(b, p)
    decreases |a|
  {
    if |a| == 0 {
      assert |b| == |multiset(b)| == 0;
    } else {
      var k := PermutationStep(a, b);
      CountPermutation(a[..|a| - 1], b[..k] + b[k + 1..], p);
      CountDropAt(b, k, p);
    }
  }

  lemma MultisetDropAt<T>(b: seq<T>, k: nat)
    requires k < |b|
    ensures multiset(b[..k] + b[k + 1..]) == multiset(b) - multiset{b[k]}
  {
    assert b == b[..k] + [b[k]] + b[k + 1..];
  }

  lemma CountDropAt<T>(b: seq<T>, k: nat, p: T -> bool)
    requires k < |b|
    ensures Count(b, p) == Count(b[..k] + b[k + 1..], p) + (if p(b[k]) then 1 else 0)
  {
    var left, right := b[..k], b[k + 1..];
    SplitAt(b, k);
    CountAppend(left + [b[k]], right, p);
    CountAppend(left, [b[k]], p);
    CountAppend(left, right, p);
    CountSingle(b[k], p);
  }

  lemma SplitAt<T>(b: seq<T>, k: nat)
    requires k < |b|
    ensures b == b[..k] + [b[k]] + b[k + 1..]
  {
  }

  lemma CountSingle<T>(x: T, p: T -> bool)
    ensures Count([x], p) == if p(x) then 1 else 0
  {
    assert [x][..0] == [];
  }

  /** Nothing is counted exactly when no element satisfies the predicate. */
  lemma {:induction false} CountZero<T>(s: seq<T>, p: T -> bool)
    ensures Count(s, p) == 0 <==> forall i :: 0 <= i < |s| ==> !p(s[i])
  {
    if |s| > 0 {
      CountZero(s[..|s| - 1], p);
      assert forall i :: 0 <= i < |s| - 1 ==> s[..|s| - 1][i] == s[i];
    }
  }

  /** Everything is counted exactly when every element satisfies the predicate. */
  lemma {:induction false} CountAll<T>(s: seq<T>, p: T -> bool)
    ensures Count(s, p) == |s| <==> forall i :: 0 <= i < |s| ==> p(s[i])
  {
    if |s| > 0 {
      CountAll(s[..|s| - 1], p);
      assert forall i :: 0 <= i < |s| - 1 ==> s[..|s| - 1][i] == s[i];
    }
  }

  /** A weaker predicate counts at least as many elements. */
  lemma {:induction false} CountMonotone<T>(s: seq<T>, p: T -> bool, q: T -> bool)
    requires forall x :: p(x) ==> q(x)
    ensures Count(s, p) <= Count(s, q)
  {
    if |s| > 0 {
      CountMonotone(s[..|s| - 1], p, q);
    }
  }

  /** Python's `max(s, key=key)`: the first element whose key is largest (`None` for an empty list). */
  function FirstMaxBy<T>(s: seq<T>, key: T -> real): Option<T> {
    if |s| == 0 then None
    else
      var best := FirstMaxBy(s[..|s| - 1], key);
      if best.None? || key(s[|s| - 1]) > key(best.value) then Some(s[|s| - 1]) else best
  }

  /** The maximum is found exactly in a non-empty list; its key is not exceeded, and every earlier element's key is smaller. */
  lemma FirstMaxByIsMax<T>(s: seq<T>, key: T -> real)
    ensures FirstMaxBy(s, key).None? <==> |s| == 0
    ensures FirstMaxBy(s, key).Some? ==>
      exists k :: 0 <= k < |s| && s[k] == FirstMaxBy(s, key).value
        && (forall j :: 0 <= j < |s| ==> key(s[j]) <= key(s[k]))
        && (forall j :: 0 <= j < k ==> key(s[j]) < key(s[k]))
  {
    var k := FirstMaxByIndex(s, key);
  }

  /** Where `max(s, key=key)` was found. */
  lemma {:induction false} FirstMaxByIndex<T>(s: seq<T>, key: T -> real) returns (k: nat)
    ensures |s| == 0 ==> FirstMaxBy(s, key).None?
    ensures |s| > 0 ==>
      (k < |s| && FirstMaxBy(s, key) == Some(s[k])
       && (forall j :: 0 <= j < |s| ==> key(s[j]) <= key(s[k]))
       && (forall j :: 0 <= j < k ==> key(s[j]) < key(s[k])))
  {
    k := 0;
    if |s| > 0 {
      var init, last := s[..|s| - 1], s[|s| - 1];
      var best := FirstMaxBy(init, key);
      assert forall j :: 0 <= j < |init| ==> init[j] == s[j];
      if |init| == 0 {
        k := 0;
      } else {
        var m := FirstMaxByIndex(init, key);
        if key(last) > key(init[m]) {
          k := |s| - 1;
        } else {
          k := m;
        }
      }
    }
  }

  /** The loop of Python's `max(s, key=key)`. */
  method MaxBy<T>(s: seq<T>, key: T -> real) returns (best: Option<T>)
    ensures best == FirstMaxBy(s, key)
  {
    best := None;
    for i := 0 to |s|
      invariant best == FirstMaxBy(s[..i], key)
    {
      assert s[..i + 1][..i] == s[..i];
      if best.None? || key(s[i]) > key(best.value) {
        best := Some(s[i]);
      }
    }
    assert s[..|s|] == s;
  }

  /** Keys that agree on the list pick the same maximum. */
  lemma {:induction false} FirstMaxByCongruent<T>(s: seq<T>, key: T -> real, key2: T -> real)
    requires forall i :: 0 <= i < |s| ==> key(s[i]) == key2(s[i])
    ensures FirstMaxBy(s, key) == FirstMaxBy(s, key2)
  {
    if |s| > 0 {
      var init := s[..|s| - 1];
      assert forall i :: 0 <= i < |init| ==> init[i] == s[i];
      FirstMaxByCongruent(init, key, key2);
      FirstMaxByIsMax(init, key);
    }
  }

  /** The maximum of a filtered image: none exactly when nothing is kept, else the image of a kept element with the largest key. */
  lemma FirstMaxByFilterMap<T, U>(s: seq<T>, keep: T -> bool, f: T -> U, key: U -> real)
    ensures FirstMaxBy(FilterMap(s, keep, f), key).None? <==> forall i :: 0 <= i < |s| ==> !keep(s[i])
    ensures FirstMaxBy(FilterMap(s, keep, f), key).Some? ==>
      exists i :: 0 <= i < |s| && keep(s[i]) && f(s[i]) == FirstMaxBy(FilterMap(s, keep, f), key).value
        && forall j :: 0 <= j < |s| && keep(s[j]) ==> key(f(s[j])) <= key(f(s[i]))
  {
    var r := FilterMap(s, keep, f);
    FilterMapMembers(s, keep, f);
    FirstMaxByIsMax(r, key);
    if |r| > 0 {
      var k :| 0 <= k < |r| && r[k] == FirstMaxBy(r, key).value && forall j :: 0 <= j < |r| ==> key(r[j]) <= key(r[k]);
      assert r[k] in r;
      var i :| 0 <= i < |s| && keep(s[i]) && r[k] == f(s[i]);
      forall j | 0 <= j < |s| && keep(s[j])
        ensures key(f(s[j])) <= key(f(s[i]))
      {
        assert f(s[j]) in r;
        var m :| 0 <= m < |r| && r[m] == f(s[j]);
        assert key(r[m]) <= key(r[k]);
      }
    }
  }
}
