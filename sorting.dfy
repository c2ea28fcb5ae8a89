/**
 * Python's `sorted(xs, key=...)` and `list.sort(key=...)`: a stable sort by
 * a key compared like a Python tuple of numbers (lexicographically).
 * `reverse=True` on a numeric key is expressed by negating the key, which
 * keeps Python's stability guarantee for equal keys.
 */
module Sorting {

  /** Python's `<=` on tuples of numbers. */
  predicate LexLe(a: seq<real>, b: seq<real>)
    decreases |a|
  {
    |a| == 0 || (|b| > 0 && (a[0] < b[0] || (a[0] == b[0] && LexLe(a[1..], b[1..]))))
  }

  lemma {:induction false} LexLeRefl(a: seq<real>)
    ensures LexLe(a, a)
    decreases |a|
  {
    if |a| > 0 {
      LexLeRefl(a[1..]);
    }
  }

  lemma {:induction false} LexLeTotal(a: seq<real>, b: seq<real>)
    ensures LexLe(a, b) || LexLe(b, a)
    decreases |a|
  {
    if |a| > 0 && |b| > 0 && a[0] == b[0] {
      LexLeTotal(a[1..], b[1..]);
    }
  }

  lemma {:induction false} LexLeTrans(a: seq<real>, b: seq<real>, c: seq<real>)
    requires LexLe(a, b) && LexLe(b, c)
    ensures LexLe(a, c)
    decreases |a|
  {
    if |a| > 0 && a[0] == b[0] && b[0] == c[0] {
      LexLeTrans(a[1..], b[1..], c[1..]);
    }
  }

  /** Keys of one element: LexLe on one-number keys is `<=`. */
  lemma LexLeSingle(x: real, y: real)
    ensures LexLe([x], [y]) <==> x <= y
  {
    assert [x][1..] == [];
  }

  /** Keys of two numbers compare on the first, then on the second. */
  lemma LexLePair(a: real, b: real, c: real, d: real)
    ensures LexLe([a, b], [c, d]) <==> a < c || (a == c && b <= d)
  {
    assert [a, b][1..] == [b] && [c, d][1..] == [d];
    LexLeSingle(b, d);
  }

  ghost predicate SortedBy<T>(s: seq<T>, key: T -> seq<real>) {
    forall i, j :: 0 <= i < j < |s| ==> LexLe(key(s[i]), key(s[j]))
  }

  /** Inserts `x` after every element whose key is not greater (stability). */
  function Insert<T>(x: T, s: seq<T>, key: T -> seq<real>): (r: seq<T>)
    ensures |r| == |s| + 1
    ensures multiset(r) == multiset(s) + multiset{x}
    ensures r[0] == x || (|s| > 0 && r[0] == s[0])
  {
    if |s| == 0 then [x]
    else if LexLe(key(s[0]), key(x)) then
      assert s == [s[0]] + s[1..];
      [s[0]] + Insert(x, s[1..], key)
    else [x] + s
  }

  lemma {:induction false} InsertSorted<T>(x: T, s: seq<T>, key: T -> seq<real>)
    requires SortedBy(s, key)
    ensures SortedBy(Insert(x, s, key), key)
    decreases |s|
  {
    if |s| > 0 {
      var r := Insert(x, s, key);
      if LexLe(key(s[0]), key(x)) {
        var rest := Insert(x, s[1..], key);
        InsertSorted(x, s[1..], key);
        forall j | 0 < j < |r|
          ensures LexLe(key(s[0]), key(r[j]))
        {
          assert r[j] == rest[j - 1];
          assert rest[j - 1] in multiset(rest);
          if rest[j - 1] != x {
            assert rest[j - 1] in multiset(s[1..]);
            var k :| 0 <= k < |s[1..]| && s[1..][k] == rest[j - 1];
            assert s[k + 1] == rest[j - 1];
          }
        }
      } else {
        LexLeTotal(key(s[0]), key(x));
        forall i, j | 0 <= i < j < |r|
          ensures LexLe(key(r[i]), key(r[j]))
        {
          if i == 0 {
            if j > 1 {
              LexLeTrans(key(x), key(s[0]), key(s[j - 1]));
            }
          }
        }
      }
    }
  }

  /** Python's stable `sorted(s, key=key)`. */
  function SortBy<T>(s: seq<T>, key: T -> seq<real>): (r: seq<T>)
    ensures |r| == |s|
    ensures multiset(r) == multiset(s)
  {
    if |s| == 0 then []
    else
      assert s == s[..|s| - 1] + [s[|s| - 1]];
      Insert(s[|s| - 1], SortBy(s[..|s| - 1], key), key)
  }

  /** The sort puts the elements in key order. */
  lemma {:induction false} SortBySorted<T>(s: seq<T>, key: T -> seq<real>)
    ensures SortedBy(SortBy(s, key), key)
    decreases |s|
  {
    if |s| > 0 {
      SortBySorted(s[..|s| - 1], key);
      InsertSorted(s[|s| - 1], SortBy(s[..|s| - 1], key), key);
    }
  }

  lemma {:induction false} InsertAtEnd<T>(x: T, s: seq<T>, key: T -> seq<real>)
    requires forall i :: 0 <= i < |s| ==> LexLe(key(s[i]), key(x))
    ensures Insert(x, s, key) == s + [x]
    decreases |s|
  {
    if |s| > 0 {
      InsertAtEnd(x, s[1..], key);
      assert s == [s[0]] + s[1..];
    }
  }

  /** Stability: an input already in key order is left exactly as it is. */
  lemma {:induction false} SortByIdentity<T>(s: seq<T>, key: T -> seq<real>)
    requires SortedBy(s, key)
    ensures SortBy(s, key) == s
    decreases |s|
  {
    if |s| > 0 {
      var init := s[..|s| - 1];
      forall i, j | 0 <= i < j < |init|
        ensures LexLe(key(init[i]), key(init[j]))
      {
        assert init[i] == s[i] && init[j] == s[j];
      }
      SortByIdentity(init, key);
      InsertAtEnd(s[|s| - 1], init, key);
      assert init + [s[|s| - 1]] == s;
    }
  }

  /** Index of the first element whose key is smallest. */
  function FirstMin<T>(s: seq<T>, key: T -> seq<real>): (m: nat)
    requires |s| > 0
    ensures m < |s|
    decreases |s|
  {
    if |s| == 1 then 0
    else
      var m := FirstMin(s[..|s| - 1], key);
      if LexLe(key(s[m]), key(s[|s| - 1])) then m else |s| - 1
  }

  lemma {:induction false} FirstMinIsFirstMin<T>(s: seq<T>, key: T -> seq<real>)
    requires |s| > 0
    ensures forall j :: 0 <= j < |s| ==> LexLe(key(s[FirstMin(s, key)]), key(s[j]))
    ensures forall j :: 0 <= j < FirstMin(s, key) ==> !LexLe(key(s[j]), key(s[FirstMin(s, key)]))
    decreases |s|
  {
    if |s| == 1 {
      LexLeRefl(key(s[0]));
    } else {
      var init := s[..|s| - 1];
      var m := FirstMin(init, key);
      FirstMinIsFirstMin(init, key);
      assert forall j :: 0 <= j < |init| ==> init[j] == s[j];
      var last := s[|s| - 1];
      if LexLe(key(s[m]), key(last)) {
        forall j | 0 <= j < |s|
          ensures LexLe(key(s[m]), key(s[j]))
        {
          if j < |s| - 1 {
            assert init[j] == s[j] && init[m] == s[m];
          }
        }
      } else {
        LexLeTotal(key(s[m]), key(last));
        LexLeRefl(key(last));
        forall j | 0 <= j < |s| - 1
          ensures LexLe(key(last), key(s[j])) && !LexLe(key(s[j]), key(last))
        {
          LexLeTrans(key(last), key(s[m]), key(s[j]));
          if LexLe(key(s[j]), key(last)) {
            LexLeTrans(key(s[m]), key(s[j]), key(last));
          }
        }
      }
    }
  }

  /** Stability at the head: the first element of the sort is the first smallest one. */
  lemma {:induction false} SortByHead<T>(s: seq<T>, key: T -> seq<real>)
    requires |s| > 0
    ensures SortBy(s, key)[0] == s[FirstMin(s, key)]
    decreases |s|
  {
    if |s| > 1 {
      var init := s[..|s| - 1];
      SortByHead(init, key);
      assert forall j :: 0 <= j < |init| ==> init[j] == s[j];
    }
  }
}
