/**
 * `_finalize_headings`: every heading loses its leading whitespace; a
 * heading is kept when its stripped text has at least three characters and
 * no earlier kept heading has the same key (lower-cased stripped text,
 * page); the kept headings are then sorted by page, stably.
 */
module Finalize {
  import opened Text
  import opened Sorting
  import opened Records
  import opened Lists

  type Key = (string, int)

  /** The heading with its text left-stripped. */
  function Clean(h: Entry): Entry {
    Entry(h.level, LStrip(h.text), h.page)
  }

  /** `(clean_text.lower().strip(), page)` */
  function KeyOf(c: Entry): Key {
    (Strip(Lower(c.text)), c.page)
  }

  /** `len(clean_text.strip()) >= 3` */
  predicate LongEnough(c: Entry) {
    |Strip(c.text)| >= 3
  }

  /** The headings `cs` in turn; one is kept when `keep` holds and its key is not `seen` yet. */
  function Dedup<T, K>(seen: set<K>, cs: seq<T>, key: T -> K, keep: T -> bool): (r: seq<T>)
    ensures |r| <= |cs|
    decreases |cs|
  {
    if |cs| == 0 then []
    else if key(cs[0]) !in seen && keep(cs[0]) then [cs[0]] + Dedup(seen + {key(cs[0])}, cs[1..], key, keep)
    else Dedup(seen, cs[1..], key, keep)
  }

  function Cleaned(hs: seq<Entry>): seq<Entry> {
    Map(hs, Clean)
  }

  /** The headings the loop appends. */
  function Kept(hs: seq<Entry>): seq<Entry> {
    Dedup({}, Cleaned(hs), KeyOf, LongEnough)
  }

  /** What `_finalize_headings` returns. */
  function Finalized(hs: seq<Entry>): seq<Entry> {
    SortBy(Kept(hs), EntryPageKey)
  }

  /** Mapping a function that preserves the key and the filter commutes with the duplicate filter. */
  lemma {:induction false} DedupMap<T, K>(seen: set<K>, cs: seq<T>, key: T -> K, keep: T -> bool, f: T -> T)
    requires forall y :: key(f(y)) == key(y) && keep(f(y)) == keep(y)
    ensures Map(Dedup(seen, cs, key, keep), f) == Dedup(seen, Map(cs, f), key, keep)
    decreases |cs|
  {
    if |cs| > 0 {
      var m := Map(cs, f);
      assert m[0] == f(cs[0]) && m[1..] == Map(cs[1..], f);
      assert key(f(cs[0])) == key(cs[0]) && keep(f(cs[0])) == keep(cs[0]);
      if key(cs[0]) !in seen && keep(cs[0]) {
        DedupMap(seen + {key(cs[0])}, cs[1..], key, keep, f);
        assert Map([cs[0]] + Dedup(seen + {key(cs[0])}, cs[1..], key, keep), f)
          == [f(cs[0])] + Map(Dedup(seen + {key(cs[0])}, cs[1..], key, keep), f);
      } else {
        DedupMap(seen, cs[1..], key, keep, f);
      }
    }
  }

  /** No two elements share a key. */
  ghost predicate DistinctKeys<T, K>(s: seq<T>, key: T -> K) {
    forall i, j :: 0 <= i < j < |s| ==> key(s[i]) != key(s[j])
  }

  // ----- The filter -----

  /** Every kept element is an input element, satisfies `keep`, and has a key not seen before. */
  lemma {:induction false} DedupMembers<T, K>(seen: set<K>, cs: seq<T>, key: T -> K, keep: T -> bool)
    ensures forall e :: e in Dedup(seen, cs, key, keep) ==> e in cs && keep(e) && key(e) !in seen
    decreases |cs|
  {
    if |cs| > 0 {
      if key(cs[0]) !in seen && keep(cs[0]) {
        DedupMembers(seen + {key(cs[0])}, cs[1..], key, keep);
      } else {
        DedupMembers(seen, cs[1..], key, keep);
      }
    }
  }

  lemma {:induction false} DedupDistinct<T, K>(seen: set<K>, cs: seq<T>, key: T -> K, keep: T -> bool)
    ensures DistinctKeys(Dedup(seen, cs, key, keep), key)
    decreases |cs|
  {
    if |cs| > 0 {
      if key(cs[0]) !in seen && keep(cs[0]) {
        var seen' := seen + {key(cs[0])};
        var rest := Dedup(seen', cs[1..], key, keep);
        DedupDistinct(seen', cs[1..], key, keep);
        DedupMembers(seen', cs[1..], key, keep);
        var r := [cs[0]] + rest;
        forall i, j | 0 <= i < j < |r|
          ensures key(r[i]) != key(r[j])
        {
          assert r[j] == rest[j - 1];
          if i > 0 {
            assert r[i] == rest[i - 1];
          } else {
            assert rest[j - 1] in rest;
          }
        }
      } else {
        DedupDistinct(seen, cs[1..], key, keep);
      }
    }
  }

  /** Every input element that satisfies `keep` has its key in the output, or among the keys seen before. */
  lemma {:induction false} DedupComplete<T, K>(seen: set<K>, cs: seq<T>, key: T -> K, keep: T -> bool)
    ensures forall c :: c in cs && keep(c) ==>
      key(c) in seen || exists e :: e in Dedup(seen, cs, key, keep) && key(e) == key(c)
    decreases |cs|
  {
    if |cs| > 0 {
      var kept := key(cs[0]) !in seen && keep(cs[0]);
      var seen' := if kept then seen + {key(cs[0])} else seen;
      DedupComplete(seen', cs[1..], key, keep);
      forall c | c in cs && keep(c) && key(c) !in seen
        ensures exists e :: e in Dedup(seen, cs, key, keep) && key(e) == key(c)
      {
        if kept && key(c) == key(cs[0]) {
          assert cs[0] in Dedup(seen, cs, key, keep);
        } else if c != cs[0] {
          assert c in cs[1..];
        }
      }
    }
  }

  /** The first element with a given key wins: no element before a kept one satisfies `keep` with the same key. */
  lemma {:induction false} DedupFirstWins<T, K>(seen: set<K>, cs: seq<T>, key: T -> K, keep: T -> bool, e: T)
    requires e in Dedup(seen, cs, key, keep)
    ensures exists i :: 0 <= i < |cs| && e == cs[i] && FirstWithKey(cs, i, key, keep)
    decreases |cs|
  {
    var kept := key(cs[0]) !in seen && keep(cs[0]);
    var seen' := if kept then seen + {key(cs[0])} else seen;
    if kept && e == cs[0] {
      assert FirstWithKey(cs, 0, key, keep);
    } else {
      assert e in Dedup(seen', cs[1..], key, keep);
      FirstWithKeyDeeper(seen, cs, key, keep, e);
    }
  }

  /** No element before index `i` satisfies `keep` and shares the key of `cs[i]`. */
  ghost predicate FirstWithKey<T, K>(cs: seq<T>, i: nat, key: T -> K, keep: T -> bool)
    requires i < |cs|
  {
    forall j :: 0 <= j < i && keep(cs[j]) ==> key(cs[j]) != key(cs[i])
  }

  lemma {:induction false} FirstWithKeyDeeper<T, K>(seen: set<K>, cs: seq<T>, key: T -> K, keep: T -> bool, e: T)
    requires |cs| > 0
    requires var kept := key(cs[0]) !in seen && keep(cs[0]);
      e in Dedup(if kept then seen + {key(cs[0])} else seen, cs[1..], key, keep)
    ensures exists i :: 0 <= i < |cs| && e == cs[i] && FirstWithKey(cs, i, key, keep)
    decreases |cs|, 0
  {
    var kept := key(cs[0]) !in seen && keep(cs[0]);
    var seen' := if kept then seen + {key(cs[0])} else seen;
    DedupFirstWins(seen', cs[1..], key, keep, e);
    DedupMembers(seen', cs[1..], key, keep);
    var i' :| 0 <= i' < |cs[1..]| && e == cs[1..][i'] && FirstWithKey(cs[1..], i', key, keep);
    forall j | 0 <= j < i' + 1 && keep(cs[j])
      ensures key(cs[j]) != key(cs[i' + 1])
    {
      if j > 0 {
        assert cs[j] == cs[1..][j - 1];
      }
    }
    assert FirstWithKey(cs, i' + 1, key, keep);
  }

  // ----- Sorting keeps the properties -----

  lemma MultisetRemove<T>(f: seq<T>, k: nat)
    requires k < |f|
    ensures multiset(f[..k] + f[k + 1..]) == multiset(f) - multiset{f[k]}
  {
    assert f == f[..k] + [f[k]] + f[k + 1..];
  }

  /** Removing one element keeps the keys distinct, and no remaining key is the removed one's. */
  lemma DistinctKeysRemove<T, K>(f: seq<T>, k: nat, key: T -> K)
    requires k < |f| && DistinctKeys(f, key)
    ensures DistinctKeys(f[..k] + f[k + 1..], key)
    ensures forall x :: x in f[..k] + f[k + 1..] ==> key(x) != key(f[k])
  {
    var f' := f[..k] + f[k + 1..];
    assert forall i :: 0 <= i < |f'| ==> f'[i] == f[if i < k then i else i + 1];
  }

  lemma {:induction false} DistinctKeysPermutation<T, K>(f: seq<T>, r: seq<T>, key: T -> K)
    requires multiset(f) == multiset(r) && DistinctKeys(f, key)
    ensures DistinctKeys(r, key)
    decreases |r|
  {
    if |r| > 0 {
      var x := r[0];
      var rest := r[1..];
      assert r == [x] + rest;
      assert x in multiset(f);
      var k :| 0 <= k < |f| && f[k] == x;
      var f' := f[..k] + f[k + 1..];
      MultisetRemove(f, k);
      assert multiset(rest) == multiset(f');
      DistinctKeysRemove(f, k, key);
      DistinctKeysPermutation(f', rest, key);
      forall y | y in rest
        ensures key(y) != key(x)
      {
        assert y in multiset(f');
      }
      DistinctKeysCons(x, rest, key);
    }
  }

  /** A head whose key no later element has keeps the keys distinct. */
  lemma DistinctKeysCons<T, K>(x: T, rest: seq<T>, key: T -> K)
    requires DistinctKeys(rest, key) && forall y :: y in rest ==> key(y) != key(x)
    ensures DistinctKeys([x] + rest, key)
  {
    var r := [x] + rest;
    forall i, j | 0 <= i < j < |r|
      ensures key(r[i]) != key(r[j])
    {
      assert r[j] == rest[j - 1];
      if i > 0 {
        assert r[i] == rest[i - 1];
      }
    }
  }

  /** The result is in page order. */
  lemma FinalizedPagesSorted(hs: seq<Entry>)
    ensures PagesSorted(Finalized(hs))
  {
    var r := Finalized(hs);
    SortBySorted(Kept(hs), EntryPageKey);
    forall i, j | 0 <= i < j < |r|
      ensures r[i].page <= r[j].page
    {
      LexLeSingle(r[i].page as real, r[j].page as real);
    }
  }

  /**
   * Each output heading is the left-stripped form of an input heading,
   * has at least three characters once stripped, and no two share a key.
   */
  lemma FinalizedEntries(hs: seq<Entry>)
    ensures DistinctKeys(Finalized(hs), KeyOf)
    ensures forall e :: e in Finalized(hs) ==> LongEnough(e) && !IsSpace(e.text[0]) && exists i :: 0 <= i < |hs| && e == Clean(hs[i])
  {
    DedupDistinct({}, Cleaned(hs), KeyOf, LongEnough);
    DistinctKeysPermutation(Kept(hs), Finalized(hs), KeyOf);
    forall e | e in Finalized(hs)
      ensures LongEnough(e) && !IsSpace(e.text[0]) && exists i :: 0 <= i < |hs| && e == Clean(hs[i])
    {
      FinalizedMember(hs, e);
    }
  }

  /** One output heading is a cleaned input heading long enough to keep. */
  lemma FinalizedMember(hs: seq<Entry>, e: Entry)
    requires e in Finalized(hs)
    ensures LongEnough(e) && |e.text| > 0 && !IsSpace(e.text[0])
    ensures exists i :: 0 <= i < |hs| && e == Clean(hs[i])
  {
    assert e in multiset(Finalized(hs));
    assert e in Kept(hs);
    DedupMembers({}, Cleaned(hs), KeyOf, LongEnough);
    CleanedMember(hs, e);
  }

  /** A cleaned heading is a left-stripped input heading. */
  lemma CleanedMember(hs: seq<Entry>, e: Entry)
    requires e in Cleaned(hs) && LongEnough(e)
    ensures |e.text| > 0 && !IsSpace(e.text[0])
    ensures exists i :: 0 <= i < |hs| && e == Clean(hs[i])
  {
    var cs := Cleaned(hs);
    var i :| 0 <= i < |cs| && cs[i] == e;
    assert e == Clean(hs[i]);
  }

  /** Every input heading long enough to keep is represented, by the first heading with its key. */
  lemma FinalizedComplete(hs: seq<Entry>, i: nat)
    requires i < |hs| && LongEnough(Clean(hs[i]))
    ensures exists e :: e in Finalized(hs) && KeyOf(e) == KeyOf(Clean(hs[i]))
  {
    var cs := Cleaned(hs);
    DedupComplete({}, cs, KeyOf, LongEnough);
    assert cs[i] in cs;
    var e :| e in Kept(hs) && KeyOf(e) == KeyOf(cs[i]);
    assert e in multiset(Finalized(hs));
  }

  /** The heading kept for a key is the first one with that key that is long enough. */
  lemma FinalizedFirstWins(hs: seq<Entry>, e: Entry)
    requires e in Finalized(hs)
    ensures exists i :: 0 <= i < |hs| && e == Clean(hs[i]) && FirstWithKey(Cleaned(hs), i, KeyOf, LongEnough)
  {
    assert e in multiset(Kept(hs));
    DedupFirstWins({}, Cleaned(hs), KeyOf, LongEnough, e);
  }

  /** Headings already in page order keep their order. */
  lemma FinalizedKeepsPageOrder(hs: seq<Entry>)
    requires PagesSorted(Kept(hs))
    ensures Finalized(hs) == Kept(hs)
  {
    var f := Kept(hs);
    forall i, j | 0 <= i < j < |f|
      ensures LexLe(EntryPageKey(f[i]), EntryPageKey(f[j]))
    {
      LexLeSingle(f[i].page as real, f[j].page as real);
    }
    SortByIdentity(f, EntryPageKey);
  }

  lemma DedupAdvance<T, K>(out: seq<T>, seen: set<K>, cs: seq<T>, key: T -> K, keep: T -> bool, target: seq<T>)
    requires |cs| > 0 && out + Dedup(seen, cs, key, keep) == target
    ensures key(cs[0]) !in seen && keep(cs[0]) ==> (out + [cs[0]]) + Dedup(seen + {key(cs[0])}, cs[1..], key, keep) == target
    ensures !(key(cs[0]) !in seen && keep(cs[0])) ==> out + Dedup(seen, cs[1..], key, keep) == target
  {
  }

  /**
   * The loop of `_finalize_headings`: each item is cleaned, and appended
   * when `keep` holds and its key is not in the `seen` set yet.
   */
  method DedupLoop<T, K(==)>(items: seq<T>, clean: T -> T, key: T -> K, keep: T -> bool) returns (result: seq<T>)
    ensures result == Dedup({}, Map(items, clean), key, keep)
  {
    ghost var cleaned := Map(items, clean);
    result := [];
    var seen: set<K> := {};
    for i := 0 to |items|
      invariant result + Dedup(seen, cleaned[i..], key, keep) == Dedup({}, cleaned, key, keep)
    {
      var c := clean(items[i]);
      var k := key(c);
      DedupAdvance(result, seen, cleaned[i..], key, keep, Dedup({}, cleaned, key, keep));
      assert cleaned[i..][0] == c && cleaned[i..][1..] == cleaned[i + 1..];
      if k !in seen && keep(c) {
        seen := seen + {k};
        result := result + [c];
      }
    }
    assert cleaned[|items|..] == [];
  }

  /** `_finalize_headings`: the loop with the left-strip, the key and the length test, then a stable sort by page. */
  method FinalizeHeadings(headings: seq<Entry>) returns (result: seq<Entry>)
    ensures result == Finalized(headings)
  {
    if |headings| == 0 {
      return [];
    }
    result := DedupLoop(headings, Clean, KeyOf, LongEnough);
    result := SortBy(result, EntryPageKey);
  }

  /** Finalizing keeps each heading's page. */
  lemma FinalizedPagesFrom(hs: seq<Entry>, pages: set<int>)
    requires forall e :: e in hs ==> e.page in pages
    ensures forall e :: e in Finalized(hs) ==> e.page in pages
  {
    FinalizedEntries(hs);
    forall e | e in Finalized(hs)
      ensures e.page in pages
    {
      var i :| 0 <= i < |hs| && e == Clean(hs[i]);
      assert hs[i] in hs;
    }
  }
}
