/**
 * Primitive string operations of Python's `str` used throughout the
 * extractor: whitespace, stripping, case (ASCII letters only), substring
 * search, word splitting, joining and the prefix matchers the regular
 * expressions of the source reduce to.
 */
module Text {
  /** A sequence is its first `n` elements followed by the rest. */
  lemma TakeDrop<T>(s: seq<T>, n: nat)
    requires n <= |s|
    ensures s[..n] + s[n..] == s
  {
  }

  /** A sequence is its slices between two cut points, joined. */
  lemma Cuts<T>(s: seq<T>, i: nat, j: nat)
    requires i <= j <= |s|
    ensures s[..i] + s[i..j] + s[j..] == s
  {
  }

  /** The elements after the head of `[x] + rest` are those of `rest`. */
  lemma ConsIndex<T>(x: T, rest: seq<T>)
    ensures ([x] + rest)[0] == x && forall k :: 0 < k < |rest| + 1 ==> ([x] + rest)[k] == rest[k - 1]
  {
  }

  /** Dropping `k` elements and then `w` more drops `k + w`. */
  lemma DropDrop<T>(s: seq<T>, k: nat, w: nat)
    requires k + w <= |s|
    ensures s[k..][w..] == s[k + w..]
  {
  }

  /** Dropping `w` elements from a suffix `u` of `s` is dropping them from `s` after the part before `u`. */
  lemma SuffixDrop<T>(s: seq<T>, u: seq<T>, w: nat)
    requires |u| <= |s| && u == s[|s| - |u|..] && w <= |u|
    ensures s[|s| - |u| + w..] == u[w..]
  {
    DropDrop(s, |s| - |u|, w);
  }

  /** Slicing a concatenation inside its first part. */
  lemma SliceConcat<T>(a: seq<T>, b: seq<T>, k: nat)
    requires k <= |a|
    ensures (a + b)[..k] == a[..k] && (a + b)[k..] == a[k..] + b
  {
  }

  /** The slices of a concatenation past its first part are slices of the second. */
  lemma SuffixOfConcat<T>(p: seq<T>, v: seq<T>, i: nat)
    requires |p| <= i <= |p| + |v|
    ensures (p + v)[i..] == v[i - |p|..]
  {
  }

  /** A one-element head and the rest. */
  lemma DropHead<T>(a: seq<T>, b: seq<T>)
    requires |a| == 1
    ensures (a + b)[1..] == b && (a + b)[..1] == a
  {
  }

  lemma SliceAll<T>(s: seq<T>)
    ensures s[0..] == s && s[..|s|] == s
  {
  }

  /** Dropping the head first: the slices of the tail are slices of the whole. */
  lemma TailSlices<T>(t: seq<T>, k: nat)
    requires 0 < k <= |t|
    ensures t[1..][k - 1..] == t[k..] && t[..k] == [t[0]] + t[1..][..k - 1]
  {
  }

  /** Two sequences that agree on their first `k` elements agree on any shorter prefix. */
  lemma PrefixAgree<T>(a: seq<T>, b: seq<T>, k: nat, j: nat)
    requires j <= k <= |a| && k <= |b| && a[..k] == b[..k]
    ensures a[..j] == b[..j]
  {
    assert a[..j] == a[..k][..j];
  }

  /** Concatenation regrouped: the head joined to the rest first. */
  lemma Assoc<T>(a: seq<T>, b: seq<T>, c: seq<T>)
    ensures a + (b + c) == a + b + c
  {
  }

  /** Concatenation regrouped: the last part split off the tail. */
  lemma Regroup<T>(p: seq<T>, q: seq<T>, v: seq<T>, z: seq<T>)
    ensures p + q + (v + z) == p + q + v + z
  {
  }

  /** The parts of a three-way concatenation are its slices. */
  lemma ThreeParts<T>(p: seq<T>, q: seq<T>, r: seq<T>)
    requires |q| > 0
    ensures (p + q + r)[..|p|] == p && (p + q + r)[|p| + |q|..] == r && (p + q + r)[..|p| + |q|] == p + q
    ensures (p + q + r)[|p| + 1..] == q[1..] + r && (p + q + r)[|p|..] == q + r
  {
  }

  /** Taking every element gives the whole sequence. */
  lemma TakeAll<T>(s: seq<T>)
    ensures s[..|s|] == s
  {
  }

  /** Python's `str.isspace()` for one character (also regex `\s`). */
  predicate IsSpace(c: char) {
    var n := c as int;
    (9 <= n <= 13) || (28 <= n <= 32) || n == 0x85 || n == 0xA0 || n == 0x1680
    || (0x2000 <= n <= 0x200A) || n == 0x2028 || n == 0x2029 || n == 0x202F
    || n == 0x205F || n == 0x3000
  }

  predicate IsDigit(c: char) { '0' <= c <= '9' }
  predicate IsUpperChar(c: char) { 'A' <= c <= 'Z' }
  predicate IsLowerChar(c: char) { 'a' <= c <= 'z' }
  predicate IsAsciiLetter(c: char) { IsUpperChar(c) || IsLowerChar(c) }
  /** Regex `\w` restricted to ASCII. */
  predicate IsWordChar(c: char) { IsAsciiLetter(c) || IsDigit(c) || c == '_' }

  function LowerChar(c: char): char {
    if IsUpperChar(c) then (c as int + 32) as char else c
  }

  /** `str.lower()` on ASCII letters; other characters are left as they are. */
  function Lower(s: string): (r: string)
    ensures |r| == |s|
    ensures forall i :: 0 <= i < |s| ==> r[i] == LowerChar(s[i])
  {
    seq(|s|, i requires 0 <= i < |s| => LowerChar(s[i]))
  }

  lemma LowerIdempotent(s: string)
    ensures Lower(Lower(s)) == Lower(s)
  {
  }

  lemma LowerSlice(s: string, i: nat, j: nat)
    requires i <= j <= |s|
    ensures Lower(s)[i..j] == Lower(s[i..j])
  {
  }

  /** `str.lstrip()` */
  function LStrip(s: string): (r: string)
    ensures |r| <= |s| && r == s[|s| - |r|..]
    ensures |r| > 0 ==> !IsSpace(r[0])
    ensures forall i :: 0 <= i < |s| - |r| ==> IsSpace(s[i])
  {
    if |s| > 0 && IsSpace(s[0]) then LStrip(s[1..]) else s
  }

  /** `str.rstrip()` */
  function RStrip(s: string): (r: string)
    ensures |r| <= |s| && r == s[..|r|]
    ensures |r| > 0 ==> !IsSpace(r[|r| - 1])
    ensures forall i :: |r| <= i < |s| ==> IsSpace(s[i])
  {
    if |s| > 0 && IsSpace(s[|s| - 1]) then RStrip(s[..|s| - 1]) else s
  }

  /** `str.strip()` */
  function Strip(s: string): (r: string)
    ensures |r| <= |s|
    ensures |r| > 0 ==> !IsSpace(r[0]) && !IsSpace(r[|r| - 1])
  {
    RStrip(LStrip(s))
  }

  lemma LStripOfStripped(s: string)
    requires |s| > 0 ==> !IsSpace(s[0])
    ensures LStrip(s) == s
  {
  }

  lemma RStripOfStripped(s: string)
    requires |s| > 0 ==> !IsSpace(s[|s| - 1])
    ensures RStrip(s) == s
  {
  }

  lemma StripOfStripped(s: string)
    requires |s| > 0 ==> !IsSpace(s[0]) && !IsSpace(s[|s| - 1])
    ensures Strip(s) == s
  {
    LStripOfStripped(s);
    RStripOfStripped(s);
  }

  lemma StripIdempotent(s: string)
    ensures Strip(Strip(s)) == Strip(s)
  {
    StripOfStripped(Strip(s));
  }

  /** Stripping the left first does not change the full strip. */
  lemma StripOfLStrip(s: string)
    ensures Strip(LStrip(s)) == Strip(s)
  {
    LStripOfStripped(LStrip(s));
  }

  /** Lower-casing never turns a character into whitespace or back. */
  lemma LowerCharSpace(c: char)
    ensures IsSpace(LowerChar(c)) == IsSpace(c)
  {
  }

  lemma {:induction false} LowerLStrip(s: string)
    ensures LStrip(Lower(s)) == Lower(LStrip(s))
    decreases |s|
  {
    if |s| > 0 {
      LowerCharSpace(s[0]);
      if IsSpace(s[0]) {
        LowerTail(s);
        LowerLStrip(s[1..]);
        assert LStrip(Lower(s)) == LStrip(Lower(s[1..]));
      } else {
        assert LStrip(Lower(s)) == Lower(s);
      }
    }
  }

  lemma LowerTail(s: string)
    requires |s| > 0
    ensures Lower(s)[1..] == Lower(s[1..])
  {
  }

  lemma {:induction false} LowerRStrip(s: string)
    ensures RStrip(Lower(s)) == Lower(RStrip(s))
    decreases |s|
  {
    if |s| > 0 {
      LowerCharSpace(s[|s| - 1]);
      if IsSpace(s[|s| - 1]) {
        var t := s[..|s| - 1];
        assert Lower(s)[..|s| - 1] == Lower(t);
        assert RStrip(Lower(s)) == RStrip(Lower(t));
        assert RStrip(s) == RStrip(t);
        LowerRStrip(t);
      }
    }
  }

  /** Lower-casing and stripping commute. */
  lemma LowerStrip(s: string)
    ensures Strip(Lower(s)) == Lower(Strip(s))
  {
    LowerLStrip(s);
    LowerRStrip(LStrip(s));
  }

  predicate StartsWith(s: string, p: string) {
    |p| <= |s| && s[..|p|] == p
  }

  predicate EndsWith(s: string, p: string) {
    |p| <= |s| && s[|s| - |p|..] == p
  }

  /** Python's `p in s` for strings. */
  predicate Contains(s: string, p: string)
    decreases |s|
  {
    StartsWith(s, p) || (|s| > 0 && Contains(s[1..], p))
  }

  lemma ContainsAt(s: string, p: string, i: nat)
    requires i + |p| <= |s| && s[i..i + |p|] == p
    ensures Contains(s, p)
    decreases i
  {
    if i > 0 {
      assert s[1..][i - 1..i - 1 + |p|] == p;
      ContainsAt(s[1..], p, i - 1);
    }
  }

  lemma ContainsWitness(s: string, p: string) returns (i: nat)
    requires Contains(s, p)
    ensures i + |p| <= |s| && s[i..i + |p|] == p
    decreases |s|
  {
    if StartsWith(s, p) {
      i := 0;
    } else {
      var j := ContainsWitness(s[1..], p);
      i := j + 1;
      assert s[i..i + |p|] == s[1..][j..j + |p|];
    }
  }

  /** Substring containment is transitive. */
  lemma ContainsTrans(s: string, p: string, q: string)
    requires Contains(s, p) && Contains(p, q)
    ensures Contains(s, q)
  {
    var i := ContainsWitness(s, p);
    var j := ContainsWitness(p, q);
    forall k | 0 <= k < |q|
      ensures s[i + j + k] == q[k]
    {
      assert s[i + j + k] == s[i..i + |p|][j + k] == p[j..j + |q|][k];
    }
    assert s[i + j..i + j + |q|] == q;
    ContainsAt(s, q, i + j);
  }

  lemma ContainsMiddle(a: string, b: string, c: string)
    ensures Contains(a + b + c, b)
  {
    assert (a + b + c)[|a|..|a| + |b|] == b;
    ContainsAt(a + b + c, b, |a|);
  }

  lemma StartsWithContains(s: string, p: string)
    requires StartsWith(s, p)
    ensures Contains(s, p)
  {
  }

  /** `any(k in s for k in keys)` */
  predicate ContainsAny(s: string, keys: seq<string>) {
    exists k :: 0 <= k < |keys| && Contains(s, keys[k])
  }

  /** `s in keys` for a list of strings. */
  predicate InList(s: string, keys: seq<string>) {
    exists k :: 0 <= k < |keys| && keys[k] == s
  }

  /** `s.count(c)` for a one-character pattern. */
  function CountChar(s: string, c: char): (r: nat)
    ensures r <= |s|
  {
    if |s| == 0 then 0 else (if s[0] == c then 1 else 0) + CountChar(s[1..], c)
  }

  /** Number of leading characters of `s` that satisfy `p`. */
  function LeadingCount(s: string, p: char -> bool): (r: nat)
    ensures r <= |s|
    ensures forall i :: 0 <= i < r ==> p(s[i])
    ensures r < |s| ==> !p(s[r])
  {
    if |s| > 0 && p(s[0]) then 1 + LeadingCount(s[1..], p) else 0
  }

  /** The leading run is determined by where `p` first fails. */
  lemma {:induction false} LeadingCountOf(s: string, p: char -> bool, n: nat)
    requires n <= |s| && (forall i :: 0 <= i < n ==> p(s[i])) && (n < |s| ==> !p(s[n]))
    ensures LeadingCount(s, p) == n
    decreases n
  {
    if n > 0 {
      LeadingCountOf(s[1..], p, n - 1);
    }
  }

  /** A text that agrees with `s` on the run of `p` starting at `j`, and fails `p` where that run ends, has the same run there. */
  lemma LeadingRunAgree(s: string, c: string, p: char -> bool, j: nat, k: nat)
    requires j <= |s| && LeadingCount(s[j..], p) == k && j + k < |c| && !p(c[j + k])
    requires forall i :: j <= i < j + k ==> c[i] == s[i]
    ensures LeadingCount(c[j..], p) == k
  {
    forall i | 0 <= i < k
      ensures p(c[j..][i])
    {
      assert c[j..][i] == s[j..][i];
    }
    LeadingCountOf(c[j..], p, k);
  }

  /** Every character of `s` satisfies `p`. */
  predicate All(s: string, p: char -> bool) {
    forall i :: 0 <= i < |s| ==> p(s[i])
  }

  predicate NotSpace(c: char) { !IsSpace(c) }

  /** Length of the maximal leading run of non-space characters. */
  function WordLength(s: string): (n: nat)
    ensures n <= |s|
    ensures |s| > 0 && !IsSpace(s[0]) ==> n > 0
  {
    LeadingCount(s, NotSpace)
  }

  /** `s.split()`: the maximal runs of non-whitespace characters. */
  function Words(s: string): (ws: seq<string>)
    ensures forall k :: 0 <= k < |ws| ==> |ws[k]| > 0
    decreases |s|
  {
    var t := LStrip(s);
    if |t| == 0 then [] else
    var n := WordLength(t);
    assert 0 < n <= |t| <= |s|;
    var rest := Words(t[n..]);
    ConsIndex(t[..n], rest);
    [t[..n]] + rest
  }

  /** `sep.join(parts)` */
  function JoinWith(sep: string, parts: seq<string>): string
  {
    if |parts| == 0 then ""
    else if |parts| == 1 then parts[0]
    else parts[0] + sep + JoinWith(sep, parts[1..])
  }

  /** `"".join(parts)` */
  function Concat(parts: seq<string>): string
  {
    if |parts| == 0 then "" else parts[0] + Concat(parts[1..])
  }

  lemma {:induction false} ConcatAppend(parts: seq<string>, x: string)
    ensures Concat(parts + [x]) == Concat(parts) + x
    decreases |parts|
  {
    if |parts| == 0 {
      assert parts + [x] == [x];
      assert Concat([x]) == x + Concat([x][1..]);
    } else {
      assert (parts + [x])[1..] == parts[1..] + [x];
      ConcatAppend(parts[1..], x);
    }
  }

  lemma {:induction false} JoinWithAppend(sep: string, parts: seq<string>, x: string)
    requires |parts| > 0
    ensures JoinWith(sep, parts + [x]) == JoinWith(sep, parts) + sep + x
    decreases |parts|
  {
    if |parts| == 1 {
      assert parts + [x] == [parts[0], x];
      assert [parts[0], x][1..] == [x];
    } else {
      assert (parts + [x])[1..] == parts[1..] + [x];
      JoinWithAppend(sep, parts[1..], x);
    }
  }

  /** `str.isdigit()` restricted to ASCII digits. */
  predicate IsDigitStr(s: string) {
    |s| > 0 && All(s, IsDigit)
  }

  predicate HasUpper(s: string) { exists i :: 0 <= i < |s| && IsUpperChar(s[i]) }
  predicate HasLower(s: string) { exists i :: 0 <= i < |s| && IsLowerChar(s[i]) }

  /** `str.isupper()`: a cased character and no lower-case one (ASCII case). */
  predicate IsUpperStr(s: string) { HasUpper(s) && !HasLower(s) }

  /** `str.islower()`: a cased character and no upper-case one (ASCII case). */
  predicate IsLowerStr(s: string) { HasLower(s) && !HasUpper(s) }

  /**
   * `str.istitle()`: upper-case letters only after uncased characters,
   * lower-case letters only after cased ones, and at least one cased letter.
   */
  predicate IsTitleStr(s: string) {
    (HasUpper(s) || HasLower(s))
    && (forall i :: 0 <= i < |s| && IsUpperChar(s[i]) ==> i == 0 || !IsAsciiLetter(s[i - 1]))
    && (forall i :: 0 <= i < |s| && IsLowerChar(s[i]) ==> i > 0 && IsAsciiLetter(s[i - 1]))
  }

  /** Replaces every maximal run of characters satisfying `p` by one space. */
  function CollapseRuns(s: string, p: char -> bool): (r: string)
    ensures |r| <= |s|
    decreases |s|
  {
    if |s| == 0 then ""
    else if p(s[0]) then " " + CollapseRuns(s[LeadingCount(s, p)..], p)
    else [s[0]] + CollapseRuns(s[1..], p)
  }

  /** No two neighbouring characters both satisfy `p`. */
  predicate NoAdjacent(s: string, p: char -> bool) {
    forall i :: 0 <= i < |s| - 1 ==> !(p(s[i]) && p(s[i + 1]))
  }

  lemma {:induction false} CollapseRunsHead(s: string, p: char -> bool)
    requires |s| > 0
    ensures |CollapseRuns(s, p)| > 0
    ensures CollapseRuns(s, p)[0] == (if p(s[0]) then ' ' else s[0])
  {
  }

  /**
   * After collapsing the runs of a class that contains the space, no two
   * neighbouring characters belong to the class.
   */
  lemma {:induction false} CollapseRunsNoAdjacent(s: string, p: char -> bool)
    requires p(' ')
    ensures NoAdjacent(CollapseRuns(s, p), p)
    decreases |s|
  {
    if |s| > 0 {
      var r := CollapseRuns(s, p);
      if p(s[0]) {
        var n := LeadingCount(s, p);
        var rest := s[n..];
        CollapseRunsNoAdjacent(rest, p);
        if |rest| > 0 {
          CollapseRunsHead(rest, p);
          assert !p(rest[0]);
        }
        assert r == " " + CollapseRuns(rest, p);
      } else {
        CollapseRunsNoAdjacent(s[1..], p);
        if |s| > 1 {
          CollapseRunsHead(s[1..], p);
        }
      }
    }
  }

  /** Every character kept by the collapse outside the class is an original one. */
  lemma {:induction false} CollapseRunsChars(s: string, p: char -> bool, i: nat)
    requires i < |CollapseRuns(s, p)|
    ensures p(CollapseRuns(s, p)[i]) ==> CollapseRuns(s, p)[i] == ' '
    ensures CollapseRuns(s, p)[i] == ' ' || CollapseRuns(s, p)[i] in s
    decreases |s|
  {
    if p(s[0]) {
      if i > 0 {
        CollapseRunsChars(s[LeadingCount(s, p)..], p, i - 1);
      }
    } else if i > 0 {
      CollapseRunsChars(s[1..], p, i - 1);
    }
  }

  /** A text that has no two neighbouring class characters and only spaces in the class is unchanged. */
  lemma {:induction false} CollapseRunsFixed(s: string, p: char -> bool)
    requires NoAdjacent(s, p)
    requires forall i :: 0 <= i < |s| && p(s[i]) ==> s[i] == ' '
    ensures CollapseRuns(s, p) == s
    decreases |s|
  {
    if |s| > 0 {
      if p(s[0]) {
        assert |s| > 1 ==> !p(s[1]);
        assert LeadingCount(s, p) == 1;
      }
      CollapseRunsFixed(s[1..], p);
    }
  }

  /** A slice of a text without neighbouring class characters has none either. */
  lemma NoAdjacentSlice(s: string, p: char -> bool, i: nat, j: nat)
    requires i <= j <= |s| && NoAdjacent(s, p)
    ensures NoAdjacent(s[i..j], p)
  {
    assert forall k :: 0 <= k < j - i ==> s[i..j][k] == s[i + k];
  }

  /** `str.strip()` keeps a contiguous slice. */
  lemma StripSlice(s: string) returns (i: nat)
    ensures i + |Strip(s)| <= |s| && Strip(s) == s[i..i + |Strip(s)|]
  {
    var l := LStrip(s);
    i := |s| - |l|;
    assert Strip(s) == l[..|Strip(s)|];
  }

  /** Stripping keeps a property every character has. */
  lemma StripKeepsAll(s: string, p: char -> bool)
    requires forall k :: 0 <= k < |s| ==> p(s[k])
    ensures forall k :: 0 <= k < |Strip(s)| ==> p(Strip(s)[k])
  {
    var i := StripSlice(s);
    assert forall k :: 0 <= k < |Strip(s)| ==> Strip(s)[k] == s[i + k];
  }

  /** Stripping a text without neighbouring class characters leaves none. */
  lemma StripKeepsNoAdjacent(s: string, q: char -> bool)
    requires NoAdjacent(s, q)
    ensures NoAdjacent(Strip(s), q)
  {
    var i := StripSlice(s);
    NoAdjacentSlice(s, q, i, i + |Strip(s)|);
  }
}
