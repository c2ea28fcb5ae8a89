/**
 * `normalize_text` of the extractor: collapses runs of three or more equal
 * characters (other than a newline) to one character, then runs of spaces
 * to one space, leaving tabs and newlines as they are.
 */
module Normalize {
  import opened Text

  /** Number of leading copies of `c` in `s`. */
  function RunLen(s: string, c: char): (n: nat)
    ensures n <= |s|
    ensures forall i :: 0 <= i < n ==> s[i] == c
    ensures n < |s| ==> s[n] != c
  {
    if |s| > 0 && s[0] == c then 1 + RunLen(s[1..], c) else 0
  }

  /** `re.sub(r'(.)\1{2,}', r'\1', s)`: a maximal run of 3 or more equal characters other than `\n` becomes one. */
  function SqueezeRepeats(s: string): (r: string)
    ensures |r| <= |s|
    ensures |s| > 0 ==> |r| > 0 && r[0] == s[0]
    decreases |s|
  {
    if |s| == 0 then ""
    else
      var n := RunLen(s, s[0]);
      (if s[0] != '\n' && n >= 3 then [s[0]] else s[..n]) + SqueezeRepeats(s[n..])
  }

  predicate IsBlank(c: char) { c == ' ' }

  /** `normalize_text` */
  function NormalizeText(text: string): string
  {
    if text == "" then "" else CollapseRuns(SqueezeRepeats(text), IsBlank)
  }

  /** No three neighbouring equal characters, newlines apart. */
  ghost predicate NoTriple(s: string) {
    forall i :: 0 <= i < |s| - 2 && s[i] != '\n' ==> !(s[i] == s[i + 1] && s[i] == s[i + 2])
  }

  /** After the first substitution no run of three equal characters (other than newlines) is left. */
  lemma {:induction false} SqueezeNoTriple(s: string)
    ensures NoTriple(SqueezeRepeats(s))
    decreases |s|
  {
    if |s| > 0 {
      SqueezeNoTriple(s[RunLen(s, s[0])..]);
      SqueezeHead(s);
    }
  }

  /** The first run squeezed, in front of a squeezed rest without a triple. */
  lemma SqueezeHead(s: string)
    requires |s| > 0 && NoTriple(SqueezeRepeats(s[RunLen(s, s[0])..]))
    ensures NoTriple(SqueezeRepeats(s))
  {
    var c := s[0];
    var n := RunLen(s, c);
    var chunk := if c != '\n' && n >= 3 then [c] else s[..n];
    assert forall i :: 0 <= i < |chunk| ==> chunk[i] == c;
    RunThenOther(chunk, SqueezeRepeats(s[n..]), c);
  }

  /** A run of one character, at most two long unless it is `\n`, then a text without a triple that starts with another character. */
  lemma RunThenOther(chunk: string, rest: string, c: char)
    requires forall i :: 0 <= i < |chunk| ==> chunk[i] == c
    requires c != '\n' ==> |chunk| <= 2
    requires |rest| > 0 ==> rest[0] != c
    requires NoTriple(rest)
    ensures NoTriple(chunk + rest)
  {
    var r := chunk + rest;
    forall i | 0 <= i < |r| - 2 && r[i] != '\n'
      ensures !(r[i] == r[i + 1] && r[i] == r[i + 2])
    {
      if i >= |chunk| {
        assert r[i] == rest[i - |chunk|] && r[i + 1] == rest[i + 1 - |chunk|] && r[i + 2] == rest[i + 2 - |chunk|];
      } else if i + 2 >= |chunk| && |rest| > 0 {
        assert r[|chunk|] == rest[0];
        assert r[|chunk| - 1] == c;
      }
    }
  }


  /** Dropping a prefix keeps a text free of triples. */
  lemma NoTripleSuffix(s: string, n: nat)
    requires NoTriple(s) && n <= |s|
    ensures NoTriple(s[n..])
  {
    var rest := s[n..];
    forall i | 0 <= i < |rest| - 2 && rest[i] != '\n'
      ensures !(rest[i] == rest[i + 1] && rest[i] == rest[i + 2])
    {
      assert rest[i] == s[n + i] && rest[i + 1] == s[n + i + 1] && rest[i + 2] == s[n + i + 2];
    }
  }

  /** Without triples, the first run of a text is kept whole. */
  lemma SqueezeStepFixed(s: string)
    requires NoTriple(s) && |s| > 0
    ensures SqueezeRepeats(s) == s[..RunLen(s, s[0])] + SqueezeRepeats(s[RunLen(s, s[0])..])
  {
    var n := RunLen(s, s[0]);
    if n >= 3 {
      assert s[1] == s[0] && s[2] == s[0];
    }
  }

  /** A text with no such run is left unchanged by the first substitution. */
  lemma {:induction false} SqueezeFixed(s: string)
    requires NoTriple(s)
    ensures SqueezeRepeats(s) == s
    decreases |s|
  {
    if |s| > 0 {
      var n := RunLen(s, s[0]);
      SqueezeStepFixed(s);
      NoTripleSuffix(s, n);
      SqueezeFixed(s[n..]);
      TakeDrop(s, n);
    }
  }

  /** Collapsing runs of spaces creates no run of three equal characters. */
  lemma {:induction false} CollapseKeepsNoTriple(s: string)
    requires NoTriple(s)
    ensures NoTriple(CollapseRuns(s, IsBlank))
    decreases |s|
  {
    if |s| > 0 {
      var r := CollapseRuns(s, IsBlank);
      if IsBlank(s[0]) {
        var n := LeadingCount(s, IsBlank);
        var rest := s[n..];
        NoTripleSuffix(s, n);
        CollapseKeepsNoTriple(rest);
        var cr := CollapseRuns(rest, IsBlank);
        assert r == " " + cr;
        if |rest| > 0 {
          CollapseRunsHead(rest, IsBlank);
        }
        forall i | 0 <= i < |r| - 2 && r[i] != '\n'
          ensures !(r[i] == r[i + 1] && r[i] == r[i + 2])
        {
          if i > 0 {
            assert r[i] == cr[i - 1] && r[i + 1] == cr[i] && r[i + 2] == cr[i + 1];
          }
        }
      } else {
        var rest := s[1..];
        NoTripleSuffix(s, 1);
        CollapseKeepsNoTriple(rest);
        var cr := CollapseRuns(rest, IsBlank);
        assert r == [s[0]] + cr;
        if |cr| >= 2 {
          CollapseRunsHead(rest, IsBlank);
          if !IsBlank(s[1]) {
            assert cr[0] == s[1];
            if |rest| > 1 {
              CollapseRunsHead(rest[1..], IsBlank);
              assert cr == [s[1]] + CollapseRuns(rest[1..], IsBlank);
              assert cr[1] == (if IsBlank(s[2]) then ' ' else s[2]);
            }
          }
        }
        forall i | 0 <= i < |r| - 2 && r[i] != '\n'
          ensures !(r[i] == r[i + 1] && r[i] == r[i + 2])
        {
          if i > 0 {
            assert r[i] == cr[i - 1] && r[i + 1] == cr[i] && r[i + 2] == cr[i + 1];
          }
        }
      }
    }
  }

  /** The result has no run of three equal characters (newlines apart) and no two neighbouring spaces. */
  lemma NormalizeTextShape(text: string)
    ensures NoTriple(NormalizeText(text))
    ensures NoAdjacent(NormalizeText(text), IsBlank)
  {
    if text != "" {
      SqueezeNoTriple(text);
      CollapseKeepsNoTriple(SqueezeRepeats(text));
      CollapseRunsNoAdjacent(SqueezeRepeats(text), IsBlank);
    }
  }

  /** Normalising twice is normalising once. */
  lemma NormalizeTextIdempotent(text: string)
    ensures NormalizeText(NormalizeText(text)) == NormalizeText(text)
  {
    var r := NormalizeText(text);
    NormalizeTextShape(text);
    if r != "" {
      SqueezeFixed(r);
      CollapseRunsFixed(r, IsBlank);
    }
  }

  lemma {:induction false} CountCharAppend(a: string, b: string, c: char)
    ensures CountChar(a + b, c) == CountChar(a, c) + CountChar(b, c)
    decreases |a|
  {
    if |a| == 0 {
      assert a + b == b;
    } else {
      assert (a + b)[1..] == a[1..] + b;
      CountCharAppend(a[1..], b, c);
    }
  }

  lemma {:induction false} CountCharRun(s: string, c: char, d: char)
    requires forall i :: 0 <= i < |s| ==> s[i] == c
    ensures CountChar(s, d) == if c == d then |s| else 0
    decreases |s|
  {
    if |s| > 0 {
      CountCharRun(s[1..], c, d);
    }
  }

  lemma {:induction false} SqueezeNewlines(s: string)
    ensures CountChar(SqueezeRepeats(s), '\n') == CountChar(s, '\n')
    decreases |s|
  {
    if |s| > 0 {
      var n := RunLen(s, s[0]);
      var chunk := if s[0] != '\n' && n >= 3 then [s[0]] else s[..n];
      assert SqueezeRepeats(s) == chunk + SqueezeRepeats(s[n..]);
      SqueezeNewlines(s[n..]);
      CountCharAppend(chunk, SqueezeRepeats(s[n..]), '\n');
      CountCharAppend(s[..n], s[n..], '\n');
      TakeDrop(s, n);
      CountCharRun(chunk, s[0], '\n');
      CountCharRun(s[..n], s[0], '\n');
      assert CountChar(chunk, '\n') == CountChar(s[..n], '\n');
    }
  }

  /** Collapsing runs of spaces leaves the number of every other character as it was. */
  lemma {:induction false} CollapseKeepsChar(s: string, c: char)
    requires c != ' '
    ensures CountChar(CollapseRuns(s, IsBlank), c) == CountChar(s, c)
    decreases |s|
  {
    if |s| > 0 {
      if IsBlank(s[0]) {
        var n := LeadingCount(s, IsBlank);
        CollapseKeepsChar(s[n..], c);
        CountCharAppend(" ", CollapseRuns(s[n..], IsBlank), c);
        CountCharAppend(s[..n], s[n..], c);
        TakeDrop(s, n);
        CountCharRun(s[..n], ' ', c);
      } else {
        CollapseKeepsChar(s[1..], c);
        CountCharAppend([s[0]], CollapseRuns(s[1..], IsBlank), c);
      }
    }
  }

  /** Line structure is kept: the text has as many newlines as before. */
  lemma NormalizeTextKeepsNewlines(text: string)
    ensures CountChar(NormalizeText(text), '\n') == CountChar(text, '\n')
  {
    if text != "" {
      SqueezeNewlines(text);
      CollapseKeepsChar(SqueezeRepeats(text), '\n');
    }
  }
}
