/**
  Character and string primitives that stand in for the Python built-ins and
  the literal regular expressions the analysis scripts rely on: `str.lower`,
  the substring test `w in t`, `len(re.findall(p, t))` for a literal `p`,
  `str.replace`, and the tokenizer `re.findall(r"[a-zA-Z']+", t)`.
  Case mapping is ASCII only.
*/
module Text {

  predicate IsUpper(c: char) { 'A' <= c <= 'Z' }

  /** `str.lower` on one ASCII character. */
  function LowerChar(c: char): (r: char)
    ensures !IsUpper(r)
    ensures IsUpper(c) ==> 'a' <= r <= 'z' && r as int - 'a' as int == c as int - 'A' as int
    ensures !IsUpper(c) ==> r == c
  {
    if IsUpper(c) then (c as int + 32) as char else c
  }

  /** `str.lower` on a whole string: the same length, folded character by character. */
  function Lower(s: string): (r: string)
    ensures |r| == |s|
    ensures forall i :: 0 <= i < |s| ==> r[i] == LowerChar(s[i])
  {
    if s == [] then [] else [LowerChar(s[0])] + Lower(s[1..])
  }

  /** Lower-casing twice is lower-casing once. */
  lemma LowerIdempotent(s: string)
    ensures Lower(Lower(s)) == Lower(s)
  {
  }

  /** `w` occurs in `t` starting at index `i`. */
  predicate At(t: string, i: int, w: string)
  {
    0 <= i && i + |w| <= |t| && t[i..i + |w|] == w
  }

  /** No newline stands in `t` between `a` and `e`: what `.` may match in Python's `re`. */
  predicate OneLine(t: string, a: int, e: int)
    requires 0 <= a <= e <= |t|
  {
    '\n' !in t[a..e]
  }

  /** Python's `w in t` for strings. */
  predicate Contains(t: string, w: string)
  {
    exists i | 0 <= i <= |t| - |w| :: At(t, i, w)
  }

  /** An occurrence in the tail is an occurrence in the whole string, one index later. */
  lemma AtShift(t: string, i: int, w: string)
    requires |t| > 0 && 0 <= i
    ensures At(t[1..], i, w) <==> At(t, i + 1, w)
  {
    if 0 <= i && i + |w| <= |t| - 1 {
      assert t[1..][i..i + |w|] == t[i + 1..i + 1 + |w|];
    }
  }

  /**
    `len(re.findall(p, t))` for a pattern `p` without metacharacters: occurrences
    are taken left to right and do not overlap. An empty pattern matches at every
    position, `|t| + 1` times.
  */
  function CountOccurrences(t: string, p: string): (n: nat)
    ensures |p| > 0 ==> n * |p| <= |t|
    decreases |t|
  {
    if p == [] then |t| + 1
    else if |t| < |p| then 0
    else if t[..|p|] == p then 1 + CountOccurrences(t[|p|..], p)
    else CountOccurrences(t[1..], p)
  }

  /** A non-empty literal is counted at least once exactly when it occurs. */
  lemma {:induction false} CountPositiveIff(t: string, p: string)
    requires |p| > 0
    ensures CountOccurrences(t, p) > 0 <==> Contains(t, p)
    decreases |t|
  {
    if |t| < |p| {
    } else if t[..|p|] == p {
      assert At(t, 0, p);
    } else {
      CountPositiveIff(t[1..], p);
      if Contains(t, p) {
        var i :| 0 <= i <= |t| - |p| && At(t, i, p);
        assert i != 0;
        AtShift(t, i - 1, p);
        assert At(t[1..], i - 1, p);
      }
      if Contains(t[1..], p) {
        var i :| 0 <= i <= |t| - 1 - |p| && At(t[1..], i, p);
        AtShift(t, i, p);
      }
    }
  }

  /**
    `s.replace(pat, rep)`: every non-overlapping occurrence of `pat`, found left to
    right, is replaced by `rep`; an empty `pat` inserts `rep` before every
    character and at the end.
  */
  function Replace(s: string, pat: string, rep: string): (r: string)
    ensures |pat| > 0 && |s| < |pat| ==> r == s
    decreases |s|
  {
    if pat == [] then (if s == [] then rep else rep + [s[0]] + Replace(s[1..], pat, rep))
    else if |s| < |pat| then s
    else if s[..|pat|] == pat then rep + Replace(s[|pat|..], pat, rep)
    else [s[0]] + Replace(s[1..], pat, rep)
  }

  /** A string without an occurrence of a non-empty `pat` is left unchanged. */
  lemma {:induction false} ReplaceAbsent(s: string, pat: string, rep: string)
    requires |pat| > 0 && !Contains(s, pat)
    ensures Replace(s, pat, rep) == s
    decreases |s|
  {
    if |s| >= |pat| {
      assert !At(s, 0, pat);
      assert s[..|pat|] != pat;
      if Contains(s[1..], pat) {
        var i :| 0 <= i <= |s| - 1 - |pat| && At(s[1..], i, pat);
        AtShift(s, i, pat);
        assert false;
      }
      ReplaceAbsent(s[1..], pat, rep);
      assert [s[0]] + s[1..] == s;
    }
  }

  /** A leading occurrence of a non-empty `pat` is replaced and the scan resumes after it. */
  lemma ReplaceLeading(pat: string, s: string, rep: string)
    requires |pat| > 0
    ensures Replace(pat + s, pat, rep) == rep + Replace(s, pat, rep)
  {
    assert (pat + s)[..|pat|] == pat;
    assert (pat + s)[|pat|..] == s;
  }

  /** A prefix free of a one-character pattern passes through `Replace` untouched. */
  lemma {:induction false} ReplaceKeepPrefix(a: string, s: string, pat: string, rep: string)
    requires |pat| == 1 && pat[0] !in a
    ensures Replace(a + s, pat, rep) == a + Replace(s, pat, rep)
    decreases |a|
  {
    if a != [] {
      assert (a + s)[..1] == [a[0]] && [a[0]] != pat;
      assert (a + s)[1..] == a[1..] + s;
      ReplaceKeepPrefix(a[1..], s, pat, rep);
      assert a == [a[0]] + a[1..];
    } else {
      assert a + s == s;
    }
  }

  /** The characters of the tokenizer's class `[a-zA-Z']`. */
  predicate IsWordChar(c: char)
  {
    'a' <= c <= 'z' || 'A' <= c <= 'Z' || c == '\''
  }

  /** The length of the leading run of word characters of `s`. */
  function RunLength(s: string): (n: nat)
    ensures n <= |s|
    ensures forall i :: 0 <= i < n ==> IsWordChar(s[i])
    ensures n < |s| ==> !IsWordChar(s[n])
    decreases |s|
  {
    if s != [] && IsWordChar(s[0]) then 1 + RunLength(s[1..]) else 0
  }

  /** `re.findall(r"[a-zA-Z']+", s)`: the maximal runs of word characters, in order. */
  function Tokens(s: string): (toks: seq<string>)
    ensures |toks| <= |s|
    ensures forall k :: 0 <= k < |toks| ==>
              |toks[k]| > 0 && forall i :: 0 <= i < |toks[k]| ==> IsWordChar(toks[k][i])
    decreases |s|
  {
    if s == [] then []
    else if !IsWordChar(s[0]) then Tokens(s[1..])
    else
      var n := RunLength(s);
      [s[..n]] + Tokens(s[n..])
  }

  /** The tokenizer finds nothing exactly when no character of `s` is a word character. */
  lemma {:induction false} TokensEmptyIff(s: string)
    ensures Tokens(s) == [] <==> forall i :: 0 <= i < |s| ==> !IsWordChar(s[i])
    decreases |s|
  {
    if s != [] && !IsWordChar(s[0]) {
      TokensEmptyIff(s[1..]);
      assert forall i :: 1 <= i < |s| ==> s[i] == s[1..][i - 1];
    }
  }

  /** No character of `s` is a word character. */
  ghost predicate NoWordChar(s: string)
  {
    forall i :: 0 <= i < |s| ==> !IsWordChar(s[i])
  }

  /**
    `w` is the token found at `g` in `s`: no word character stands before it,
    it is a non-empty run of word characters, and the run ends there.
  */
  ghost predicate TokenAt(s: string, g: int, w: string)
  {
    && 0 <= g && g + |w| <= |s|
    && NoWordChar(s[..g])
    && s[g..g + |w|] == w
    && |w| > 0 && (forall i :: 0 <= i < |w| ==> IsWordChar(w[i]))
    && (g + |w| < |s| ==> !IsWordChar(s[g + |w|]))
  }

  /**
    What `re.findall(r"[a-zA-Z']+", s)` must return: the first token is the
    maximal run at the first word character, the rest are the tokens of the
    text after it, and with no token left no word character remains.
  */
  ghost predicate Tokenization(s: string, toks: seq<string>)
    decreases |toks|
  {
    if toks == [] then NoWordChar(s)
    else exists g :: TokenAt(s, g, toks[0]) && Tokenization(s[g + |toks[0]|..], toks[1..])
  }

  /** The tokenizer passes over a prefix without word characters. */
  lemma {:induction false} TokensSkip(s: string, g: nat)
    requires g <= |s| && NoWordChar(s[..g])
    ensures Tokens(s) == Tokens(s[g..])
    decreases g
  {
    if g > 0 {
      assert s[..g][0] == s[0];
      var pre := s[1..][..g - 1];
      forall i | 0 <= i < g - 1
        ensures !IsWordChar(pre[i])
      {
        assert pre[i] == s[..g][i + 1];
      }
      TokensSkip(s[1..], g - 1);
      assert s[1..][g - 1..] == s[g..];
    }
  }

  /** A run of `n` word characters ended by a non-word character or the end has length `RunLength`. */
  lemma {:induction false} RunLengthExact(s: string, n: nat)
    requires n <= |s| && forall i :: 0 <= i < n ==> IsWordChar(s[i])
    requires n < |s| ==> !IsWordChar(s[n])
    ensures RunLength(s) == n
  {
  }

  /** At a token, the tokenizer takes that token and goes on after it. */
  lemma {:induction false} TokenAtTokens(s: string, g: int, w: string)
    requires TokenAt(s, g, w)
    ensures Tokens(s[g..]) == [w] + Tokens(s[g + |w|..])
  {
    var t := s[g..];
    forall i | 0 <= i < |w|
      ensures IsWordChar(t[i])
    {
      assert t[i] == s[g..g + |w|][i] == w[i];
    }
    if |w| < |t| {
      assert t[|w|] == s[g + |w|];
    }
    RunLengthExact(t, |w|);
    assert t[..|w|] == w;
    assert t[|w|..] == s[g + |w|..];
  }

  /** A token of `s[1..]` is a token of `s` one position on, when `s[0]` is no word character. */
  lemma {:induction false} TokenAtShift(s: string, g: int, w: string)
    requires s != [] && !IsWordChar(s[0]) && TokenAt(s[1..], g, w)
    ensures TokenAt(s, g + 1, w)
  {
    assert s[1..][g..g + |w|] == s[g + 1..g + 1 + |w|];
    var pre := s[..g + 1];
    forall i | 0 <= i < g + 1
      ensures !IsWordChar(pre[i])
    {
      if i > 0 {
        assert pre[i] == s[1..][..g][i - 1];
      }
    }
    if g + 1 + |w| < |s| {
      assert s[g + 1 + |w|] == s[1..][g + |w|];
    }
  }

  /** The tokenizer's result starts with the token at `g` and goes on after it. */
  lemma {:induction false} TokensAt(s: string, g: int, w: string)
    requires TokenAt(s, g, w)
    ensures Tokens(s) == [w] + Tokens(s[g + |w|..])
  {
    TokensSkip(s, g);
    TokenAtTokens(s, g, w);
  }

  /** A non-word character in front of a text without word characters keeps it so. */
  lemma {:induction false} NoWordCharCons(s: string)
    requires s != [] && !IsWordChar(s[0]) && NoWordChar(s[1..])
    ensures NoWordChar(s)
  {
    forall i | 0 < i < |s|
      ensures !IsWordChar(s[i])
    {
      assert s[i] == s[1..][i - 1];
    }
  }

  /** A token followed by a tokenization of the rest is a tokenization. */
  lemma {:induction false} TokenizationCons(s: string, g: int, w: string, rest: seq<string>)
    requires TokenAt(s, g, w) && Tokenization(s[g + |w|..], rest)
    ensures Tokenization(s, [w] + rest)
  {
    var toks := [w] + rest;
    assert toks[0] == w && toks[1..] == rest;
    assert TokenAt(s, g, toks[0]) && Tokenization(s[g + |toks[0]|..], toks[1..]);
  }

  /** A leading non-word character can be put in front of a tokenization. */
  lemma {:induction false} TokenizationSkipOne(s: string, toks: seq<string>)
    requires s != [] && !IsWordChar(s[0]) && Tokenization(s[1..], toks)
    ensures Tokenization(s, toks)
  {
    if toks == [] {
      NoWordCharCons(s);
    } else {
      var w := toks[0];
      var g :| TokenAt(s[1..], g, w) && Tokenization(s[1..][g + |w|..], toks[1..]);
      TokenAtShift(s, g, w);
      assert s[1..][g + |w|..] == s[g + 1 + |w|..];
      TokenizationCons(s, g + 1, w, toks[1..]);
      assert toks == [w] + toks[1..];
    }
  }

  /** The tokenizer's output meets the declarative statement. */
  lemma {:induction false} TokensTokenization(s: string)
    ensures Tokenization(s, Tokens(s))
    decreases |s|
  {
    if s == [] {
    } else if !IsWordChar(s[0]) {
      TokensTokenization(s[1..]);
      TokenizationSkipOne(s, Tokens(s[1..]));
    } else {
      var n := RunLength(s);
      TokensTokenization(s[n..]);
      assert s[..0] == [];
      assert TokenAt(s, 0, s[..n]);
      assert Tokens(s)[1..] == Tokens(s[n..]);
    }
  }

  /** Any sequence meeting the declarative statement is what the tokenizer returns. */
  lemma {:induction false} TokenizationIsTokens(s: string, toks: seq<string>)
    requires Tokenization(s, toks)
    ensures toks == Tokens(s)
    decreases |s|
  {
    if toks == [] {
      TokensEmptyIff(s);
    } else {
      var w := toks[0];
      var g :| TokenAt(s, g, w) && Tokenization(s[g + |w|..], toks[1..]);
      TokensAt(s, g, w);
      TokenizationIsTokens(s[g + |w|..], toks[1..]);
      assert toks == [w] + toks[1..];
    }
  }

  /** `re.findall(r"[a-zA-Z']+", s)` returns exactly the maximal runs of word characters, in order. */
  lemma {:induction false} TokensIff(s: string, toks: seq<string>)
    ensures toks == Tokens(s) <==> Tokenization(s, toks)
  {
    TokensTokenization(s);
    if Tokenization(s, toks) {
      TokenizationIsTokens(s, toks);
    }
  }
}
