/**
  validate_claims.py: the numeric literals of a response with the text around
  each, and the three rule checks that compare what a response claims with the
  ground-truth statistics.
*/
module ValidateClaims {
  import opened Text

  // ---------------------------------------------------------------------------
  // The numeral pattern `-?\d+\.?\d*`

  predicate IsDigit(c: char) { '0' <= c <= '9' }

  /** Every character of `t[lo..hi]` is a digit. */
  ghost predicate DigitsIn(t: string, lo: int, hi: int)
    requires 0 <= lo <= hi <= |t|
  {
    forall k :: lo <= k < hi ==> IsDigit(t[k])
  }

  /** The length of the run of digits that starts at `i`. */
  function DigitRun(t: string, i: nat): (n: nat)
    requires i <= |t|
    ensures i + n <= |t|
    decreases |t| - i
  {
    if i < |t| && IsDigit(t[i]) then 1 + DigitRun(t, i + 1) else 0
  }

  /** The run consists of digits and is followed by a non-digit or the end of the text. */
  lemma {:induction false} DigitRunSpec(t: string, i: nat)
    requires i <= |t|
    ensures DigitsIn(t, i, i + DigitRun(t, i))
    ensures i + DigitRun(t, i) < |t| ==> !IsDigit(t[i + DigitRun(t, i)])
    decreases |t| - i
  {
    if i < |t| && IsDigit(t[i]) {
      DigitRunSpec(t, i + 1);
    }
  }

  /** No run of digits from `i` is longer than `DigitRun(t, i)`. */
  lemma {:induction false} DigitRunLongest(t: string, i: nat, m: nat)
    requires i + m <= |t| && DigitsIn(t, i, i + m)
    ensures m <= DigitRun(t, i)
    decreases m
  {
    if m > 0 {
      assert IsDigit(t[i]);
      DigitRunLongest(t, i + 1, m - 1);
    }
  }

  /**
    `t[i..j]` is a string the pattern matches in full: an optional minus (the
    digits start at `a`), one or more digits up to `b`, then optionally a point
    followed by any number of digits.
  */
  ghost predicate NumeralSpan(t: string, i: int, j: int, a: int, b: int)
  {
    && 0 <= i <= a <= i + 1 && a < b <= j <= |t|
    && (a == i + 1 ==> t[i] == '-')
    && DigitsIn(t, a, b)
    && (b == j || (t[b] == '.' && DigitsIn(t, b + 1, j)))
  }

  ghost predicate IsNumeralAt(t: string, i: int, j: int)
  {
    exists a, b :: NumeralSpan(t, i, j, a, b)
  }

  /**
    The length of the match `re.finditer` finds at `i`, 0 when none starts
    there. Every quantifier is greedy and what follows `\d+` is optional, so
    the match is the longest numeral at `i`.
  */
  function MatchLen(t: string, i: nat): (n: nat)
    requires i <= |t|
    ensures i + n <= |t|
  {
    var sign := if i < |t| && t[i] == '-' then 1 else 0;
    var d := DigitRun(t, i + sign);
    if d == 0 then 0
    else
      var e := i + sign + d;
      if e < |t| && t[e] == '.' then sign + d + 1 + DigitRun(t, e + 1) else sign + d
  }

  /** What the matcher returns is a numeral. */
  lemma MatchIsNumeral(t: string, i: nat)
    requires i <= |t| && MatchLen(t, i) > 0
    ensures IsNumeralAt(t, i, i + MatchLen(t, i))
  {
    var sign := if i < |t| && t[i] == '-' then 1 else 0;
    var d := DigitRun(t, i + sign);
    DigitRunSpec(t, i + sign);
    if i + sign + d < |t| {
      DigitRunSpec(t, i + sign + d + 1);
    }
    assert NumeralSpan(t, i, i + MatchLen(t, i), i + sign, i + sign + DigitRun(t, i + sign));
  }

  /** No numeral starting at `i` is longer than the match: the match is greedy. */
  lemma MatchIsLongest(t: string, i: nat, j: int)
    requires IsNumeralAt(t, i, j)
    ensures j <= i + MatchLen(t, i)
  {
    var a, b :| NumeralSpan(t, i, j, a, b);
    var sign := if i < |t| && t[i] == '-' then 1 else 0;
    assert a == i + sign by {
      if a == i { assert IsDigit(t[i]); }
    }
    DigitRunLongest(t, a, b - a);
    DigitRunSpec(t, a);
    if b < j {
      assert b - a >= DigitRun(t, a);
      DigitRunLongest(t, b + 1, j - b - 1);
    }
  }

  /** A numeral starts at `i` exactly when the matcher reports a match there. */
  lemma MatchStartsIff(t: string, i: nat)
    requires i <= |t|
    ensures MatchLen(t, i) > 0 <==> exists j :: IsNumeralAt(t, i, j)
  {
    if MatchLen(t, i) > 0 {
      MatchIsNumeral(t, i);
    }
    if j :| IsNumeralAt(t, i, j) {
      MatchIsLongest(t, i, j);
      var a, b :| NumeralSpan(t, i, j, a, b);
      assert b - a <= DigitRun(t, a) by { DigitRunLongest(t, a, b - a); }
    }
  }

  // ---------------------------------------------------------------------------
  // `re.finditer`: the matches, left to right and without overlap

  datatype Span = Span(start: nat, end: nat)

  /** The matches `re.finditer` yields from position `i` on: after a match the search resumes at its end. */
  function Scan(t: string, i: nat): (spans: seq<Span>)
    requires i <= |t|
    ensures InText(t, spans)
    decreases |t| - i
  {
    if i == |t| then []
    else
      var n := MatchLen(t, i);
      if n > 0 then [Span(i, i + n)] + Scan(t, i + n) else Scan(t, i + 1)
  }

  /** Every span lies within the text. */
  ghost predicate InText(t: string, spans: seq<Span>)
  {
    forall k :: 0 <= k < |spans| ==> spans[k].start <= spans[k].end <= |t|
  }

  /** A numeral starts at `p`. */
  predicate StartsNumeral(t: string, p: nat)
    requires p <= |t|
  {
    MatchLen(t, p) > 0
  }

  /** No numeral starts at any position of `t[lo..hi]`. */
  ghost predicate NoMatchIn(t: string, lo: nat, hi: nat)
    requires lo <= hi <= |t|
  {
    forall p :: lo <= p < hi ==> !StartsNumeral(t, p)
  }

  /**
    What `re.finditer` must yield from `i` on: each span is the greedy match
    at its start, it starts after the previous one ends, and no numeral starts
    in the gaps between spans or after the last.
  */
  ghost predicate Tiling(t: string, i: nat, spans: seq<Span>)
    requires i <= |t|
    decreases |spans|
  {
    if spans == [] then NoMatchIn(t, i, |t|)
    else
      var sp := spans[0];
      && i <= sp.start <= |t|
      && StartsNumeral(t, sp.start)
      && sp.end == sp.start + MatchLen(t, sp.start)
      && NoMatchIn(t, i, sp.start)
      && Tiling(t, sp.end, spans[1..])
  }

  /** One step of the scan. */
  lemma ScanStep(t: string, i: nat)
    requires i < |t|
    ensures var n := MatchLen(t, i);
      Scan(t, i) == if n > 0 then [Span(i, i + n)] + Scan(t, i + n) else Scan(t, i + 1)
  {
  }

  /** A match at `sp.start`, after a stretch with no numeral, in front of a tiling. */
  lemma TilingCons(t: string, i: nat, sp: Span, rest: seq<Span>)
    requires i <= sp.start <= |t| && StartsNumeral(t, sp.start) && sp.end == sp.start + MatchLen(t, sp.start)
    requires NoMatchIn(t, i, sp.start) && Tiling(t, sp.end, rest)
    ensures Tiling(t, i, [sp] + rest)
  {
    assert ([sp] + rest)[1..] == rest;
  }

  /** A position where no numeral starts can be added in front of a tiling. */
  lemma TilingExtend(t: string, i: nat, spans: seq<Span>)
    requires i < |t| && !StartsNumeral(t, i) && Tiling(t, i + 1, spans)
    ensures Tiling(t, i, spans)
  {
  }

  /** The scan yields a tiling. */
  lemma {:induction false} ScanTiling(t: string, i: nat)
    requires i <= |t|
    ensures Tiling(t, i, Scan(t, i))
    decreases |t| - i
  {
    if i < |t| {
      var n := MatchLen(t, i);
      ScanStep(t, i);
      if n > 0 {
        ScanTiling(t, i + n);
        TilingCons(t, i, Span(i, i + n), Scan(t, i + n));
      } else {
        ScanTiling(t, i + 1);
        TilingExtend(t, i, Scan(t, i + 1));
      }
    }
  }

  /** The scan passes over a stretch where no numeral starts. */
  lemma {:induction false} ScanSkip(t: string, i: nat, j: nat)
    requires i <= j <= |t| && NoMatchIn(t, i, j)
    ensures Scan(t, i) == Scan(t, j)
    decreases j - i
  {
    if i < j {
      assert !StartsNumeral(t, i);
      ScanStep(t, i);
      ScanSkip(t, i + 1, j);
    }
  }

  /** The tiling is unique: any sequence of spans meeting it is what the scan yields. */
  lemma {:induction false} TilingIsScan(t: string, i: nat, spans: seq<Span>)
    requires i <= |t| && Tiling(t, i, spans)
    ensures spans == Scan(t, i)
    decreases |spans|
  {
    if spans == [] {
      ScanSkip(t, i, |t|);
    } else {
      var sp := spans[0];
      ScanSkip(t, i, sp.start);
      TilingIsScan(t, sp.end, spans[1..]);
      ScanStep(t, sp.start);
    }
  }

  /** `re.finditer`'s matches are exactly the tiling of the text. */
  lemma ScanIff(t: string, spans: seq<Span>)
    ensures spans == Scan(t, 0) <==> Tiling(t, 0, spans)
  {
    ScanTiling(t, 0);
    if Tiling(t, 0, spans) {
      TilingIsScan(t, 0, spans);
    }
  }

  // ---------------------------------------------------------------------------
  // `float(m.group(1))` and the context window

  function Pow10(n: nat): (r: nat)
    ensures r > 0
  {
    if n == 0 then 1 else 10 * Pow10(n - 1)
  }

  function DigitOf(c: char): nat
  {
    if IsDigit(c) then c as int - '0' as int else 0
  }

  /** The value of the decimal digits `t[lo..hi]`. */
  function DigitsValue(t: string, lo: nat, hi: nat): nat
    requires lo <= hi <= |t|
    decreases hi - lo
  {
    if lo == hi then 0 else 10 * DigitsValue(t, lo, hi - 1) + DigitOf(t[hi - 1])
  }

  /** `hi - lo` digits have a value below `10^(hi - lo)`. */
  lemma {:induction false} DigitsValueBounds(t: string, lo: nat, hi: nat)
    requires lo <= hi <= |t|
    ensures DigitsValue(t, lo, hi) < Pow10(hi - lo)
    decreases hi - lo
  {
    if lo < hi {
      DigitsValueBounds(t, lo, hi - 1);
    }
  }

  /**
    An exact decimal: `whole + fraction / 10^places`, negated when `negative`.
    `float()` would round this to binary; the comparisons below are exact.
  */
  datatype Decimal = Decimal(negative: bool, whole: nat, fraction: nat, places: nat)

  function RealValue(d: Decimal): real
  {
    var mag := d.whole as real + d.fraction as real / Pow10(d.places) as real;
    if d.negative then -mag else mag
  }

  /** `d > n`, decided on the parts of `d`. */
  predicate Above(d: Decimal, n: nat)
  {
    !d.negative && (d.whole > n || (d.whole == n && d.fraction > 0))
  }

  /** Comparing the parts decides the comparison of the values. */
  lemma AboveIff(d: Decimal, n: nat)
    requires d.fraction < Pow10(d.places)
    ensures Above(d, n) <==> RealValue(d) > n as real
  {
    QuotientBelowOne(d.fraction as real, Pow10(d.places) as real);
  }

  lemma QuotientBelowOne(x: real, y: real)
    requires 0.0 <= x < y
    ensures 0.0 <= x / y < 1.0
    ensures x > 0.0 ==> x / y > 0.0
  {
    var q := x / y;
    assert q * y == x;
  }

  /** `float(m.group(1))` on the numeral a span covers, kept exact. */
  function Value(t: string, sp: Span): (d: Decimal)
    requires sp.start <= sp.end <= |t|
    ensures d.fraction < Pow10(d.places)
  {
    var neg := sp.start < sp.end && t[sp.start] == '-';
    var a := if neg then sp.start + 1 else sp.start;
    var b := Min(a + DigitRun(t, a), sp.end);
    if b < sp.end then
      DigitsValueBounds(t, b + 1, sp.end);
      Decimal(neg, DigitsValue(t, a, b), DigitsValue(t, b + 1, sp.end), sp.end - b - 1)
    else Decimal(neg, DigitsValue(t, a, b), 0, 0)
  }

  function Max(x: int, y: int): int { if x < y then y else x }

  function Min(x: int, y: int): int { if x < y then x else y }

  /** `text[max(0, start - 20):end + 20]`: the match with up to 20 characters on either side. */
  function Context(t: string, sp: Span): (c: string)
    requires sp.start <= sp.end <= |t|
  {
    t[Max(0, sp.start - 20)..Min(|t|, sp.end + 20)]
  }

  /** The context holds the match itself and at most 20 characters before and after it. */
  lemma ContextSpec(t: string, sp: Span)
    requires sp.start <= sp.end <= |t|
    ensures var lo := Max(0, sp.start - 20);
      Context(t, sp)[sp.start - lo..sp.end - lo] == t[sp.start..sp.end]
    ensures sp.end - sp.start <= |Context(t, sp)| <= sp.end - sp.start + 40
  {
    var lo, hi := Max(0, sp.start - 20), Min(|t|, sp.end + 20);
    assert Context(t, sp) == t[lo..hi];
    assert lo <= sp.start && sp.end <= hi;
    assert t[lo..hi][sp.start - lo..sp.end - lo] == t[sp.start..sp.end] by {
      forall k | 0 <= k < sp.end - sp.start
        ensures t[lo..hi][sp.start - lo..sp.end - lo][k] == t[sp.start..sp.end][k]
      {
        assert t[lo..hi][sp.start - lo + k] == t[sp.start + k];
      }
    }
  }

  datatype Number = Number(value: Decimal, context: string)

  /** The number a match stands for, with its context. */
  function NumberAt(t: string, sp: Span): Number
    requires sp.start <= sp.end <= |t|
  {
    Number(Value(t, sp), Context(t, sp))
  }

  function Found(t: string, spans: seq<Span>): seq<Number>
    requires InText(t, spans)
  {
    if spans == [] then [] else [NumberAt(t, spans[0])] + Found(t, spans[1..])
  }

  /** One step of the scan: a match at `i` contributes its number, otherwise the search moves on by one. */
  lemma FoundStep(t: string, i: nat)
    requires i < |t|
    ensures var n := MatchLen(t, i);
      Found(t, Scan(t, i)) ==
        if n > 0 then [NumberAt(t, Span(i, i + n))] + Found(t, Scan(t, i + n))
        else Found(t, Scan(t, i + 1))
  {
    var n := MatchLen(t, i);
    if n > 0 {
      assert Scan(t, i)[1..] == Scan(t, i + n);
    }
  }

  /** The extraction loop's step at a match: its number joins what was found, and the scan resumes after it. */
  lemma ExtractMatch(t: string, i: nat, nums: seq<Number>)
    requires i < |t| && MatchLen(t, i) > 0 && nums + Found(t, Scan(t, i)) == Numbers(t)
    ensures (nums + [NumberAt(t, Span(i, i + MatchLen(t, i)))]) + Found(t, Scan(t, i + MatchLen(t, i))) == Numbers(t)
  {
    FoundStep(t, i);
    var n := MatchLen(t, i);
    var x := NumberAt(t, Span(i, i + n));
    assert (nums + [x]) + Found(t, Scan(t, i + n)) == nums + ([x] + Found(t, Scan(t, i + n)));
  }

  /** The extraction loop's step where no numeral starts: the scan moves on by one. */
  lemma ExtractSkip(t: string, i: nat, nums: seq<Number>)
    requires i < |t| && MatchLen(t, i) == 0 && nums + Found(t, Scan(t, i)) == Numbers(t)
    ensures nums + Found(t, Scan(t, i + 1)) == Numbers(t)
  {
    FoundStep(t, i);
  }

  /** `extract_numbers`: every match of `-?\d+\.?\d*`, its value and its context, in text order. */
  function Numbers(t: string): seq<Number>
  {
    Found(t, Scan(t, 0))
  }

  /**
    One step of `re.finditer` and the loop body: at a match, append its value
    and context and resume after it; otherwise try the next position.
  */
  method ExtractAt(text: string, i: nat, nums: seq<Number>) returns (i': nat, nums': seq<Number>)
    requires i < |text| && nums + Found(text, Scan(text, i)) == Numbers(text)
    ensures i < i' <= |text| && nums' + Found(text, Scan(text, i')) == Numbers(text)
  {
    var n := MatchLen(text, i);
    if n > 0 {
      ExtractMatch(text, i, nums);
      nums', i' := nums + [NumberAt(text, Span(i, i + n))], i + n;
    } else {
      ExtractSkip(text, i, nums);
      nums', i' := nums, i + 1;
    }
  }

  method ExtractNumbers(text: string) returns (nums: seq<Number>)
    ensures nums == Numbers(text)
  {
    nums := [];
    var i := 0;
    while i < |text|
      invariant 0 <= i <= |text|
      invariant nums + Found(text, Scan(text, i)) == Numbers(text)
      decreases |text| - i
    {
      i, nums := ExtractAt(text, i, nums);
    }
  }

  // ---------------------------------------------------------------------------
  // The turnover trigger `turnover[s]? .*than opponent`, ignoring case

  const Than := "than opponent"

  /** `.*w` from `j`: `w` starts at `j` or later, with no newline in between. */
  function PhraseAhead(t: string, j: nat, w: string): bool
    requires j <= |t|
    decreases |t| - j
  {
    At(t, j, w) || (j < |t| && t[j] != '\n' && PhraseAhead(t, j + 1, w))
  }

  lemma {:induction false} PhraseAheadIff(t: string, j: nat, w: string)
    requires j <= |t|
    ensures PhraseAhead(t, j, w) <==> exists e :: j <= e <= |t| && OneLine(t, j, e) && At(t, e, w)
    decreases |t| - j
  {
    if At(t, j, w) {
      assert OneLine(t, j, j);
    }
    if j < |t| {
      PhraseAheadIff(t, j + 1, w);
      if e :| j <= e <= |t| && OneLine(t, j, e) && At(t, e, w) {
        if e > j {
          assert t[j] == t[j..e][0];
          assert t[j + 1..e] == t[j..e][1..];
        }
      }
      if t[j] != '\n' && PhraseAhead(t, j + 1, w) {
        var e :| j + 1 <= e <= |t| && OneLine(t, j + 1, e) && At(t, e, w);
        assert t[j..e] == [t[j]] + t[j + 1..e];
      }
    }
  }

  /**
    The pattern matches with "turnover" at `i`, the required space at `k` (right
    after the word, or after its plural "s") and "than opponent" at `e`, with
    no newline between the space and `e`.
  */
  ghost predicate TurnoverAt(t: string, i: int, k: int, e: int)
  {
    && At(t, i, "turnover")
    && (k == i + 8 || (k == i + 9 && At(t, i + 8, "s")))
    && At(t, k, " ")
    && k + 1 <= e <= |t|
    && OneLine(t, k + 1, e)
    && At(t, e, Than)
  }

  ghost predicate TurnoverFromSpec(t: string, i: int)
  {
    exists k, e :: TurnoverAt(t, i, k, e)
  }

  /** `re.search(r"turnover[s]? .*than opponent", text, re.I)` finds a match. */
  ghost predicate ComparesTurnovers(text: string)
  {
    exists i :: TurnoverFromSpec(Lower(text), i)
  }

  /** The pattern matches with "turnover" at `i`: either branch of `[s]?`. */
  function TurnoverFrom(t: string, i: nat): bool
  {
    At(t, i, "turnover")
    && ((At(t, i + 8, " ") && PhraseAhead(t, i + 9, Than)) || (At(t, i + 8, "s ") && PhraseAhead(t, i + 10, Than)))
  }

  lemma TurnoverFromIff(t: string, i: nat)
    ensures TurnoverFrom(t, i) <==> TurnoverFromSpec(t, i)
  {
    if At(t, i, "turnover") {
      if At(t, i + 8, " ") {
        PhraseAheadIff(t, i + 9, Than);
        if PhraseAhead(t, i + 9, Than) {
          var e :| i + 9 <= e <= |t| && OneLine(t, i + 9, e) && At(t, e, Than);
          assert TurnoverAt(t, i, i + 8, e);
        }
      }
      if At(t, i + 8, "s ") {
        PhraseAheadIff(t, i + 10, Than);
        assert t[i + 8..i + 9] == t[i + 8..i + 10][..1];
        assert t[i + 9..i + 10] == t[i + 8..i + 10][1..];
        if PhraseAhead(t, i + 10, Than) {
          var e :| i + 10 <= e <= |t| && OneLine(t, i + 10, e) && At(t, e, Than);
          assert TurnoverAt(t, i, i + 9, e);
        }
      }
      if k, e :| TurnoverAt(t, i, k, e) {
        if k == i + 8 {
          PhraseAheadIff(t, i + 9, Than);
        } else {
          PhraseAheadIff(t, i + 10, Than);
          assert t[i + 8..i + 10] == t[i + 8..i + 9] + t[i + 9..i + 10];
        }
      }
    }
  }

  /** Tries every start position from `i` on, as `re.search` does. */
  function TurnoverSearch(t: string, i: nat): bool
    decreases |t| - i
  {
    if i + 8 > |t| then false else TurnoverFrom(t, i) || TurnoverSearch(t, i + 1)
  }

  lemma {:induction false} TurnoverSearchIff(t: string, i: nat)
    ensures TurnoverSearch(t, i) <==> exists i' :: i <= i' && TurnoverFromSpec(t, i')
    decreases |t| - i
  {
    if i + 8 > |t| {
      if i' :| i <= i' && TurnoverFromSpec(t, i') {
        assert false;
      }
    } else {
      TurnoverSearchIff(t, i + 1);
      TurnoverFromIff(t, i);
      if i' :| i <= i' && TurnoverFromSpec(t, i') {
        if i' != i {
          assert i + 1 <= i';
        }
      }
    }
  }

  /** The hand-written matcher for the turnover pattern. */
  function TurnoverMatches(text: string): bool
  {
    TurnoverSearch(Lower(text), 0)
  }

  /** The matcher accepts exactly the texts the pattern describes. */
  lemma TurnoverMatchesIff(text: string)
    ensures TurnoverMatches(text) <==> ComparesTurnovers(text)
  {
    TurnoverSearchIff(Lower(text), 0);
    if ComparesTurnovers(text) {
      var i :| TurnoverFromSpec(Lower(text), i);
      assert 0 <= i;
    }
  }

  // ---------------------------------------------------------------------------
  // The rule checks

  /** The ground-truth statistics the rules compare with. */
  datatype Truth = Truth(
    turnovers: int, opponentTurnovers: int,
    freePositionMade: int, freePositionAttempts: int,
    opponentFreePositionMade: int, opponentFreePositionAttempts: int)

  /**
    One entry of the issues list. The source also stores a fixed claim label
    and a formatted truth string; the values they are built from are kept here.
  */
  datatype Issue =
    | TurnoverIssue(ours: int, theirs: int, correct: bool)
    | FreePositionIssue(ourRate: real, theirRate: real, correct: bool)
    | LargeNumberIssue(value: Decimal, context: string, correct: bool)

  /** What `check_claims` returns, or the `ZeroDivisionError` it raises. */
  datatype Outcome = Ok(issues: seq<Issue>) | ZeroDivisionError

  /** Rule 1: one issue when the turnover pattern matches. */
  function TurnoverIssues(text: string, truth: Truth): seq<Issue>
  {
    if TurnoverMatches(text) then
      [TurnoverIssue(truth.turnovers, truth.opponentTurnovers, truth.turnovers > truth.opponentTurnovers)]
    else []
  }

  /** Rule 2: one issue when "better free position" occurs; a zero attempt count raises. */
  function FreePositionRule(text: string, truth: Truth): Outcome
  {
    if !Contains(Lower(text), "better free position") then Ok([])
    else if truth.freePositionAttempts == 0 || truth.opponentFreePositionAttempts == 0 then ZeroDivisionError
    else
      var ours := truth.freePositionMade as real / truth.freePositionAttempts as real;
      var theirs := truth.opponentFreePositionMade as real / truth.opponentFreePositionAttempts as real;
      Ok([FreePositionIssue(ours, theirs, ours > theirs)])
  }

  /** Rule 3 on a list of numbers: an issue, never correct, for each number above 1000, in order. */
  function LargeNumberIssues(nums: seq<Number>): seq<Issue>
  {
    if nums == [] then []
    else
      var last := nums[|nums| - 1];
      LargeNumberIssues(nums[..|nums| - 1])
        + (if Above(last.value, 1000) then [LargeNumberIssue(last.value, last.context, false)] else [])
  }

  /** Rule 3: when "shot" occurs, an issue for each extracted number above 1000. */
  function ShotIssues(text: string): seq<Issue>
  {
    if Contains(Lower(text), "shot") then LargeNumberIssues(Numbers(text)) else []
  }

  /** `check_claims`: the three rules' issues, in rule order. */
  function Claims(text: string, truth: Truth): Outcome
  {
    match FreePositionRule(text, truth)
    case ZeroDivisionError => ZeroDivisionError
    case Ok(fp) => Ok(TurnoverIssues(text, truth) + fp + ShotIssues(text))
  }

  /** The loop of rule 3 over the extracted numbers. */
  method FlagLargeNumbers(nums: seq<Number>) returns (issues: seq<Issue>)
    ensures issues == LargeNumberIssues(nums)
  {
    issues := [];
    var k := 0;
    while k < |nums|
      invariant 0 <= k <= |nums|
      invariant issues == LargeNumberIssues(nums[..k])
    {
      assert nums[..k + 1][..k] == nums[..k];
      if Above(nums[k].value, 1000) {
        issues := issues + [LargeNumberIssue(nums[k].value, nums[k].context, false)];
      }
      k := k + 1;
    }
    assert nums[..|nums|] == nums;
  }

  method ShotRule(text: string) returns (issues: seq<Issue>)
    ensures issues == ShotIssues(text)
  {
    issues := [];
    if Contains(Lower(text), "shot") {
      var nums := ExtractNumbers(text);
      issues := FlagLargeNumbers(nums);
    }
  }

  method FreePositionCheck(text: string, truth: Truth) returns (r: Outcome)
    ensures r == FreePositionRule(text, truth)
  {
    var lower := Lower(text);
    if !Contains(lower, "better free position") {
      return Ok([]);
    }
    if truth.freePositionAttempts == 0 || truth.opponentFreePositionAttempts == 0 {
      return ZeroDivisionError;
    }
    var ours := truth.freePositionMade as real / truth.freePositionAttempts as real;
    var theirs := truth.opponentFreePositionMade as real / truth.opponentFreePositionAttempts as real;
    return Ok([FreePositionIssue(ours, theirs, ours > theirs)]);
  }

  method CheckClaims(text: string, truth: Truth) returns (r: Outcome)
    ensures r == Claims(text, truth)
  {
    var issues: seq<Issue> := [];
    if TurnoverMatches(text) {
      var ours, theirs := truth.turnovers, truth.opponentTurnovers;
      issues := issues + [TurnoverIssue(ours, theirs, ours > theirs)];
    }
    var fp := FreePositionCheck(text, truth);
    if fp.ZeroDivisionError? {
      return ZeroDivisionError;
    }
    issues := issues + fp.issues;
    var large := ShotRule(text);
    issues := issues + large;
    return Ok(issues);
  }

  // ---------------------------------------------------------------------------
  // What the rules promise

  /** The numbers are the matches' values and contexts, one per match, in text order. */
  lemma {:induction false} FoundIndex(t: string, spans: seq<Span>)
    requires InText(t, spans)
    ensures |Found(t, spans)| == |spans|
    ensures forall k :: 0 <= k < |spans| ==> Found(t, spans)[k] == NumberAt(t, spans[k])
  {
    if spans != [] {
      FoundIndex(t, spans[1..]);
    }
  }

  /** Rule 1 reports one issue exactly when the pattern matches, with verdict "ours > theirs". */
  lemma TurnoverRule(text: string, truth: Truth)
    ensures |TurnoverIssues(text, truth)| <= 1
    ensures TurnoverIssues(text, truth) != [] <==> ComparesTurnovers(text)
    ensures forall iss :: iss in TurnoverIssues(text, truth) ==>
              iss.TurnoverIssue? && iss.ours == truth.turnovers && iss.theirs == truth.opponentTurnovers
              && (iss.correct <==> truth.turnovers > truth.opponentTurnovers)
  {
    TurnoverMatchesIff(text);
  }

  /**
    Rule 2 raises exactly when the phrase occurs and an attempt count is 0;
    otherwise it reports at most one issue, whose verdict compares the two
    success rates (cross-multiplied when both counts are positive).
  */
  lemma FreePositionRuleSpec(text: string, truth: Truth)
    ensures FreePositionRule(text, truth).ZeroDivisionError? <==>
              Contains(Lower(text), "better free position")
              && (truth.freePositionAttempts == 0 || truth.opponentFreePositionAttempts == 0)
    ensures FreePositionRule(text, truth).Ok? ==>
              var fp := FreePositionRule(text, truth).issues;
              |fp| <= 1 && (fp != [] <==> Contains(Lower(text), "better free position"))
    ensures FreePositionRule(text, truth).Ok? && FreePositionRule(text, truth).issues != []
            && truth.freePositionAttempts > 0 && truth.opponentFreePositionAttempts > 0 ==>
              (FreePositionRule(text, truth).issues[0].correct <==>
                 truth.freePositionMade * truth.opponentFreePositionAttempts
                 > truth.opponentFreePositionMade * truth.freePositionAttempts)
  {
    if Contains(Lower(text), "better free position") && truth.freePositionAttempts > 0 && truth.opponentFreePositionAttempts > 0 {
      RatesCompare(truth.freePositionMade, truth.freePositionAttempts,
                   truth.opponentFreePositionMade, truth.opponentFreePositionAttempts);
    }
  }

  /** `a / b > c / d` for positive `b` and `d` is `a * d > c * b`. */
  lemma RatesCompare(a: int, b: int, c: int, d: int)
    requires b > 0 && d > 0
    ensures a as real / b as real > c as real / d as real <==> a * d > c * b
  {
    var x, y := a as real / b as real, c as real / d as real;
    assert x * b as real == a as real;
    assert y * d as real == c as real;
    assert (a * d) as real == x * (b * d) as real;
    assert (c * b) as real == y * (b * d) as real;
  }

  /** How many of `nums` are above 1000, counted from the front. */
  function CountLarge(nums: seq<Number>): nat
  {
    if nums == [] then 0 else (if Above(nums[0].value, 1000) then 1 else 0) + CountLarge(nums[1..])
  }

  lemma {:induction false} CountLargeAppend(a: seq<Number>, x: Number)
    ensures CountLarge(a + [x]) == CountLarge(a) + (if Above(x.value, 1000) then 1 else 0)
    decreases |a|
  {
    if a != [] {
      CountLargeAppend(a[1..], x);
      assert (a + [x])[1..] == a[1..] + [x];
    }
  }

  /**
    Rule 3's issues follow the numbers in order: the issue of the `j`-th number,
    when it is above 1000, stands after those of the large numbers before it.
  */
  lemma {:induction false} LargeNumberIssuesInOrder(nums: seq<Number>)
    ensures |LargeNumberIssues(nums)| == CountLarge(nums)
    ensures forall j :: 0 <= j < |nums| && Above(nums[j].value, 1000) ==>
              && CountLarge(nums[..j]) < |LargeNumberIssues(nums)|
              && LargeNumberIssues(nums)[CountLarge(nums[..j])] == LargeNumberIssue(nums[j].value, nums[j].context, false)
    decreases |nums|
  {
    if nums != [] {
      var init, last := nums[..|nums| - 1], nums[|nums| - 1];
      LargeNumberIssuesInOrder(init);
      assert nums == init + [last];
      CountLargeAppend(init, last);
      forall j | 0 <= j < |nums| && Above(nums[j].value, 1000)
        ensures && CountLarge(nums[..j]) < |LargeNumberIssues(nums)|
                && LargeNumberIssues(nums)[CountLarge(nums[..j])] == LargeNumberIssue(nums[j].value, nums[j].context, false)
      {
        if j < |init| {
          assert nums[..j] == init[..j];
          assert nums[j] == init[j];
        } else {
          assert nums[..j] == init;
        }
      }
    }
  }

  /**
    Rule 3 reports one issue per number above 1000 and no other, in the order
    of the numbers: each one a number of the list, never correct.
  */
  lemma {:induction false} LargeNumberIssuesSpec(nums: seq<Number>)
    ensures |LargeNumberIssues(nums)| == CountLarge(nums)
    ensures forall j :: 0 <= j < |nums| && Above(nums[j].value, 1000) ==>
              && CountLarge(nums[..j]) < |LargeNumberIssues(nums)|
              && LargeNumberIssues(nums)[CountLarge(nums[..j])] == LargeNumberIssue(nums[j].value, nums[j].context, false)
    ensures forall iss :: iss in LargeNumberIssues(nums) ==>
              iss.LargeNumberIssue? && !iss.correct && Above(iss.value, 1000)
              && Number(iss.value, iss.context) in nums
    decreases |nums|
  {
    LargeNumberIssuesInOrder(nums);
    if nums != [] {
      var init, last := nums[..|nums| - 1], nums[|nums| - 1];
      LargeNumberIssuesSpec(init);
      assert nums == init + [last];
    }
  }

  /** Rule 3 needs "shot" somewhere in the text, in any case; then it reports the large numbers in text order. */
  lemma ShotRuleSpec(text: string)
    ensures !Contains(Lower(text), "shot") ==> ShotIssues(text) == []
    ensures Contains(Lower(text), "shot") ==> |ShotIssues(text)| == CountLarge(Numbers(text))
    ensures Contains(Lower(text), "shot") ==>
              var nums := Numbers(text);
              forall j :: 0 <= j < |nums| && Above(nums[j].value, 1000) ==>
                && CountLarge(nums[..j]) < |ShotIssues(text)|
                && ShotIssues(text)[CountLarge(nums[..j])] == LargeNumberIssue(nums[j].value, nums[j].context, false)
    ensures forall iss :: iss in ShotIssues(text) ==>
              iss.LargeNumberIssue? && !iss.correct && Above(iss.value, 1000) && Number(iss.value, iss.context) in Numbers(text)
  {
    LargeNumberIssuesSpec(Numbers(text));
  }

  /**
    The rules are additive: the issues are rule 1's, then rule 2's, then rule
    3's, and the only failure is rule 2's division by a zero attempt count.
  */
  lemma ClaimsShape(text: string, truth: Truth)
    ensures Claims(text, truth).ZeroDivisionError? <==> FreePositionRule(text, truth).ZeroDivisionError?
    ensures Claims(text, truth).Ok? ==>
              var fp := FreePositionRule(text, truth).issues;
              && Claims(text, truth).issues == TurnoverIssues(text, truth) + fp + ShotIssues(text)
              && |Claims(text, truth).issues| == |TurnoverIssues(text, truth)| + |fp| + |ShotIssues(text)|
  {
  }

  /** A text with none of the three triggers yields no issues. */
  lemma NoTriggerNoIssues(text: string, truth: Truth)
    requires !ComparesTurnovers(text)
    requires !Contains(Lower(text), "better free position")
    requires !Contains(Lower(text), "shot")
    ensures Claims(text, truth) == Ok([])
  {
    TurnoverMatchesIff(text);
  }

  /** A text whose only trigger is the turnover comparison yields exactly the turnover issue. */
  lemma OnlyTurnoverClaim(text: string, truth: Truth)
    requires ComparesTurnovers(text)
    requires !Contains(Lower(text), "better free position")
    requires !Contains(Lower(text), "shot")
    ensures Claims(text, truth) ==
              Ok([TurnoverIssue(truth.turnovers, truth.opponentTurnovers, truth.turnovers > truth.opponentTurnovers)])
  {
    TurnoverMatchesIff(text);
  }
}
