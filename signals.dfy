/**
  The signal extractor shared by both analysis scripts: the lexicon sentiment
  score, the per-player mention counts, and the resolution of the recommended
  player (a trigger word shortly after a player's name, else the most-mentioned
  player).
*/
module Signals {
  import opened Text

  datatype Option<T> = None | Some(value: T)

  /** The fixed entity list, in the order every loop over players visits it. */
  const Players: seq<string> := ["Player A", "Player B", "Player C"]

  // ---------------------------------------------------------------------------
  // Sentiment

  /** A positive and a negative word list; each script fixes its own. */
  datatype Lexicon = Lexicon(positive: set<string>, negative: set<string>)

  /** `sum(1 for t in toks if t in words)`. */
  function Hits(toks: seq<string>, words: set<string>): (n: nat)
    ensures n <= |toks|
  {
    if toks == [] then 0
    else Hits(toks[..|toks| - 1], words) + (if toks[|toks| - 1] in words then 1 else 0)
  }

  lemma {:induction false} HitsAppend(a: seq<string>, b: seq<string>, words: set<string>)
    ensures Hits(a + b, words) == Hits(a, words) + Hits(b, words)
    decreases |b|
  {
    if b == [] {
      assert a + b == a;
    } else {
      HitsAppend(a, b[..|b| - 1], words);
      assert (a + b)[..|a + b| - 1] == a + b[..|b| - 1];
    }
  }

  /** Two word lists that agree on every token give the same count. */
  lemma {:induction false} HitsAgree(toks: seq<string>, a: set<string>, b: set<string>)
    requires forall t :: t in toks ==> (t in a <==> t in b)
    ensures Hits(toks, a) == Hits(toks, b)
    decreases |toks|
  {
    if toks != [] {
      var init := toks[..|toks| - 1];
      assert forall t :: t in init ==> t in toks;
      HitsAgree(init, a, b);
      assert toks[|toks| - 1] in toks;
    }
  }

  /** The numerator of the score: positive hits minus negative hits. */
  function Net(toks: seq<string>, lex: Lexicon): int
  {
    Hits(toks, lex.positive) - Hits(toks, lex.negative)
  }

  lemma RatioBounds(d: int, n: int)
    requires 0 < n && -n <= d <= n
    ensures -1.0 <= d as real / n as real <= 1.0
  {
  }

  /** `(pos - neg) / max(1, len(toks))`, with 0.0 when there are no tokens. */
  function Score(toks: seq<string>, lex: Lexicon): (r: real)
    ensures toks == [] ==> r == 0.0
    ensures -1.0 <= r <= 1.0
    ensures toks != [] ==> r * |toks| as real == Net(toks, lex) as real
  {
    if toks == [] then 0.0
    else
      RatioBounds(Net(toks, lex), |toks|);
      Net(toks, lex) as real / |toks| as real
  }

  /** The score of a text: its tokens after lower-casing, scored against `lex`. */
  function SentimentOf(text: string, lex: Lexicon): (r: real)
    ensures -1.0 <= r <= 1.0
    ensures Tokens(Lower(text)) == [] ==> r == 0.0
  {
    Score(Tokens(Lower(text)), lex)
  }

  /** A text without any letter or apostrophe scores exactly 0.0. */
  lemma NoTokensScoreZero(text: string, lex: Lexicon)
    requires forall i :: 0 <= i < |text| ==> !IsWordChar(text[i])
    ensures SentimentOf(text, lex) == 0.0
  {
    assert forall i :: 0 <= i < |text| ==> Lower(text)[i] == text[i];
    TokensEmptyIff(Lower(text));
  }

  /** A token in neither word list changes the denominator only, never the numerator. */
  lemma NeutralTokenDilutes(a: seq<string>, t: string, b: seq<string>, lex: Lexicon)
    requires t !in lex.positive && t !in lex.negative
    ensures Net(a + [t] + b, lex) == Net(a + b, lex)
    ensures |a + [t] + b| == |a + b| + 1
  {
    HitsAppend(a + [t], b, lex.positive);
    HitsAppend(a + [t], b, lex.negative);
    HitsAppend(a, [t], lex.positive);
    HitsAppend(a, [t], lex.negative);
    HitsAppend(a, b, lex.positive);
    HitsAppend(a, b, lex.negative);
    assert Hits([t], lex.positive) == 0 by { assert [t][..0] == []; }
    assert Hits([t], lex.negative) == 0 by { assert [t][..0] == []; }
  }

  // ---------------------------------------------------------------------------
  // Mentions

  /** `{p: len(re.findall(p, text)) for p in PLAYERS}`: case-sensitive, non-overlapping. */
  function MentionCounts(text: string): (m: map<string, nat>)
    ensures m.Keys == set p | p in Players
  {
    map p | p in Players :: CountOccurrences(text, p)
  }

  /** A player's count is positive exactly when its name occurs verbatim. */
  lemma MentionPositiveIff(text: string, p: string)
    requires p in Players
    ensures MentionCounts(text)[p] > 0 <==> Contains(text, p)
  {
    CountPositiveIff(text, p);
  }

  // ---------------------------------------------------------------------------
  // Trigger pattern `p + r".{0,40}(should|recommend|priorit|coaching|focus)"`, re.I

  /** The alternatives of the trigger group. */
  const TriggerWords: seq<string> := ["should", "recommend", "priorit", "coaching", "focus"]

  /** The most characters `.{0,40}` lets stand between the name and the trigger word. */
  const Window: nat := 40

  /** Some word of `ws` starts at `j`. */
  predicate AnyAt(t: string, j: int, ws: seq<string>)
  {
    ws != [] && (At(t, j, ws[0]) || AnyAt(t, j, ws[1..]))
  }

  lemma AnyAtInRange(t: string, j: int, ws: seq<string>)
    requires AnyAt(t, j, ws)
    ensures 0 <= j <= |t|
  {
  }

  /** One of the trigger group's alternatives starts at `j`. */
  predicate TriggerWordAt(t: string, j: int)
  {
    AnyAt(t, j, TriggerWords)
  }

  /**
    The pattern matches `t` with the name at `i` and the trigger word at `e`:
    at most `Window` characters in between, none of them a newline (`.` does not
    match one).
  */
  ghost predicate TriggerAt(t: string, name: string, i: int, e: int)
  {
    && At(t, i, name)
    && i + |name| <= e <= i + |name| + Window
    && e <= |t|
    && OneLine(t, i + |name|, e)
    && TriggerWordAt(t, e)
  }

  /**
    `re.search(p + ".{0,40}(...)", text, re.I)` finds a match. On ASCII text,
    ignoring case is matching the lower-cased text against the lower-cased pattern.
  */
  ghost predicate Triggered(text: string, p: string)
  {
    exists i, e :: TriggerAt(Lower(text), Lower(p), i, e)
  }

  /** A trigger word starts within `budget` characters of `j`, crossing no newline. */
  function WordWithin(t: string, j: nat, budget: nat): bool
    decreases budget
  {
    TriggerWordAt(t, j) || (budget > 0 && j < |t| && t[j] != '\n' && WordWithin(t, j + 1, budget - 1))
  }

  lemma {:induction false} WordWithinIff(t: string, j: nat, budget: nat)
    ensures WordWithin(t, j, budget) <==>
            exists e :: j <= e <= j + budget && e <= |t| && OneLine(t, j, e) && TriggerWordAt(t, e)
    decreases budget
  {
    if TriggerWordAt(t, j) {
      AnyAtInRange(t, j, TriggerWords);
      assert OneLine(t, j, j);
    }
    if budget > 0 && j < |t| {
      WordWithinIff(t, j + 1, budget - 1);
      if e :| j <= e <= j + budget && e <= |t| && OneLine(t, j, e) && TriggerWordAt(t, e) {
        if e > j {
          assert t[j] == t[j..e][0];
          assert t[j + 1..e] == t[j..e][1..];
        }
      }
      if t[j] != '\n' && WordWithin(t, j + 1, budget - 1) {
        var e :| j + 1 <= e <= j + budget && e <= |t| && OneLine(t, j + 1, e) && TriggerWordAt(t, e);
        assert t[j..e] == [t[j]] + t[j + 1..e];
      }
    } else {
      if e :| j <= e <= j + budget && e <= |t| && OneLine(t, j, e) && TriggerWordAt(t, e) {
        assert e == j;
      }
    }
  }

  /** Scans start positions from `i` on, as `re.search` does. */
  function SearchFrom(t: string, name: string, i: nat): bool
    decreases |t| - i
  {
    if i + |name| > |t| then false
    else (At(t, i, name) && WordWithin(t, i + |name|, Window)) || SearchFrom(t, name, i + 1)
  }

  /** The name stands at `i` and a trigger word follows it within the window. */
  ghost predicate TriggerFrom(t: string, name: string, i: int)
  {
    exists e :: TriggerAt(t, name, i, e)
  }

  lemma TriggerFromIff(t: string, name: string, i: nat)
    ensures TriggerFrom(t, name, i) <==> At(t, i, name) && WordWithin(t, i + |name|, Window)
  {
    WordWithinIff(t, i + |name|, Window);
    if At(t, i, name) && WordWithin(t, i + |name|, Window) {
      var e :| i + |name| <= e <= i + |name| + Window && e <= |t| && OneLine(t, i + |name|, e) && TriggerWordAt(t, e);
      assert TriggerAt(t, name, i, e);
    }
  }

  lemma {:induction false} SearchFromIff(t: string, name: string, i: nat)
    ensures SearchFrom(t, name, i) <==> exists i' :: i <= i' && TriggerFrom(t, name, i')
    decreases |t| - i
  {
    if i + |name| > |t| {
      if i' :| i <= i' && TriggerFrom(t, name, i') {
        assert false;
      }
    } else {
      SearchFromIff(t, name, i + 1);
      TriggerFromIff(t, name, i);
      if i' :| i <= i' && TriggerFrom(t, name, i') {
        if i' != i {
          assert i + 1 <= i';
        }
      }
    }
  }

  /** The hand-written matcher for the trigger pattern of player `p`. */
  function Matches(text: string, p: string): bool
  {
    SearchFrom(Lower(text), Lower(p), 0)
  }

  /** The matcher accepts exactly the texts the pattern describes. */
  lemma MatchesIff(text: string, p: string)
    ensures Matches(text, p) <==> Triggered(text, p)
  {
    var t, name := Lower(text), Lower(p);
    SearchFromIff(t, name, 0);
    if Triggered(text, p) {
      var i, e :| TriggerAt(t, name, i, e);
      assert TriggerFrom(t, name, i);
    }
  }

  // ---------------------------------------------------------------------------
  // Recommendation

  /** The first player of `ps`, in list order, whose trigger pattern matches. */
  function FirstMatch(text: string, ps: seq<string>): (r: Option<string>)
    ensures r.Some? ==> r.value in ps
  {
    if ps == [] then None
    else if Matches(text, ps[0]) then Some(ps[0])
    else FirstMatch(text, ps[1..])
  }

  /** FirstMatch is empty exactly when no player triggers, and otherwise names the earliest one that does. */
  lemma {:induction false} FirstMatchSpec(text: string, ps: seq<string>)
    ensures FirstMatch(text, ps).None? <==> forall p :: p in ps ==> !Triggered(text, p)
    ensures FirstMatch(text, ps).Some? ==>
              exists k :: 0 <= k < |ps| && ps[k] == FirstMatch(text, ps).value
                && Triggered(text, ps[k])
                && forall j :: 0 <= j < k ==> !Triggered(text, ps[j])
  {
    FirstMatchNone(text, ps);
    FirstMatchSome(text, ps);
  }

  lemma {:induction false} FirstMatchNone(text: string, ps: seq<string>)
    ensures FirstMatch(text, ps).None? <==> forall p :: p in ps ==> !Triggered(text, p)
  {
    if ps != [] {
      MatchesIff(text, ps[0]);
      FirstMatchNone(text, ps[1..]);
      assert forall p :: p in ps <==> p == ps[0] || p in ps[1..];
    }
  }

  lemma {:induction false} FirstMatchSome(text: string, ps: seq<string>)
    ensures FirstMatch(text, ps).Some? ==>
              exists k :: 0 <= k < |ps| && ps[k] == FirstMatch(text, ps).value
                && Triggered(text, ps[k])
                && forall j :: 0 <= j < k ==> !Triggered(text, ps[j])
  {
    if ps != [] {
      MatchesIff(text, ps[0]);
      if Matches(text, ps[0]) {
        assert ps[0] == FirstMatch(text, ps).value;
      } else if FirstMatch(text, ps[1..]).Some? {
        FirstMatchSome(text, ps[1..]);
        var rest := ps[1..];
        var k :| 0 <= k < |rest| && rest[k] == FirstMatch(text, rest).value
                 && Triggered(text, rest[k])
                 && forall j :: 0 <= j < k ==> !Triggered(text, rest[j]);
        assert forall j :: 1 <= j < k + 1 ==> ps[j] == rest[j - 1];
        assert ps[k + 1] == FirstMatch(text, ps).value;
      }
    }
  }

  /** The loop `for p in PLAYERS: if re.search(...): cand = p; break`, over the list `ps`. */
  method FirstTriggered(text: string, ps: seq<string>) returns (cand: Option<string>)
    ensures cand == FirstMatch(text, ps)
  {
    cand := None;
    var i := 0;
    while i < |ps|
      invariant 0 <= i <= |ps|
      invariant FirstMatch(text, ps[i..]) == FirstMatch(text, ps)
    {
      if Matches(text, ps[i]) {
        cand := Some(ps[i]);
        break;
      }
      assert ps[i..][1..] == ps[i + 1..];
      i := i + 1;
    }
  }

  /**
    `max(counts, key=counts.get)` over a dictionary whose keys were inserted in
    the order `ps`: the first key, in that order, with the greatest count.
  */
  function ArgMax(ps: seq<string>, counts: map<string, nat>): (r: string)
    requires |ps| > 0 && forall p :: p in ps ==> p in counts
    ensures r in ps && r in counts
    ensures forall p :: p in ps ==> counts[p] <= counts[r]
    ensures exists k :: 0 <= k < |ps| && ps[k] == r && forall j :: 0 <= j < k ==> counts[ps[j]] < counts[r]
    decreases |ps|
  {
    if |ps| == 1 then ps[0]
    else
      var init := ps[..|ps| - 1];
      assert forall p :: p in init ==> p in ps;
      var best := ArgMax(init, counts);
      var last := ps[|ps| - 1];
      assert forall p :: p in ps ==> p in init || p == last;
      if counts[last] > counts[best] then
        assert forall j :: 0 <= j < |ps| - 1 ==> ps[j] in init;
        last
      else
        assert forall j :: 0 <= j < |ps| - 1 ==> ps[j] == init[j];
        best
  }

  /** With every count equal, `max` keeps the first key. */
  lemma ArgMaxAllEqual(ps: seq<string>, counts: map<string, nat>)
    requires |ps| > 0 && forall p :: p in ps ==> p in counts
    requires forall p :: p in ps ==> counts[p] == counts[ps[0]]
    ensures ArgMax(ps, counts) == ps[0]
  {
    var r := ArgMax(ps, counts);
    var k :| 0 <= k < |ps| && ps[k] == r && forall j :: 0 <= j < k ==> counts[ps[j]] < counts[r];
    assert k == 0;
  }

  /** The player recorded as recommended for `text`: the first triggered player, else the most mentioned. */
  function Recommended(text: string): (r: string)
    ensures r in Players
  {
    match FirstMatch(text, Players)
    case Some(p) => p
    case None => ArgMax(Players, MentionCounts(text))
  }

  /** When some player's trigger matches, the first such player in list order wins, whatever the counts. */
  lemma RecommendedByTrigger(text: string)
    requires exists p :: p in Players && Triggered(text, p)
    ensures Triggered(text, Recommended(text))
    ensures exists k :: 0 <= k < |Players| && Players[k] == Recommended(text)
                        && forall j :: 0 <= j < k ==> !Triggered(text, Players[j])
  {
    FirstMatchSpec(text, Players);
  }

  /**
    When no trigger matches, the recommended player has the greatest
    case-sensitive count, and every earlier player a strictly smaller one.
  */
  lemma RecommendedByCount(text: string)
    requires forall p :: p in Players ==> !Triggered(text, p)
    ensures forall p :: p in Players ==> MentionCounts(text)[p] <= MentionCounts(text)[Recommended(text)]
    ensures exists k :: 0 <= k < |Players| && Players[k] == Recommended(text)
                        && forall j :: 0 <= j < k ==> MentionCounts(text)[Players[j]] < MentionCounts(text)[Recommended(text)]
  {
    FallbackIsArgMax(text);
  }

  /** With no trigger and no mention at all, the first player in list order is recommended. */
  lemma NoMentionsPlayerA(text: string)
    requires forall p :: p in Players ==> !Triggered(text, p)
    requires forall p :: p in Players ==> MentionCounts(text)[p] == 0
    ensures Recommended(text) == "Player A"
  {
    FallbackIsArgMax(text);
    ArgMaxAllEqual(Players, MentionCounts(text));
  }

  /** Without a matching trigger the recommendation falls back to the count maximum. */
  lemma FallbackIsArgMax(text: string)
    requires forall p :: p in Players ==> !Triggered(text, p)
    ensures Recommended(text) == ArgMax(Players, MentionCounts(text))
  {
    FirstMatchSpec(text, Players);
  }


  /** A text opening with "player b should" matches the trigger pattern of "player b" at once. */
  lemma OpensWithTrigger(t: string)
    requires |t| >= 15 && t[..15] == "player b should"
    ensures TriggerAt(t, "player b", 0, 9)
  {
    assert t[..8] == t[..15][..8];
    assert t[9..15] == t[..15][9..15];
    assert t[8..9] == t[..15][8..9];
  }

  lemma LowerCaseTriggers(text: string)
    requires |text| >= 15 && Lower(text)[..15] == "player b should"
    ensures Triggered(text, "Player B")
  {
    var t := Lower(text);
    OpensWithTrigger(t);
    LowerPlayerB();
    assert TriggerAt(t, Lower("Player B"), 0, 9);
  }

  lemma LowerPlayerB()
    ensures Lower("Player B") == "player b"
  {
  }

  lemma SecondPlayerFirstMatch(text: string)
    requires !Matches(text, "Player A") && Matches(text, "Player B")
    ensures FirstMatch(text, Players) == Some("Player B")
  {
    assert Players[1..][0] == "Player B";
  }

  /**
    The trigger search ignores case while the count does not: a text whose
    lower-cased form opens with "player b should", in which "Player B" never
    occurs verbatim and "Player A" does not trigger, resolves to "Player B"
    although its count is 0.
  */
  lemma TriggerIgnoresCaseCountDoesNot(text: string)
    requires |text| >= 15 && Lower(text)[..15] == "player b should"
    requires !Contains(text, "Player B")
    requires !Triggered(text, "Player A")
    ensures Recommended(text) == "Player B"
    ensures MentionCounts(text)["Player B"] == 0
  {
    LowerCaseTriggers(text);
    MatchesIff(text, "Player A");
    MatchesIff(text, "Player B");
    SecondPlayerFirstMatch(text);
    MentionPositiveIff(text, "Player B");
  }
}
