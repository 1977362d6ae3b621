/**
  The phase-3 analysis script: per response a sentiment score, mention counts,
  a strategy/scope classification and a recommended player; then the
  per-condition groupings, the guarded chi-square tests and the fabrication
  rates computed from the claim-validation report.
*/
module AnalyzeScript {
  import opened Text
  import opened Signals
  import opened Aggregate

  // ---------------------------------------------------------------------------
  // Sentiment

  /** This script's word lists: the shared ones plus four positive and two negative words. */
  const ScriptLexicon: Lexicon := Lexicon(
    {"excellent", "strong", "promising", "opportunity", "improve", "growth", "effective",
     "efficient", "advantage", "breakthrough", "edge", "positive", "potential"},
    {"poor", "weak", "struggling", "concern", "risk", "problem", "issue", "ineffective",
     "inefficient", "disadvantage", "stall", "negative"})

  /**
    `sentiment_score`: 0.0 without tokens, otherwise net hits over the token
    count, which keeps it within [-1, 1].
  */
  function SentimentScore(text: string): (r: real)
    ensures -1.0 <= r <= 1.0
    ensures Tokens(Lower(text)) == [] ==> r == 0.0
  {
    SentimentOf(text, ScriptLexicon)
  }

  // ---------------------------------------------------------------------------
  // Strategy and scope

  const OffenseKeywords: seq<string> :=
    ["goal", "assist", "finish", "attack", "shot", "sog", "offense", "offensive", "scoring", "possession time"]
  const DefenseKeywords: seq<string> :=
    ["defense", "defensive", "turnover", "clear", "ride", "ground ball", "gb", "save", "stops", "pressure"]
  const IndividualKeywords: seq<string> :=
    ["player a", "player b", "player c", "individual", "one-on-one", "targeted coaching", "coaching on"]
  const TeamKeywords: seq<string> :=
    ["team", "system", "scheme", "drills", "unit", "transition", "set plays", "collective"]

  /** `any(k in t for k in kws)`: some keyword occurs in `t` as a substring. */
  function AnyIn(t: string, kws: seq<string>): (r: bool)
    ensures r <==> exists k :: k in kws && Contains(t, k)
  {
    if kws == [] then false
    else
      assert forall k :: k in kws <==> k == kws[0] || k in kws[1..];
      Contains(t, kws[0]) || AnyIn(t, kws[1..])
  }

  /** Some keyword of `kws` occurs in the lower-cased text. */
  ghost predicate Mentions(text: string, kws: seq<string>)
  {
    exists k :: k in kws && Contains(Lower(text), k)
  }

  /** One axis: "mixed" for both tests, the first or the second label for one, "other" for none. */
  function AxisLabel(first: bool, second: bool, firstLabel: string, secondLabel: string): string
  {
    if first && second then "mixed"
    else if first then firstLabel
    else if second then secondLabel
    else "other"
  }

  const StrategyLabels: seq<string> := ["mixed", "offensive", "defensive", "other"]
  const ScopeLabels: seq<string> := ["mixed", "individual", "team", "other"]

  datatype Kind = Kind(strategy: string, scope: string)

  /** `classify_strategy`: the strategy axis and the scope axis of the lower-cased text. */
  function Classify(text: string): (k: Kind)
    ensures k.strategy in StrategyLabels && k.scope in ScopeLabels
  {
    var t := Lower(text);
    Kind(AxisLabel(AnyIn(t, OffenseKeywords), AnyIn(t, DefenseKeywords), "offensive", "defensive"),
         AxisLabel(AnyIn(t, IndividualKeywords), AnyIn(t, TeamKeywords), "individual", "team"))
  }

  /**
    Each axis is decided by its own two keyword lists alone: "mixed" exactly
    when both lists occur, "other" exactly when neither does.
  */
  lemma ClassifySpec(text: string)
    ensures var k := Classify(text);
      && (k.strategy == "mixed" <==> Mentions(text, OffenseKeywords) && Mentions(text, DefenseKeywords))
      && (k.strategy == "offensive" <==> Mentions(text, OffenseKeywords) && !Mentions(text, DefenseKeywords))
      && (k.strategy == "defensive" <==> !Mentions(text, OffenseKeywords) && Mentions(text, DefenseKeywords))
      && (k.strategy == "other" <==> !Mentions(text, OffenseKeywords) && !Mentions(text, DefenseKeywords))
      && (k.scope == "mixed" <==> Mentions(text, IndividualKeywords) && Mentions(text, TeamKeywords))
      && (k.scope == "individual" <==> Mentions(text, IndividualKeywords) && !Mentions(text, TeamKeywords))
      && (k.scope == "team" <==> !Mentions(text, IndividualKeywords) && Mentions(text, TeamKeywords))
      && (k.scope == "other" <==> !Mentions(text, IndividualKeywords) && !Mentions(text, TeamKeywords))
  {
  }

  /** Classifying the lower-cased text gives the same result. */
  lemma ClassifyIgnoresCase(text: string)
    ensures Classify(Lower(text)) == Classify(text)
  {
    LowerIdempotent(text);
  }

  // ---------------------------------------------------------------------------
  // Recommended player

  /**
    The loop over players with `break`, then the fallback
    `max(mentions, key=mentions.get)` when no trigger matched.
  */
  method ResolveRecommended(text: string) returns (recp: string)
    ensures recp == Recommended(text)
  {
    var mentions := MentionCounts(text);
    var cand := FirstTriggered(text, Players);
    if cand.Some? {
      recp := cand.value;
    } else {
      recp := ArgMax(Players, mentions);
    }
  }

  // ---------------------------------------------------------------------------
  // Mention columns

  /** `f"mentions_{p.replace(' ','')}"`. */
  function ColumnName(p: string): string
  {
    "mentions_" + Replace(p, " ", "")
  }

  /** `.str.replace("mentions_","").str.replace("Player","Player ")`. */
  function EntityOfColumn(c: string): string
  {
    Replace(Replace(c, "mentions_", ""), "Player", "Player ")
  }

  /** A name "Player x" with a one-character, non-blank suffix survives the trip to a column and back. */
  lemma ColumnRoundTrip(x: char)
    requires x != ' '
    ensures EntityOfColumn(ColumnName("Player " + [x])) == "Player " + [x]
  {
    var p := "Player " + [x];
    assert p == "Player" + (" " + [x]);
    ReplaceKeepPrefix("Player", " " + [x], " ", "");
    ReplaceLeading(" ", [x], "");
    assert Replace([x], " ", "") == [x] by {
      assert [x][..1] == [x] && [x][1..] == [];
    }
    var squeezed := "Player" + [x];
    assert Replace(p, " ", "") == squeezed;
    ReplaceLeading("mentions_", squeezed, "");
    assert Replace(ColumnName(p), "mentions_", "") == squeezed;
    ReplaceLeading("Player", [x], "Player ");
  }

  /** Every player's column maps back to that player, so the columns are distinct too. */
  lemma PlayerColumnsRoundTrip()
    ensures forall p :: p in Players ==> EntityOfColumn(ColumnName(p)) == p
  {
    forall p | p in Players ensures EntityOfColumn(ColumnName(p)) == p {
      assert p == "Player " + [p[7]];
      ColumnRoundTrip(p[7]);
    }
  }

  // ---------------------------------------------------------------------------
  // One row per response

  datatype Response = Response(hypothesis: string, condition: string, text: string)

  /** One row of the analysis frame; `mentions` holds the three `mentions_` columns by player. */
  datatype Row = Row(
    hypothesis: string, condition: string, sentiment: real,
    strategy: string, scope: string, recommended: string, mentions: map<string, nat>)

  /** What every row of the frame satisfies. */
  ghost predicate WellFormed(row: Row)
  {
    && -1.0 <= row.sentiment <= 1.0
    && row.strategy in StrategyLabels && row.scope in ScopeLabels
    && row.recommended in Players
    && row.mentions.Keys == set p | p in Players
  }

  /** The row the script builds from one response. */
  function Analyze(r: Response): (row: Row)
    ensures row.hypothesis == r.hypothesis && row.condition == r.condition
  {
    var k := Classify(r.text);
    Row(r.hypothesis, r.condition, SentimentScore(r.text), k.strategy, k.scope,
        Recommended(r.text), MentionCounts(r.text))
  }

  /**
    Every row has a sentiment in [-1, 1], one of the four labels on each axis,
    a recommended player from the list, and exactly one count per player.
  */
  lemma AnalyzeWellFormed(r: Response)
    ensures WellFormed(Analyze(r))
  {
  }

  method AnalyzeResponse(r: Response) returns (row: Row)
    ensures row == Analyze(r)
  {
    var sent := SentimentScore(r.text);
    var k := Classify(r.text);
    var recp := ResolveRecommended(r.text);
    row := Row(r.hypothesis, r.condition, sent, k.strategy, k.scope, recp, MentionCounts(r.text));
  }

  /** The rows of a whole result file, in input order. */
  function Rows(recs: seq<Response>): (rows: seq<Row>)
    ensures |rows| == |recs|
  {
    if recs == [] then [] else Rows(recs[..|recs| - 1]) + [Analyze(recs[|recs| - 1])]
  }

  /** Row `i` is the analysis of response `i`. */
  lemma {:induction false} RowsIndex(recs: seq<Response>, i: int)
    requires 0 <= i < |recs|
    ensures Rows(recs)[i] == Analyze(recs[i])
    decreases |recs|
  {
    if i < |recs| - 1 {
      var init := recs[..|recs| - 1];
      RowsIndex(init, i);
      assert init[i] == recs[i];
    }
  }

  lemma RowsSnoc(recs: seq<Response>, i: int)
    requires 0 <= i < |recs|
    ensures Rows(recs[..i + 1]) == Rows(recs[..i]) + [Analyze(recs[i])]
  {
    assert recs[..i + 1][..i] == recs[..i];
  }

  /** One pass of the loop: the row of response `i` goes after the rows before it. */
  method AppendRow(recs: seq<Response>, i: nat, rows: seq<Row>) returns (rows': seq<Row>)
    requires i < |recs| && rows == Rows(recs[..i])
    ensures rows' == Rows(recs[..i + 1])
  {
    var row := AnalyzeResponse(recs[i]);
    RowsSnoc(recs, i);
    rows' := rows + [row];
  }

  /** The loop appending one row per response. */
  method BuildRows(recs: seq<Response>) returns (rows: seq<Row>)
    ensures rows == Rows(recs)
  {
    rows := [];
    var i := 0;
    while i < |recs|
      invariant 0 <= i <= |recs|
      invariant rows == Rows(recs[..i])
    {
      rows := AppendRow(recs, i, rows);
      i := i + 1;
    }
    assert recs[..|recs|] == recs;
  }

  /** Every row of a result file is well formed. */
  lemma RowsWellFormed(recs: seq<Response>)
    ensures forall i :: 0 <= i < |recs| ==> WellFormed(Rows(recs)[i])
  {
    forall i | 0 <= i < |recs| ensures WellFormed(Rows(recs)[i]) {
      RowsIndex(recs, i);
      AnalyzeWellFormed(recs[i]);
    }
  }

  // ---------------------------------------------------------------------------
  // Groupings by (hypothesis_id, condition)

  function ConditionOf(row: Row): (string, string)
  {
    (row.hypothesis, row.condition)
  }

  /** The `(key, sentiment)` entries the sentiment grouping folds over. */
  function SentimentEntries(rows: seq<Row>): (es: seq<((string, string), real)>)
    ensures |es| == |rows| && forall i :: 0 <= i < |rows| ==> es[i] == (ConditionOf(rows[i]), rows[i].sentiment)
  {
    if rows == [] then [] else SentimentEntries(rows[..|rows| - 1]) + [(ConditionOf(rows[|rows| - 1]), rows[|rows| - 1].sentiment)]
  }

  /** `groupby(["hypothesis_id","condition"]).agg(mean_sentiment=..., n=size)`, before the division. */
  function SentimentByCondition(rows: seq<Row>): map<(string, string), Stat>
  {
    GroupStats(SentimentEntries(rows))
  }

  /** Sentiments in [-1, 1] give every condition a mean sentiment in [-1, 1]. */
  lemma SentimentMeansBounded(rows: seq<Row>)
    requires forall i :: 0 <= i < |rows| ==> -1.0 <= rows[i].sentiment <= 1.0
    ensures forall k :: k in SentimentByCondition(rows) ==> -1.0 <= Mean(SentimentByCondition(rows)[k]) <= 1.0
  {
    var es := SentimentEntries(rows);
    forall e | e in es ensures -1.0 <= e.1 <= 1.0 {
      var i :| 0 <= i < |es| && es[i] == e;
    }
    MeanBounds(es);
  }

  /** The columns a row is grouped or cross-tabulated by. */
  datatype Column = RecommendedPlayer | StrategyAxis | ScopeAxis

  function Field(row: Row, col: Column): string
  {
    match col
    case RecommendedPlayer => row.recommended
    case StrategyAxis => row.strategy
    case ScopeAxis => row.scope
  }

  /** The values a column can take. */
  function Labels(col: Column): seq<string>
  {
    match col
    case RecommendedPlayer => Players
    case StrategyAxis => StrategyLabels
    case ScopeAxis => ScopeLabels
  }

  /** `(hypothesis_id, condition, label)` for every row, in order. */
  function LabelKeys(rows: seq<Row>, col: Column): (ks: seq<(string, string, string)>)
    ensures |ks| == |rows|
  {
    if rows == [] then []
    else
      var r := rows[|rows| - 1];
      LabelKeys(rows[..|rows| - 1], col) + [(r.hypothesis, r.condition, Field(r, col))]
  }

  /** `groupby(["hypothesis_id","condition",col]).size()`. */
  function LabelCounts(rows: seq<Row>, col: Column): map<(string, string, string), nat>
  {
    Tally(LabelKeys(rows, col))
  }

  /** A group size, with 0 for a group that does not appear. */
  function Count<K>(m: map<K, nat>, k: K): nat
  {
    if k in m then m[k] else 0
  }

  /** The sizes of the groups `(k.0, k.1, l)` for every label `l` in `ls`, added up. */
  function LabelTotal(m: map<(string, string, string), nat>, k: (string, string), ls: seq<string>): nat
  {
    if ls == [] then 0 else Count(m, (k.0, k.1, ls[0])) + LabelTotal(m, k, ls[1..])
  }

  function MultisetTotal(ms: multiset<(string, string, string)>, k: (string, string), ls: seq<string>): nat
  {
    if ls == [] then 0 else ms[(k.0, k.1, ls[0])] + MultisetTotal(ms, k, ls[1..])
  }

  lemma {:induction false} TallyTotal(ks: seq<(string, string, string)>, k: (string, string), ls: seq<string>)
    ensures LabelTotal(Tally(ks), k, ls) == MultisetTotal(multiset(ks), k, ls)
    decreases |ls|
  {
    if ls != [] {
      TallyTotal(ks, k, ls[1..]);
    }
  }

  /** One more key raises the total by one when it belongs to the group and carries one of the labels. */
  lemma {:induction false} MultisetTotalAdd(ms: multiset<(string, string, string)>, x: (string, string, string),
                                           k: (string, string), ls: seq<string>)
    requires NoDuplicates(ls)
    ensures MultisetTotal(ms + multiset{x}, k, ls) ==
            MultisetTotal(ms, k, ls) + (if (x.0, x.1) == k && x.2 in ls then 1 else 0)
    decreases |ls|
  {
    if ls != [] {
      assert NoDuplicates(ls[1..]);
      MultisetTotalAdd(ms, x, k, ls[1..]);
      assert x.2 in ls <==> x.2 == ls[0] || x.2 in ls[1..];
      assert x.2 == ls[0] ==> x.2 !in ls[1..];
    }
  }

  /** The key of every row, in order. */
  function Conditions(rows: seq<Row>): (ks: seq<(string, string)>)
    ensures |ks| == |rows| && forall i :: 0 <= i < |rows| ==> ks[i] == ConditionOf(rows[i])
  {
    if rows == [] then [] else Conditions(rows[..|rows| - 1]) + [ConditionOf(rows[|rows| - 1])]
  }

  lemma {:induction false} LabelsPartitionRows(rows: seq<Row>, col: Column, k: (string, string))
    requires NoDuplicates(Labels(col))
    requires forall i :: 0 <= i < |rows| ==> Field(rows[i], col) in Labels(col)
    ensures MultisetTotal(multiset(LabelKeys(rows, col)), k, Labels(col)) == multiset(Conditions(rows))[k]
    decreases |rows|
  {
    if rows == [] {
      assert MultisetTotal(multiset{}, k, Labels(col)) == 0 by {
        ZeroTotal(k, Labels(col));
      }
    } else {
      var init, r := rows[..|rows| - 1], rows[|rows| - 1];
      LabelsPartitionRows(init, col, k);
      var x := (r.hypothesis, r.condition, Field(r, col));
      assert LabelKeys(rows, col) == LabelKeys(init, col) + [x];
      assert Conditions(rows) == Conditions(init) + [ConditionOf(r)];
      MultisetTotalAdd(multiset(LabelKeys(init, col)), x, k, Labels(col));
      assert Field(r, col) in Labels(col);
    }
  }

  lemma {:induction false} ZeroTotal(k: (string, string), ls: seq<string>)
    ensures MultisetTotal(multiset{}, k, ls) == 0
    decreases |ls|
  {
    if ls != [] {
      ZeroTotal(k, ls[1..]);
    }
  }

  lemma LabelsDistinct()
    ensures NoDuplicates(StrategyLabels) && NoDuplicates(ScopeLabels) && NoDuplicates(Players)
  {
  }

  /** A condition's size in the sentiment grouping is the number of its rows. */
  lemma ConditionSize(rows: seq<Row>, k: (string, string))
    requires k in SentimentByCondition(rows)
    ensures SentimentByCondition(rows)[k].n == multiset(Conditions(rows))[k]
  {
    var es := SentimentEntries(rows);
    assert Firsts(es) == Conditions(rows) by {
      forall i | 0 <= i < |rows| ensures Firsts(es)[i] == Conditions(rows)[i] {
        assert es[i].0 == ConditionOf(rows[i]);
      }
    }
    GroupSizeIsTally(es);
    assert GroupStats(es)[k].n == Tally(Firsts(es))[k];
  }

  /**
    The per-label counts of a condition add up to its size in the sentiment
    grouping: every row of the condition is counted under exactly one label.
  */
  lemma LabelCountsPartition(rows: seq<Row>, col: Column, k: (string, string))
    requires forall i :: 0 <= i < |rows| ==> WellFormed(rows[i])
    requires k in SentimentByCondition(rows)
    ensures LabelTotal(LabelCounts(rows, col), k, Labels(col)) == SentimentByCondition(rows)[k].n
  {
    LabelsDistinct();
    assert forall i :: 0 <= i < |rows| ==> Field(rows[i], col) in Labels(col) by {
      forall i | 0 <= i < |rows| ensures Field(rows[i], col) in Labels(col) {
        assert WellFormed(rows[i]);
      }
    }
    LabelsPartitionRows(rows, col, k);
    TallyTotal(LabelKeys(rows, col), k, Labels(col));
    ConditionSize(rows, k);
  }

  // ---------------------------------------------------------------------------
  // Chi-square tests behind the shape guard

  /**
    One entry of the statistics report. The statistic, p-value and degrees of
    freedom come from a library call outside the model; the entry keeps the
    table that call receives.
  */
  datatype StatTest = ChiSquareTest(hypothesis: string, test: string, table: Table)

  const RecommendationTest := "chi-square(rec_by_condition)"
  const StrategyTest := "chi-square(strategy_by_condition)"

  /** `(condition, col)` for the rows of hypothesis `hid`, in order: what `pd.crosstab` receives. */
  function Pairs(rows: seq<Row>, hid: string, col: Column): (ps: seq<(string, string)>)
    ensures |ps| <= |rows|
  {
    if rows == [] then []
    else
      var r := rows[|rows| - 1];
      Pairs(rows[..|rows| - 1], hid, col) + (if r.hypothesis == hid then [(r.condition, Field(r, col))] else [])
  }

  /**
    The subset's pairs are the rows carrying `hid`: each `(condition, label)`
    occurs as often as the label counts count `(hid, condition, label)`.
  */
  lemma {:induction false} PairsAreLabelKeys(rows: seq<Row>, hid: string, col: Column, c: string, v: string)
    ensures multiset(Pairs(rows, hid, col))[(c, v)] == multiset(LabelKeys(rows, col))[(hid, c, v)]
    decreases |rows|
  {
    if rows != [] {
      PairsAreLabelKeys(rows[..|rows| - 1], hid, col, c, v);
    }
  }

  /** The entries the loop over `hids` appends: one per hypothesis whose table passes the guard. */
  function TestsFor(rows: seq<Row>, hids: seq<string>, col: Column, name: string): seq<StatTest>
  {
    if hids == [] then []
    else
      var hid := hids[|hids| - 1];
      var tab := Crosstab(Pairs(rows, hid, col));
      TestsFor(rows, hids[..|hids| - 1], col, name) + (if Testable(tab) then [ChiSquareTest(hid, name, tab)] else [])
  }

  /** The whole report: recommendation tests for H1 and H2, then strategy tests for H3 and H5. */
  function StatTests(rows: seq<Row>): seq<StatTest>
  {
    TestsFor(rows, ["H1", "H2"], RecommendedPlayer, RecommendationTest)
    + TestsFor(rows, ["H3", "H5"], StrategyAxis, StrategyTest)
  }

  /** One pass of the loop, for hypothesis `i`. */
  method TestStep(rows: seq<Row>, hids: seq<string>, i: nat, col: Column, name: string, results: seq<StatTest>)
    returns (results': seq<StatTest>)
    requires i < |hids| && results == TestsFor(rows, hids[..i], col, name)
    ensures results' == TestsFor(rows, hids[..i + 1], col, name)
  {
    var tab := Crosstab(Pairs(rows, hids[i], col));
    assert hids[..i + 1][..i] == hids[..i];
    if Testable(tab) {
      results' := results + [ChiSquareTest(hids[i], name, tab)];
    } else {
      results' := results;
    }
  }

  /** One `for hid in ...` loop: cross-tabulate, test only when the table has two rows and two columns. */
  method RunTests(rows: seq<Row>, hids: seq<string>, col: Column, name: string) returns (results: seq<StatTest>)
    ensures results == TestsFor(rows, hids, col, name)
  {
    results := [];
    var i := 0;
    while i < |hids|
      invariant 0 <= i <= |hids|
      invariant results == TestsFor(rows, hids[..i], col, name)
    {
      results := TestStep(rows, hids, i, col, name, results);
      i := i + 1;
    }
    assert hids[..|hids|] == hids;
  }

  method StatsTests(rows: seq<Row>) returns (results: seq<StatTest>)
    ensures results == StatTests(rows)
  {
    var rec := RunTests(rows, ["H1", "H2"], RecommendedPlayer, RecommendationTest);
    var strat := RunTests(rows, ["H3", "H5"], StrategyAxis, StrategyTest);
    results := rec + strat;
  }

  /**
    An entry is appended for a hypothesis exactly when its table passes the
    guard, and carries that table; degenerate hypotheses leave no entry.
  */
  lemma {:induction false} TestsForSpec(rows: seq<Row>, hids: seq<string>, col: Column, name: string)
    ensures |TestsFor(rows, hids, col, name)| <= |hids|
    ensures forall e :: e in TestsFor(rows, hids, col, name) ==>
              e.hypothesis in hids && e.test == name
              && e.table == Crosstab(Pairs(rows, e.hypothesis, col)) && Testable(e.table)
    ensures forall h :: h in hids && Testable(Crosstab(Pairs(rows, h, col))) ==>
              exists e :: e in TestsFor(rows, hids, col, name) && e.hypothesis == h
    decreases |hids|
  {
    if hids != [] {
      var init, hid := hids[..|hids| - 1], hids[|hids| - 1];
      TestsForSpec(rows, init, col, name);
      assert forall h :: h in hids <==> h in init || h == hid;
      var tab := Crosstab(Pairs(rows, hid, col));
      if Testable(tab) {
        assert ChiSquareTest(hid, name, tab) in TestsFor(rows, hids, col, name);
      }
    }
  }

  /**
    A hypothesis outside `others` has an entry in the combined report exactly
    when its own loop produces one.
  */
  lemma {:induction false} TestedIn(rows: seq<Row>, h: string, hids: seq<string>, col: Column, name: string,
                                    others: seq<string>, col': Column, name': string)
    requires h in hids && h !in others
    ensures (exists e :: e in TestsFor(rows, hids, col, name) + TestsFor(rows, others, col', name') && e.hypothesis == h)
            <==> Testable(Crosstab(Pairs(rows, h, col)))
  {
    var a, b := TestsFor(rows, hids, col, name), TestsFor(rows, others, col', name');
    TestsForSpec(rows, hids, col, name);
    TestsForSpec(rows, others, col', name');
    assert forall e :: e in b ==> e.hypothesis != h;
    if e :| e in a + b && e.hypothesis == h {
      assert e in a;
    }
    if Testable(Crosstab(Pairs(rows, h, col))) {
      var e :| e in a && e.hypothesis == h;
      assert e in a + b;
    }
  }

  /**
    H1 and H2 get a recommendation test exactly when their rows show at least
    two conditions and at least two recommended players.
  */
  lemma RecommendationTested(rows: seq<Row>, h: string)
    requires h == "H1" || h == "H2"
    ensures (exists e :: e in StatTests(rows) && e.hypothesis == h) <==>
              Varied(Firsts(Pairs(rows, h, RecommendedPlayer))) && Varied(Seconds(Pairs(rows, h, RecommendedPlayer)))
  {
    TestedIn(rows, h, ["H1", "H2"], RecommendedPlayer, RecommendationTest, ["H3", "H5"], StrategyAxis, StrategyTest);
    TestableIff(Pairs(rows, h, RecommendedPlayer));
  }

  /**
    H3 and H5 get a strategy test exactly when their rows show at least two
    conditions and at least two strategy labels.
  */
  lemma StrategyTested(rows: seq<Row>, h: string)
    requires h == "H3" || h == "H5"
    ensures (exists e :: e in StatTests(rows) && e.hypothesis == h) <==>
              Varied(Firsts(Pairs(rows, h, StrategyAxis))) && Varied(Seconds(Pairs(rows, h, StrategyAxis)))
  {
    var a := TestsFor(rows, ["H1", "H2"], RecommendedPlayer, RecommendationTest);
    var b := TestsFor(rows, ["H3", "H5"], StrategyAxis, StrategyTest);
    TestedIn(rows, h, ["H3", "H5"], StrategyAxis, StrategyTest, ["H1", "H2"], RecommendedPlayer, RecommendationTest);
    assert forall e :: e in a + b <==> e in b + a;
    TestableIff(Pairs(rows, h, StrategyAxis));
  }

  // ---------------------------------------------------------------------------
  // Fabrication rate per condition

  /**
    One record of the claim-validation report: its key, and for each issue the
    value under `correct` (None when the issue has no such entry).
  */
  datatype ClaimRecord = ClaimRecord(hypothesis: string, condition: string, verdicts: seq<Option<bool>>)

  /** The two counters kept per `(hypothesis_id, condition)`. */
  datatype Counter = Counter(checked: nat, incorrect: nat)

  function KeyOf(r: ClaimRecord): (string, string)
  {
    (r.hypothesis, r.condition)
  }

  /** The key of every record, in order. */
  function ClaimKeys(claims: seq<ClaimRecord>): (ks: seq<(string, string)>)
    ensures |ks| == |claims|
  {
    if claims == [] then [] else ClaimKeys(claims[..|claims| - 1]) + [KeyOf(claims[|claims| - 1])]
  }

  /** The issues whose `correct` entry `is False`. */
  function FalseCount(vs: seq<Option<bool>>): (n: nat)
    ensures n <= |vs|
  {
    if vs == [] then 0 else FalseCount(vs[..|vs| - 1]) + (if vs[|vs| - 1] == Some(false) then 1 else 0)
  }

  /** A record's issues counted into `c`: every one is checked, the false ones are incorrect. */
  function AddIssues(c: Counter, vs: seq<Option<bool>>): Counter
  {
    Counter(c.checked + |vs|, c.incorrect + FalseCount(vs))
  }

  /** The counters of group `k` once `claims` have been read: all their issues, and the false ones. */
  function Tallied(claims: seq<ClaimRecord>, k: (string, string)): Counter
  {
    if claims == [] then Counter(0, 0)
    else
      var c, r := Tallied(claims[..|claims| - 1], k), claims[|claims| - 1];
      if KeyOf(r) == k then AddIssues(c, r.verdicts) else c
  }

  lemma {:induction false} TalliedAbsent(claims: seq<ClaimRecord>, k: (string, string))
    requires k !in ClaimKeys(claims)
    ensures Tallied(claims, k) == Counter(0, 0)
    decreases |claims|
  {
    if claims != [] {
      var init := claims[..|claims| - 1];
      assert ClaimKeys(claims) == ClaimKeys(init) + [KeyOf(claims[|claims| - 1])];
      TalliedAbsent(init, k);
    }
  }

  /** Reading record `i` extends the keys by its key. */
  lemma ClaimKeysStep(claims: seq<ClaimRecord>, i: int)
    requires 0 <= i < |claims|
    ensures ClaimKeys(claims[..i + 1]) == ClaimKeys(claims[..i]) + [KeyOf(claims[i])]
  {
    assert claims[..i + 1][..i] == claims[..i];
  }

  /** Reading record `i` adds its issues to its own group and leaves every other group alone. */
  lemma TalliedStep(claims: seq<ClaimRecord>, i: int, k: (string, string))
    requires 0 <= i < |claims|
    ensures Tallied(claims[..i + 1], k) ==
              if k == KeyOf(claims[i])
              then AddIssues(Tallied(claims[..i], k), claims[i].verdicts)
              else Tallied(claims[..i], k)
  {
    assert claims[..i + 1][..i] == claims[..i];
  }

  lemma DistinctSnoc<T(!new)>(xs: seq<T>, x: T)
    ensures Distinct(xs + [x]) == if x in Distinct(xs) then Distinct(xs) else Distinct(xs) + [x]
  {
    assert (xs + [x])[..|xs|] == xs;
  }

  /** The inner loop over one record's issues: `checked` and, for a False `correct`, `incorrect` grow. */
  method CountIssues(c: Counter, vs: seq<Option<bool>>) returns (c': Counter)
    ensures c' == AddIssues(c, vs)
  {
    c' := c;
    var j := 0;
    while j < |vs|
      invariant 0 <= j <= |vs|
      invariant c' == Counter(c.checked + j, c.incorrect + FalseCount(vs[..j]))
    {
      assert vs[..j + 1][..j] == vs[..j];
      c' := c'.(checked := c'.checked + 1);
      if vs[j] == Some(false) {
        c' := c'.(incorrect := c'.incorrect + 1);
      }
      j := j + 1;
    }
    assert vs[..|vs|] == vs;
  }

  /**
    One record of the report: `setdefault` creates its key's counters, with
    the key appended to the insertion order, and its issues are counted in.
  */
  method ReadRecord(keys: seq<(string, string)>, agg: map<(string, string), Counter>, r: ClaimRecord)
    returns (keys': seq<(string, string)>, agg': map<(string, string), Counter>)
    requires forall k :: k in agg <==> k in keys
    ensures keys' == if KeyOf(r) in keys then keys else keys + [KeyOf(r)]
    ensures agg'.Keys == agg.Keys + {KeyOf(r)}
    ensures var before := if KeyOf(r) in agg then agg[KeyOf(r)] else Counter(0, 0);
            agg'[KeyOf(r)] == AddIssues(before, r.verdicts)
    ensures forall k :: k in agg && k != KeyOf(r) ==> agg'[k] == agg[k]
  {
    var key := KeyOf(r);
    keys', agg' := keys, agg;
    if key !in agg' {
      agg' := agg'[key := Counter(0, 0)];
      keys' := keys' + [key];
    }
    var counted := CountIssues(agg'[key], r.verdicts);
    agg' := agg'[key := counted];
  }

  /** The counters after record `i` match the report read up to and including it. */
  lemma AggStep(claims: seq<ClaimRecord>, i: int, agg: map<(string, string), Counter>, agg': map<(string, string), Counter>)
    requires 0 <= i < |claims|
    requires forall k :: k in agg ==> agg[k] == Tallied(claims[..i], k)
    requires KeyOf(claims[i]) !in agg ==> Tallied(claims[..i], KeyOf(claims[i])) == Counter(0, 0)
    requires agg'.Keys == agg.Keys + {KeyOf(claims[i])}
    requires var before := if KeyOf(claims[i]) in agg then agg[KeyOf(claims[i])] else Counter(0, 0);
             agg'[KeyOf(claims[i])] == AddIssues(before, claims[i].verdicts)
    requires forall k :: k in agg && k != KeyOf(claims[i]) ==> agg'[k] == agg[k]
    ensures forall k :: k in agg' ==> agg'[k] == Tallied(claims[..i + 1], k)
  {
    forall k | k in agg' ensures agg'[k] == Tallied(claims[..i + 1], k) {
      TalliedStep(claims, i, k);
    }
  }

  /** The insertion order after record `i` is the first-seen order of the keys read so far. */
  lemma KeysStep(claims: seq<ClaimRecord>, i: int, keys: seq<(string, string)>, keys': seq<(string, string)>)
    requires 0 <= i < |claims| && keys == Distinct(ClaimKeys(claims[..i]))
    requires keys' == if KeyOf(claims[i]) in keys then keys else keys + [KeyOf(claims[i])]
    ensures keys' == Distinct(ClaimKeys(claims[..i + 1]))
  {
    ClaimKeysStep(claims, i);
    DistinctSnoc(ClaimKeys(claims[..i]), KeyOf(claims[i]));
  }

  /** One pass of the loop over the report, for record `i`. */
  method ReadStep(claims: seq<ClaimRecord>, i: nat, keys: seq<(string, string)>, agg: map<(string, string), Counter>)
    returns (keys': seq<(string, string)>, agg': map<(string, string), Counter>)
    requires i < |claims|
    requires keys == Distinct(ClaimKeys(claims[..i]))
    requires forall k :: k in agg <==> k in keys
    requires forall k :: k in agg ==> agg[k] == Tallied(claims[..i], k)
    ensures keys' == Distinct(ClaimKeys(claims[..i + 1]))
    ensures forall k :: k in agg' <==> k in keys'
    ensures forall k :: k in agg' ==> agg'[k] == Tallied(claims[..i + 1], k)
  {
    var key := KeyOf(claims[i]);
    if key !in agg {
      assert key !in ClaimKeys(claims[..i]);
      TalliedAbsent(claims[..i], key);
    }
    keys', agg' := ReadRecord(keys, agg, claims[i]);
    KeysStep(claims, i, keys, keys');
    AggStep(claims, i, agg, agg');
  }

  /**
    The loop over the report. The keys come out in first-seen order, as the
    dictionary keeps them, and each key's counters hold all the issues of its
    records.
  */
  method CountFabrications(claims: seq<ClaimRecord>) returns (keys: seq<(string, string)>, agg: map<(string, string), Counter>)
    ensures keys == Distinct(ClaimKeys(claims))
    ensures forall k :: k in agg <==> k in keys
    ensures forall k :: k in agg ==> agg[k] == Tallied(claims, k)
  {
    keys, agg := [], map[];
    var i := 0;
    while i < |claims|
      invariant 0 <= i <= |claims|
      invariant keys == Distinct(ClaimKeys(claims[..i]))
      invariant forall k :: k in agg <==> k in keys
      invariant forall k :: k in agg ==> agg[k] == Tallied(claims[..i], k)
    {
      keys, agg := ReadStep(claims, i, keys, agg);
      i := i + 1;
    }
    assert claims[..|claims|] == claims;
  }

  /** `incorrect / checked`, and 0.0 for a group with nothing checked. */
  function Rate(c: Counter): (r: real)
    ensures c.checked == 0 ==> r == 0.0
    ensures c.checked > 0 ==> r * c.checked as real == c.incorrect as real
    ensures c.incorrect <= c.checked ==> 0.0 <= r <= 1.0
  {
    if c.checked > 0 then c.incorrect as real / c.checked as real else 0.0
  }

  /** A group never has more incorrect issues than checked ones. */
  lemma {:induction false} IncorrectWithinChecked(claims: seq<ClaimRecord>, k: (string, string))
    ensures Tallied(claims, k).incorrect <= Tallied(claims, k).checked
    ensures 0.0 <= Rate(Tallied(claims, k)) <= 1.0
    decreases |claims|
  {
    if claims != [] {
      IncorrectWithinChecked(claims[..|claims| - 1], k);
    }
  }

  /** A group whose records carry no issues still appears, with both counters and the rate at 0. */
  lemma {:induction false} IssueFreeGroup(claims: seq<ClaimRecord>, k: (string, string))
    requires k in ClaimKeys(claims)
    requires forall i :: 0 <= i < |claims| && KeyOf(claims[i]) == k ==> claims[i].verdicts == []
    ensures k in Distinct(ClaimKeys(claims))
    ensures Tallied(claims, k) == Counter(0, 0) && Rate(Tallied(claims, k)) == 0.0
  {
    IssueFreeCounters(claims, k);
  }

  lemma {:induction false} IssueFreeCounters(claims: seq<ClaimRecord>, k: (string, string))
    requires forall i :: 0 <= i < |claims| && KeyOf(claims[i]) == k ==> claims[i].verdicts == []
    ensures Tallied(claims, k) == Counter(0, 0)
    decreases |claims|
  {
    if claims != [] {
      var init := claims[..|claims| - 1];
      assert forall i :: 0 <= i < |init| ==> init[i] == claims[i];
      IssueFreeCounters(init, k);
      assert FalseCount([]) == 0;
    }
  }

  /** One line of the fabrication table. */
  datatype RateRow = RateRow(hypothesis: string, condition: string, checked: nat, incorrect: nat, rate: real)

  function RateRowOf(k: (string, string), c: Counter): RateRow
  {
    RateRow(k.0, k.1, c.checked, c.incorrect, Rate(c))
  }

  /** The counting loop, then one line per group in first-seen order. */
  method FabricationRates(claims: seq<ClaimRecord>) returns (rows: seq<RateRow>)
    ensures |rows| == |Distinct(ClaimKeys(claims))|
    ensures forall i :: 0 <= i < |rows| ==>
              var k := Distinct(ClaimKeys(claims))[i];
              rows[i] == RateRowOf(k, Tallied(claims, k))
  {
    var keys, agg := CountFabrications(claims);
    rows := [];
    var i := 0;
    while i < |keys|
      invariant 0 <= i <= |keys|
      invariant |rows| == i
      invariant forall j :: 0 <= j < i ==> keys[j] in agg && rows[j] == RateRowOf(keys[j], agg[keys[j]])
    {
      var k := keys[i];
      assert k in agg;
      rows := rows + [RateRowOf(k, agg[k])];
      i := i + 1;
    }
  }

  /** The fabrication lines of the groups `ks`, each with its counters once `claims` are read. */
  function RateRows(claims: seq<ClaimRecord>, ks: seq<(string, string)>): (rows: seq<RateRow>)
    ensures |rows| == |ks|
    ensures forall i :: 0 <= i < |ks| ==> rows[i] == RateRowOf(ks[i], Tallied(claims, ks[i]))
  {
    if ks == [] then [] else RateRows(claims, ks[..|ks| - 1]) + [RateRowOf(ks[|ks| - 1], Tallied(claims, ks[|ks| - 1]))]
  }

  // ---------------------------------------------------------------------------
  // The run as a whole

  /**
    What the script writes: the sentiment grouping, the strategy and scope
    counts, the tests, and the fabrication table when the claim-validation
    report exists.
  */
  datatype Report = Report(
    byCondition: map<(string, string), Stat>,
    strategyCounts: map<(string, string, string), nat>,
    scopeCounts: map<(string, string, string), nat>,
    tests: seq<StatTest>,
    fabrication: Option<seq<RateRow>>)

  /**
    `main`: an empty frame has no `hypothesis_id` column, so the `melt` stops
    the run with `KeyError` before anything is written (None); otherwise the
    groupings, the tests and, when `claims` is present, the fabrication table.
  */
  function Analysis(recs: seq<Response>, claims: Option<seq<ClaimRecord>>): Option<Report>
  {
    var rows := Rows(recs);
    if rows == [] then None
    else
      var fab := if claims.Some? then Some(RateRows(claims.value, Distinct(ClaimKeys(claims.value)))) else None;
      Some(Report(SentimentByCondition(rows), LabelCounts(rows, StrategyAxis), LabelCounts(rows, ScopeAxis),
                  StatTests(rows), fab))
  }

  /** The `(hypothesis_id, condition)` of every response. */
  function ResponseConditions(recs: seq<Response>): set<(string, string)>
  {
    set i | 0 <= i < |recs| :: (recs[i].hypothesis, recs[i].condition)
  }

  /** The sentiment grouping has one group per condition that occurs among the responses. */
  lemma GroupsAreConditions(recs: seq<Response>)
    ensures SentimentByCondition(Rows(recs)).Keys == ResponseConditions(recs)
  {
    var rows := Rows(recs);
    var es := SentimentEntries(rows);
    forall e | e in es ensures e.0 in ResponseConditions(recs) {
      var i :| 0 <= i < |es| && es[i] == e;
      RowsIndex(recs, i);
    }
    forall i | 0 <= i < |recs| ensures (recs[i].hypothesis, recs[i].condition) in set e | e in es :: e.0 {
      RowsIndex(recs, i);
      assert es[i] in es;
    }
  }

  /**
    An empty result file stops the run and writes nothing; otherwise the report
    groups exactly the conditions that occur, holds at most one test for each
    of H1, H2, H3 and H5, and has a fabrication table exactly when the
    claim-validation report exists.
  */
  lemma AnalysisSpec(recs: seq<Response>, claims: Option<seq<ClaimRecord>>)
    ensures Analysis(recs, claims).None? <==> recs == []
    ensures Analysis(recs, claims).Some? ==>
              var r := Analysis(recs, claims).value;
              && r.byCondition.Keys == ResponseConditions(recs)
              && |r.tests| <= 4
              && (r.fabrication.Some? <==> claims.Some?)
  {
    if recs != [] {
      var rows := Rows(recs);
      GroupsAreConditions(recs);
      TestsForSpec(rows, ["H1", "H2"], RecommendedPlayer, RecommendationTest);
      TestsForSpec(rows, ["H3", "H5"], StrategyAxis, StrategyTest);
    }
  }

  /**
    The script's body: build the frame, stop on an empty one, write the
    groupings and the tests, then the fabrication table if the report exists.
  */
  method Run(recs: seq<Response>, claims: Option<seq<ClaimRecord>>) returns (report: Option<Report>)
    ensures report == Analysis(recs, claims)
  {
    var rows := BuildRows(recs);
    if rows == [] {
      return None;
    }
    var tests := StatsTests(rows);
    var fab: Option<seq<RateRow>> := None;
    if claims.Some? {
      var rates := FabricationRates(claims.value);
      assert rates == RateRows(claims.value, Distinct(ClaimKeys(claims.value)));
      fab := Some(rates);
    }
    report := Some(Report(SentimentByCondition(rows), LabelCounts(rows, StrategyAxis), LabelCounts(rows, ScopeAxis),
                          tests, fab));
  }
}
