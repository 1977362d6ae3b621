/**
  The phase-2 bias analysis: per response its sentiment, its mention counts and
  the player it recommends; then the mean sentiment per condition, the
  recommendation counts per condition, and for H1 and H2 a chi-square test of
  condition against recommended player, or an "insufficient variety" entry
  when the table is degenerate.
*/
module AnalyzeBias {
  import opened Text
  import opened Signals
  import opened Aggregate
  import AnalyzeScript

  // ---------------------------------------------------------------------------
  // Sentiment

  /** This script's word lists, nine positive and ten negative words. */
  const BiasLexicon: Lexicon := Lexicon(
    {"excellent", "strong", "promising", "opportunity", "improve", "growth", "effective",
     "efficient", "advantage"},
    {"poor", "weak", "struggling", "concern", "risk", "problem", "issue", "ineffective",
     "inefficient", "disadvantage"})

  /** `sentiment_score`: 0.0 without tokens, otherwise net hits over the token count. */
  function SentimentScore(text: string): (r: real)
    ensures -1.0 <= r <= 1.0
    ensures Tokens(Lower(text)) == [] ==> r == 0.0
  {
    SentimentOf(text, BiasLexicon)
  }

  /** The words the phase-3 script counts and this one does not. */
  const ExtraWords: set<string> := {"breakthrough", "edge", "positive", "potential", "stall", "negative"}

  /**
    The two scripts score a text alike unless one of its tokens is a word that
    only the phase-3 lists contain.
  */
  lemma ScoresAgree(text: string)
    requires forall t :: t in Tokens(Lower(text)) ==> t !in ExtraWords
    ensures SentimentScore(text) == AnalyzeScript.SentimentScore(text)
  {
    var toks := Tokens(Lower(text));
    HitsAgree(toks, BiasLexicon.positive, AnalyzeScript.ScriptLexicon.positive);
    HitsAgree(toks, BiasLexicon.negative, AnalyzeScript.ScriptLexicon.negative);
  }

  /**
    The condition of `ScoresAgree` cannot be dropped: "edge" is neutral for the
    phase-2 lists and positive for the phase-3 lists, so a text whose only
    token is "edge" scores 0.0 in one script and 1.0 in the other.
  */
  lemma ExtraWordSplitsScores(text: string)
    requires Tokens(Lower(text)) == ["edge"]
    ensures SentimentScore(text) == 0.0 && AnalyzeScript.SentimentScore(text) == 1.0
  {
    assert ["edge"][..0] == [];
    assert Net(["edge"], BiasLexicon) == 0 && Net(["edge"], AnalyzeScript.ScriptLexicon) == 1;
  }

  // ---------------------------------------------------------------------------
  // Recommended player

  /**
    `who_is_recommended`: the trigger loop with `break`, then the counts and
    `max(counts, key=counts.get)`, then `cand or top`.
  */
  method WhoIsRecommended(text: string) returns (r: string)
    ensures r == Recommended(text)
    ensures r in Players
  {
    var cand := FirstTriggered(text, Players);
    var counts := MentionCounts(text);
    var top := ArgMax(Players, counts);
    if cand.Some? {
      r := cand.value;
    } else {
      r := top;
    }
  }

  // ---------------------------------------------------------------------------
  // One row per record

  datatype Record = Record(provider: string, model: string, hypothesis: string, condition: string, response: string)

  /** One row of the frame; `mentions` holds the three `mentions_` columns by player. */
  datatype Row = Row(
    provider: string, model: string, hypothesis: string, condition: string,
    sentiment: real, recommended: string, mentions: map<string, nat>)

  function Analyze(rec: Record): Row
  {
    Row(rec.provider, rec.model, rec.hypothesis, rec.condition,
        SentimentScore(rec.response), Recommended(rec.response), MentionCounts(rec.response))
  }

  /**
    Every row keeps its record's identifying fields, has a sentiment in
    [-1, 1], recommends a listed player and has one count per player.
  */
  lemma AnalyzeSpec(rec: Record)
    ensures var row := Analyze(rec);
            && row.provider == rec.provider && row.model == rec.model
            && row.hypothesis == rec.hypothesis && row.condition == rec.condition
            && -1.0 <= row.sentiment <= 1.0
            && row.recommended in Players
            && row.mentions.Keys == set p | p in Players
  {
  }

  /** A player's mention count is positive exactly when the response names it verbatim. */
  lemma MentionsSpec(rec: Record)
    ensures forall p :: p in Players ==> (Analyze(rec).mentions[p] > 0 <==> Contains(rec.response, p))
  {
    forall p | p in Players ensures MentionCounts(rec.response)[p] > 0 <==> Contains(rec.response, p) {
      MentionPositiveIff(rec.response, p);
    }
  }

  method AnalyzeRecord(rec: Record) returns (row: Row)
    ensures row == Analyze(rec)
  {
    var sent := SentimentScore(rec.response);
    var mentions := MentionCounts(rec.response);
    var recommended := WhoIsRecommended(rec.response);
    row := Row(rec.provider, rec.model, rec.hypothesis, rec.condition, sent, recommended, mentions);
  }

  function Rows(recs: seq<Record>): (rows: seq<Row>)
    ensures |rows| == |recs|
  {
    if recs == [] then [] else Rows(recs[..|recs| - 1]) + [Analyze(recs[|recs| - 1])]
  }

  /** Row `i` is the analysis of record `i`. */
  lemma {:induction false} RowsIndex(recs: seq<Record>, i: int)
    requires 0 <= i < |recs|
    ensures Rows(recs)[i] == Analyze(recs[i])
    decreases |recs|
  {
    if i < |recs| - 1 {
      var init := recs[..|recs| - 1];
      RowsIndex(init, i);
      assert init[i] == recs[i];
    }
  }

  lemma RowsSnoc(recs: seq<Record>, i: int)
    requires 0 <= i < |recs|
    ensures Rows(recs[..i + 1]) == Rows(recs[..i]) + [Analyze(recs[i])]
  {
    assert recs[..i + 1][..i] == recs[..i];
  }

  /** The loop appending one row per record. */
  method BuildRows(recs: seq<Record>) returns (rows: seq<Row>)
    ensures rows == Rows(recs)
  {
    rows := [];
    var i := 0;
    while i < |recs|
      invariant 0 <= i <= |recs|
      invariant rows == Rows(recs[..i])
    {
      var row := AnalyzeRecord(recs[i]);
      RowsSnoc(recs, i);
      rows := rows + [row];
      i := i + 1;
    }
    assert recs[..|recs|] == recs;
  }

  /** Every row's sentiment is in [-1, 1] and its recommended player is listed. */
  lemma RowsBounded(recs: seq<Record>)
    ensures forall i :: 0 <= i < |recs| ==>
              -1.0 <= Rows(recs)[i].sentiment <= 1.0 && Rows(recs)[i].recommended in Players
  {
    forall i | 0 <= i < |recs|
      ensures -1.0 <= Rows(recs)[i].sentiment <= 1.0 && Rows(recs)[i].recommended in Players
    {
      RowsIndex(recs, i);
      AnalyzeSpec(recs[i]);
    }
  }

  // ---------------------------------------------------------------------------
  // Groupings by (hypothesis_id, condition)

  function ConditionOf(row: Row): (string, string)
  {
    (row.hypothesis, row.condition)
  }

  function SentimentEntries(rows: seq<Row>): (es: seq<((string, string), real)>)
    ensures |es| == |rows| && forall i :: 0 <= i < |rows| ==> es[i] == (ConditionOf(rows[i]), rows[i].sentiment)
  {
    if rows == [] then [] else SentimentEntries(rows[..|rows| - 1]) + [(ConditionOf(rows[|rows| - 1]), rows[|rows| - 1].sentiment)]
  }

  /** `by_cond`: size and sentiment sum per `(hypothesis_id, condition)`. */
  function SentimentByCondition(rows: seq<Row>): map<(string, string), Stat>
  {
    GroupStats(SentimentEntries(rows))
  }

  /** Every condition's mean sentiment is in [-1, 1]. */
  lemma SentimentMeansBounded(recs: seq<Record>)
    ensures var g := SentimentByCondition(Rows(recs));
            forall k :: k in g ==> -1.0 <= Mean(g[k]) <= 1.0
  {
    var es := SentimentEntries(Rows(recs));
    RowsBounded(recs);
    forall e | e in es ensures -1.0 <= e.1 <= 1.0 {
      var i :| 0 <= i < |es| && es[i] == e;
    }
    MeanBounds(es);
  }

  function Conditions(rows: seq<Row>): (ks: seq<(string, string)>)
    ensures |ks| == |rows| && forall i :: 0 <= i < |rows| ==> ks[i] == ConditionOf(rows[i])
  {
    if rows == [] then [] else Conditions(rows[..|rows| - 1]) + [ConditionOf(rows[|rows| - 1])]
  }

  /** `(hypothesis_id, condition, recommended_player)` for every row, in order. */
  function RecKeys(rows: seq<Row>): (ks: seq<(string, string, string)>)
    ensures |ks| == |rows|
  {
    if rows == [] then []
    else
      var r := rows[|rows| - 1];
      RecKeys(rows[..|rows| - 1]) + [(r.hypothesis, r.condition, r.recommended)]
  }

  /** `rec_counts`: `groupby(["hypothesis_id","condition","recommended_player"]).size()`. */
  function RecCounts(rows: seq<Row>): map<(string, string, string), nat>
  {
    Tally(RecKeys(rows))
  }

  lemma {:induction false} RecKeysPartition(rows: seq<Row>, k: (string, string))
    requires forall i :: 0 <= i < |rows| ==> rows[i].recommended in Players
    ensures AnalyzeScript.MultisetTotal(multiset(RecKeys(rows)), k, Players) == multiset(Conditions(rows))[k]
    decreases |rows|
  {
    if rows == [] {
      AnalyzeScript.ZeroTotal(k, Players);
    } else {
      var init, r := rows[..|rows| - 1], rows[|rows| - 1];
      RecKeysPartition(init, k);
      var x := (r.hypothesis, r.condition, r.recommended);
      assert RecKeys(rows) == RecKeys(init) + [x];
      assert Conditions(rows) == Conditions(init) + [ConditionOf(r)];
      AnalyzeScript.LabelsDistinct();
      AnalyzeScript.MultisetTotalAdd(multiset(RecKeys(init)), x, k, Players);
      assert r.recommended in Players;
    }
  }

  /**
    The recommendation counts of a condition, over the three players, add up
    to its size in the sentiment grouping: each row recommends exactly one
    player.
  */
  lemma RecCountsPartition(recs: seq<Record>, k: (string, string))
    requires k in SentimentByCondition(Rows(recs))
    ensures AnalyzeScript.LabelTotal(RecCounts(Rows(recs)), k, Players) == SentimentByCondition(Rows(recs))[k].n
  {
    var rows := Rows(recs);
    RowsBounded(recs);
    RecKeysPartition(rows, k);
    AnalyzeScript.TallyTotal(RecKeys(rows), k, Players);
    ConditionSize(rows, k);
  }

  /** A condition's size in the sentiment grouping is the number of its rows. */
  lemma ConditionSize(rows: seq<Row>, k: (string, string))
    requires k in SentimentByCondition(rows)
    ensures SentimentByCondition(rows)[k].n == multiset(Conditions(rows))[k]
  {
    var es := SentimentEntries(rows);
    assert Firsts(es) == Conditions(rows) by {
      forall i | 0 <= i < |rows| ensures Firsts(es)[i] == Conditions(rows)[i] {
        assert es[i].0 == ConditionOf(rows[i]);
      }
    }
    GroupSizeIsTally(es);
    assert GroupStats(es)[k].n == Tally(Firsts(es))[k];
  }

  // ---------------------------------------------------------------------------
  // Chi-square for H1/H2

  /**
    One entry of `chi_results`. The statistic, p-value and degrees of freedom
    come from a library call outside the model; the entry keeps the table
    that call receives.
  */
  datatype ChiEntry = ChiSquare(hypothesis: string, table: Table) | InsufficientVariety(hypothesis: string)

  /** `(condition, recommended_player)` for the rows of hypothesis `hid`, in order. */
  function Pairs(rows: seq<Row>, hid: string): (ps: seq<(string, string)>)
    ensures |ps| <= |rows|
  {
    if rows == [] then []
    else
      var r := rows[|rows| - 1];
      Pairs(rows[..|rows| - 1], hid) + (if r.hypothesis == hid then [(r.condition, r.recommended)] else [])
  }

  /**
    The subset's pairs are the rows carrying `hid`: each `(condition, player)`
    occurs as often as `rec_counts` counts `(hid, condition, player)`.
  */
  lemma {:induction false} PairsAreRecKeys(rows: seq<Row>, hid: string, c: string, v: string)
    ensures multiset(Pairs(rows, hid))[(c, v)] == multiset(RecKeys(rows))[(hid, c, v)]
    decreases |rows|
  {
    if rows != [] {
      PairsAreRecKeys(rows[..|rows| - 1], hid, c, v);
    }
  }

  /** The subset for `hid` is empty exactly when no row carries `hid`. */
  lemma {:induction false} PairsEmptyIff(rows: seq<Row>, hid: string)
    ensures Pairs(rows, hid) == [] <==> forall i :: 0 <= i < |rows| ==> rows[i].hypothesis != hid
    decreases |rows|
  {
    if rows != [] {
      var init := rows[..|rows| - 1];
      PairsEmptyIff(init, hid);
      assert forall i :: 0 <= i < |init| ==> init[i] == rows[i];
    }
  }

  /** What one pass of the loop appends for `hid`: nothing for an empty subset, else a test or a note. */
  function EntryFor(rows: seq<Row>, hid: string): (es: seq<ChiEntry>)
    ensures |es| <= 1
  {
    var ps := Pairs(rows, hid);
    if ps == [] then []
    else if Testable(Crosstab(ps)) then [ChiSquare(hid, Crosstab(ps))]
    else [InsufficientVariety(hid)]
  }

  /**
    The entry for `hid` exists exactly when its subset is non-empty, names
    `hid`, and is a test on the subset's table exactly when that table passes
    the guard.
  */
  lemma EntryForSpec(rows: seq<Row>, hid: string)
    ensures EntryFor(rows, hid) != [] <==> Pairs(rows, hid) != []
    ensures EntryFor(rows, hid) != [] ==>
              var e := EntryFor(rows, hid)[0];
              && e.hypothesis == hid
              && (e.ChiSquare? <==> Testable(Crosstab(Pairs(rows, hid))))
              && (e.ChiSquare? ==> e.table == Crosstab(Pairs(rows, hid)))
  {
  }

  /** The entries of the loop over `hids`, in order. */
  function ChiResults(rows: seq<Row>, hids: seq<string>): (es: seq<ChiEntry>)
    ensures |es| <= |hids|
  {
    if hids == [] then [] else ChiResults(rows, hids[..|hids| - 1]) + EntryFor(rows, hids[|hids| - 1])
  }

  lemma ChiResultsSnoc(rows: seq<Row>, hids: seq<string>, i: int)
    requires 0 <= i < |hids|
    ensures ChiResults(rows, hids[..i + 1]) == ChiResults(rows, hids[..i]) + EntryFor(rows, hids[i])
  {
    assert hids[..i + 1][..i] == hids[..i];
  }

  /** One pass of the loop body: `continue` on an empty subset, else cross-tabulate and test or note. */
  method CheckHypothesis(rows: seq<Row>, hid: string) returns (es: seq<ChiEntry>)
    ensures es == EntryFor(rows, hid)
  {
    var sub := Pairs(rows, hid);
    if sub == [] {
      return [];
    }
    var tab := Crosstab(sub);
    if Testable(tab) {
      es := [ChiSquare(hid, tab)];
    } else {
      es := [InsufficientVariety(hid)];
    }
  }

  /** `for hid in ("H1","H2")`, appending what each pass produces. */
  method RunChiSquare(rows: seq<Row>, hids: seq<string>) returns (results: seq<ChiEntry>)
    ensures results == ChiResults(rows, hids)
  {
    results := [];
    var i := 0;
    while i < |hids|
      invariant 0 <= i <= |hids|
      invariant results == ChiResults(rows, hids[..i])
    {
      var es := CheckHypothesis(rows, hids[i]);
      ChiResultsSnoc(rows, hids, i);
      results := results + es;
      i := i + 1;
    }
    assert hids[..|hids|] == hids;
  }

  /** The entries of the H1/H2 loop. */
  function ChiReport(rows: seq<Row>): seq<ChiEntry>
  {
    ChiResults(rows, ["H1", "H2"])
  }

  /** The loop over the two hypotheses appends the H1 entry, then the H2 entry. */
  lemma ChiReportSplit(rows: seq<Row>)
    ensures ChiReport(rows) == EntryFor(rows, "H1") + EntryFor(rows, "H2")
  {
    var hids := ["H1", "H2"];
    assert hids[..1] == ["H1"] && hids[..1][..0] == [];
    assert ChiResults(rows, hids[..1]) == EntryFor(rows, "H1");
  }

  /** In a report made of `own` and `other`, each holding at most one entry, only `own` can speak for `h`. */
  lemma OwnEntry(own: seq<ChiEntry>, other: seq<ChiEntry>, h: string, report: seq<ChiEntry>)
    requires |own| <= 1 && |other| <= 1
    requires own != [] ==> own[0].hypothesis == h
    requires other != [] ==> other[0].hypothesis != h
    requires report == own + other || report == other + own
    ensures (exists e :: e in report && e.hypothesis == h) <==> own != []
    ensures forall e :: e in report && e.hypothesis == h ==> e == own[0]
  {
    if own != [] {
      assert own[0] in report;
    }
  }

  /** Two parts of at most one entry each, for different hypotheses, never repeat a hypothesis. */
  lemma PartsUnique(a: seq<ChiEntry>, b: seq<ChiEntry>)
    requires |a| <= 1 && |b| <= 1
    requires a != [] && b != [] ==> a[0].hypothesis != b[0].hypothesis
    ensures forall i, j :: 0 <= i < j < |a + b| ==> (a + b)[i].hypothesis != (a + b)[j].hypothesis
  {
  }

  /**
    H1 or H2 has an entry exactly when some row carries it, and that entry is
    a test exactly when its rows show two conditions and two recommended
    players; every other entry is the "insufficient variety" note.
  */
  lemma ChiReportSpec(rows: seq<Row>, h: string)
    requires h == "H1" || h == "H2"
    ensures (exists e :: e in ChiReport(rows) && e.hypothesis == h) <==>
              exists i :: 0 <= i < |rows| && rows[i].hypothesis == h
    ensures forall e :: e in ChiReport(rows) && e.hypothesis == h ==>
              (e.ChiSquare? <==> Varied(Firsts(Pairs(rows, h))) && Varied(Seconds(Pairs(rows, h))))
  {
    var a, b := EntryFor(rows, "H1"), EntryFor(rows, "H2");
    ChiReportSplit(rows);
    EntryForSpec(rows, "H1");
    EntryForSpec(rows, "H2");
    if h == "H1" {
      OwnEntry(a, b, h, ChiReport(rows));
    } else {
      OwnEntry(b, a, h, ChiReport(rows));
    }
    PairsEmptyIff(rows, h);
    TestableIff(Pairs(rows, h));
  }

  /** The report holds at most one entry per hypothesis: H1's before H2's. */
  lemma ChiReportUnique(rows: seq<Row>)
    ensures |ChiReport(rows)| <= 2
    ensures forall i, j :: 0 <= i < j < |ChiReport(rows)| ==> ChiReport(rows)[i].hypothesis != ChiReport(rows)[j].hypothesis
  {
    ChiReportSplit(rows);
    EntryForSpec(rows, "H1");
    EntryForSpec(rows, "H2");
    PartsUnique(EntryFor(rows, "H1"), EntryFor(rows, "H2"));
  }

  // ---------------------------------------------------------------------------
  // The run as a whole

  /** The three outputs written to disk. */
  datatype Report = Report(
    byCondition: map<(string, string), Stat>,
    recCounts: map<(string, string, string), nat>,
    chi: seq<ChiEntry>)

  /** `main`: no report for an empty frame, otherwise the groupings and the H1/H2 entries. */
  function Analysis(recs: seq<Record>): Option<Report>
  {
    var rows := Rows(recs);
    if rows == [] then None
    else Some(Report(SentimentByCondition(rows), RecCounts(rows), ChiReport(rows)))
  }

  /** The `(hypothesis_id, condition)` of every record. */
  function RecordConditions(recs: seq<Record>): set<(string, string)>
  {
    set i | 0 <= i < |recs| :: (recs[i].hypothesis, recs[i].condition)
  }

  /** The sentiment grouping has one group per condition that occurs among the records. */
  lemma GroupsAreConditions(recs: seq<Record>)
    ensures SentimentByCondition(Rows(recs)).Keys == RecordConditions(recs)
  {
    var rows := Rows(recs);
    var es := SentimentEntries(rows);
    forall e | e in es ensures e.0 in RecordConditions(recs) {
      var i :| 0 <= i < |es| && es[i] == e;
      RowsIndex(recs, i);
    }
    forall i | 0 <= i < |recs| ensures (recs[i].hypothesis, recs[i].condition) in set e | e in es :: e.0 {
      RowsIndex(recs, i);
      assert es[i] in es;
    }
  }

  /**
    An empty run reports nothing; otherwise the report groups exactly the
    conditions that occur and holds at most one entry for each of H1 and H2.
  */
  lemma AnalysisSpec(recs: seq<Record>)
    ensures Analysis(recs).None? <==> recs == []
    ensures Analysis(recs).Some? ==>
              Analysis(recs).value.byCondition.Keys == RecordConditions(recs) && |Analysis(recs).value.chi| <= 2
  {
    if recs != [] {
      GroupsAreConditions(recs);
      ChiReportUnique(Rows(recs));
    }
  }
}
