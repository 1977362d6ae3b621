# Response-analysis heuristics of the bias-detection pipeline, in Dafny

This project models the analysis stage of a pipeline that looks for bias in
language-model answers about three lacrosse players. The stage has three scripts.

- `analyze_bias.py` (phase 2) works per response. It computes:
  - a lexicon sentiment score;
  - how often each player is mentioned;
  - the player the response recommends.

  It then groups the results by `(hypothesis_id, condition)`. For H1 and H2 it
  either runs a chi-square test of condition against recommended player, or
  writes an "insufficient variety" note when the table is degenerate.
- `analyze_script.py` (phase 3) repeats the same signals, using larger word
  lists. It adds:
  - a strategy/scope classification;
  - the renaming of the mention columns and its reversal;
  - the per-label counts;
  - guarded chi-square tests for H1/H2 and H3/H5;
  - fabrication rates, computed from the claim-validation report.
- `validate_claims.py` does two things:
  - it extracts the numeric literals of a response, each with a context window;
  - it applies three additive rule checks against a ground-truth table.

The modules follow that structure:

| file | module | what it holds |
|---|---|---|
| `text.dfy` | `Text` | ASCII `str.lower`, substring tests, `len(re.findall(p, t))` for a literal `p`, `str.replace`, the tokenizer `[a-zA-Z']+` |
| `signals.dfy` | `Signals` | the parts both scripts share: lexicon score, mention counts, the trigger matcher and its declarative pattern, first-trigger search, `max(..., key=...)` and the recommended player |
| `aggregate.dfy` | `Aggregate` | what pandas does for the scripts: group sizes, sums and means, `crosstab` and the two-rows-two-columns guard |
| `validate_claims.dfy` | `ValidateClaims` | `extract_numbers` (a `re.finditer` tiling) and `check_claims` |
| `analyze_script.dfy` | `AnalyzeScript` | the phase-3 script |
| `analyze_bias.dfy` | `AnalyzeBias` | the phase-2 script |

How the Python is modelled:
- Regular expressions are hand-written matchers. The player trigger, the
  turnover phrase, the numeral `-?\d+\.?\d*` and the tokenizer `[a-zA-Z']+` are
  each proved equal to a declarative statement of their pattern. `.` does not
  match a newline. `len(re.findall(p, t))` for a literal player name is a
  left-to-right count of non-overlapping occurrences. Only its bound and its
  positivity are proved, not a declarative statement of the count.
- `re.I` means comparing the lower-cased text with the lower-cased pattern.
- Python's `float` results are exact `real`s.
- `float(m.group(1))` is an exact `Decimal` made of sign, whole part, fraction
  digits and number of places.
- A dictionary's insertion order is the first-seen order `Distinct`.
- Loops that change variables are `method`s. Each is proved equal to a
  function, and the properties are proved about that function.

Three behaviours of the code are modelled as written:
- The free-position rule has no zero guard: an attempt count of 0 raises
  `ZeroDivisionError`. That is the `Outcome.ZeroDivisionError` value here.
- An empty result file stops `analyze_script.py` at line 69: the frame built
  from no rows has no columns, so the `melt` raises `KeyError`, and none of
  the groupings, tests or fabrication rates are written. `AnalyzeScript.Analysis`
  is `None` exactly then. (`analyze_bias.py` returns early on an empty frame;
  `AnalyzeBias.Analysis` is `None` there too.)
- Malformed records are not skipped or counted. How a missing field fails is
  not modelled (see "Left out").

## Model

| member | source | states |
|---|---|---|
| Text.LowerChar | analyze_bias.py:15 | `str.lower` on one character: an upper-case letter becomes the lower-case letter at the same place in the alphabet, the result is never upper-case, and other characters are unchanged |
| Text.Lower | analyze_script.py:20 | `text.lower()` keeps the length and folds every character (ASCII) |
| Text.LowerIdempotent | analyze_script.py:20 | lower-casing an already lower-cased text changes nothing |
| Text.RunLength | analyze_script.py:10 | the leading run of `[a-zA-Z']` is maximal: all word characters, followed by a non-word character or the end |
| Text.Tokens | analyze_script.py:10 | every token is a non-empty run of word characters, and there are at most as many tokens as characters |
| Text.TokensSkip | analyze_script.py:10 | the tokenizer passes over a prefix without letters or apostrophes |
| Text.TokensAt | analyze_script.py:10 | at a maximal run after such a prefix, the tokens are that run followed by the tokens of the rest |
| Text.TokensTokenization | analyze_script.py:10 | the tokens meet the declarative statement: each is the maximal run at the next word character, and none remain after the last |
| Text.TokenizationIsTokens | analyze_script.py:10 | every sequence meeting that statement is the tokenizer's result |
| Text.TokensIff | analyze_script.py:10 | `re.findall(r"[a-zA-Z']+", s)` returns exactly the maximal runs of word characters, in order, and nothing else |
| Text.TokensEmptyIff | analyze_script.py:10-11 | the tokenizer finds nothing exactly when the text has no letter or apostrophe |
| Text.CountOccurrences | analyze_script.py:17 | non-overlapping occurrences of a non-empty literal: count × length ≤ text length |
| Text.CountPositiveIff | analyze_script.py:17 | a player's count is positive exactly when the name occurs as a substring |
| Text.ReplaceAbsent | analyze_script.py:71 | `str.replace` leaves a string without the pattern unchanged |
| Text.ReplaceLeading | analyze_script.py:71 | a leading occurrence is replaced and the scan resumes after it |
| Text.ReplaceKeepPrefix | analyze_script.py:61 | a prefix free of the one-character pattern passes through unchanged |
| Signals.Hits | analyze_bias.py:18-19 | the number of tokens found in a word list is at most the token count |
| Signals.HitsAgree | analyze_bias.py:18-19 | two word lists that agree on every token of the text give the same count |
| Signals.Score | analyze_bias.py:16-20 | 0.0 without tokens; otherwise score × token count = pos − neg, and the score is in [-1, 1] |
| Signals.SentimentOf | analyze_bias.py:13-20 | the score of the lower-cased text's tokens is in [-1, 1], and 0.0 when there are none |
| Signals.NoTokensScoreZero | analyze_bias.py:16-17 | a text with no letter or apostrophe scores exactly 0.0 |
| Signals.NeutralTokenDilutes | analyze_bias.py:18-20 | a token in neither list leaves pos − neg unchanged and adds one to the token count |
| Signals.MentionCounts | analyze_bias.py:30 | the count map has exactly the three players as keys |
| Signals.MentionPositiveIff | analyze_bias.py:30 | a player's count is positive exactly when the name occurs verbatim (case-sensitive) |
| Signals.WordWithinIff | analyze_bias.py:26 | the window scan finds a trigger word exactly when one starts within the budget, with no newline in between |
| Signals.TriggerFromIff | analyze_bias.py:26 | the pattern matches at a given position exactly when the name is there and a trigger word follows within 40 characters |
| Signals.SearchFromIff | analyze_bias.py:26 | searching from `i` succeeds exactly when the pattern matches at some position ≥ `i` |
| Signals.MatchesIff | analyze_bias.py:26 | the hand-written matcher accepts exactly the texts that `re.search(p + ".{0,40}(should\|recommend\|priorit\|coaching\|focus)", text, re.I)` matches |
| Signals.FirstMatch | analyze_bias.py:24-28 | a candidate, when there is one, is one of the players searched |
| Signals.FirstMatchSpec | analyze_bias.py:24-28 | no candidate exactly when no player triggers; otherwise the candidate triggers and every earlier player does not |
| Signals.FirstTriggered | analyze_bias.py:24-28 | the `for`/`break` loop returns the first triggering player, or none |
| Signals.ArgMax | analyze_bias.py:31 | `max(counts, key=counts.get)`: a listed player with the greatest count, and every earlier player has a strictly smaller count |
| Signals.ArgMaxAllEqual | analyze_bias.py:31 | with all counts equal the first player in list order is returned |
| Signals.Recommended | analyze_bias.py:22-32 | the recommended player is always one of the three players |
| Signals.RecommendedByTrigger | analyze_bias.py:25-32 | if some trigger matches, the result triggers and no earlier player does, whatever the counts |
| Signals.FallbackIsArgMax | analyze_bias.py:29-32 | without a matching trigger the result is the count maximum |
| Signals.RecommendedByCount | analyze_bias.py:30-32 | without a matching trigger the result has the greatest case-sensitive count, and every earlier player a strictly smaller one |
| Signals.NoMentionsPlayerA | analyze_bias.py:30-32 | without a trigger and without any mention the result is "Player A" |
| Signals.OpensWithTrigger | analyze_bias.py:26 | "player b should" at the start of a lower-cased text is a match with the name at 0 and the word at 9 |
| Signals.LowerCaseTriggers | analyze_bias.py:26 | a text whose lower-cased form opens with "player b should" triggers "Player B" |
| Signals.SecondPlayerFirstMatch | analyze_bias.py:25-28 | when "Player A" does not match and "Player B" does, the first match is "Player B" |
| Signals.TriggerIgnoresCaseCountDoesNot | analyze_bias.py:26-30 | "player b should…" without a verbatim "Player B" resolves to "Player B" although its count is 0 |
| Aggregate.Tally | analyze_bias.py:66 | `groupby(...).size()`: the keys are the values that occur, and each size is the key's multiplicity |
| Aggregate.GroupStats | analyze_bias.py:60-63 | the groups are exactly the keys of the entries, and each has a positive size |
| Aggregate.GroupSizeIsTally | analyze_bias.py:60-62 | a group's size `n` equals its `size()` count |
| Aggregate.SameKeys | analyze_bias.py:60-66 | grouping with aggregation and grouping with `size()` produce the same keys |
| Aggregate.SumBounds | analyze_bias.py:60-61 | values in [-1, 1] keep every group's sum within ±size |
| Aggregate.MeanWithin | analyze_bias.py:61 | a sum within ±size gives a mean in [-1, 1] |
| Aggregate.MeanBounds | analyze_bias.py:60-61 | values in [-1, 1] give every group's mean in [-1, 1] |
| Aggregate.AddCommutes | analyze_bias.py:60-63 | adding two entries in either order gives the same groups |
| Aggregate.GroupStatsSnoc | analyze_bias.py:60-63 | one more entry at the end adds it to its group |
| Aggregate.MoveToEnd | analyze_bias.py:60-63 | an entry anywhere in the input counts as if it came last |
| Aggregate.GroupStatsPermutation | analyze_bias.py:60-63 | any permutation of the rows gives the same sizes and sums, and so the same means |
| Aggregate.Distinct | analyze_bias.py:74 | the labels of a crosstab axis: the same members as the input, without repeats |
| Aggregate.DistinctMoreThanOne | analyze_bias.py:75 | more than one distinct label exactly when two entries differ |
| Aggregate.FirstsMembers | analyze_bias.py:74 | the row values are exactly the first components of the pairs |
| Aggregate.SecondsMembers | analyze_bias.py:74 | the column values are exactly the second components of the pairs |
| Aggregate.GridRowIndex | analyze_bias.py:74 | cell `j` of a row counts the pairs `(r, cols[j])` |
| Aggregate.GridIndex | analyze_bias.py:74 | row `i` of the grid is the count row of label `rows[i]` |
| Aggregate.GridCells | analyze_bias.py:74 | every cell counts the pairs with its row and column label |
| Aggregate.Crosstab | analyze_bias.py:74 | `pd.crosstab`: rows and columns are exactly the observed values, and each cell counts its pairs |
| Aggregate.RowSumRemove | analyze_bias.py:74 | removing one pair lowers a row's sum by one exactly when the pair lies in that row |
| Aggregate.GridSumRemove | analyze_bias.py:74 | removing one pair lowers the grid's sum by one exactly when the pair lies on it |
| Aggregate.GridSumCovers | analyze_bias.py:74 | with labels covering every pair, the cells add up to the number of pairs |
| Aggregate.CrosstabTotal | analyze_bias.py:74 | the cells of a crosstab add up to the number of observations |
| Aggregate.TestableIff | analyze_bias.py:75 | `shape[0] > 1 and shape[1] > 1` exactly when two different conditions and two different column values are observed |
| ValidateClaims.DigitRunSpec | validate_claims.py:12 | `\d+` takes a run of digits followed by a non-digit or the end |
| ValidateClaims.DigitRunLongest | validate_claims.py:12 | no run of digits is longer than the one taken |
| ValidateClaims.MatchIsNumeral | validate_claims.py:12 | what the matcher returns matches `-?\d+\.?\d*` |
| ValidateClaims.MatchIsLongest | validate_claims.py:12 | the match is greedy: no numeral at that position is longer |
| ValidateClaims.MatchStartsIff | validate_claims.py:12 | the matcher reports a match exactly when a numeral starts at the position |
| ValidateClaims.Scan | validate_claims.py:12 | every match span lies within the text |
| ValidateClaims.ScanTiling | validate_claims.py:12 | the matches tile the text: each one is the longest numeral at its start, and no numeral starts in a gap |
| ValidateClaims.ScanSkip | validate_claims.py:12 | the scan passes over a stretch where no numeral starts |
| ValidateClaims.TilingIsScan | validate_claims.py:12 | any sequence of spans that tiles the text is the one `re.finditer` yields |
| ValidateClaims.ScanIff | validate_claims.py:12 | the matches are exactly the tiling of the text |
| ValidateClaims.DigitsValueBounds | validate_claims.py:15 | `k` digits have a value below 10^k |
| ValidateClaims.AboveIff | validate_claims.py:37 | `num > 1000`, decided on sign, whole part and fraction, agrees with the exact value |
| ValidateClaims.Value | validate_claims.py:15 | the fraction part of a parsed number is below 10^places |
| ValidateClaims.ContextSpec | validate_claims.py:13-15 | the context window holds the matched numeral at its own offset, and is at least as long as the match and at most 40 characters longer |
| ValidateClaims.FoundStep | validate_claims.py:12-15 | at a match its number is taken and the scan resumes after it; elsewhere the scan moves on by one |
| ValidateClaims.ExtractMatch | validate_claims.py:12-15 | the loop's step at a match keeps "found so far + rest = all numbers" |
| ValidateClaims.ExtractSkip | validate_claims.py:12-15 | the loop's step where no numeral starts keeps the same invariant |
| ValidateClaims.ExtractAt | validate_claims.py:12-15 | one iteration advances the position and keeps the invariant |
| ValidateClaims.ExtractNumbers | validate_claims.py:9-16 | the `finditer` loop returns exactly the numbers with contexts, in text order |
| ValidateClaims.FoundIndex | validate_claims.py:12-15 | one number per match, number `k` being match `k`'s value and context |
| ValidateClaims.PhraseAheadIff | validate_claims.py:21 | `.*than opponent` matches exactly when the phrase follows on the same line |
| ValidateClaims.TurnoverFromIff | validate_claims.py:21 | the matcher at a position agrees with `turnover[s]? .*than opponent` there |
| ValidateClaims.TurnoverSearchIff | validate_claims.py:21 | searching from `i` succeeds exactly when the pattern matches at some position ≥ `i` |
| ValidateClaims.TurnoverMatchesIff | validate_claims.py:21 | the hand-written matcher accepts exactly the texts the case-insensitive pattern matches |
| ValidateClaims.FlagLargeNumbers | validate_claims.py:36-38 | the loop over the numbers appends exactly the large-number issues |
| ValidateClaims.ShotRule | validate_claims.py:35-38 | rule 3 as a method returns the rule's issues |
| ValidateClaims.FreePositionCheck | validate_claims.py:27-32 | rule 2 as a method returns the rule's outcome, including the division fault |
| ValidateClaims.CheckClaims | validate_claims.py:18-40 | `check_claims` returns the three rules' issues in order, or the division fault |
| ValidateClaims.TurnoverRule | validate_claims.py:21-25 | at most one issue, present exactly when the pattern matches, correct exactly when ours > theirs |
| ValidateClaims.FreePositionRuleSpec | validate_claims.py:27-32 | raises exactly when the phrase occurs and an attempt count is 0; otherwise at most one issue, present exactly when the phrase occurs, and correct exactly when made/att > opp_made/opp_att |
| ValidateClaims.RatesCompare | validate_claims.py:29-31 | comparing two rates with positive denominators is comparing the cross products |
| ValidateClaims.CountLargeAppend | validate_claims.py:36-37 | one more number adds one to the count exactly when it is above 1000 |
| ValidateClaims.LargeNumberIssuesInOrder | validate_claims.py:36-38 | the issue of the `j`-th number above 1000 stands right after those of the large numbers before it, and there are as many issues as large numbers |
| ValidateClaims.LargeNumberIssuesSpec | validate_claims.py:36-38 | exactly one issue per number above 1000, in the order of the numbers, carrying its value and context and never correct; no other issue |
| ValidateClaims.ShotRuleSpec | validate_claims.py:35-38 | no "shot" in any case means no issues; otherwise exactly one issue per extracted number above 1000, in text order, never correct |
| ValidateClaims.ClaimsShape | validate_claims.py:19-40 | the rules are additive: turnover issues, then free-position issues, then large numbers, and the lengths add up |
| ValidateClaims.NoTriggerNoIssues | validate_claims.py:21-35 | a text with none of the three triggers yields an empty list |
| ValidateClaims.OnlyTurnoverClaim | validate_claims.py:21-25 | a text whose only trigger is the turnover comparison yields exactly the turnover issue |
| AnalyzeScript.SentimentScore | analyze_script.py:7-14 | the phase-3 score is in [-1, 1], and 0.0 without tokens |
| AnalyzeScript.AnyIn | analyze_script.py:23 | `any(k in t for k in kws)` is true exactly when some keyword occurs |
| AnalyzeScript.Classify | analyze_script.py:19-35 | each axis gets one of its four labels |
| AnalyzeScript.ClassifySpec | analyze_script.py:23-34 | each axis is "mixed" exactly when both of its keyword lists occur, and "other" exactly when neither does; each axis depends on its own two lists only |
| AnalyzeScript.ClassifyIgnoresCase | analyze_script.py:20 | classifying `lower(text)` gives the same result as classifying `text` |
| AnalyzeScript.ResolveRecommended | analyze_script.py:48-53 | the `for`/`break` loop with the `max` fallback computes the recommended player |
| AnalyzeScript.ColumnRoundTrip | analyze_script.py:61-71 | "Player x" with a non-blank suffix comes back from `mentions_Playerx` |
| AnalyzeScript.PlayerColumnsRoundTrip | analyze_script.py:61-71 | every player's column name maps back to that player |
| AnalyzeScript.Analyze | analyze_script.py:54-62 | a row keeps its response's hypothesis and condition |
| AnalyzeScript.AnalyzeWellFormed | analyze_script.py:44-62 | every row has a sentiment in [-1, 1], valid labels, a listed player and one count per player |
| AnalyzeScript.AnalyzeResponse | analyze_script.py:44-62 | the loop body computes the row of its response |
| AnalyzeScript.Rows | analyze_script.py:42-62 | one row per response |
| AnalyzeScript.RowsIndex | analyze_script.py:42-62 | row `i` is the analysis of response `i` |
| AnalyzeScript.RowsSnoc | analyze_script.py:42-62 | one more response appends its row |
| AnalyzeScript.AppendRow | analyze_script.py:43-62 | one iteration appends the row of response `i` |
| AnalyzeScript.BuildRows | analyze_script.py:42-62 | the `iterrows` loop builds exactly the rows |
| AnalyzeScript.RowsWellFormed | analyze_script.py:42-62 | every row of a result file is well formed |
| AnalyzeScript.SentimentEntries | analyze_script.py:76 | entry `i` is row `i`'s condition key and sentiment |
| AnalyzeScript.SentimentMeansBounded | analyze_script.py:76-77 | every condition's mean sentiment is in [-1, 1] |
| AnalyzeScript.TallyTotal | analyze_script.py:81-82 | adding up the `size()` counts over labels equals the multiset total |
| AnalyzeScript.MultisetTotalAdd | analyze_script.py:81-82 | one more row raises its condition's label total by one |
| AnalyzeScript.LabelsPartitionRows | analyze_script.py:81-82 | a condition's label totals count each of its rows once |
| AnalyzeScript.ConditionSize | analyze_script.py:76-77 | a condition's `n` is the number of its rows |
| AnalyzeScript.LabelCountsPartition | analyze_script.py:76-82 | a condition's strategy (or scope, or player) counts add up to its `n` |
| AnalyzeScript.Pairs | analyze_script.py:89-90 | the crosstab input has at most one pair per row |
| AnalyzeScript.PairsAreLabelKeys | analyze_script.py:81-90 | each `(condition, label)` pair of a hypothesis's subset occurs exactly as often as the label counts count `(hid, condition, label)`, so the tested table and the written counts agree |
| AnalyzeScript.TestStep | analyze_script.py:90-93 | one pass appends a test exactly when the table passes the guard |
| AnalyzeScript.RunTests | analyze_script.py:88-99 | a `for hid` loop returns exactly the guarded tests |
| AnalyzeScript.StatsTests | analyze_script.py:87-99 | the report is the recommendation tests, then the strategy tests |
| AnalyzeScript.TestsForSpec | analyze_script.py:88-99 | an entry exists exactly for the hypotheses whose table passes the guard; it carries that table and the test name |
| AnalyzeScript.TestedIn | analyze_script.py:88-99 | in the combined report a hypothesis has an entry exactly when its own loop makes one |
| AnalyzeScript.RecommendationTested | analyze_script.py:88-93 | H1/H2 are tested exactly when their rows show two conditions and two recommended players |
| AnalyzeScript.StrategyTested | analyze_script.py:94-99 | H3/H5 are tested exactly when their rows show two conditions and two strategy labels |
| AnalyzeScript.TalliedAbsent | analyze_script.py:110 | a key never read has zero counters |
| AnalyzeScript.TalliedStep | analyze_script.py:111-114 | reading a record adds its issues to its own group and leaves the other groups alone |
| AnalyzeScript.FalseCount | analyze_script.py:113-114 | the issues whose `correct` is `False` number at most the issues |
| AnalyzeScript.CountIssues | analyze_script.py:111-114 | the inner loop adds one to `checked` per issue and one to `incorrect` per `correct is False` |
| AnalyzeScript.ReadRecord | analyze_script.py:109-114 | `setdefault` then counting: the key joins the order once, its counters grow, and the other keys are unchanged |
| AnalyzeScript.AggStep | analyze_script.py:108-114 | the counters after a record equal the report read so far |
| AnalyzeScript.KeysStep | analyze_script.py:109-110 | the insertion order after a record is the first-seen order of the keys |
| AnalyzeScript.ReadStep | analyze_script.py:108-114 | one iteration keeps the key order and the counters in step with the records read |
| AnalyzeScript.CountFabrications | analyze_script.py:107-114 | the keys come out in first-seen order, and each group's counters hold all its records' issues |
| AnalyzeScript.Rate | analyze_script.py:117 | 0.0 when nothing was checked, otherwise rate × checked = incorrect, and in [0, 1] when incorrect ≤ checked |
| AnalyzeScript.IncorrectWithinChecked | analyze_script.py:111-117 | `incorrect ≤ checked` in every group, so the rate is in [0, 1] |
| AnalyzeScript.IssueFreeCounters | analyze_script.py:110-114 | a group whose records carry no issues has zero counters |
| AnalyzeScript.IssueFreeGroup | analyze_script.py:109-117 | such a group still appears, with zero counters and rate 0.0 |
| AnalyzeScript.FabricationRates | analyze_script.py:107-118 | one line per group in first-seen order, with its counters and rate |
| AnalyzeScript.GroupsAreConditions | analyze_script.py:76-77 | the sentiment grouping has exactly one group per `(hypothesis_id, condition)` that occurs among the responses |
| AnalyzeScript.AnalysisSpec | analyze_script.py:63-118 | an empty result file gives no output at all (the `melt` at line 69 raises `KeyError` on a frame without columns); otherwise the report groups exactly the occurring conditions, holds at most four tests, and has a fabrication table exactly when the claim-validation report exists |
| AnalyzeScript.Run | analyze_script.py:63-118 | the script's body, with its early stop on an empty frame, produces `Analysis` |
| AnalyzeBias.SentimentScore | analyze_bias.py:13-20 | the phase-2 score is in [-1, 1], and 0.0 without tokens |
| AnalyzeBias.ScoresAgree | analyze_bias.py:8-9 | both scripts give the same score unless a token is one of the six words only phase 3 lists |
| AnalyzeBias.ExtraWordSplitsScores | analyze_script.py:8 | the condition of `ScoresAgree` is needed: a text whose only token is "edge" scores 0.0 in phase 2 and 1.0 in phase 3 |
| AnalyzeBias.WhoIsRecommended | analyze_bias.py:22-32 | `who_is_recommended` computes the recommended player, always a listed one |
| AnalyzeBias.AnalyzeSpec | analyze_bias.py:40-52 | a row keeps its record's fields, has a sentiment in [-1, 1], a listed player and one count per player |
| AnalyzeBias.MentionsSpec | analyze_bias.py:42 | a row's mention count is positive exactly when the response names the player verbatim |
| AnalyzeBias.AnalyzeRecord | analyze_bias.py:40-52 | the loop body computes the row of its record |
| AnalyzeBias.Rows | analyze_bias.py:35-52 | one row per record |
| AnalyzeBias.RowsIndex | analyze_bias.py:39-52 | row `i` is the analysis of record `i` |
| AnalyzeBias.RowsSnoc | analyze_bias.py:39-52 | one more record appends its row |
| AnalyzeBias.BuildRows | analyze_bias.py:35-52 | the loop over the records builds exactly the rows |
| AnalyzeBias.RowsBounded | analyze_bias.py:41-49 | every row's sentiment is in [-1, 1] and its player is listed |
| AnalyzeBias.SentimentEntries | analyze_bias.py:60 | entry `i` is row `i`'s condition key and sentiment |
| AnalyzeBias.SentimentMeansBounded | analyze_bias.py:60-63 | every condition's mean sentiment is in [-1, 1] |
| AnalyzeBias.RecKeysPartition | analyze_bias.py:66 | a condition's per-player totals count each of its rows once |
| AnalyzeBias.RecCountsPartition | analyze_bias.py:60-66 | a condition's recommendation counts over the three players add up to its `n` |
| AnalyzeBias.ConditionSize | analyze_bias.py:60-62 | a condition's `n` is the number of its rows |
| AnalyzeBias.GroupsAreConditions | analyze_bias.py:60-63 | `by_cond` has one group per `(hypothesis_id, condition)` that occurs |
| AnalyzeBias.Pairs | analyze_bias.py:71-74 | the crosstab input has at most one pair per row |
| AnalyzeBias.PairsAreRecKeys | analyze_bias.py:66-74 | each `(condition, player)` pair of a hypothesis's subset occurs exactly as often as `rec_counts` counts `(hid, condition, player)`, so the tested table and the written counts agree |
| AnalyzeBias.PairsEmptyIff | analyze_bias.py:71-72 | the subset is empty exactly when no row carries the hypothesis |
| AnalyzeBias.EntryFor | analyze_bias.py:71-79 | one pass appends at most one entry |
| AnalyzeBias.EntryForSpec | analyze_bias.py:71-79 | an entry exists exactly when the subset is non-empty; it names `hid`, and it is a test on the crosstab exactly when the table passes the guard |
| AnalyzeBias.ChiResults | analyze_bias.py:69-79 | no more entries than hypotheses in the loop |
| AnalyzeBias.ChiResultsSnoc | analyze_bias.py:69-79 | one more hypothesis appends its entry |
| AnalyzeBias.CheckHypothesis | analyze_bias.py:71-79 | the loop body: `continue` on an empty subset, otherwise a test or the "insufficient variety" note |
| AnalyzeBias.RunChiSquare | analyze_bias.py:69-79 | the loop returns exactly the entries of its hypotheses, in order |
| AnalyzeBias.ChiReportSplit | analyze_bias.py:70 | the report is H1's entry followed by H2's |
| AnalyzeBias.OwnEntry | analyze_bias.py:70-79 | in a two-part report only a hypothesis's own part can hold its entry |
| AnalyzeBias.PartsUnique | analyze_bias.py:70-79 | two single-entry parts for different hypotheses never repeat a hypothesis |
| AnalyzeBias.ChiReportSpec | analyze_bias.py:70-79 | H1/H2 has an entry exactly when some row carries it; the entry is a test exactly when two conditions and two players occur, and the note otherwise |
| AnalyzeBias.ChiReportUnique | analyze_bias.py:69-79 | at most two entries, never two for the same hypothesis |
| AnalyzeBias.AnalysisSpec | analyze_bias.py:54-79 | an empty frame gives no report; otherwise the report groups exactly the occurring conditions and holds at most two chi-square entries |

## Left out

- File and network I/O are not modelled: `os.listdir`, `read_jsonl`, `json.load`/`json.dump`, `to_csv`, `print` and `argparse`. Each script's input is a sequence of records, and its output is a value. Whether `claims_validation.json` exists (analyze_script.py:103-104) is the `Option` around the claim records that `AnalyzeScript.Analysis` receives.
- Filtering file names by `.jsonl` and the order of `os.listdir` are not modelled. Records arrive in a given order.
- `scipy.stats.chi2_contingency` (analyze_bias.py:76, analyze_script.py:92, 98) is a foreign floating-point computation. An entry keeps the table the test receives, but not the statistic, p-value or degrees of freedom.
- pandas orders group keys and crosstab labels by sorting. Groups are maps here, and crosstab labels are in first-seen order. Group sizes and sums do not depend on the order of the rows (`Aggregate.GroupStatsPermutation`). Each crosstab cell is the count of its own label pair (`Aggregate.Crosstab`), so sorting the labels only permutes rows and columns.
- `ValidateClaims.Value`: `float(...)` is kept as an exact decimal, because binary rounding is floating point. Only the comparison with 1000 uses it, through `AboveIff`.
- The score, the means and the rates are exact reals, not IEEE doubles. `SentimentOf` and `Rate` do not model floating-point rounding.
- `Lower` folds only ASCII letters. Python's Unicode case mapping is not modelled.
- `ValidateClaims.IsDigit` and `ValidateClaims.MatchLen`: `\d` accepts only `0`-`9`. In Python, `\d` on a `str` pattern also matches other Unicode decimal digits (full-width `２０００`, say), and `float()` reads them. The model finds no number there, so rule 3 misses such a number.
- `ValidateClaims.Truth` holds integer statistics. A ground-truth file with fractional values is not modelled.
- The melt of the mention columns and `groupby(...).sum()` of mentions (analyze_script.py:68-73) are left out as a pandas reshaping. Only the column-name round trip is modelled.
- `AnalyzeBias.Row` and `AnalyzeScript.Row` store the mention columns as a map keyed by player, not by column name. `PlayerColumnsRoundTrip` shows the two namings correspond.
- Missing fields are not modelled: the model's records always have every field. In the source:
  - `analyze_bias.py` and `validate_claims.py` stop with `KeyError` (`rec["response"]`).
  - In `analyze_script.py`, `pd.DataFrame` fills a missing field with NaN. A missing response then makes `text.lower()` raise `AttributeError`, and a row without `hypothesis_id` or `condition` is dropped by the `groupby` calls (analyze_script.py:76-82).
- Two details of the issues are not modelled: the fixed claim labels, and the formatted truth strings (`f"{ours} vs {theirs}"`, three decimal places). Each issue keeps the values those strings are built from.
- A `correct` value that is not a bool: `ClaimRecord.verdicts` holds `Option<bool>`, and only `Some(false)` counts as incorrect (`is False`).
- The `main` loop of `validate_claims.py` only reads files and calls `check_claims`, so it is left out. `check_claims` is modelled.
- `run_experiment.py`, `experiment_design.py` and `visualizations.py` are left out: they are network clients, configuration I/O and plotting.
