# Course-outline evaluator: a verified model of the scoring core

The evaluator grades a course outline written as plain text. The outline has numbered
section headers (`1. Title`) and `- topic` bullet lines. A reference outline may be given
to compare against. The evaluator parses the text into an ordered map from section title
to topic list, then computes two kinds of metric:

- independent metrics: semantic coherence inside sections and structural balance across
  sections;
- reference metrics: topic flow, sequence coverage, graph coverage, redundancy, relevance
  and the extra-topics penalty.

It then aggregates everything into a final score, resolves advice thresholds and chooses
the advice messages.

This project models that scoring core in Dafny, one module per concern:

| module | file | what it models |
|---|---|---|
| `Common` | common.dfy | Option/Result, flattening section lists, sums and means of reals, and the numeric collaborators (`Oracle`) |
| `Parsing` | parsing.dfy | `parse_course_structure`: Python's `strip`/`split`, the header regex and the line scanner |
| `Thresholds` | thresholds.dfy | `DEFAULT_THRESHOLDS` and `resolve_thresholds` |
| `TopicFlow` | topic_flow.dfy | `topic_flow_score` and its inner `kendall_tau_distance` |
| `TopicGraph` | topic_graph.dfy | `build_topic_graph`, `semantic_node_mapping` and `graph_based_coverage` |
| `Coverage` | coverage.dfy | `sequence_based_coverage`, `relevance_score` and `extra_topics_penalty` |
| `Redundancy` | redundancy.dfy | `redundancy_score` |
| `MetricsIndependent` | independent.dfy | `revised_semantic_coherence` and `structural_balance` |
| `Advice` | advice.dfy | `generate_advice` |
| `Evaluation` | evaluation.dfy | `compute_structural_scores`, `compute_coverage_scores`, `compute_relevance_scores`, `compute_final_score` and `evaluate_course` |

Code that loops and updates state in the source is an imperative `method`. Each such
method is proved equal to a specification function, and the properties are proved about
that function. This covers:

- the parser loop;
- the inversion count;
- graph construction and the node mapping;
- the redundancy pair loop;
- the coherence score list;
- the advice list;
- the evaluation driver.

Pure code is modelled as functions: the threshold merge, the ratio metrics, balance and
the final score.

The embedding model is not modelled. Wherever the source embeds topics and compares them,
the model takes a similarity function `(string, string) -> real` as a parameter.
`Common.Oracle` bundles that cosine similarity with three other functions:

- the inner product used for coherence;
- a square root, which `np.std` needs;
- the power `x ** 0.8`.

`Oracle.Sound()` states the only facts the proofs use about them:

- `sqrt` is a square root on the non-negative reals;
- `pow08(0) = 0`, and `pow08` is positive on positive arguments.

A Python exception becomes a `Failure` carrying a `Common.Fault`.

### Where the code differs from its design notes

The model follows the code wherever the two disagree:

- `coverage_score` is not clamped at 0, so the final score can be negative
  (`Evaluation.CoverageScoreUnclamped`, `Evaluation.ReferenceReportBounds`).
- Without a present reference, the redundancy and extra-topics fields are `0.0`. Redundancy
  is only computed when a reference is present.
- `generate_advice` is documented as never raising. It does raise:
  - `KeyError` when a threshold key is missing;
  - `TypeError` when a compared field is null.

  The model returns `Failure(MissingThreshold(key))` and `Failure(Incomparable(key))` for
  these. `Advice.AdviceTotal` states when neither can happen.
- `extra_topics_penalty` does not guard an empty reference list. With a non-empty course it
  embeds an empty list, and the similarity step on that empty reference embedding raises. So
  `evaluate_course` fails when the reference text is non-blank but holds no topic line
  (`Evaluation.EvaluateFailure`).
- `structural_balance` with two or more sections that are all empty computes `0/0 = nan`,
  and `max(0, nan)` is `0`. The model returns `0.0` explicitly
  (`MetricsIndependent.AllEmptyUnbalanced`).
- Sequence coverage divides by the number of reference topics. Relevance and extra topics
  divide by the number of distinct course topics.
- The reference position map keeps the last index of a duplicated reference topic.
- Graph coverage maps nodes with threshold 0.75, not the mapping function's default 0.8.
- `compute_structural_scores` tests the reference with `if reference_text`, while
  `evaluate_course` tests `reference_text.strip()`. Both tests are modelled: `Evaluation.Given`
  and `Evaluation.Present`. A blank reference still yields a topic flow of 0.0
  (`Evaluation.NoFlowWithoutReference`).

## Model

| member | source | states |
|---|---|---|
| Parsing.Strip | metrics/parsing.py:7-8 | `str.strip()`: the result has no leading or trailing whitespace and is no longer than the input |
| Parsing.StripIsInfix | metrics/parsing.py:7-8 | the stripped string is a contiguous piece of the input, and everything cut off on either side is whitespace |
| Parsing.StripKeepsNonSpace | metrics/parsing.py:8 | a string with any non-whitespace character strips to a non-empty string |
| Parsing.StripOfSpaces | metrics/parsing.py:7 | an all-whitespace string strips to the empty string |
| Parsing.StripKeepsOut | metrics/parsing.py:7-8 | stripping introduces no new character, so a line without a newline keeps none |
| Parsing.Split | metrics/parsing.py:7 | `split("\n")` yields at least one part, and no part contains the separator |
| Parsing.JoinSplit | metrics/parsing.py:7 | joining the parts of `split` with the separator gives back the original text |
| Parsing.Lines | metrics/parsing.py:7 | the lines of the stripped text contain no newline |
| Parsing.LeadingDigits | metrics/parsing.py:8 | the length of the maximal run of digits that `(\d+)` matches |
| Parsing.UpToNewline | metrics/parsing.py:8 | what `(.+)` can reach: the longest prefix without a newline, followed by a newline or the end |
| Parsing.HeaderGroup | metrics/parsing.py:8 | the header test: a captured title is non-empty, has no newline and leaves room for at least a digit, `.` and a whitespace character, and a matching line starts with a digit |
| Parsing.HeaderGroupSound | metrics/parsing.py:8 | when the header test succeeds, the line is digits, `.`, one whitespace character and the returned non-empty group |
| Parsing.HeaderGroupComplete | metrics/parsing.py:8 | any split of the line as digits, `.`, whitespace and a group makes the header test return exactly that group |
| Parsing.HeaderGroupMatches | metrics/parsing.py:8 | the header test returns `g` if and only if `^(\d+)\.\s(.+)` matches the line with second group `g` |
| Parsing.Classify | metrics/parsing.py:8-14 | the header test takes priority over the bullet test; a header's title and a bullet's topic are non-empty and trimmed |
| Parsing.HeaderTitleNonEmpty | metrics/parsing.py:8-10 | the trimmed title of a matched header line is non-empty |
| Parsing.BulletTopicNonEmpty | metrics/parsing.py:13-14 | the trimmed remainder of a stripped `- ` line is non-empty |
| Parsing.Assign | metrics/parsing.py:11-12 | assigning a section keeps the ordered mapping well formed: every key appears once, in insertion order |
| Parsing.AppendTopic | metrics/parsing.py:15 | appending a topic to an existing section keeps the mapping well formed |
| Parsing.KindsAt | metrics/parsing.py:7-8 | the classification of line k is the classification of that line alone |
| Parsing.KindsOfText | metrics/parsing.py:7-14 | every header and bullet classified from the text carries a non-empty, trimmed string |
| Parsing.Step | metrics/parsing.py:8-15 | one loop iteration keeps the scanner state well formed |
| Parsing.ScanAppend | metrics/parsing.py:7-15 | scanning one more line is one more loop step on the earlier state |
| Parsing.Parse | metrics/parsing.py:3-17 | the parsed mapping is well formed |
| Parsing.ParseCourseStructure | metrics/parsing.py:3-17 | the loop computes `Parse(text)`; every title and topic is non-empty and trimmed; the total topic count is at most the number of lines |
| Parsing.ScanLoop | metrics/parsing.py:7-15 | the `for` loop over lines, with `structure` and `current_section` updated in place, ends in the state of the scan specification |
| Parsing.ScanLine | metrics/parsing.py:8-15 | the body of the loop for one line updates titles, sections and the current section exactly as one step of the scan specification on that line's classification |
| Parsing.ParseBlank | metrics/parsing.py:7-17 | blank or empty text parses to the empty mapping |
| Parsing.StepKeepsTrimmed | metrics/parsing.py:8-15 | a loop step stores only non-empty, trimmed titles and topics |
| Parsing.HeaderKeepsTrimmed | metrics/parsing.py:9-12 | a header step stores only a non-empty, trimmed title |
| Parsing.BulletKeepsTrimmed | metrics/parsing.py:13-15 | a bullet step stores only a non-empty, trimmed topic |
| Parsing.ParsedEntriesTrimmed | metrics/parsing.py:8-15 | after any sequence of lines, every stored title and topic is non-empty and trimmed |
| Parsing.ParseTitles | metrics/parsing.py:9-12 | the section keys are the header titles in order of first appearance; a repeated title keeps its original position |
| Parsing.LastHeader | metrics/parsing.py:11-12 | the position of the last header with a given title, or none if no such header exists |
| Parsing.LastHeaderIndex | metrics/parsing.py:11 | the position of the last header line of any title, or none when there is no header |
| Parsing.BulletsBeforeHeaderAppend | metrics/parsing.py:13-15 | a bullet extends the topics after a header only while no later header has intervened |
| Parsing.CurrentIsLastHeader | metrics/parsing.py:5-11 | the current section is the title of the last header seen, or none before any header |
| Parsing.CurrentSection | metrics/parsing.py:11-13 | the section titled `t` is current exactly when no header follows its last header |
| Parsing.SectionKeys | metrics/parsing.py:9-12 | a title is a key if and only if some header line carries it |
| Parsing.WellFormedPrefix | metrics/parsing.py:7 | a prefix of well-formed classified lines is well formed |
| Parsing.SectionTopics | metrics/parsing.py:11-15 | a section holds exactly the bullets after its last header, in line order, up to the next header; an earlier occurrence of the title is reset |
| Parsing.SectionTopicsStep | metrics/parsing.py:12-15 | one loop step extends a section's topics as that characterisation requires |
| Parsing.TopicCountBound | metrics/parsing.py:7-15 | there are never more topics than lines |
| Parsing.FlattenLengthAppend | metrics/parsing.py:15 | adding a topic list to the sections adds its length to the topic count |
| Parsing.ValuesUpdateOutside | metrics/parsing.py:12 | assigning a key that is not yet a section leaves the values of the existing sections unchanged |
| Parsing.ValuesUpdateInside | metrics/parsing.py:12-15 | replacing an existing section's topics changes the topic count by the difference in length |
| Thresholds.DefaultsShape | metrics/thresholds.py:1-11 | the defaults have exactly the nine metric keys, each with a value strictly between 0 and 1 |
| Thresholds.ResolveThresholds | metrics/thresholds.py:13-16 | no overrides gives the defaults; otherwise the keys are the defaults' plus the overrides' (unknown keys kept), overrides win, and other defaults keep their value |
| Thresholds.ResolveEmpty | metrics/thresholds.py:13-16 | an empty override dict resolves to the same table as no overrides |
| Thresholds.ResolveIdempotent | metrics/thresholds.py:13-16 | resolving an already resolved table changes nothing |
| TopicFlow.Filter | metrics/metrics_reference.py:11-12 | the course topics kept are exactly those that occur in the reference order, and no more than there were |
| TopicFlow.PositionMap | metrics/metrics_reference.py:17 | each reference topic maps to the last index where it occurs |
| TopicFlow.Positions | metrics/metrics_reference.py:18 | the index sequence lists the reference position of each kept course topic, in course order |
| TopicFlow.IndexOf | metrics/metrics_reference.py:32 | `list.index`: the first position of an element that occurs |
| TopicFlow.KendallTauDistance | metrics/metrics_reference.py:23-29 | the nested loops count the pairs `i < j` with `seq1[i] > seq1[j]`; the second argument is ignored |
| TopicFlow.RowCountBound | metrics/metrics_reference.py:26-28 | one row of the inner loop counts at most the pairs it visits |
| TopicFlow.RowsBeforeBound | metrics/metrics_reference.py:25-28 | the first r rows count at most the pairs they visit |
| TopicFlow.InversionsBound | metrics/metrics_reference.py:23-33 | the inversion count is at most `n(n-1)/2` |
| TopicFlow.RowCountZero | metrics/metrics_reference.py:26-28 | a row counts nothing exactly when its element is at most every later element |
| TopicFlow.RowsBeforeZero | metrics/metrics_reference.py:25-28 | the first r rows count nothing exactly when their elements are at most every later element |
| TopicFlow.InversionsZeroIffSorted | metrics/metrics_reference.py:23-29 | the inversion count is 0 if and only if the sequence is non-decreasing |
| TopicFlow.TopicFlowScore | metrics/metrics_reference.py:10-35 | the score is the flow of the flattened course topics against the reference order, and lies in [0, 1] |
| TopicFlow.FirstReferenceTopic | metrics/metrics_reference.py:12-32 | if some course topic at index j is in the reference, the first kept topic occurs at or before j |
| TopicFlow.IndexOfPrefix | metrics/metrics_reference.py:32 | the first index of an element in a prefix is its first index in the whole list |
| TopicFlow.FirstReferenceTopicIsFirst | metrics/metrics_reference.py:32 | the position penalty's index is that of the first course topic occurring in the reference |
| TopicFlow.RatioBounds | metrics/metrics_reference.py:31-35 | with a penalty in [0, 1) and at most the maximal inversions, the score lies in [0, 1] |
| TopicFlow.RatioPerfect | metrics/metrics_reference.py:31-35 | no inversions and no leading unmatched topic give 1 |
| TopicFlow.FlowBounds | metrics/metrics_reference.py:10-35 | topic flow lies in [0, 1] for all inputs |
| TopicFlow.FlowDisjoint | metrics/metrics_reference.py:11-15 | when no course topic occurs in the reference order, the flow is 0 |
| TopicFlow.FlowInOrder | metrics/metrics_reference.py:23-35 | a course starting with a reference topic whose reference positions never decrease scores 1 |
| TopicGraph.AddNodes | metrics/metrics_reference.py:55-56 | adding topics adds exactly those nodes, and the node list stays duplicate-free |
| TopicGraph.PathEdges | metrics/metrics_reference.py:57-58 | the edges of one section are exactly its consecutive pairs |
| TopicGraph.GraphOf | metrics/metrics_reference.py:52-59 | the graph's node list has no duplicates |
| TopicGraph.BuildTopicGraph | metrics/metrics_reference.py:52-59 | the loops build the graph of the outline's sections |
| TopicGraph.GraphNodes | metrics/metrics_reference.py:52-56 | the nodes are exactly the distinct topics of all sections |
| TopicGraph.GraphEdges | metrics/metrics_reference.py:52-59 | an edge joins two topics if and only if they are adjacent in one section; no edge crosses a section boundary |
| TopicGraph.EdgeEndpoints | metrics/metrics_reference.py:57-58 | an edge has one endpoint (a self-loop from equal neighbours) or two, and its endpoints are nodes |
| TopicGraph.BestMatch | metrics/metrics_reference.py:71-75 | the inner loop finds the strictly greatest similarity, starting from 0.0, and the first reference node reaching it; none if no similarity is positive |
| TopicGraph.MappingOf | metrics/metrics_reference.py:69-78 | a course node is mapped if and only if its best similarity exceeds the threshold, and then to its best match |
| TopicGraph.SemanticNodeMapping | metrics/metrics_reference.py:62-78 | the loop builds the node mapping of the specification, which is empty when either input is empty |
| TopicGraph.MappingTargets | metrics/metrics_reference.py:62-78 | for a non-negative threshold, every mapped node is a course node and maps to some reference node; several may share a target |
| TopicGraph.Targets | metrics/metrics_reference.py:89-90 | the membership test `a in node_map` keeps exactly the nodes with a target |
| TopicGraph.ClampedRatio | metrics/metrics_reference.py:96-102 | the ratio `min(1, matched/total)` lies in [0, 1]; it is 0 for an empty reference graph and 1 when everything is matched |
| TopicGraph.GraphBasedCoverage | metrics/metrics_reference.py:81-102 | graph coverage with the 0.75 mapping threshold, which lies in [0, 1] |
| TopicGraph.CoverageCounts | metrics/metrics_reference.py:85-97 | matched nodes are at most the course nodes, and matched edges at most the reference edges |
| TopicGraph.CoverageNoReferenceTopics | metrics/metrics_reference.py:96-100 | a reference without topics has no nodes and no edges, so coverage is 0 |
| TopicGraph.BestMatchSelf | metrics/metrics_reference.py:71-75 | when each topic is most similar to itself, a topic present in the reference matches itself |
| TopicGraph.SelfMapping | metrics/metrics_reference.py:62-78 | such a similarity maps every node of an outline to itself when the outline is compared with itself |
| TopicGraph.RenameIdentity | metrics/metrics_reference.py:88-91 | renaming edges through an identity mapping leaves them unchanged |
| TopicGraph.IdentityCoverage | metrics/metrics_reference.py:86-102 | with an identity mapping, every node and edge of the graph is matched, so coverage is 1 |
| TopicGraph.SelfCoverage | metrics/metrics_reference.py:81-102 | an outline with topics covers itself completely when each topic is most similar to itself |
| Coverage.MaxSimilarity | metrics/metrics_reference.py:46-47 | the row maximum bounds every similarity of the topic and is attained by one of them |
| Coverage.Share | metrics/metrics_reference.py:49 | `min(1, count/denominator)` lies in [0, 1] and equals the plain ratio when the count does not exceed the denominator |
| Coverage.SequenceCoverage | metrics/metrics_reference.py:38-49 | sequence coverage lies in [0, 1] and is 0 for a course without topics or an empty reference |
| Coverage.Relevance | metrics/metrics_reference.py:133-144 | relevance lies in [0, 1] and is 0 for a course without topics or an empty reference |
| Coverage.ExtraTopics | metrics/metrics_reference.py:147-158 | the penalty is 0 for a course without topics; it fails, with the empty-reference error, exactly for a course with topics against an empty reference; otherwise it lies in [0, 1] |
| Coverage.RelevanceShare | metrics/metrics_reference.py:133-144 | against a non-empty reference, relevance is exactly the share of distinct course topics whose best similarity exceeds 0.7: the clamp never binds |
| Coverage.ExtraTopicsShare | metrics/metrics_reference.py:147-158 | against a non-empty reference, the penalty is exactly the share of distinct course topics whose best similarity is below 0.85: the clamp never binds |
| Coverage.RelevantOrExtra | metrics/metrics_reference.py:133-158 | every distinct topic is relevant or extra, so relevance plus the extra-topics penalty is at least 1 |
| Coverage.AboveMonotone | metrics/metrics_reference.py:141-142 | raising the threshold never makes more topics count as matched |
| Redundancy.Lower | metrics/metrics_reference.py:118 | `str.lower()` changes each character on its own and keeps the length |
| Redundancy.RedundancyScore | metrics/metrics_reference.py:105-130 | the pair loop computes the redundancy of the flattened topics |
| Redundancy.PenaltyPositive | metrics/metrics_reference.py:121-125 | a pair with similarity above 0.8 records a positive penalty |
| Redundancy.PairsFacts | metrics/metrics_reference.py:113-125 | every recorded score is positive; lexical duplicates are at most the recorded pairs; nothing is recorded, or no duplicate counted, exactly when no visited pair qualifies |
| Redundancy.PairsCount | metrics/metrics_reference.py:116 | no more scores are recorded than pairs are visited |
| Redundancy.AllPairsFacts | metrics/metrics_reference.py:113-125 | over all pairs, at most `n(n-1)/2` scores are recorded; they are positive; none is recorded exactly when no pair is a case-insensitive duplicate or more than 0.8 similar |
| Redundancy.RedundancyPositiveIff | metrics/metrics_reference.py:105-130 | redundancy lies in [0, 1] and is positive if and only if some pair is a case-insensitive duplicate or more than 0.8 similar; it is 0 for fewer than two topics |
| Redundancy.RepeatedTopicRedundant | metrics/metrics_reference.py:118-120 | a topic repeated up to case always makes redundancy positive |
| MetricsIndependent.GramRows | metrics/metrics_independent.py:12-13 | the inner-product matrix of a section is square, sized by its topic count |
| MetricsIndependent.GramEntries | metrics/metrics_independent.py:13 | every matrix entry is the inner product of two topics of the section |
| MetricsIndependent.RevisedSemanticCoherence | metrics/metrics_independent.py:7-20 | the loop over sections computes the coherence specification |
| MetricsIndependent.SectionCoherenceAtMostOne | metrics/metrics_independent.py:14-17 | with inner products in [-1, 1], a section scores at most 1 |
| MetricsIndependent.UniformSection | metrics/metrics_independent.py:14-17 | a section with constant inner products has deviation 0 and scores that constant |
| MetricsIndependent.PrefixScoresCount | metrics/metrics_independent.py:9-11 | the first m sections contribute one score per section with at least two topics |
| MetricsIndependent.SectionScoresCount | metrics/metrics_independent.py:9-18 | one score is recorded for each section with two or more topics, and the others are skipped |
| MetricsIndependent.SectionScoresAtMostOne | metrics/metrics_independent.py:9-18 | every recorded section score is at most 1 |
| MetricsIndependent.CoherenceBounds | metrics/metrics_independent.py:7-20 | coherence lies in [0, 1], and is 0 when no section has two topics |
| MetricsIndependent.Counts | metrics/metrics_independent.py:23 | the counts list each section's topic count in mapping order |
| MetricsIndependent.Largest | metrics/metrics_independent.py:28-29 | `np.max`: an element that bounds all the others |
| MetricsIndependent.Jumps | metrics/metrics_independent.py:28 | `np.abs(np.diff(...))`: the absolute differences of neighbouring counts in mapping order |
| MetricsIndependent.BalanceOf | metrics/metrics_independent.py:22-31 | balance of the section sizes: never negative, exactly 1.0 for fewer than two sections, and 0 when two or more sections are all empty |
| MetricsIndependent.Balance | metrics/metrics_independent.py:22-31 | `structural_balance` of an outline: never negative, and exactly 1.0 for fewer than two sections |
| MetricsIndependent.BalanceScoreBounds | metrics/metrics_independent.py:29-31 | the clamped score lies in [0, 1]; when the largest jump exceeds half the mean, the 0.1 penalty keeps it at most 0.9 |
| MetricsIndependent.MeanOfSizes | metrics/metrics_independent.py:27 | the mean count is never negative, and is 0 exactly when every section is empty |
| MetricsIndependent.SumSplit | metrics/metrics_independent.py:29 | one count is at most the total, so the largest count is positive when the mean is |
| MetricsIndependent.BalanceBounds | metrics/metrics_independent.py:22-31 | balance lies in [0, 1] in every case, and is at most 0.9 when the jump penalty applies |
| MetricsIndependent.ConstantBalance | metrics/metrics_independent.py:26-31 | equal positive counts have no deviation and no jump, so balance is 1 |
| MetricsIndependent.BalancePerfect | metrics/metrics_independent.py:22-31 | fewer than two sections, or non-empty sections of equal size, give exactly 1.0 |
| MetricsIndependent.AllEmptyUnbalanced | metrics/metrics_independent.py:27-31 | two or more sections that are all empty give 0 |
| Advice.Then | metrics/evaluation.py:89-109 | advice steps run in sequence: the first failure stops the rest, and successes concatenate in order |
| Advice.Compare | metrics/evaluation.py:91-108 | one rule's comparison: a missing threshold key raises KeyError, a null on either side raises TypeError, and a missing result key is compared as its default |
| Advice.CoverageRule | metrics/evaluation.py:100-103 | the coverage rule adds at most one message, never raises for a missing or null coverage, and gives "add a reference" exactly in that case |
| Advice.CheckRule | metrics/evaluation.py:91-109 | one conditional append: the list is extended as the rule prescribes, or the rule's error is raised |
| Advice.CheckReferenceRules | metrics/evaluation.py:97-103 | the topic-flow rule, then the add-a-reference / low-coverage rule, applied in that order |
| Advice.GenerateAdvice | metrics/evaluation.py:88-114 | the conditional appends build the advice of the specification |
| Advice.RuleRanked | metrics/evaluation.py:91-109 | a single rule adds at most its own message |
| Advice.ThenRanked | metrics/evaluation.py:89-109 | rules applied in order keep their messages in rule order |
| Advice.FiredRanked | metrics/evaluation.py:91-109 | the fired messages appear in the fixed order semantic, balance, flow, coverage, redundancy, final, each at most once |
| Advice.AdviceShape | metrics/evaluation.py:108-114 | the advice is never empty, is in rule order, and contains the positive message only as its sole entry |
| Advice.RuleFires | metrics/evaluation.py:91-92 | a rule's message appears if and only if the strict comparison with its threshold holds |
| Advice.FiredMembers | metrics/evaluation.py:91-109 | each message appears exactly under its condition: strict `<` for quality scores, strict `>` for redundancy, flow and coverage only with a reference, "add a reference" exactly when sequence coverage is missing or null |
| Advice.AdviceRules | metrics/evaluation.py:111-114 | the advice is the fired messages, or the positive message exactly when none fired |
| Advice.DefaultsUsable | metrics/evaluation.py:118 | the resolved default thresholds contain every key a rule reads, each non-null |
| Advice.AdviceTotal | metrics/evaluation.py:91-109 | with every threshold present and every compared field non-null, advice never raises |
| Advice.MissingKeysGiveNoAdvice | metrics/evaluation.py:91-109 | missing fields default to 1 (0 for redundancy) and trigger no rule; an empty result gets only "add a reference" with a reference and the positive message without one |
| Evaluation.RoundHalfEven | metrics/evaluation.py:71 | rounding to an integer moves a value by at most one half |
| Evaluation.Round3 | metrics/evaluation.py:71 | `round(x, 3)`: the result has at most three decimals and differs from x by at most 0.0005 |
| Evaluation.Round3Bounds | metrics/evaluation.py:71 | rounding to three places keeps [0, 1] |
| Evaluation.StructuralScore | metrics/evaluation.py:52-56 | the mean of the normalised coherence, the flow and the normalised balance lies in [0, 1], and is exactly 1 when coherence is at least 0.65, flow is 1 and balance is at least 0.8 |
| Evaluation.ComputeFinalScore | metrics/evaluation.py:51-86 | the result dict echoes the structural scores, redundancy, relevance and extra-topics penalty; the coverage and relevance scores are present exactly when both a coverage pair and a relevance are given; without them the final score is the rounded structural score, with them it is at most 1 and the relevance score is non-negative |
| Evaluation.NoReferenceReport | metrics/evaluation.py:68-86 | without coverage, the coverage, relevance and reference score fields are null and the final score is the rounded structural score in [0, 1] |
| Evaluation.ReferenceReportBounds | metrics/evaluation.py:58-67 | with a reference: the relevance score is at least 0; the final score is at most 1; with non-negative coverages and redundancy at most 1, the coverage score is at least -1/2 and the final score at least -1/6 |
| Evaluation.CoverageScoreUnclamped | metrics/evaluation.py:64 | the coverage score is not clamped: no coverage with full redundancy gives -0.5 |
| Evaluation.ScoresBounded | metrics/evaluation.py:51-86 | with component scores in [0, 1], every field of the result dict is in range: the structural, coverage, redundancy, relevance and extra-topics fields in [0, 1], the coverage score in [-0.5, 1], the relevance score in [0, 1] and the final score in [-1/6, 1] |
| Evaluation.ComputeStructuralScores | metrics/evaluation.py:14-26 | computes the (coherence, flow, balance) triple of the specification |
| Evaluation.ParseStrippedEmpty | metrics/evaluation.py:125 | a text that is blank after stripping parses to the empty mapping |
| Evaluation.StructuralScoresBounds | metrics/evaluation.py:14-26 | coherence, flow and balance each lie in [0, 1] |
| Evaluation.NoFlowWithoutReference | metrics/evaluation.py:19-24 | without a present reference, the topic flow is exactly 0 |
| Evaluation.ComputeCoverageScores | metrics/evaluation.py:29-38 | computes the sequence and graph coverage and the redundancy of the specification |
| Evaluation.ComputeRelevanceScores | metrics/evaluation.py:41-48 | computes relevance and the extra-topics penalty, or their error |
| Evaluation.CoverageScoresBounds | metrics/evaluation.py:29-38 | both coverages and the redundancy lie in [0, 1] |
| Evaluation.RelevanceScoresShape | metrics/evaluation.py:41-48 | fails, with an empty-reference error, exactly when the course has topics and the reference has none; otherwise both values lie in [0, 1] |
| Evaluation.ComputeReport | metrics/evaluation.py:123-130 | computes the scores of the result dict, with reference metrics only for a present reference |
| Evaluation.EvaluateCourse | metrics/evaluation.py:117-135 | resolves thresholds, scores the course and attaches the advice, as the specification prescribes |
| Evaluation.FieldsComparable | metrics/evaluation.py:73-86 | every field an advice rule compares, other than sequence coverage, is non-null in a result dict |
| Evaluation.ReportFailure | metrics/evaluation.py:125-130 | scoring fails exactly when a present reference has no topics and the course has some |
| Evaluation.EvaluateFailure | metrics/evaluation.py:117-135 | with usable thresholds, evaluation fails exactly when a present reference has no topics and the course has some, with the empty-reference error |
| Evaluation.EvaluateWithoutReference | metrics/evaluation.py:123-133 | without a present reference, evaluation succeeds: flow is 0, the reference fields are null, the final score is the rounded structural score, and no flow or coverage advice is given |
| Evaluation.ReportBounds | metrics/evaluation.py:123-130 | every field of a successful result dict is in range: the structural, coverage, redundancy, relevance and extra-topics fields in [0, 1], the coverage score in [-0.5, 1], the relevance score in [0, 1] and the final score in [-1/6, 1] |

## Left out

- The sentence-embedding model (`SentenceTransformer`, `encode`, `cosine_similarity`,
  `np.inner`) is not modelled. Similarities and inner products are function parameters of
  `Common.Oracle`, and the model never sees vectors. Properties that need more about them
  say so in a `requires`:
  - `UnitInner`: inner products lie in [-1, 1];
  - `Discriminating`: each topic is most similar to itself, above 0.75.
- Floating point is not modelled: all arithmetic is exact over `real`.
  - `np.std` is the square root of the population variance, and the square root is the
    `sqrt` oracle.
  - `x ** 0.8` is the `pow08` oracle. Only its value at 0 and its positivity are used.
  - `Evaluation.Round3` is exact round-half-to-even on reals. Python rounds the binary
    double, so ties can round differently.
- Graph edges are unordered sets of one or two topics. The source intersects oriented
  tuples from networkx, and their orientation depends on networkx's iteration order;
  the model assumes an edge and its reverse are the same edge. The rest of networkx is
  not part of this model.
- `Redundancy.Lower` covers ASCII, Latin-1 and basic Cyrillic (the outlines are in Russian).
  It does not cover the other scripts that Python's `str.lower()` handles.
- `\d` in the header pattern is modelled as the ASCII digits only, not every Unicode
  decimal digit.
- The FastAPI endpoint, its request model and its error-to-HTTP-500 handling are I/O
  plumbing. `main.py` is not part of this model.
- Module-level loading of the embedding model is process-wide state with no logic, and is
  left out.
- A Python exception is modelled as a `Failure` value. Its message text is not modelled.
- `evaluate_course` returns one dict holding both the scores and the `advice` list. The
  model returns the same content as an `Evaluation(report, advice)` pair.
- TopicGraph.MappingTargets: assumes a non-negative threshold. Graph coverage, the only
  caller, uses 0.75.
