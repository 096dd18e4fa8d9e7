# skill-veil kernels, verified

A Dafny model of the parts of skill-veil whose results are decided by loops over mutable state, with
proofs of what those loops promise. `dafny verify dfyconfig.toml` checks everything.

| files | what they model |
|---|---|
| `Orders`, `Text`, `Findings` | sorting, tree maps and sets as canonical sequences; trimming, splitting, decimal text; the finding record |
| `RootCauses` | bucketing findings into root-cause groups |
| `VerdictCalibration`, `CalibrationProperties`, `CalibrationOrder` | the calibration pass over any rules: in place, over all groups |
| `CalibrationPipeline`, `CalibrationRisk`, `CalibrationOutcome` | the four shipped rules and their gates, their credits, and what they do to a package read off its findings |
| `ArtifactGraph`, `ScannerGraph`, `GraphShape`, `GraphContents` | the merge-on-insert graph, the builder that fills it, and the shape and contents of what it builds |
| `LexicalPaths`, `PathSafety` | path normalisation, relative paths and the containment counter |
| `Consensus`, `Baseline` | label consensus between providers, and regenerating a labelled baseline |
| `InlineSuppressions`, `Dedup`, `SuppressionOrder` | suppressing findings, merging duplicates, and the order of the two stages |
| `Utf8`, `IocExtraction`, `Ipv4`, `VersionPins`, `PinText` | cutting and blanking text, capped indicator sets, the IPv4 filter, version pins |
| `LogBuffer` | the bounded log event writer and the terminal sanitiser |

Code that mutates is a method or a class here, proved equal to a specification function; what the
repository promises is then proved of that function. For calibration, for instance,
`ApplyCalibrationRules` keeps the per-group state and the set of counted rules as the source does, and
its postcondition is a direct recomputation in which the groups do not see each other. Each main
operation is also described on the fields of its input, without the functions it is computed by: for
calibration `GroupAndCalibrate`, for the graph `PackageEdges`, for deduplication `ReportedDiffer`, for
suppression `ActiveIff`, for consensus `LlmConsensus`, for pins `SemverPinByCharacter`.

## Where the code and its own documentation part

- **Class in a calibration note.** The comment at `verdict_calibration.rs:506-515` says a note carries
  the class that matches the calibrated groups. A note written before a later rule reclassifies the
  group keeps the old class. `NoteCarriesFinalClassIff` gives the exact condition on the findings and
  `StaleNoteExists` a package whose surviving group it happens to.
- **Which emission wins a merge.** `dedup.rs:178-183` and `238-245` say qualitative fields come from
  the emission with the greatest (action, severity, confidence). The running merge also carries the
  largest severity and confidence seen so far, so from three emissions on it can hide the strongest
  one and depend on order. `WinnerIsStrongestIff` gives the exact condition for one order and
  `WinsInEveryOrderIff` for all of them, `MergeCanMissStrongest` and `MergeOrderMatters` the inputs.
- **Why suppression comes first.** `scanner_execution.rs:28` argues that suppressing after
  deduplication would let a finding survive. At the level of reported keys it is the other way round:
  suppressing first reports every key the other order reports (`SuppressFirstKeepsMore`), and more
  exactly when the first known line of a key is suppressed and another emission of it is not
  (`OrdersDifferIff`). What the scanner's order does buy is that a finding both orders report is no
  stronger than in the other one (`SuppressFirstIsNoStronger`).
- **Zero-padded IPv4 text.** The address pattern at `ioc_extraction.rs:27` accepts padded octets, the
  string prefixes that `ioc_extraction.rs:118-131` pairs with the ranges do not expect them.
  `NoiseAgreesIff` lists exactly the spellings on which filter and ranges disagree.
- **Semantic versions.** `dependency_inventory.rs:97-103` speaks of an exact semver pin with an optional
  pre-release and build suffix. A valid version such as `1.2.3-x` is taken for a wildcard and refused;
  `PrintedVersionPinnedIff` gives the exact condition. In the other direction `1.2.3-` is pinned
  (`BareHyphenIsPinned`); `PinIsSemanticIff` says exactly which pins are semantic versions.
- **Withdrawn overrides.** `regenerate_baseline.py:109-112` describes a run as idempotent when
  overrides are removed. Labels are; the sample keeps `original_expected` after a first relabelling is
  withdrawn (`SampleIgnoresHistoryIff`, `WithdrawnOverrideLeavesTrace`).
- **Containment at the root.** `path_stays_within_base` refuses `/..` below `/` although normalising
  it stays at `/` (`RootBaseIsStricter`); `path_safety.rs:25-26` promises acceptance of what resolves
  inside the base.
- **Containment of relative candidates.** The same sentence promises that only those are accepted. A
  relative candidate that does not start with the base is judged as if it were joined to the base
  (`AcceptedStaysBelow`): `other` passes for base `pkg` although the two name siblings
  (`SiblingPasses`). Below a relative base that does not climb, an accepted candidate itself lies
  under the base exactly when the walk of the base is a prefix of its own, whatever the working
  directory (`AcceptedLiesUnderIff`). With a base that climbs or is absolute it depends on the working
  directory (`OtherBasesDependOnDirectory`).

## Further behaviour worth knowing

- **Cut log events.** A plain-text event over the size limit ends in `...[truncated]` without a
  newline (`EndsLineIff`), so the next event in a file continues its line (`CutTextJoinsNextLine`,
  `SomeTextIsCut`).
- **Facts of a new node.** Facts are deduplicated when a node is merged into, not when it is first
  stored (`DuplicateFactsIff`, `FirstInsertKeepsDuplicates`).
- **Which kind a node keeps.** Inserts of one tier are first come, first kept, so the kind depends on order
  unless the highest tier supplied for the path holds one kind only (`KindIgnoresOrderIff`).

## Model

| member | source | states |
|---|---|---|
| RootCauses.BuildRootCauseGroups | crates/skill-veil-core/src/verdict/root_causes.rs:5-50 | The bucketing loop over a tree map yields, for each (scope, category, class) present, one recomputed group, sorted by action and size |
| RootCauses.RootCauseGroupsPartition | crates/skill-veil-core/src/verdict/root_causes.rs:5-50 | Every finding belongs to exactly one group; each group is nonempty and its action, count and rules are those of its own findings |
| RootCauses.RootCauseGroupsPermutation | crates/skill-veil-core/src/verdict/root_causes.rs:5-50 | Findings with equal multisets give the same list of groups, order included |
| RootCauses.RootCauseGroupsOrdered | crates/skill-veil-core/src/verdict/root_causes.rs:26-48 | Groups come out by falling action, then falling size, then scope, category and class in declaration order |
| RootCauses.RootCauseGroupsDescribe | crates/skill-veil-core/src/verdict/root_causes.rs:5-50 | On the fields of the findings: one group for each scope, category and class that occurs, with the number of its findings, their strongest action, and the five least of their rule ids |
| VerdictCalibration.ApplySingleRuleToGroup | crates/skill-veil-core/src/verdict_calibration.rs:423-515 | One in-place rule application moves one group and its state from stage k to stage k+1 of the specification, leaves every other group alone, and returns that stage's delta and note |
| VerdictCalibration.CountOnce | crates/skill-veil-core/src/verdict_calibration.rs:390-404 | A rule's delta is added on its first nonzero outcome of the pass and never again |
| VerdictCalibration.ApplyCalibrationRules | crates/skill-veil-core/src/verdict_calibration.rs:364-405 | The nested loop leaves every group equal to one direct recomputation without the union of the fired rules' ids, untouched if none fired, and returns the credited sum and the notes |
| VerdictCalibration.RetainNonEmpty | crates/skill-veil-core/src/verdict_calibration.rs:277 | Exactly the groups that still hold a finding are kept, in order |
| VerdictCalibration.DedupNotes | crates/skill-veil-core/src/verdict_calibration.rs:553-571 | Sorting on six fields and dropping adjacent equals is the canonical list of the notes |
| VerdictCalibration.CalibrateWith | crates/skill-veil-core/src/verdict_calibration.rs:257-286 | The whole pass equals the specification: survivors, adjustment and canonical notes |
| CalibrationPipeline.PipelineIsValid | crates/skill-veil-core/src/verdict_calibration.rs:127-250 | The four shipped rules have one gate each and write notes under distinct ids; which evidence shuts which is in the four note rows below |
| CalibrationPipeline.CalibrateVerdictInputs | crates/skill-veil-core/src/verdict_calibration.rs:257-340 | The pass over the shipped rules with the gates computed from the same findings, for any groups |
| CalibrationOutcome.InternalNetworkNoteIff | crates/skill-veil-core/src/verdict_calibration.rs:290-340 | For any findings and groups: an `INTERNAL_NETWORK_ACCESS` note is written for a scope and category iff no actionable finding has a chain category or chain id and some group there holds such a finding |
| CalibrationOutcome.McpNoAuthNoteIff | crates/skill-veil-core/src/verdict_calibration.rs:290-340 | Likewise `MCP_NO_AUTH_MODEL`: no actionable finding with one of the four remote execution ids, and a finding with either no-auth id |
| CalibrationOutcome.DeclaredNetworkNoteIff | crates/skill-veil-core/src/verdict_calibration.rs:290-340 | Likewise `DECLARED_PERMISSION_NETWORK_ACCESS`: no actionable suspicious or malicious finding outside the ten weak ids |
| CalibrationOutcome.CapabilityMismatchNoteIff | crates/skill-veil-core/src/verdict_calibration.rs:290-340 | Likewise `CAPABILITY_PERMISSION_MISMATCH`, under the same evidence |
| CalibrationOutcome.PackageNotes | crates/skill-veil-core/src/verdict_calibration.rs:127-250 | The notes of a package are exactly one report per open tier and group with a finding it calibrates: downgraded iff the tier takes the top of what is left, else reclassified only iff tier 3 or 4 turned the class by then, else unchanged; with the id, sentence and class of each |
| CalibrationOutcome.PackageGroups | crates/skill-veil-core/src/verdict_calibration.rs:257-286 | The groups that come out are exactly the outcomes of the groups with a finding no open tier takes out: count, action and rule ids of what is left, and review signal iff tier 3 or 4 took the top or left only log entries |
| CalibrationOutcome.PackageRisk | crates/skill-veil-core/src/verdict_calibration.rs:390-404 | On the findings: 10, 8, 12 and 6 points come off for exactly the tiers that take the top of some group |
| CalibrationOutcome.NotesInOrder | crates/skill-veil-core/src/verdict_calibration.rs:553-571 | Notes are ordered by scope, category, rule id, effect, sentence and class, without repetition |
| CalibrationOutcome.SurvivingInOrder | crates/skill-veil-core/src/verdict_calibration.rs:277 | Dropping empty groups keeps the others in order |
| CalibrationOutcome.GroupAndCalibrate | crates/skill-veil-core/src/verdict.rs:26-27 | The first two stages of the verdict: group the findings, then calibrate the groups; its notes and groups are the reports and outcomes above |
| CalibrationProperties.ExcludedMembers | crates/skill-veil-core/src/verdict_calibration.rs:523-548 | The accumulated exclusions are the ids of the rules that fired, no more |
| CalibrationProperties.ActionNeverRises | crates/skill-veil-core/src/verdict_calibration.rs:440-484 | At no point of the pass does a consistent group's action rise |
| CalibrationProperties.ActionNeverRisesAfter | crates/skill-veil-core/src/verdict_calibration.rs:440-484 | Once a rule fired on a group, consistent or not, later rules only lower it |
| CalibrationProperties.CalibrationNeverSilences | crates/skill-veil-core/src/verdict_calibration.rs:257-286 | A finding no fired rule excludes keeps its group among the survivors at no less than its own action |
| CalibrationProperties.PackageNeverSilences | crates/skill-veil-core/src/verdict_calibration.rs:257-286 | The same for the groups built from the findings themselves |
| CalibrationProperties.PrunedExactlyWhenAllExcluded | crates/skill-veil-core/src/verdict_calibration.rs:277 | A consistent group disappears if and only if each of its findings was excluded by a fired rule |
| CalibrationProperties.ReclassifiedOnlyIfLowered | crates/skill-veil-core/src/verdict_calibration.rs:476-484 | A group ends as a review signal only with an action strictly below its original one |
| CalibrationProperties.AtMostTwoRulesLower | crates/skill-veil-core/src/verdict_calibration.rs:440-474 | At most two rules strictly lower one group, whether or not the group agrees with the findings |
| CalibrationProperties.LastNoteCarriesFinalClass | crates/skill-veil-core/src/verdict_calibration.rs:506-516 | The last note of a group carries its final class |
| CalibrationProperties.LowersIff | crates/skill-veil-core/src/verdict_calibration.rs:440-474 | A rule lowers a consistent group iff it fires and lists every finding still standing from some non-log action upwards |
| CalibrationProperties.ReclassifiesIff | crates/skill-veil-core/src/verdict_calibration.rs:476-484 | A rule turns a consistent group iff it fires, reclassifies, and takes the top of what stands or leaves only log entries of a group that had more |
| CalibrationProperties.NoteFollowsReclassification | crates/skill-veil-core/src/verdict_calibration.rs:506-516 | For any group, a note carries the final class unless a later rule was the first to reclassify it |
| CalibrationProperties.NoteCarriesFinalClassIff | crates/skill-veil-core/src/verdict_calibration.rs:506-516 | For a consistent group, a note carries the final class iff the group already was a review signal, a rule up to this one turns it, or no later rule does; whether a rule turns it is read off which findings still stand |
| CalibrationProperties.NotesAreCanonical | crates/skill-veil-core/src/verdict_calibration.rs:553-571 | Final notes are strictly ordered on six fields and are exactly the notes produced |
| CalibrationOrder.CalibrationOrderIndependent | crates/skill-veil-core/src/verdict_calibration.rs:257-405 | Permuting findings and groups leaves adjustment and notes identical and permutes the survivors |
| CalibrationOrder.CalibrationIgnoresFindingOrder | crates/skill-veil-core/src/verdict_calibration.rs:257-405 | For a fixed list of groups the whole result is identical |
| CalibrationPipeline.PackageCalibrationPermutation | crates/skill-veil-core/src/verdict.rs:26-27 | Grouping then calibrating gives one result for all orders of the findings |
| CalibrationRisk.RiskIsSumOfLoweringRules | crates/skill-veil-core/src/verdict_calibration.rs:390-404 | For any findings and groups the adjustment is the sum of -10, -8, -12 and -6 over exactly the shipped rules that strictly lowered some group |
| CalibrationRisk.RiskBounds | crates/skill-veil-core/src/verdict_calibration.rs:108-125 | The adjustment lies between -36 and 0 for any findings and groups |
| CalibrationRisk.SingleGroupRiskBound | crates/skill-veil-core/src/verdict_calibration.rs:108-125 | One group costs at most 22 points |
| CalibrationRisk.SingleGroupRiskBoundReached | crates/skill-veil-core/src/verdict_calibration.rs:108-125 | A group of some package costs exactly 22 points |
| CalibrationRisk.RiskBoundReached | crates/skill-veil-core/src/verdict_calibration.rs:108-125 | Some package reaches -36 |
| CalibrationRisk.LoneFindingLowered | crates/skill-veil-core/src/verdict_calibration.rs:440-474 | A group of one finding that a rule both triggers on and excludes is lowered by it |
| CalibrationRisk.UncalibratedFindingSurvives | crates/skill-veil-core/src/verdict_calibration.rs:49-55 | A finding outside the calibrated ids survives in its scope and category at no less than its action |
| CalibrationRisk.StaleNoteExists | crates/skill-veil-core/src/verdict_calibration.rs:506-516 | Some package ends with a note whose class is not the class of its group, which is among the survivors |
| ArtifactGraphs.ArtifactGraph.AddNodeWithCapabilities | crates/skill-veil-core/src/artifact_graph.rs:110-143 | The in-place search-and-merge equals one map-style insert of a node |
| ArtifactGraphs.ArtifactGraph.AddEdgeWithEndpoint | crates/skill-veil-core/src/artifact_graph.rs:154-189 | The in-place search-and-upgrade equals one map-style insert of an edge |
| ArtifactGraphs.RunIsUnique | crates/skill-veil-core/src/artifact_graph.rs:110-189 | No run of inserts stores a path twice or a (from, to, relation) triple twice |
| ArtifactGraphs.NodeStoreIsMap | crates/skill-veil-core/src/artifact_graph.rs:110-143 | After any run a path is stored iff it was inserted; its kind is the first of greatest specificity and its facts the union of all supplied |
| ArtifactGraphs.EdgeStoreIsMap | crates/skill-veil-core/src/artifact_graph.rs:154-223 | After any run an edge is stored iff its triple was inserted; its annotation is the highest-ranked ever supplied |
| ArtifactGraphs.EdgePriority | crates/skill-veil-core/src/artifact_graph.rs:204-223 | A stored edge is annotated with a control plane if one was ever supplied, else transient, remote, local, registry, or nothing |
| ArtifactGraphs.KindPriority | crates/skill-veil-core/src/findings/enums.rs:210-223 | The stored kind is the first supplied from the first of five named tiers that was supplied at all |
| ArtifactGraphs.EdgesIgnoreOrder | crates/skill-veil-core/src/artifact_graph.rs:154-223 | Permuting a run leaves every stored edge the same |
| ArtifactGraphs.NodesIgnoreOrderUpToTier | crates/skill-veil-core/src/artifact_graph.rs:110-143 | Permuting a run leaves the stored paths, the specificity reached and the fact set the same |
| ArtifactGraphs.KindIgnoresOrderIff | crates/skill-veil-core/src/artifact_graph.rs:110-143 | The stored kind is the same in every order of a run iff the highest tier supplied for the path holds that kind only |
| ArtifactGraphs.DuplicateFactsIff | crates/skill-veil-core/src/artifact_graph.rs:117-142 | A node lists a fact twice if and only if the first insert of its path did |
| ArtifactGraphs.FirstInsertKeepsDuplicates | crates/skill-veil-core/src/artifact_graph.rs:117-142 | One doubled fact list is stored doubled by a first insert of a path and single by a second one |
| ScannerGraph.AddInferredRelations | crates/skill-veil-core/src/scanner_graph.rs:318-352 | The link loop performs exactly one node and one edge insert per inferred link |
| ScannerGraph.AddManifests | crates/skill-veil-core/src/scanner_graph.rs:35-87 | The manifest loop with its nested lockfile loop performs exactly the specified inserts |
| ScannerGraph.AddReferences | crates/skill-veil-core/src/scanner_graph.rs:89-116 | The reference loop performs exactly the specified inserts; `ReferenceEdgeIff` says which references those are |
| ScannerGraph.BuildArtifactGraph | crates/skill-veil-core/src/scanner_graph.rs:15-119 | The builder returns a fresh graph equal to running all its inserts from empty |
| GraphShape.PackageGraphShape | crates/skill-veil-core/src/scanner_graph.rs:15-119 | Any package graph: unique nodes and edges, both ends of every edge are nodes, every node within three edges of the root document |
| GraphContents.PackageEdges | crates/skill-veil-core/src/scanner_graph.rs:15-119 | The edges of a package graph are exactly: the document contains its manifests, references what resolves inside the base, manifests lock their lockfiles, and visited artifacts have their links; none is annotated |
| GraphContents.ReferenceEdgeIff | crates/skill-veil-core/src/scanner_graph.rs:89-116 | A reference hangs from the document iff it resolves inside the base or the document links it so |
| GraphContents.ContainsEdgeIff | crates/skill-veil-core/src/scanner_graph.rs:35-61 | A manifest hangs from the document iff it is not the document itself or the document links it so |
| GraphContents.LocksEdgeIff | crates/skill-veil-core/src/scanner_graph.rs:62-87 | A manifest other than the document locks its lockfiles, what it links so, and nothing else |
| GraphContents.PackageNodes | crates/skill-veil-core/src/scanner_graph.rs:15-119 | The nodes are exactly the visited artifacts and what a visited artifact links |
| GraphContents.RootIsFirst | crates/skill-veil-core/src/scanner_graph.rs:15-33 | The first node of a package graph is the document |
| GraphContents.PackageFacts | crates/skill-veil-core/src/scanner_graph.rs:15-119 | A node lists the facts of its artifact if that was visited and none if it was only linked |
| GraphContents.PackageKinds | crates/skill-veil-core/src/scanner_graph.rs:15-119 | A node has its classified kind, except that a lockfile of some manifest is a lockfile; only if it is classified as a manifest may it keep that instead |
| LexicalPaths.NormalizeLexical | crates/skill-veil-cli/src/commands/gold.rs:171-186 | The push/pop loop equals its component-wise fold |
| LexicalPaths.NormalizeAbsolute | crates/skill-veil-cli/src/commands/gold.rs:171-186 | On an absolute path the loop computes the directory a walk of the name tree reaches |
| LexicalPaths.NormalizeIsWalk | crates/skill-veil-cli/src/commands/gold.rs:171-186 | Continuing the loop from a normalised directory continues the walk |
| LexicalPaths.SplitPathParts | crates/skill-veil-cli/src/commands/gold.rs:188-202 | Root and parts are collected in order, `.` dropped |
| LexicalPaths.CountCommon | crates/skill-veil-cli/src/commands/gold.rs:218-222 | The counted prefix is the longest common one |
| LexicalPaths.RelativePathBetween | crates/skill-veil-cli/src/commands/gold.rs:204-234 | The whole computation equals its specification, the refusal for different roots included |
| LexicalPaths.RelativePathRoundTrip | crates/skill-veil-cli/src/commands/gold.rs:204-234 | Normalising the base followed by the result gives exactly the normalised target |
| LexicalPaths.RelativePathWalks | crates/skill-veil-cli/src/commands/gold.rs:160-234 | Walking the result from the directory the base stands for, from the working directory if it is relative, reaches the one the target stands for |
| LexicalPaths.RelativePathShortest | crates/skill-veil-cli/src/commands/gold.rs:204-234 | No non-empty component list that leads to the target is shorter |
| LexicalPaths.WalkNeedsDistance | crates/skill-veil-cli/src/commands/gold.rs:204-234 | Any walk between two directories takes at least their tree distance |
| LexicalPaths.RelativePathFailsIff | crates/skill-veil-cli/src/commands/gold.rs:210-216 | The refusal happens if and only if the two normalised paths share no root |
| LexicalPaths.RelativeNormalisationCollapses | crates/skill-veil-cli/src/commands/gold.rs:176-180 | On a relative path a second `..` cancels the first, so absoluteness is needed |
| PathSafety.PathStaysWithinBase | crates/skill-veil-core/src/path_safety.rs:42-65 | The depth loop accepts iff the suffix has no root and no prefix of it goes below its start |
| PathSafety.CounterIsHeight | crates/skill-veil-core/src/path_safety.rs:46-63 | The counter is the height of the stack above the base |
| PathSafety.StaysWithinMeaning | crates/skill-veil-core/src/path_safety.rs:42-65 | For absolute and relative arguments, below any base but the root: accepted iff the suffix names no root and every prefix of it, followed from the base, keeps the normalised base in front |
| PathSafety.AcceptedStaysBelow | crates/skill-veil-core/src/path_safety.rs:42-65 | Acceptance puts where the suffix leads under the base, for any base, and with it the candidate itself when it starts with the base; a candidate that does not is relative and judged as joined to the base |
| PathSafety.AcceptedLiesUnderIff | crates/skill-veil-core/src/path_safety.rs:42-65 | Below a relative base that does not climb, an accepted candidate itself lies under the base iff the walk of the base is a prefix of its own walk, from every working directory |
| PathSafety.OtherBasesDependOnDirectory | crates/skill-veil-core/src/path_safety.rs:42-65 | For a base that climbs and for an absolute one, whether an accepted relative candidate lies under it changes with the working directory |
| PathSafety.SiblingPasses | crates/skill-veil-core/src/path_safety.rs:43-45 | From every working directory, `other` is accepted for base `pkg` although it names a sibling |
| PathSafety.OutsideIsRefused | crates/skill-veil-core/src/path_safety.rs:43-45 | An absolute candidate that does not start with the base is refused |
| PathSafety.RootBaseIsStricter | crates/skill-veil-core/src/path_safety.rs:42-65 | At the root nothing can leave, yet `..` directly below it is refused |
| Consensus.TallyVotes | crates/skill-veil-cli/src/commands/gold.rs:102-115 | The map ends with one entry per trimmed, lower-cased name that says one of the three words: its label, or a conflict if it says two |
| Consensus.LlmConsensus | crates/skill-veil-cli/src/commands/gold.rs:101-139 | From the texts: a label is returned iff two names, trimmed and lower-cased, say its word and neither of the other two, and the same holds for no other label |
| Consensus.ConsensusDependsOnVoteSet | crates/skill-veil-cli/src/commands/gold.rs:101-139 | Cohorts with the same normalised (provider, label) pairs qualify the same labels |
| Consensus.RepeatedVoteIsSame | crates/skill-veil-cli/src/commands/gold.rs:102-115 | Repeating a vote leaves the normalised pairs as they were |
| Consensus.PermutedVotesAreSame | crates/skill-veil-cli/src/commands/gold.rs:102-115 | So does reordering the votes |
| Consensus.ThreeProvidersNeverTie | crates/skill-veil-cli/src/commands/gold.rs:121-138 | With at most three distinct providers two labels never both qualify |
| Baseline.Regenerate | scripts/regenerate_baseline.py:103-131 | The relabel loop relabels each sample on its own, counts applied and reverted ones, and fails iff some sample's override lacks its label |
| Baseline.OverrideApplies | scripts/regenerate_baseline.py:106-126 | An override under a sample's id, or its hash if it has none, sets label and remarks, records the first label once and touches no other field; without a label it fails |
| Baseline.NoOverrideReverts | scripts/regenerate_baseline.py:106-114 | Without one a recorded first label comes back and the remarks go; a sample without record is left alone |
| Baseline.LabelIgnoresHistory | scripts/regenerate_baseline.py:103-131 | After any sequence of override sets the label depends on the original label and the last set only |
| Baseline.RerunIsFixpoint | scripts/regenerate_baseline.py:103-131 | Running one set twice changes nothing more in a sample |
| Baseline.SampleIgnoresHistoryIff | scripts/regenerate_baseline.py:109-126 | The whole sample forgets the earlier set iff it is not a first relabelling that is later withdrawn |
| Baseline.WithdrawnOverrideLeavesTrace | scripts/regenerate_baseline.py:109-126 | One sample relabelled once and withdrawn has its label back and the recorded original label besides |
| Baseline.CellsPartitionScored | scripts/regenerate_baseline.py:43-74 | The four cells partition the samples with a binary label and a recognised verdict |
| Baseline.MetricsByCount | scripts/regenerate_baseline.py:65-74 | Precision, recall, false positive rate and accuracy by cross-multiplication over the samples, with the values for an empty denominator |
| Baseline.FlipsConserveTotal | scripts/regenerate_baseline.py:43-74 | Malicious/benign flips conserve the total of the four cells |
| Baseline.ForgivingMissesIsMonotone | scripts/regenerate_baseline.py:43-74 | Relabelling misses as benign keeps precision and never lowers recall or accuracy |
| InlineSuppressions.ApplyInlineSuppressions | crates/skill-veil-core/src/inline_suppressions.rs:301-378 | The loop splits the findings by whether any directive matches and tags the suppressed ones with the first that does; the two rows below say on the fields when that is |
| InlineSuppressions.FindFirst | crates/skill-veil-core/src/inline_suppressions.rs:315-362 | The search returns the first matching directive, if any |
| InlineSuppressions.ActiveIff | crates/skill-veil-core/src/inline_suppressions.rs:315-362 | A finding stays active iff every directive has expired before now, names another rule up to ASCII case and is no wildcard, or fails the path or line condition |
| InlineSuppressions.SuppressedRecords | crates/skill-veil-core/src/inline_suppressions.rs:364-378 | The suppressed list holds exactly the governed findings, each with kind, rule and reason of the first directive that governs it |
| InlineSuppressions.LaterKeepsActive | crates/skill-veil-core/src/inline_suppressions.rs:316-321 | Moving the clock forward never suppresses a finding that was active |
| InlineSuppressions.AllExpiredKeepsAll | crates/skill-veil-core/src/inline_suppressions.rs:316-321 | Directives that have all expired leave every finding active |
| InlineSuppressions.SplitIsLossless | crates/skill-veil-core/src/inline_suppressions.rs:301-378 | The two results woven by the verdicts give back every finding in its place, tagged or untouched |
| InlineSuppressions.LineDirectivesAreLocal | crates/skill-veil-core/src/inline_suppressions.rs:350-359 | A line directive never reaches a finding without that line |
| Dedup.AddFinding | crates/skill-veil-core/src/findings/dedup.rs:291-293 | One entry-and-modify step keeps the map equal to the merged class of every key seen |
| Dedup.DeduplicateFindings | crates/skill-veil-core/src/findings/dedup.rs:257-314 | The result is one merged finding per key in output order, with exact counts; what tells two keys apart is in the two rows below |
| Dedup.EverySubjectReported | crates/skill-veil-core/src/findings/dedup.rs:43-61 | Every finding has a reported one with its rule, category, artifact kind, scope and path, and with its match value and target up to ASCII case, file paths exactly |
| Dedup.ReportedDiffer | crates/skill-veil-core/src/findings/dedup.rs:268-293 | Two reported findings differ in one of these |
| Dedup.OutputIsSorted | crates/skill-veil-core/src/findings/dedup.rs:297-309 | Reported findings come by rule id, then path, then line, a missing one first, then match value |
| Dedup.MergedKey | crates/skill-veil-core/src/findings/dedup.rs:188-231 | Merging never changes the key |
| Dedup.MergedLine | crates/skill-veil-core/src/findings/dedup.rs:220-222 | The merged line is the first line any emission carried |
| Dedup.MergedIsUpperBound | crates/skill-veil-core/src/findings/dedup.rs:188-219 | Action, severity and confidence of the merge bound those of all emissions |
| Dedup.MergedIsAttained | crates/skill-veil-core/src/findings/dedup.rs:188-219 | Each of the three is attained by some emission |
| Dedup.MergedLevels | crates/skill-veil-core/src/findings/dedup.rs:188-219 | The merge blocks if any emission does, and so on down; likewise severity |
| Dedup.MergedTexts | crates/skill-veil-core/src/findings/dedup.rs:203-217 | Reason and remediation are each the first longest, in bytes, among the winner and the later emissions that tie with the running merge |
| Dedup.MergedContexts | crates/skill-veil-core/src/findings/dedup.rs:223-231 | The contexts are the union of those of all emissions |
| Dedup.MergedFields | crates/skill-veil-core/src/findings/dedup.rs:203-211 | Action, class, evidence, raw confidence and rationale all come from one emission |
| Dedup.WinnerIsStrongestIff | crates/skill-veil-core/src/findings/dedup.rs:188-217 | That emission is the strongest one iff nothing earlier with its action shadows its severity or confidence |
| Dedup.MergeCanMissStrongest | crates/skill-veil-core/src/findings/dedup.rs:188-217 | Three emissions whose merge takes the fields of one that is not the strongest |
| Dedup.MergeOrderMatters | crates/skill-veil-core/src/findings/dedup.rs:188-217 | The same three in another order merge to other fields |
| Dedup.WinsInEveryOrderIff | crates/skill-veil-core/src/findings/dedup.rs:188-217 | An emission stronger than all others wins in every order of arrival iff it is not shadowed when it arrives last |
| SuppressionOrder.SuppressAndDeduplicate | crates/skill-veil-core/src/scanner_execution.rs:259-264 | The scanner's two stages in their order |
| SuppressionOrder.DeduplicatedMembers | crates/skill-veil-core/src/findings/dedup.rs:257-314 | Deduplication reports for each key present exactly the merge of its emissions |
| SuppressionOrder.SuppressFirstKeeps | crates/skill-veil-core/src/scanner_execution.rs:635-645 | Suppressing first keeps exactly the keys with an unsuppressed emission |
| SuppressionOrder.SuppressLastKeeps | crates/skill-veil-core/src/scanner_execution.rs:635-645 | Suppressing last keeps exactly the keys whose first known line is not suppressed |
| SuppressionOrder.SuppressFirstKeepsMore | crates/skill-veil-core/src/scanner_execution.rs:28 | Every key the other order reports is reported by the scanner's order |
| SuppressionOrder.OrdersDifferIff | crates/skill-veil-core/src/scanner_execution.rs:28 | They differ on a key iff its first known line is suppressed and some emission is not |
| SuppressionOrder.OrderMattersForSomeInput | crates/skill-veil-core/src/scanner_execution.rs:28 | Some input tells the two orders apart |
| SuppressionOrder.SuppressFirstIsNoStronger | crates/skill-veil-core/src/scanner_execution.rs:635-645 | A finding both orders report is in the scanner's order no stronger in action, severity or confidence |
| Utf8.TruncationPoint | crates/skill-veil-core/src/ioc_extraction.rs:183-200 | The back-off loop stops at the greatest character boundary not above the cap, at most three bytes below it |
| Utf8.BlankSpans | crates/skill-veil-core/src/ioc_extraction.rs:241-244 | Blanking keeps length, validity and every boundary, and turns exactly the union of the spans into spaces |
| Utf8.BoundaryTest | crates/skill-veil-core/src/ioc_extraction.rs:187-191 | In valid text the one-byte test recognises exactly the places between characters |
| Utf8.ValidIffEncoded | crates/skill-veil-core/src/ioc_extraction.rs:187-191 | The valid byte sequences are exactly the encodings of texts by section 3 of RFC 3629 |
| IocExtraction.TryInsertBounded | crates/skill-veil-core/src/ioc_extraction.rs:209-221 | A value is inserted iff the set is below the cap |
| IocExtraction.TrimTrailingIff | crates/skill-veil-core/src/ioc_extraction.rs:225 | Exactly the trailing run of nine punctuation marks is cut off a URL |
| IocExtraction.CollectUrls | crates/skill-veil-core/src/ioc_extraction.rs:222-239 | The URL set has min(4096, distinct trimmed URLs) members, all of them within the cap; the domains are min(4096, hosts) of the hosts worth keeping of these URLs, again all of them within the cap |
| IocExtraction.ExtractedIocs.MergeFrom | crates/skill-veil-core/src/ioc_extraction.rs:79-102 | The in-place merge of the five lists |
| IocExtraction.Aggregate | crates/skill-veil-core/src/scanner_execution.rs:431-484 | Merging the supporting artifacts one after another into the primary one is the fold of the merge |
| IocExtraction.AggregateMembers | crates/skill-veil-core/src/scanner_execution.rs:431-484 | Each of the five lists of the aggregate holds exactly what that list holds in some artifact |
| IocExtraction.FoldSortedIsUnion | crates/skill-veil-core/src/ioc_extraction.rs:80-84 | Folding the merge gives the strictly sorted union of all lists |
| IocExtraction.AggregateIgnoresOrder | crates/skill-veil-core/src/ioc_extraction.rs:79-102 | Any order, and any repetition, of the artifacts gives the same aggregate |
| IocExtraction.AnyPrimaryAnyOrder | crates/skill-veil-core/src/scanner_execution.rs:431-484 | Neither the order of the artifacts nor which of them is the primary one changes the aggregate |
| Ipv4.NoiseAgrees | crates/skill-veil-core/src/ioc_extraction.rs:308-339 | On every address printed in decimal the string filter is membership in the numeric ranges |
| Ipv4.NoiseAgreesIff | crates/skill-veil-core/src/ioc_extraction.rs:308-339 | On every spelling the pattern lets through, filter and ranges agree iff the spelling is not one of the misread zero-padded ones |
| Ipv4.PaddedTenIsReported | crates/skill-veil-core/src/ioc_extraction.rs:118-131 | A zero-padded 10/8 address is not filtered |
| Ipv4.Block172Agrees | crates/skill-veil-core/src/ioc_extraction.rs:330-339 | The parsed second octet selects exactly 172.16/12, padded spellings included |
| Ipv4.FieldPrefix | crates/skill-veil-core/src/ioc_extraction.rs:118-131 | A prefix ending in a dot compares whole fields |
| VersionPins.ExactVersionIff | crates/skill-veil-core/src/dependency_inventory.rs:71-85 | A text is accepted as p iff it is p with white space and `=`/`v` marks around it and p is a concrete version |
| PinText.ExactVersionByCharacter | crates/skill-veil-core/src/dependency_inventory.rs:71-95 | Character by character: white space, `=`s and `v`s, white space, a digit and then letters, digits and `.-+_` without an `x` alone between separators, white space |
| VersionPins.ExactVersionRetracts | crates/skill-veil-core/src/dependency_inventory.rs:71-85 | A pin that came back reads as itself |
| VersionPins.WildcardConcat | crates/skill-veil-core/src/dependency_inventory.rs:92-95 | A wildcard component of a joined text is one of its two sides |
| VersionPins.SemverPinIff | crates/skill-veil-core/src/dependency_inventory.rs:104-115 | A pin is returned iff the text spells `digits.digits.digits` with nothing or a wildcard-free `-`/`+` suffix |
| PinText.SemverPinByCharacter | crates/skill-veil-core/src/dependency_inventory.rs:104-115 | Likewise for a pin: such a version that begins with three numbers, ending there or at `-` or `+` |
| PinText.OtherStartsAreRefused | crates/skill-veil-core/src/dependency_inventory.rs:71-85 | A text whose first character that is not white space is no digit, `=` or `v` is never a version or pin |
| VersionPins.SemverPinRetracts | crates/skill-veil-core/src/dependency_inventory.rs:104-115 | A semver pin reads as itself |
| VersionPins.PrintedVersionPinnedIff | crates/skill-veil-core/src/dependency_inventory.rs:104-115 | A version of sections 2, 9 and 10 of Semantic Versioning 2.0.0 is pinned as printed iff no identifier has a bare `x` or `X` piece |
| VersionPins.PrintedReleasePinned | crates/skill-veil-core/src/dependency_inventory.rs:104-115 | Every printed release is pinned |
| VersionPins.BareXIsRefused | crates/skill-veil-core/src/dependency_inventory.rs:92-95 | A valid pre-release named `x` is refused |
| VersionPins.PinIsSemanticIff | crates/skill-veil-core/src/dependency_inventory.rs:104-115 | A pin is the print of a semantic version iff no number in its core or numeric pre-release identifier has a leading zero and every identifier is a non-empty run of letters, digits and hyphens |
| VersionPins.BareHyphenIsPinned | crates/skill-veil-core/src/dependency_inventory.rs:104-115 | Every release followed by a bare hyphen is pinned and is no semantic version |
| VersionPins.AliasIff | crates/skill-veil-core/src/dependency_inventory.rs:183-193 | The alias reader inverts printing in both directions, for scoped and unscoped names |
| LogBuffer.Sanitise | crates/skill-veil-cli/src/observability.rs:270-286 | The character loop equals the pointwise map |
| LogBuffer.SanitisedIsOneLine | crates/skill-veil-cli/src/observability.rs:270-286 | Length is kept, printable characters are kept, and no control character is left but a final newline |
| LogBuffer.SanitisedAt | crates/skill-veil-cli/src/observability.rs:270-286 | A final newline and printable characters stay, a tab becomes a space, any other control character a question mark |
| LogBuffer.SanitisedFixpointIff | crates/skill-veil-cli/src/observability.rs:270-286 | Exactly the one-line texts are left alone |
| LogBuffer.SanitisedIdempotent | crates/skill-veil-cli/src/observability.rs:270-286 | Sanitising twice is sanitising once |
| LogBuffer.SafeEventWriter.Write | crates/skill-veil-cli/src/observability.rs:187-193 | After any write the buffer is the first 64 KiB of everything written and the flag says whether there was more; the whole chunk is reported as written |
| LogBuffer.SafeEventWriter.Emit | crates/skill-veil-cli/src/observability.rs:169-183 | Nothing is emitted for nothing; otherwise the event is cleared and its text appended, or lost with an error when the file lock is poisoned |
| LogBuffer.Run | crates/skill-veil-cli/src/observability.rs:168-204 | Any run of writes and flushes, ended by dropping the writer, appends exactly the texts of its events, or nothing when the file lock is poisoned; either way nothing stays pending |
| LogBuffer.EventsAreWholeGroups | crates/skill-veil-cli/src/observability.rs:186-198 | One event per flushed group that wrote anything, whole, whatever pieces it was written in |
| LogBuffer.OutputIgnoresChunking | crates/skill-veil-cli/src/observability.rs:186-198 | Runs whose groups concatenate alike emit alike |
| LogBuffer.WritersDoNotInterfere | crates/skill-veil-cli/src/observability.rs:145-184 | In every interleaving of writers on one destination each writer's events arrive as if it were alone |
| LogBuffer.RunShared | crates/skill-veil-cli/src/observability.rs:145-184 | Stepping the writers of one factory in any interleaving leaves each with what the shared state says is pending and the destination with the texts of the shared log, whole events one after another |
| LogBuffer.LinesAreCompleteEvents | crates/skill-veil-cli/src/observability.rs:206-228 | The output has as many lines as events that end in a newline, redaction included |
| LogBuffer.AllCompleteIff | crates/skill-veil-cli/src/observability.rs:206-228 | One line per event iff every event ends its line |
| LogBuffer.RedactKeepsLineEnd | crates/skill-veil-cli/src/observability.rs:230-268 | None of the three replacements adds or removes a final newline |
| LogBuffer.RedactReplaces | crates/skill-veil-cli/src/observability.rs:230-240 | Credentials of the text, then secrets of what came out, then keys: each pass keeps every character outside its matches in place and puts the fill where each match was |
| LogBuffer.EventTextCases | crates/skill-veil-cli/src/observability.rs:206-228 | Up to 64 KiB an event is decoded, redacted and sanitised whole; beyond that its first 64 KiB with `...[truncated]`, or the notice if they open a JSON object |
| LogBuffer.EndsLineIff | crates/skill-veil-cli/src/observability.rs:206-228 | An event ends its line iff its text does, or it was cut and looked like JSON |
| LogBuffer.CutTextJoinsNextLine | crates/skill-veil-cli/src/observability.rs:206-228 | A cut plain-text event and the next one make at most one line |
| LogBuffer.SomeTextIsCut | crates/skill-veil-cli/src/observability.rs:187-193 | 64 KiB and one byte of `a` is such an event |

## Left out

- Regular expressions, parsers for Markdown, JSON, YAML and TOML, hashing, URL parsing: match spans, captures and parsed values are inputs.
- The file system, symlink resolution and inference services: `Package` holds the answers they give (siblings, lockfiles, kinds, capabilities, links) as functions and lists, so paths are their displayed text.
- The clock and `paths_match` of inline suppressions: fields of `Directives`.
- Collecting suppression directives from comments and JSON (`add_suppressions_from_capture`, `next_significant_line`): single-pass scans over captures.
- `merge_calibrated_groups` and the verdict predicates after calibration; taxonomy and presentation fields of a finding.
- The prose of calibration rationales: four tags that sort as the texts do.
- One array of states per group instead of a vector of structs; tree maps, tree sets and sorts are canonical sequences over a comparison function.
- Confidence is a real number, so NaN and rounding are not modelled; ratios in the baseline are reals too.
- Machine widths (`i32` depth and risk, `usize` counts): unbounded integers.
- Windows verbatim path prefixes and the text of the error for unrelated roots.
- Scanning for host mentions and IPv6 addresses, and the file hashes of one artifact: the same capped insertion as for URLs behind other patterns.
- Non-ASCII digits in an IPv4 match.
- `load_overrides_map`, the coverage block, the `regenerated_at` timestamp and printing; Python equality between booleans and numbers.
- Requirements, Cargo and pyproject collectors around the version parsers.
- Lossy decoding of a log event, where its redaction patterns match, and the fields of its JSON notice are the fields of `Renderer`; of the matches only order, last character and replacement are modelled, of the notice that it is one line. Failing writes to an open destination are not modelled, a poisoned file lock is.
- RunShared: an emission is one step, which is what the file lock gives; on standard error it assumes one write per event.
