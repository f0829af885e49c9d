# A verified model of Utteran

Utteran transcribes audio locally, attributes the words to speakers, and offers
the work as durable, resumable jobs to a graphical client. This project models
the parts of it that are hard to get right and proves what they promise. It
covers five independent cores:

1. **Speaker alignment.** A Viterbi assignment of speakers to words, followed by
   passes that edit labels and segments in place, up to the whole pipeline.
2. **The durable control plane.** Job tables with a queue, one heavy slot with
   fencing, conservative crash recovery, idempotent replay, an event log with
   compaction, a client reducer, and paged listings.
3. **The resumable stage cache.** Five stages with chained configuration hashes,
   saved transitions, crashes and invalidation.
4. **The worker's event stream.** Two threads under one lock on one side, a
   checking client on the other.
5. **Algorithms with a simple specification.** Optimal speaker mapping and
   diarization error, the commit-graph delta gate, rolling-hash matching, and
   the character error rate.

Code that updates state in place is modelled by classes, arrays and loops.
Each method is proved against a specification function or predicate, and the
main results are lemmas about those. Where the code and its specification share
a helper, a lemma pins it by times, fields or texts alone. Every float is a `real`; quantities are
those before rounding to six digits.

| file | about |
|---|---|
| `Basics` | what the other files share |
| `AlignTypes`, `Viterbi`, `SpeakerScores` | words, turns and segments; the best path of a chain; emissions and penalties |
| `SpeakerChanges`, `SpeakerPasses` | label passes: recovery, snapping, timestamp groups |
| `SegmentPasses`, `SegmentEditing`, `Alignment` | segment passes and the whole pipeline |
| `SegmentLaws` | what the segment passes promise, by speakers, times and words |
| `SpeechCoverage` | interval union and detected-speech coverage |
| `ControlTables`, `JobCommands`, `JobInvariants`, `JobRuns` | the job tables, the effect of every command, what each keeps, whole runs |
| `JobEffects`, `JobOutcomes` | what each command does to the rows; answers, refusals and results over a run |
| `JobStore` | the store that performs the commands step by step |
| `Recovery`, `HeavySlot` | recovery decisions; processes, launches and recoveries interleaved |
| `EventLog`, `ListSnapshots` | event log, compaction, reducer; paged listings |
| `StageCache` | the resumable job and its runs |
| `WorkerStream` | both ends of the worker protocol |
| `GreedyMatching`, `DerScoring`, `MappingLimits` | mapping speakers, diarization error, and when the mapping is the best |
| `DeltaGate`, `RollingMatch`, `EditDistance` | the other three algorithms |

## What turned out not to hold

The code is modelled as it is. Where a promise fails, a lemma says exactly when.

- **The reducer depends on arrival order.** Its documentation says otherwise,
  but an event at or below the cursor is dropped as a duplicate. Delivering two
  neighbouring events in the wrong order gives the same state exactly when the
  first one concerns the same resource or is already known
  (`EventLog.SwappedEventsAgreeIff`, and `EventLog.GapKeepsKnowledgeIff` for gaps).
  `EventLog.SwappedExample` has the shortest such history.
- **The first sync can roll a resource back.** A resource that was read before
  it is known afterwards at the snapshot's revision, although the read had shown
  a newer one (`EventLog.FirstSyncForgets`, and a run where this happens in
  `EventLog.RolledBackExample`). Later syncs never do that
  (`EventLog.LaterSyncKeepsRevisions`).
- **A generic transition can succeed without a result.** `transition` lets the
  lease holder move a running job to succeeded without inserting a result row.
  This is the only way to get such a job (`JobRuns.SucceededHasResult`,
  `JobRuns.TransitionCanSucceedUnlinked`).
- **`block_job` leaves the transition table** by taking a held job to blocked.
  A status step of any command is missing from the table if and only if it is
  this one (`JobInvariants.OnlyBlockLeavesTheTable`).
- **Protected event rows that compaction left behind stay for ever.** They lie
  at or below the floor, where no later compaction looks and no cursor can read
  (`EventLog.ProtectedRowsStay`).
- **The ASR hash misses one input.** For whisper.cpp with automatic word
  timestamps the options depend on whether diarization is enabled, which the
  hash omits. A resumed run then keeps the old transcript
  (`StageCache.AsrHashDecidesTranscript`, `StageCache.SwitchedDiarization`).
- **A diarization artifact lost between the check and the load** leaves the run
  without turns. If the merge is executed in that run, it merges as if
  diarization were disabled; otherwise it loads the stored merge as usual. The
  wrong merge is stored, so later runs return it again. Apart from the previous
  item, a result differs from a run from scratch exactly then
  (`StageCache.ResultIsRightIff` for one run, `StageCache.SessionResultIff` for a
  session, `StageCache.LostTurns` for two runs where it happens).
- **The "optimal" speaker mapping is greedy above eight speakers.** It has the
  least error for every pair of diarizations with `p` and `q` speakers exactly
  when neither number is above eight or one of them is at most one
  (`MappingLimits.MappingIsOptimalIff`). For all other numbers there are two
  diarizations that it maps badly (`MappingLimits.MissedMapping`). It still gets
  at least half of the possible time right (`GreedyMatching.GreedyHasHalf`,
  `DerScoring.OptimalSpeakerMapping`).
- **A gitlink can mask a path finding.** A submodule entry that replaces a file
  is granted every path key, including those its old side never had
  (`DeltaGate.NewPathFindingIsReported`, `DeltaGate.MaskedGitlinkExample`). In
  the other direction, a regular file that replaces a gitlink makes the gate
  fail closed (`DeltaGate.CommitFindings`).
- **`accept_batch` checks the batch size before it looks for a replay.** A
  request outside the limit is refused even under a known key; every other
  repeat gets the first answer (`JobRuns.RepeatsGetTheFirstAnswer`).
- **The registry's bounds have exact conditions.** After a `put` the entry
  capacity holds iff it is positive, and the item cap holds iff the new snapshot
  alone fits it (`ListSnapshots.PutRespectsBounds`).

## Model

| member | source | states |
|---|---|---|
| `Viterbi.BestSequence` | src/utteran/align.py:461-508 | The back-traced sequence has one state per position and no other sequence of that length has a greater total; ties go to the sequence that is later in the label order compared from its end. |
| `Viterbi.FollowPointers` | src/utteran/align.py:502-508 | Following the back-pointers from the chosen last state and reversing reproduces the path the forward pass had scored. |
| `Viterbi.OptimalIsUnique` | src/utteran/align.py:461-508 | Optimality together with the tie-break leaves exactly one sequence, so the result does not depend on the order in which states are visited. |
| `Viterbi.LargerFactorSwitchesLess` | src/utteran/align.py:560-590 | For any chain whose switch costs scale with a factor, a larger factor never increases the switching weight of the optimum, nor, from zero on, its emission total. |
| `SpeakerScores.AssignWordSpeakerSequence` | src/utteran/align.py:461-508 | Each word gets a label of some turn or UNKNOWN, and the labels are the optimum of the chain whose scores and costs the rows below give by times and turns. |
| `SpeakerScores.EmissionRanking` | src/utteran/align.py:511-557 | While someone speaks, a known speaker scores its part of 0.3 seconds, capped by the word and by one, and UNKNOWN minus its fixed cost; in silence UNKNOWN gets that cost, a speaker who bridges two of its own turns 0.05 more, and any other speaker zero. |
| `SpeakerScores.SupportingTurnDuration` | src/utteran/align.py:614-623 | The length of the longest turn of the speaker that overlaps the word, zero when there is none. |
| `SpeakerScores.SwitchCosts` | src/utteran/align.py:560-623 | A change of speaker costs 0.15 penalties after a pause of at least the threshold; below it 0.2 penalties if and only if both speakers are known, each scores 0.15 more than the other on its own word and has a turn of the minimum length over it, and the whole penalty otherwise; staying is free. |
| `SpeakerScores.PausedWordFollowsItsScores` | src/utteran/align.py:461-590 | In an optimal labelling no speaker scores over 0.15 penalties per neighbour more on a word that pauses set off from its neighbours than the one it got. |
| `SpeakerScores.LastChangePays` | src/utteran/align.py:461-590 | The words from the last change of speaker on score the new speaker higher than the one before by at least what the change costs. |
| `SpeakerScores.UnsupportedChangePaysInFull` | src/utteran/align.py:461-623 | In running speech, if a speaker is UNKNOWN or a margin or a long enough turn is missing, that gain is at least the whole penalty. |
| `SpeakerScores.BridgeIff` | src/utteran/align.py:544-557 | A silent word is bridged for a speaker if and only if the last turn before it and the first after it, by times and label, are the speaker's and both lie within the greatest gap. |
| `SpeakerScores.PenaltyScales` | src/utteran/align.py:511-623 | Emissions and the kind of a switch do not depend on the switch penalty, so the word chain scales with it. |
| `SpeakerScores.PenaltyReducesSwitching` | src/utteran/align.py:461-590 | Raising `speaker_switch_penalty` never increases the total switching weight of the chosen labels. |
| `SpeakerChanges.FillNeverAddsChanges` | src/utteran/align.py:193-292 | Filling a range with a label that occurs in it never increases the number of adjacent changes. |
| `SpeakerPasses.ProtectIdenticalTimestampGroups` | src/utteran/align.py:193-216 | Every maximal group of equal intervals takes its most frequent label, the leading one on a tie that it is part of; other words keep theirs, no change is added and no label is new. |
| `SpeakerPasses.SameIntervalSameSpeaker` | src/utteran/align.py:193-216 | Afterwards adjacent words with the same interval share a speaker. |
| `SpeakerPasses.EqualTimesTakeMajority` | src/utteran/align.py:193-216 | Words of equal start and end between words of other times get a label that none of them had more often before, the first one's on a tie. |
| `SpeakerPasses.SnapSegmentSpeakerBoundaries` | src/utteran/align.py:219-292 | Each original change is skipped or moved to its target boundary, in order; no change and no label is added, and only words within the snap distance of an original change differ. |
| `SpeakerPasses.TargetOffset` | src/utteran/align.py:219-310 | The nearest phrase boundary wins unless it is the current one, then the nearest token boundary; a target is a word boundary in reach and not the current one. |
| `SpeakerPasses.NearestBoundaryOffset` | src/utteran/align.py:295-310 | The closest tokenizer boundary in reach that is also a word boundary, the smaller offset on a tie, or none exactly when there is none. |
| `SpeakerPasses.SnapInertIff` | src/utteran/align.py:219-241 | Snapping is skipped if and only if it is off, the language does not start with ja in any case, no word has a kana or a CJK ideograph, or there are no token boundaries. |
| `SpeakerPasses.OffsetIsLength` | src/utteran/align.py:229-234 | The offset of a word boundary is the length of the text before it. |
| `SpeakerPasses.RecoverSupportedTrailingResponse` | src/utteran/align.py:321-360 | Exactly the longest tail of words that share over 0.15 seconds more with the best responding turn than with the current speaker takes its speaker, if a proper tail exists; the turn is of another speaker, lasts 0.2 to 1.5 seconds, starts two seconds or more after the first word and overlaps the last one most. |
| `SpeakerPasses.RecoveryAddsAtMostOneChange` | src/utteran/align.py:321-360 | Recovering a tail adds at most one speaker change. |
| `Alignment.FallbackSegmentBounds` | src/utteran/align.py:363-380 | With speech, the least part of the segment that contains all speech overlapping it; without, its start and as much as its characters take at the given rate, at least the minimum and at most the segment; never empty unless the segment is. |
| `Alignment.NonSpaceIsCount` | src/utteran/align.py:375-378 | The characters counted are the positions without white space. |
| `SpeechCoverage.UnionIntervals` | src/utteran/align.py:397-406 | The loop over the sorted intervals computes the fold that the union lemmas are about. |
| `SpeechCoverage.UnionCoversInputs` | src/utteran/align.py:397-406 | The union is sorted and strictly separated and covers exactly the points of its positive-length inputs. |
| `SpeechCoverage.SeparatedIsCanonical` | src/utteran/align.py:397-406 | Strictly separated lists that cover the same points are equal, so the union depends on nothing but the covered points. |
| `SpeechCoverage.DetectedSpeechCoverage` | src/utteran/align.py:383-394 | The double sum of overlaps over the two unions, divided by total speech, and one without speech. |
| `SpeechCoverage.CoverageIsAShare` | src/utteran/align.py:383-406 | Coverage lies in [0, 1] and is one exactly when every point of speech lies in a segment. |
| `SpeechCoverage.CoveredAdds` | src/utteran/align.py:383-394 | What is covered adds up over segments and over stretches of speech. |
| `SpeechCoverage.CoveredOne` | src/utteran/align.py:383-394 | Of one segment and one stretch of speech it is the length of what they share. |
| `SpeechCoverage.LengthAdds` | src/utteran/align.py:383-394 | The length of a list is the sum of the lengths of its parts. |
| `SpeechCoverage.LengthOne` | src/utteran/align.py:383-394 | The length of one interval is its end less its start. |
| `SpeechCoverage.CoverageScales` | src/utteran/align.py:383-394 | Coverage times the length of all speech is what the segments cover of it. |
| `AlignTypes.OverlapIsIntersection` | src/utteran/align.py:868-870 | Two intervals meet exactly in a stretch as long as their overlap, or in one point at most when it is zero. |
| `AlignTypes.SupportAdds` | src/utteran/align.py:511-557 | The time of a speaker over an interval is summed turn by turn, overlapping turns counted each. |
| `AlignTypes.SupportOfOne` | src/utteran/align.py:511-557 | For one turn it is the length of the intersection if the turn is the speaker's, and zero otherwise. |
| `AlignTypes.LabelOrderIff` | src/utteran/align.py:461-508 | Labels are compared by the first character in which they differ, and a prefix comes first. |
| `Alignment.AssignWordSpeaker` | src/utteran/align.py:437-458 | The speaker of a turn that covers the centre of the word, else of one of greatest positive overlap, else UNKNOWN; between several such turns the least by start, end and speaker decides. |
| `Alignment.SpeakerByTimes` | src/utteran/align.py:437-458 | The speaker is that of the first turn by start, end and label that starts by the middle of the word and ends after it, else of the first one that shares most time with it, and UNKNOWN exactly when no turn does either. |
| `SegmentEditing.SplitSegmentBySpeaker` | src/utteran/align.py:626-652 | The runs of equal labels when there is one label per word, the length error exactly otherwise. |
| `SegmentEditing.SplitPartitions` | src/utteran/align.py:626-652 | The runs' words, concatenated, are the segment's words, and their text is the join of the words. |
| `SegmentEditing.SplitMakesRuns` | src/utteran/align.py:626-652 | Adjacent runs differ in speaker, and each run's bounds and text are those of its words. |
| `SegmentEditing.SplitKeepsLabels` | src/utteran/align.py:626-652 | Every word is in a run of the label it was assigned. |
| `Alignment.DominantObservedSpeaker` | src/utteran/align.py:655-659 | The label with the most observed time, the greater label on a tie. |
| `Alignment.MergeAdjacentSameSpeaker` | src/utteran/align.py:662-684 | The loop computes the merge whose groups, speakers and words the next rows give. |
| `SegmentPasses.MergeConserves` | src/utteran/align.py:662-684 | Merging keeps all words and all text in order, and keeps words inside their segments' bounds. |
| `SegmentLaws.MergeCutsWhereApart` | src/utteran/align.py:662-684 | For every list the results combine consecutive groups: within one of several segments all share the result's speaker, have words and are certain, and each starts at most the greatest gap after an end before it; and the segment after a group has another speaker, no words or doubt on either side, or starts later than that after every end of it. |
| `SegmentLaws.MergeKeepsSpeakers` | src/utteran/align.py:662-684 | Merging leaves every word with the speaker it had. |
| `SegmentPasses.MergeIsComplete` | src/utteran/align.py:662-684 | With starts in order, no two adjacent results could still be merged. |
| `SegmentPasses.UnorderedStaysMergeable` | src/utteran/align.py:662-684 | Three segments with starts out of order whose two results could still be merged. |
| `SegmentPasses.ChooseNeighbour` | src/utteran/align.py:687-767 | The longer known neighbour, the left one on a tie, and none exactly when neither neighbour is known. |
| `SegmentEditing.SegmentList.AbsorbShortUnknownSegments` | src/utteran/align.py:687-718 | The list in place becomes the relabelling that the next two lemmas are about. |
| `SegmentPasses.UnknownIslands` | src/utteran/align.py:687-718 | Only short UNKNOWN segments change, and only their speaker, to that of a known neighbour. |
| `SegmentPasses.RemainingIslands` | src/utteran/align.py:687-718 | A short UNKNOWN segment is left only where the pass saw no known speaker on either side. |
| `SegmentLaws.IslandsJoinTheLongerSide` | src/utteran/align.py:687-718 | A segment changes if and only if it is UNKNOWN, is shorter than the least duration or has fewer characters than the least number without outer white space, and has an attributed segment on one side; it takes the speaker of the longer one, of the left one on a tie. |
| `SegmentLaws.StripTrims` | src/utteran/align.py:687-718 | Trimming leaves the stretch between the first and the last character that is not white space. |
| `SegmentEditing.SegmentList.AbsorbUnsupportedFragments` | src/utteran/align.py:721-767 | The loop with its backward steps ends, computes the absorption the next lemmas are about, and returns the drop in segment count. |
| `SegmentPasses.AbsorbConserves` | src/utteran/align.py:721-767 | Absorption keeps all words and all text in order and never adds a segment. |
| `SegmentPasses.AbsorbReachesFixpoint` | src/utteran/align.py:721-767 | At the end no unsupported fragment has a known-speaker neighbour. |
| `SegmentPasses.AbsorbIsIdempotent` | src/utteran/align.py:721-767 | A second pass changes nothing. |
| `SegmentPasses.AbsorbKeepsUnattributed` | src/utteran/align.py:721-767 | Segments without a known speaker are neither touched nor created. |
| `SegmentLaws.NothingLeftToAbsorb` | src/utteran/align.py:721-767 | At the end no attributed segment that is short in time and in characters and hardly supported by its speaker's turns has an attributed segment beside it. |
| `SegmentLaws.SupportedWordsKeepTheirSpeaker` | src/utteran/align.py:721-767 | Every word of any other segment keeps its speaker. |
| `SegmentLaws.AbsorbCombines` | src/utteran/align.py:721-767 | Each result has the words, the text and the least bounds of consecutive segments, is doubtful exactly when one of them is, and the groups put together are the list. |
| `SegmentEditing.SegmentList.ReassessSandwichedFragments` | src/utteran/align.py:770-797 | The list in place becomes the reassessment the next lemma is about. |
| `SegmentPasses.ReassessFavoursTurns` | src/utteran/align.py:770-797 | A segment changes if and only if it lasts at most two seconds and touches two neighbours who share a speaker, whose turns cover it at least 0.15 seconds more than its own, which cover less than a quarter; then it takes their speaker and nothing else. |
| `SegmentLaws.ReassessedIff` | src/utteran/align.py:770-797 | The same with every threshold, time and share of turns spelled out. |
| `SegmentEditing.SegmentList.RenumberInAppearanceOrder` | src/utteran/align.py:830-839 | Every known label is replaced in place by the name of its rank of first appearance. |
| `SegmentPasses.SpeakerNamesDiffer` | src/utteran/align.py:830-839 | Different ranks have different names, and none is UNKNOWN. |
| `SegmentPasses.RenumberingIsInjective` | src/utteran/align.py:830-839 | Two segments share a speaker after renumbering exactly when they did before, and stay known or unknown. |
| `Alignment.RenumberedAppear` | src/utteran/align.py:830-839 | The new names appear in the order of their numbers. |
| `Alignment.EditingConserves` | src/utteran/align.py:125-129 | The passes between splitting and renumbering, taken together, keep all words and all text in order. |
| `SegmentLaws.EditedInStages` | src/utteran/align.py:38-170 | The passes run in this order: islands join, fragments are absorbed, sandwiched segments are reassessed, neighbours are merged, each doing what its rows above say. |
| `Alignment.AlignTranscription` | src/utteran/align.py:38-170 | The whole pipeline: the output words are the input words in order, text is retold, every segment has a speaker, the labels were optimal, each segment was split as its passes say, and the length error does not occur. |
| `Alignment.LabelsAreDealtOut` | src/utteran/align.py:38-170 | Every segment gets as many labels as it has words, and together they are the labels of all words in order. |
| `Alignment.RetellingIsFaithful` | src/utteran/align.py:38-170 | Text is conserved when each high-confidence segment with words has the join of its words as text. |
| `EditDistance.TwoRows` | src/utteran/benchmark.py:227-244 | The two-row loop computes the last cell of the full table. |
| `EditDistance.CharacterErrorRate` | src/utteran/benchmark.py:227-244 | An empty reference is an error; otherwise the rate times the reference length is the distance of the normalised texts. |
| `EditDistance.DistanceIsMinimum` | src/utteran/benchmark.py:227-244 | The distance is the least cost of any script of insertions, deletions and substitutions, and some script has it. |
| `EditDistance.DistanceIsSymmetric` | src/utteran/benchmark.py:227-244 | Swapping reference and hypothesis keeps the distance. |
| `EditDistance.TriangleInequality` | src/utteran/benchmark.py:227-244 | Going through a third text is never shorter. |
| `EditDistance.DistanceRange` | src/utteran/benchmark.py:227-244 | Zero exactly for equal texts, between the length difference and the longer length. |
| `RollingMatch.HashOf` | tools/private_history_match.py:72-76 | The loop computes the rolling hash of a prefix. |
| `RollingMatch.MaskedPolynomial` | tools/private_history_match.py:72-76 | Masking to 64 bits at every step gives the polynomial of the window modulo 2^64. |
| `RollingMatch.Slide` | tools/private_history_match.py:184-192 | Taking the leaving byte out and the entering one in gives the hash of the next window, modulo 2^64. |
| `RollingMatch.Hashed` | tools/private_history_match.py:60-69 | No pattern for an empty value; otherwise length, digest and rolling value of that value. |
| `RollingMatch.HitsAreOccurrences` | tools/private_history_match.py:171-193 | For a pattern built from a value, the windows that pass both comparisons are exactly its occurrences. |
| `RollingMatch.NoWindowIsMissed` | tools/private_history_match.py:171-193 | Over all windows the occurrences are all positions of the text at which the value stands, up to the last one. |
| `RollingMatch.GroupByLength` | tools/private_history_match.py:173-175 | Every pattern is in the group of its length and rolling value, once. |
| `RollingMatch.GroupingLosesNothing` | tools/private_history_match.py:171-193 | Summing by length and window counts the same hits as summing by pattern. |
| `RollingMatch.ScanLength` | tools/private_history_match.py:177-192 | One scan adds exactly the hits of all patterns of that length, over every window including the last. |
| `RollingMatch.Match` | tools/private_history_match.py:171-193 | Every category gets exactly the count of the naive scan of every pattern against every window; no category has a zero entry. |
| `RollingMatch.CountsAreNaive` | tools/private_history_match.py:171-193 | Counting by hash and digest equals counting substring occurrences. |
| `DeltaGate.CommonPaths` | tools/public_history_delta.py:284-286 | Exactly the paths that changed against every parent. |
| `DeltaGate.OldKeys` | tools/public_history_delta.py:287-302 | The content keys of every old file version, the path keys granted by the old sides, and a failure exactly when an old gitlink has to be read. |
| `DeltaGate.CommitFindings` | tools/public_history_delta.py:273-313 | Exactly the findings that a commit introduces against all its parents, once each; it fails exactly when some changed path is unreadable. |
| `DeltaGate.AllFindings` | tools/public_history_delta.py:316-334 | The findings of all new commits, complete and without repeats. |
| `DeltaGate.RunGate` | tools/public_history_delta.py:316-348 | When there is a report and what it counts; the blocking count is zero exactly for an empty list. |
| `DeltaGate.ContentHasAnOrigin` | tools/public_history_delta.py:273-334 | Completeness: every blocking key in a file of a new commit is reported at some new ancestor or was at that path in a trusted ancestor. |
| `DeltaGate.CleanGateAddsNoContent` | tools/public_history_delta.py:273-334 | A clean gate means every key in a new tree comes from a trusted commit that reaches it. |
| `DeltaGate.NewPathFindingIsReported` | tools/public_history_delta.py:289-312 | A path key that no parent has is introduced if and only if no gitlink masks it. |
| `DeltaGate.PathFindingHasAnOrigin` | tools/public_history_delta.py:289-334 | Completeness for path keys, with masking gitlinks as the only other origin. |
| `DeltaGate.MaskedGitlinkExample` | tools/public_history_delta.py:289-312 | A history in which the gate reports nothing although a path key is new. |
| `StageCache.DependentsAreDescendants` | src/utteran/jobs.py:33-39 | The dependents table lists exactly the transitive descendants in the stage graph. |
| `StageCache.AsrHashDecidesTranscript` | src/utteran/jobs.py:772-816 | Configurations with the same ASR hash give the same transcript on every engine if and only if, where timestamps depend on it, they agree on diarization. |
| `StageCache.RightIff` | src/utteran/jobs.py:772-816 | An artifact is the from-scratch one on every engine if and only if its transcript was made with diarization as configured, where that matters, and its merge had the turns if diarization is on. |
| `StageCache.HashesTellApart` | src/utteran/jobs.py:772-816 | The hash of a stage changes if and only if the input or the settings of the stage or of one before it change. |
| `StageCache.TimestampsLeftOut` | src/utteran/pipeline.py:578-592 | Word timestamps are not requested if and only if the backend is whisper.cpp and they are off, or automatic while diarization is off. |
| `StageCache.Job.Open` | src/utteran/jobs.py:102-121 | A reopened job has exactly its saved records, with a running stage back to pending. |
| `StageCache.Job.Reconcile` | src/utteran/jobs.py:266-282 | Exactly the stages that are stale or have a stale ancestor become pending, and that is saved. |
| `StageCache.Job.ExecuteStage` | src/utteran/pipeline.py:390-455 | Whatever the moment of a crash, failure or cancel, no record says done without its artifact of that hash, and other stages keep theirs. |
| `StageCache.Job.AudioStage` | src/utteran/pipeline.py:247-264 | Reuses or executes the stage as its record says and keeps every done artifact right. |
| `StageCache.Job.AsrStage` | src/utteran/pipeline.py:266-292 | A returned transcript is what its hash stands for, made with diarization as it was when it was executed. |
| `StageCache.Job.DiarizationStage` | src/utteran/pipeline.py:294-340 | The turns are the from-scratch ones unless an enabled stage's artifact was there at the check and lost at the load, and then they are not. |
| `StageCache.Job.MergeStage` | src/utteran/pipeline.py:342-361 | A stored result is loaded as it was made; an executed merge combines the transcript and turns given, also when those were lost. |
| `StageCache.Job.ExportStage` | src/utteran/pipeline.py:363-386 | Reuses or executes the export as its record says, lists artifacts exactly if there are formats, and keeps every done artifact right. |
| `StageCache.Job.Run` | src/utteran/pipeline.py:140-387 | A run executes, in order, the stages that are stale or lost before they are decided on, all of them when it returns and a prefix when it stops; it returns when every execution finishes and the audio stays; its result is what the merge hash stands for, given how transcript and merge came about. |
| `StageCache.ArtifactsAtHand` | src/utteran/pipeline.py:227-387 | After a run that returned, every artifact at hand is the one of its stage and configuration, given how it came about. |
| `StageCache.Session` | src/utteran/pipeline.py:140-387 | Over any sequence of runs with changing configurations, crashes, failures, cancels and losses at any moment, each run executes what is due, and its result and its artifacts at hand are accounted for by how they came about; when diarization is not switched where the transcript depends on it, no transcript hides a switch. |
| `StageCache.RepeatExecutesNothing` | src/utteran/jobs.py:266-291 | After a run that returned without losses, a run of the same configuration without force and losses executes nothing; an export without formats is executed again. |
| `StageCache.ResultIsRightIff` | src/utteran/pipeline.py:294-361 | From artifacts that are right or due, a run that returns gives the from-scratch result on every engine if and only if it does not execute the merge after an enabled diarization artifact went missing between check and load. |
| `StageCache.SessionResultIff` | src/utteran/pipeline.py:140-387 | In a session, a run that returns and whose transcripts hide no switch has the from-scratch result on every engine if and only if diarization is off or the run that made the merge, this one or an earlier one, also one that stopped later, did not lose the turns between check and load. |
| `StageCache.SwitchedDiarization` | src/utteran/pipeline.py:578-592 | Two runs that differ only in whether diarization is enabled, of which the second returns something else than a run from scratch. |
| `StageCache.LostTurns` | src/utteran/pipeline.py:294-361 | For every configuration with diarization on, two runs of which the second loses the turns between check and load and the merge before, and returns something else than a run from scratch. |
| `WorkerStream.EventSequence.AcceptEvent` | src/utteran_contracts/worker_state.py:38-81 | The fields after an accepted event, and the error code with unchanged fields after a refused one. |
| `WorkerStream.AcceptsTheLanguage` | src/utteran_contracts/worker_state.py:38-81 | The client accepts exactly: hello, then one early error, or accepted, then progress and acknowledgements up to one terminal event, with consecutive numbers; its fields tell where it is. |
| `WorkerStream.WorkerSpeaksTheProtocol` | src/utteran/worker.py:26-102 | In every interleaving, with the error code chosen before the lock is taken, the worker's output is in that language and ends in one terminal event, whose kind the exit status tells; a cancelled end was acknowledged. |
| `WorkerStream.CompletedWithoutControlError` | src/utteran/worker.py:86-102 | In every interleaving the stream ends in completed if and only if the worker exited with zero, and then no control error was ever recorded. |
| `WorkerStream.ControlErrorDecides` | src/utteran/worker.py:57-102 | A control error recorded before the code is chosen is kept, and once the worker has exited, its status is one and its last event an error with exactly that code. |
| `WorkerStream.ChosenCodeIsSent` | src/utteran/worker.py:93-102 | A failing execution ends with the first control error recorded when the code is chosen, else with its own code, whatever is recorded later. |
| `WorkerStream.FinishEffect` | src/utteran/worker.py:86-92 | An execution that returns completes the stream with status zero exactly if no control error is recorded. |
| `WorkerStream.ControlEffect` | src/utteran/worker.py:57-84 | A cancel for the worker's ids is acknowledged and read on; anything else ends the control thread, cancels the execution and records its code, a mismatch for other ids, unless one is recorded; after a terminal event nothing happens. |
| `WorkerStream.AcknowledgementsAnswerCancels` | src/utteran/worker.py:57-84 | Acknowledgements are never more than the cancels that the client wrote for the request. |
| `WorkerStream.CarefulClientNeverRaises` | src/utteran_gui/worker_client.py:320-336 | A client that marks a cancel before it writes it, with the worker's profile, never raises, and ends with the worker's last event. |
| `WorkerStream.OtherwiseSomeRunRaises` | src/utteran_contracts/worker_state.py:38-81 | Both conditions are needed: without either there is an interleaving, in an order a client can have, in which it raises. |
| `EventLog.EventStore.Record` | src/utteran_control/store.py:641-702 | A record appends one event with the operation's next revision, and the operation has that revision and status and is final or in need of recovery as recorded. |
| `EventLog.EventStore.QueueChanged` | src/utteran_control/store.py:704-716 | A queue change appends one event with the queue's next revision. |
| `EventLog.EventStore.CompactionLimit` | src/utteran_control/events_repository.py:149-162 | The greatest number that leaves the newest rows, goes no further above the floor than one call may, and has only rows recorded before the cutoff up to it. |
| `EventLog.EventStore.Compact` | src/utteran_control/events_repository.py:131-189 | Refused exactly for bad arguments; otherwise the floor rises to that greatest number if it is above it, exactly the rows between them go that are of the queue or of final operations that need no recovery, and the report counts them; any such row above the old floor that stays is young or behind a young row, among the newest, or beyond what one call may delete. |
| `EventLog.CompactionRetains` | src/utteran_control/events_repository.py:131-189 | Every row above the floor stays, protected rows stay, and the floor never falls. |
| `EventLog.ProtectedRowsStay` | src/utteran_control/events_repository.py:131-189 | A row kept at or below the floor survives every later compaction and stays below the floor. |
| `EventLog.EventStore.ReadEvents` | src/utteran_control/store.py:1348-1397 | Expired exactly below the floor, invalid exactly above the end; otherwise exactly the matching rows up to the next cursor in order, and there are more exactly if the page is full and another matching row follows. |
| `EventLog.EventReducer.ApplySyncPage` | src/utteran_contracts/events.py:113-121 | The fields after a page of a snapshot. |
| `EventLog.OtherEpochStartsOver` | src/utteran_contracts/events.py:113-121 | A sync of another epoch gives what it gives to an empty client, except for the queue revision. |
| `EventLog.EventReducer.ApplyResourceGet` | src/utteran_contracts/events.py:123-129 | A resource is taken exactly when it is newer than what is known. |
| `EventLog.EventReducer.ApplyEventRow` | src/utteran_contracts/events.py:131-145 | Resync exactly for another epoch, duplicate exactly when seen or at or below the cursor, stale exactly when the resource is known at that revision or a later one, and applied otherwise. |
| `EventLog.SyncKeepsKnowledge` | src/utteran_control/events_repository.py:239-260 | All pages of a snapshot, however old by then, keep the client's knowledge and bring its cursor to the snapshot's. |
| `EventLog.FirstSyncForgets` | src/utteran_contracts/events.py:113-129 | After the first sync each resource is known at exactly the revision of the snapshot, whatever a read had shown before. |
| `EventLog.RolledBackExample` | src/utteran_contracts/events.py:113-129 | A run of two records, a read of the second and the first sync of an older snapshot, after which the client knows a lower revision than before. |
| `EventLog.LaterSyncKeepsRevisions` | src/utteran_contracts/events.py:113-129 | A later sync in the same epoch never lowers a revision and reaches that of the snapshot. |
| `EventLog.GapKeepsKnowledgeIff` | src/utteran_contracts/events.py:131-145 | An event after a gap keeps knowledge if and only if each skipped event is of its resource or already known. |
| `EventLog.SwappedEventsAgreeIff` | src/utteran_contracts/events.py:97-145 | Two neighbouring events in the wrong order give the same state if and only if the first may be skipped. |
| `EventLog.SwappedExample` | src/utteran_contracts/events.py:131-145 | Two events of different operations that give both revisions in order and lose one when swapped. |
| `EventLog.EveryRunKeepsKnowledge` | src/utteran_contracts/events.py:97-145 | In every one-epoch run of appends, compactions, syncs, deliveries and gets, also gets before the first sync: the rows above the floor are there, the client knows for each resource a real revision at least as new as any up to its cursor, and a caught-up client equals the server. |
| `ListSnapshots.Registry.Purge` | src/utteran_control/job_repository.py:164-166 | Exactly the entries younger than the time to live stay, in order. |
| `ListSnapshots.Registry.Put` | src/utteran_control/job_repository.py:168-178 | The shortest oldest-first prefix is evicted after which the capacity and the item total have room for the new snapshot, which is last. |
| `ListSnapshots.PutRespectsBounds` | src/utteran_control/job_repository.py:168-178 | After a put the entry bound holds iff it is positive, the item bound iff the new snapshot fits it. |
| `ListSnapshots.Registry.Get` | src/utteran_control/job_repository.py:180-189 | The retained snapshot of that id and scope; expired exactly when none has the id, refused only for another scope. |
| `ListSnapshots.Registry.FirstPage` | src/utteran_control/job_repository.py:380-396 | The first slice of the jobs at hand; only a listing with more pages is retained. |
| `ListSnapshots.Registry.NextPage` | src/utteran_control/job_repository.py:357-379 | A later slice of a snapshot retained for less than the time to live, expired exactly when there is none of that id, or refused. |
| `ListSnapshots.PageShows` | src/utteran_control/job_repository.py:344-355 | A page shows the items from its offset on, at most the limit, and has a cursor to the next one exactly if there is one. |
| `ListSnapshots.Follow` | src/utteran_control/job_repository.py:344-396 | Following the cursor to the end, while others list and read pages in between, returns the jobs of the snapshot once each and in order, or a prefix of them and expiry, the latter if and only if the snapshot is no longer retained at a page that is still needed. |
| `ListSnapshots.SurvivesIff` | src/utteran_control/job_repository.py:164-178 | A retained snapshot outlives another reader's call if and only if it is younger than the time to live when that call purges and, for a listing that is retained, there is room beside it and the later ones. |
| `ListSnapshots.QuietRetains` | src/utteran_control/job_repository.py:164-189 | Without others in between and with pages read within the time to live, the snapshot stays. |
| `ControlTables.FinalStatuses` | src/utteran_control/transitions.py:16-86 | The final statuses are exactly those that neither wait nor hold the slot. |
| `JobCommands.CheckJob` | src/utteran_control/job_repository.py:599-606 | No error exactly when the job exists, has a snapshot and is at the expected revision. |
| `JobStore.JobControlStore.AcceptBatch` | src/utteran_control/job_repository.py:546-595 | A batch is refused, replayed, or inserted at the end of the queue and remembered. |
| `JobStore.JobControlStore.CancelJob` | src/utteran_control/job_repository.py:608-641 | A waiting job ends, a running one starts to cancel, any other stays as it is. |
| `JobStore.JobControlStore.RetryJob` | src/utteran_control/job_repository.py:643-665 | A retryable job gets one new job with its snapshot, linked to it. |
| `JobStore.JobControlStore.BlockJob` | src/utteran_control/job_repository.py:667-683 | A waiting job is blocked and stays held if it was. |
| `JobStore.JobControlStore.RevalidateJob` | src/utteran_control/job_repository.py:685-722 | A blocked job returns to held or queued; a failed validation leaves no trace. |
| `JobStore.Move` | src/utteran_control/job_repository.py:749-755 | One update loop gives the items the listed places, and no place is taken twice at any step. |
| `JobStore.Replace` | src/utteran_control/job_repository.py:749-755 | Parking at negative places first makes both loops keep places unique although the places are permuted. |
| `JobStore.JobControlStore.Reorder` | src/utteran_control/job_repository.py:726-757 | A listing of exactly the waiting items becomes the queue order; anything else is refused. |
| `JobStore.JobControlStore.HoldItem` | src/utteran_control/job_repository.py:759-793 | Holds or releases a waiting item at the expected queue revision. |
| `JobStore.JobControlStore.SetHold` | src/utteran_control/store.py:1174-1223 | Holds or releases a waiting operation at its expected revision; with a key, the answer is remembered and replayed. |
| `JobStore.JobControlStore.SetDispatch` | src/utteran_control/store.py:1265-1314 | Starts or stops dispatch at the expected queue revision; with a key, the answer is remembered and replayed. |
| `JobStore.JobControlStore.NextDispatchable` | src/utteran_control/job_repository.py:813-828 | A named job would be granted to any owner; without a hint no job would be granted to anyone. |
| `JobStore.JobControlStore.BeginAttempt` | src/utteran_control/store.py:1035-1106 | Takes the free slot for the job with a fresh fence and a launch intent, or says why not. |
| `JobStore.JobControlStore.RecordLaunch` | src/utteran_control/store.py:1121-1158 | Only the fenced attempt's intent becomes confirmed or failed. |
| `JobStore.JobControlStore.FinishAttempt` | src/utteran_control/job_repository.py:830-888 | The step-by-step store does what `JobEffects.FinishEffect` says. |
| `JobStore.JobControlStore.FlagUnconfirmed` | src/utteran_control/job_repository.py:890-904 | Flags the fenced job and keeps the slot. |
| `JobStore.JobControlStore.Recover` | src/utteran_control/store.py:1463-1565 | Holds what waits and ends or flags the active job as decided for its own fence. |
| `JobStore.JobControlStore.Transition` | src/utteran_control/store.py:934-1033 | The generic transition, replayed under a known key, refused for a reserved reason or by a guard, or performed. |
| `JobStore.JobControlStore.Submit` | src/utteran_control/store.py:901-932 | A submission without a snapshot becomes a queued operation under its key; a repeat gets the first answer. |
| `JobInvariants.CommandKeeps` | src/utteran_control/job_repository.py:546-904 | Every command keeps the tables consistent, takes only steps of the transition table or from held to blocked, raises the revision with every change, never alters a final operation or a remembered answer, and never drops a result. |
| `JobInvariants.RefusalChangesNothing` | src/utteran_control/store.py:850-1314 | A command that is refused, or answered from its key, leaves every table as it was. |
| `JobInvariants.OnlyBlockLeavesTheTable` | src/utteran_control/job_repository.py:667-683 | A command changes a status outside the transition table if and only if it is an accepted `block_job` of a held job. |
| `JobInvariants.ReorderGivesTheOrder` | src/utteran_control/job_repository.py:726-757 | The waiting items end in the requested order with places still unique, and nothing but their places changes. |
| `JobEffects.FinishEffect` | src/utteran_control/job_repository.py:830-888 | Accepted exactly for job and fence of the lease, with evidence exactly for a success: a running job succeeds on success and fails on failure or a cancelled worker, a cancelling one fails on failure and is cancelled otherwise; it leaves queue and slot, and a result of its attempt is linked exactly if it succeeds. |
| `JobEffects.BeginEffect` | src/utteran_control/store.py:1035-1106 | Granted exactly for a queued job at its revision whose item is the first that waits unhindered, while dispatch runs and the slot is free; the whole new state. |
| `JobEffects.LaunchEffect` | src/utteran_control/store.py:1121-1158 | Accepted exactly for the fenced attempt whose launch is intended; the whole new state. |
| `JobEffects.FlagEffect` | src/utteran_control/job_repository.py:890-904 | Accepted exactly for the fenced job, which is flagged once and keeps slot and queue item. |
| `JobEffects.SubmitEffect` | src/utteran_control/store.py:901-932 | A valid submission appends one operation without a snapshot behind every item of the queue. |
| `JobEffects.AcceptEffect` | src/utteran_control/job_repository.py:546-595 | Accepted exactly for one to a hundred snapshots whose source, if any, is a finished job; one queued job for each, in order and behind every item of the queue, and nothing else changes. |
| `JobEffects.CancelEffect` | src/utteran_control/job_repository.py:608-641 | A waiting job is cancelled and leaves the queue, a running one starts to cancel where it is, any other stays. |
| `JobEffects.RetryEffect` | src/utteran_control/job_repository.py:643-665 | Accepted exactly for a failed, cancelled or interrupted job at its revision; appends one job with the same snapshot that names it, and leaves it as it is. |
| `JobEffects.BlockEffect` | src/utteran_control/job_repository.py:667-683 | Accepted exactly for a waiting job at its revision, which is blocked with its hold kept; a blocked one stays as it is. |
| `JobEffects.RevalidatedEffect` | src/utteran_control/job_repository.py:685-722 | Accepted exactly for a valid blocked job at its revision, which is held again if it was and queued otherwise. |
| `JobEffects.ReorderEffect` | src/utteran_control/job_repository.py:726-757 | Accepted exactly for a listing of all waiting items, each once, at the queue revision; places ascend along it, nothing else changes, and the queue revision rises exactly if they did not before. |
| `JobEffects.HoldItemEffect` | src/utteran_control/job_repository.py:759-793 | Accepted exactly for a waiting item at the queue revision; the hold is set, a block is kept and the status follows; no change for the same hold. |
| `JobEffects.SetHoldEffect` | src/utteran_control/store.py:1174-1223 | Accepted exactly for a waiting operation at its revision with another hold; the same effect. |
| `JobEffects.DispatchEffect` | src/utteran_control/store.py:1265-1314 | Accepted exactly at the queue revision; the switch is set and the revision rises exactly if it changes. |
| `JobEffects.TransitionEffect` | src/utteran_control/store.py:934-1033 | The exact guard of a generic transition by statuses, fence and hold, and what it changes for each source and target. |
| `JobEffects.RecoverEffect` | src/utteran_control/store.py:1463-1565 | Dispatch stops, every waiting item is held and a queued job with it, the lease holder loses the slot exactly if interrupted and is flagged exactly if recovery is required, and the queue revision rises exactly if one of these happened. |
| `JobEffects.FlagsDiffer` | src/utteran_control/store.py:1463-1565 | Each reason for which recovery is required has a flag of its own, and none is that of an unconfirmed exit. |
| `JobEffects.TableIsSources` | src/utteran_control/transitions.py:29-86 | The transition table by target: from which statuses each status is reached. |
| `JobOutcomes.AnswersShowTheState` | src/utteran_control/job_repository.py:259-327 | Every answer shows the rows of its job, the new jobs or the queue as the command leaves them, with the status code of its kind. |
| `JobOutcomes.RefusalsAreMeant` | src/utteran_control/store.py:850-1314 | Every refusal means what it says about the tables, and no command finds consistent tables corrupt. |
| `JobOutcomes.DigestsTellRequestsApart` | src/utteran_control/job_repository.py:409-495 | Digests under a key are equal exactly for the same command with the same arguments. |
| `JobRuns.EveryStateIsConsistent` | src/utteran_control/job_repository.py:546-904 | In every run a waiting job's status is determined by its flags, the active job is exactly the lease holder, and a result belongs to a succeeded job. |
| `JobRuns.FinalStays` | src/utteran_control/transitions.py:29-86 | A final job never changes again. |
| `JobRuns.CancellingNeverSucceeds` | src/utteran_control/job_repository.py:830-888 | A job that was ever cancelling never succeeds and never has a result. |
| `JobOutcomes.ResultIffCompleted` | src/utteran_control/job_repository.py:830-888 | In every run a job has a result if and only if a fenced success with evidence found it running; no other command links one, and none changes one. |
| `JobOutcomes.FinishedForGood` | src/utteran_control/job_repository.py:830-888 | The status that an accepted finish gives by ending and by status before is kept for good. |
| `JobRuns.SucceededHasResult` | src/utteran_control/store.py:934-1033 | A succeeded job lacks a result if and only if some state met the guard of a generic transition of it to succeeded that was then given, with a free key. |
| `JobRuns.TransitionCanSucceedUnlinked` | src/utteran_control/store.py:934-1033 | That guard is met by the lease holder of any running job. |
| `JobRuns.HintAgreesWithGuard` | src/utteran_control/job_repository.py:797-828 | The hint names a job and revision if and only if `begin_attempt` would grant them. |
| `JobRuns.GrantTakesFirstEligible` | src/utteran_control/job_repository.py:797-811 | A grant needs running dispatch and a free slot, and no eligible item stands before the job. |
| `JobRuns.RepeatsGetTheFirstAnswer` | src/utteran_control/job_repository.py:409-445 | For every command with a key, the generic ones included: a repeat at any later time changes nothing and returns the first response, another digest under the key conflicts, and a batch outside the size limit is refused. |
| `JobRuns.FreshKeysAreDistinct` | src/utteran_control/job_repository.py:409-495 | No key is accepted as new twice. |
| `JobRuns.JobsAreAccountedFor` | src/utteran_control/job_repository.py:510-665 | The number of jobs is the sum of the sizes of newly accepted batches plus newly accepted retries. |
| `Recovery.InterruptsOnEvidenceOnly` | src/utteran_control/recovery.py:48-84 | An attempt is interrupted if and only if its owner is reported gone and its launch failed or its confirmed child is reported gone too; a verifier that raises is no evidence. |
| `Recovery.DecisionsByEvidence` | src/utteran_control/recovery.py:48-84 | The observations that lead to each other decision: a living owner keeps the slot, and each reason for which recovery is required. |
| `HeavySlot.NextKeeps` | src/utteran_control/store.py:1035-1158 | Every step of dispatchers, children, crashes, recoveries (also of leases not read in time) and other commands, also a failed launch that could not be reported, keeps the slot invariant, and one that frees the slot leaves no child. |
| `HeavySlot.AtMostOneWorker` | src/utteran_gui/job_dispatcher.py:207-347 | With a verifier that says gone only of absent processes, no reachable state has two live workers, and a live one means the slot is taken by an active job. |
| `HeavySlot.SlotFreedOnlyWhenEmpty` | src/utteran_control/store.py:1463-1565 | The slot is given up only when no worker lives. |
| `HeavySlot.DispatcherCanFinish` | src/utteran_gui/job_dispatcher.py:207-347 | From every reachable state a running dispatcher whose worker has exited frees the slot in two steps. |
| `HeavySlot.RecoveryFreesIff` | src/utteran_control/recovery.py:48-84 | An honest recovery can free the slot if and only if the dispatcher is gone and its launch failed or its confirmed worker has exited. |
| `HeavySlot.RecoveryFrees` | src/utteran_control/store.py:1463-1565 | Such a recovery reads, judges and commits, and the slot is free with no worker left. |
| `HeavySlot.OneJobRuns` | src/utteran_gui/job_dispatcher.py:207-347 | There are runs from a batch through a running worker to a free slot with the result of the job. |
| `DerScoring.MidpointIsExact` | src/utteran/diarization_quality.py:255-286 | The speaker at the midpoint of an elementary interval is the speaker at all its points. |
| `DerScoring.FirstTalks` | src/utteran/diarization_quality.py:282-286 | The speaker at a timestamp is that of the first listed turn of a known speaker that contains it. |
| `DerScoring.KindsBySpeakers` | src/utteran/diarization_quality.py:255-279 | A sample is missed, a false alarm, silence or correct by who is sampled on either side and the mapping, and confused otherwise. |
| `DerScoring.DerComponents` | src/utteran/diarization_quality.py:243-279 | The four totals are the seconds of their kinds over the elementary intervals between zero, the duration and all endpoints, and the rate is their error relative to reference time, zero without any. |
| `DerScoring.ReferenceIsPartitioned` | src/utteran/diarization_quality.py:243-279 | Missed, confused and correct time make up the reference time. |
| `DerScoring.MappingMovesConfusionOnly` | src/utteran/diarization_quality.py:243-295 | A mapping moves time only between confused and correct. |
| `DerScoring.WeightIsPairSeconds` | src/utteran/diarization_quality.py:183-195 | For disjoint turns the overlap weight of a pair is the time the two are sampled together. |
| `DerScoring.BestArrangement` | src/utteran/diarization_quality.py:201-217 | The running best over all permutations has the greatest score of any arrangement. |
| `DerScoring.BestBeatsEveryMapping` | src/utteran/diarization_quality.py:201-217 | No injective partial mapping gets more time right than the best full arrangement. |
| `DerScoring.OptimalSpeakerMapping` | src/utteran/diarization_quality.py:178-240 | Injective; for disjoint turns with at most eight speakers on either side no injective partial mapping has less error, and with more it is the greedy mapping and none gets more than twice as much time right. |
| `GreedyMatching.GreedyMapping` | src/utteran/diarization_quality.py:221-240 | Takes the pairs in descending order of weight and labels as the specification function does, and then every pair of speakers not taken comes after a taken one that shares a speaker with it. |
| `GreedyMatching.LaterPairsAreLeftOut` | src/utteran/diarization_quality.py:221-240 | For every pair of speakers the mapping has one of the two in a pair of greater weight, or of equal weight and no smaller label. |
| `GreedyMatching.GreedyIsUnique` | src/utteran/diarization_quality.py:221-240 | Only one mapping has that property. |
| `GreedyMatching.GreedyHasHalf` | src/utteran/diarization_quality.py:221-240 | No injective mapping weighs more than twice the greedy one. |
| `GreedyMatching.OneSpeakerIsEnough` | src/utteran/diarization_quality.py:221-240 | With at most one speaker on a side, no mapping weighs more than the greedy one. |
| `MappingLimits.MappingIsOptimalIff` | src/utteran/diarization_quality.py:178-240 | Every pair of diarizations without overlapping turns that has `p` and `q` speakers gets a mapping of least error if and only if both numbers are at most eight or one of them is at most one. |
| `MappingLimits.MissedMapping` | src/utteran/diarization_quality.py:178-240 | For all other numbers, two diarizations whose returned mapping is not of least error. |
| `DerScoring.RenamingKeepsError` | src/utteran/diarization_quality.py:178-218 | Renaming the hypothesis speakers one to one does not change the error of the best mapping. |
| `DerScoring.KnownSpeakers` | src/utteran/diarization_quality.py:174-175 | The distinct known speakers, in order. |

## Left out

Across the model:

- SQL, SQLite, migrations and schema validation. Tables are maps and sequences; a transaction is one step that is rolled back when it raises.
- HMAC, SHA-256 and JSON encoding. Digests and hashes are free terms, so they are injective; list cursors arrive authenticated.
- Progress callbacks, statistics, timings, logging and rounding to six digits.
- Clocks, process identities and generated identifiers are parameters or counters.

Alignment and scoring:

- Sudachi tokenisation. The boundary sets are arbitrary input, or absent.
- SegmentPasses.MergeIsComplete: requires starts in order, because the code does not sort and a later segment can reach back over a gap (`SegmentPasses.UnorderedStaysMergeable`); `SegmentLaws.MergeCutsWhereApart` holds for every order.
- SpeakerPasses.ProtectIdenticalTimestampGroups: on a tie that the leading label is not part of, any most frequent label is allowed, because the code then takes the iteration order of a set.
- DerScoring.DerComponents: the placeholder of an unmapped hypothesis speaker is taken to be no reference label.
- The accuracy and speed scores and the other quality figures of a diarization report.

Stage cache:

- The contents of presentation and export files, the input path and creation time inside a result, and undetected corruption of an artifact.
- The job lock. There is one process per job.
- The backends. ffmpeg, ASR and diarization are arbitrary deterministic functions.

Control plane:

- Setup and refresh operations, lease renewal, block reasons and error codes.
- HeavySlot.AtMostOneWorker: a generic transition that gives the fencing token is not among the other commands. It would let its caller free the slot while a worker runs; no dispatcher does that.
- A queue item shares its number with its operation. Events of the job tables are modelled on their own in `EventLog`.
- EventLog.EveryRunKeepsKnowledge: stays in one epoch, because the reducer does not reset the queue revision when the epoch changes.
- WorkerStream: failing reads and writes, partial lines, timeouts and killed processes.

Repository tools:

- Bot-trailer stripping of commit messages and the resolution of references. Messages arrive without exempt trailers; the listing of new commits arrives in any order.
- Hexadecimal encoding of the stored rolling value and reading the pattern file.
- Commits are numbered so that parents come first, which makes the graph finite and acyclic.

Nothing was executed; all statements are about the model.
