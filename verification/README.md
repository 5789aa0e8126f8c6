# Spettro's file tools and run loop, verified

Spettro is a coding agent. This project models the engine behind its file tools and
its main loop (`internal/agent`, with the goal loops of `internal/acp` and
`cmd/spettro`) in Dafny and proves what the engine relies on. The surroundings are
adversaries: the provider, the model, the user, outside writers, the scheduler and the
clock may do anything that is not ruled out in a `requires` clause or a `Possible`,
`Legal` or `Enabled` predicate.

`dafny verify dfyconfig.toml` checks everything.

## The parts

- **Parallel grep** (`GrepProtocol`, `GrepRefinement`, `GrepTheorems`, `GrepAnswers`,
  `GrepCollector`, `GrepFile`). Walk, workers and consumer are interleaved actions over
  one state. An invariant locates every handed-out file once and bounds every budget
  from below; it yields the answer of the one-file-at-a-time search -- the first
  matching files or lines there are --, bounded look-ahead, freedom from blocked sends
  and deadlock, and an end of every interleaving. The line collector and the chunked
  reader are loops against declarative specifications.
- **Fuzzy edit** (`Levenshtein`, `Alignment`, `BlockAnchor`, `EditSpans`, `LineBlocks`,
  `Typographic`, `LineEndings`, `EditChain`, `EditTiers`, `EditTierLaws`,
  `LineAlignment`, `Reindent`, `ReindentProofs`, `ReindentChoice`, `ReindentMethods`,
  `FileEdit`, `FileEditBytes`, `Text`). The dynamic programs are optimal, pruning is
  sound, spans are in order and everything outside them survives byte for byte, also
  behind a byte-order mark and CRLF endings, through one edit and through a whole call
  with several edits of a line range.
- **Commit trailer rewriter** (`ShellScan`, `ShellLocality`, `CommitTrailer`,
  `CommitRescan`, `CommitBackslash`, `CommitLoops`, `ShellReading`, `CommitPlain`). The
  rewriter only inserts, it cuts a command exactly where an independent reading of it
  shows a bare separator, and re-scanning its output resynchronises after every inserted
  flag.
- **Stale-read guard** (`FileStamps`, `StampHistory`, `StampRuns`, `StampMarks`,
  `StampReplay`). What sets and lifts each mark, what a stat proves, what shell windows
  may absorb, and what a conversation carries.
- **Run loop and executor** (`RunLoop`, `RunLoopProofs`, `RunLoopNudges`,
  `RunLoopBounds`, `RunLoopResults`, `RunLoopHistory`, `RunLoopMethods`, `ToolBatches`,
  `StepExecutor`). Conversation validity at every exit, when a run goes on, ends or
  fails, explicit bounds on every run, one result per call.
- **Step checkpoints** (`Checkpoint`, `CheckpointClaims`), **glob** (`GlobMatch`,
  `GlobWalk`) and **goal loops** (`GoalLoop`).

`Wrappers` and `Strings` hold what several parts share.

## What the proofs show about the code

Where a promise of the code or its comments is not quite what the code does, the model
follows the code.

- The trailer rewriter is not idempotent when a flag goes inside a heredoc operator:
  behind `<<\ ` the flag becomes part of the escaped delimiter
  (`CommitBackslash.NotIdempotentAfterBackslash`). On every command where none does it
  is idempotent, a flag behind any other backslash included (`CommitRescan.Idempotent`).
- `file-edit` with a line range drops a line break exactly when the lines before or
  after the range are a single empty line, so editing up to the last line of a file
  that ends in a newline drops that newline (`FileEdit.RebuildIff`,
  `FileEdit.FinalNewlineIsLost`).
- A required read that stays pending makes the run loop exceed its step cap without end
  (`RunLoopBounds.PendingReadDefeatsTheCap`). At the cap the run goes on only after a
  text reply that finds one pending (`RunLoopBounds.AtCapGoesOnIff`), and the calls
  beyond the cap are exactly one for each of those (`RunLoopBounds.PastTheCap`).
- The comment on `dropEmptyNudges` says that the nudges of a streak all follow the last
  assistant message. A lost tool call that came with text is recorded in the middle of
  a streak, so an earlier nudge can stay (`RunLoopNudges.NudgeLeftBehind`); without a
  compaction that is the only way (`RunLoopNudges.NudgeLeftIff`).
- While the grep walk waits, the next file to commit may still head the job channel
  with every worker idle (`GrepTheorems.NextMayStillBeQueued`); it is with a worker,
  delivered or with the consumer exactly when it does not (`GrepTheorems.WalkWaitsForNext`).
- The goal-loop bounds are sharper than M(3L+1): 3(M+L-1) for ACP and M+L-1 headless,
  both attained; with M = 0 neither loop is bounded.
- For the trust of file identities no ctime needs to be monotone, only recent; and an
  equal identity proves content if and only if its ctime was two seconds old, or the file
  is empty (`StampHistory.ProofIffSettled`). The stat comparison behind an unrefreshed
  checkpoint claim does not ask for that age of the files it knew before, nor that they
  exist: the claim is sure to hold their content if and only if they did and had
  (`Checkpoint.ContentIffSettled`). The empty file is no exception there, because the
  staged content lies between the two stats.
- Carried stamp changes survive every compaction and resumption. A change compacted
  before it was carried would not (`StampReplay.UncarriedChangeIsLost`); that is
  hypothetical, since the loop carries the delta on each results message first.
- A tool call that converts to one without a name gets no result of its own
  (`StepExecutor.EverySlotOnce`); its slot in the results message stays empty.

## Model

| member | source | states |
|---|---|---|
| GrepAnswers.ParallelSearchAnswersInOrder | internal/agent/grep_scan.go:365-498 | for every interleaving without an outside cancellation or walk error: outside content mode the finished search reports, in order and once, exactly the first max+1 files with a matching line, or all if they are fewer, each with the number of its matching lines; in content mode the reported matching lines begin with the first max+1 matching lines of all files, every file up to the last reported one is shown whole, and the search stops early if and only if more than max lines match, at the first file with which they do; and this is what the one-file-at-a-time search gives |
| GrepTheorems.LookAheadBounded | internal/agent/grep_scan.go:307-358 | in every reachable state handed-out minus committed files is at most the window, the window at most its maximum, and a goroutine about to send finds room in its channel |
| GrepTheorems.WindowFollowsCommits | internal/agent/grep_scan.go:307-350 | in every reachable state the window is one file a worker plus one for each commit, up to its maximum |
| GrepTheorems.SendsHaveRoom | internal/agent/grep_scan.go:398-456 | under the invariant neither the job send nor any delivery can block |
| GrepTheorems.WalkWaitsForNext | internal/agent/grep_scan.go:398-488 | while the walk waits and the search is not cut, the next file to commit is with a worker, delivered or with the consumer if and only if it does not head the job channel, and when it does every worker is idle |
| GrepTheorems.NextMayStillBeQueued | internal/agent/grep_scan.go:398-488 | a run with two workers in which the walk waits while the next file to commit is still in the job channel |
| GrepTheorems.NeverStuck | internal/agent/grep_scan.go:386-498 | no reachable state before the end is without an enabled step: the protocol never deadlocks |
| GrepTheorems.StepDecreases | internal/agent/grep_scan.go:386-498 | every step of any goroutine uses up part of a finite amount of work |
| GrepTheorems.ExecutionsEnd | internal/agent/grep_scan.go:386-498 | every interleaving is finite, with an explicit bound |
| GrepTheorems.RunsToTheEnd | internal/agent/grep_scan.go:386-498 | every partial interleaving can be continued to one where the consumer has finished |
| GrepAnswers.FinishedAgrees | internal/agent/grep_scan.go:463-498 | a finished consumer holds the sequential results, except that the last file of a cut content search may hold more |
| GrepAnswers.AgreementMeans | internal/agent/grep_scan.go:449-498 | agreeing results have the same files, differ at most in the last one of a cut content search, and share every matching line of the sequential run |
| GrepAnswers.PlainAnswers | internal/agent/grep_scan.go:461-488 | outside content mode the finished consumer lists exactly the first max+1 matching files in order with their numbers of matching lines, whatever the budgets were |
| GrepAnswers.ContentAnswers | internal/agent/grep_scan.go:461-488 | in content mode the first max+1 matching lines are those of all files in order, and the cut comes exactly when there are more than max |
| GrepAnswers.ContentFound | internal/agent/grep_scan.go:173-195 | one file under a budget gives a beginning of its matching lines, and all of them with everything near one unless they are more than the budget |
| GrepRefinement.KeepInv | internal/agent/grep_scan.go:386-498 | every action of walk, workers and consumer keeps the invariant that locates each file once, bounds each budget from below and refines the sequential search |
| GrepRefinement.KeepRefines | internal/agent/grep_scan.go:461-498 | each commit step moves the sequential search by one file |
| GrepRefinement.KeepHonest | internal/agent/grep_scan.go:398-488 | budgets under way stay at least what is still needed and deliveries stay real searches |
| GrepRefinement.KeepLocated | internal/agent/grep_scan.go:398-488 | until the cut every handed-out, uncommitted file is in exactly one place |
| GrepRefinement.InitInv | internal/agent/grep_scan.go:386-465 | the invariant holds at the start |
| GrepProtocol.GrepLookahead.Wait | internal/agent/grep_scan.go:334-341 | a file may go out exactly while its number is below the start plus twice the commits and below the maximum plus the commits; closed, none may |
| GrepProtocol.GrepLookahead.Commit | internal/agent/grep_scan.go:344-350 | a commit takes back no admission, and lets through the next one or two files and no others |
| GrepProtocol.GrepLookahead.Close | internal/agent/grep_scan.go:353-358 | from then on every look of the walk is refused, whatever the window |
| GrepCollect.GrepCollector.Add | internal/agent/grep_scan.go:173-195 | after each line the fields hold exactly the report, the owed context and the held lines of the lines so far, and the result says whether the scan may stop |
| GrepCollect.PrintedExactly | internal/agent/grep_scan.go:162-195 | the printed lines are, in order and once each, exactly those within the context of a match |
| GrepCollect.CutKeepsFirstMatches | internal/agent/grep_scan.go:173-195 | a cut scan still prints everything around its first budget+1 matches |
| GrepCollect.LargerBudget | internal/agent/grep_scan.go:173-195 | a larger budget reports an extension of what a smaller one does, and the same unless the smaller one was exceeded |
| GrepCollect.ReportGrows | internal/agent/grep_scan.go:173-195 | scanning further only appends to the report |
| GrepCollect.CountIsMatching | internal/agent/grep_scan.go:173-195 | the count is the number of printed matching lines |
| GrepFile.LowerASCII | internal/agent/grep_scan.go:109-121 | the destination holds the source with A to Z lowered, up to the length both have |
| GrepFile.FoldIsLower | internal/agent/grep_scan.go:109-160 | case-insensitive occurrence is occurrence in the lowered text |
| GrepFile.Prepare | internal/agent/grep_scan.go:133-149 | the per-file decision: a literal that is absent from the whole file is in none of its lines |
| GrepFile.MatchLine | internal/agent/grep_scan.go:152-160 | a prepared file answers each line as the pattern does on the line alone |
| GrepFile.SearchFile | internal/agent/grep_scan.go:213-250 | the whole-buffer scan reports exactly what the collector defines for the file's lines |
| GrepFile.ReadSlice | internal/agent/grep_scan.go:509-559 | one chunk of the buffered reader: up to the next newline, the buffer or the end |
| GrepFile.GrepStream | internal/agent/grep_scan.go:509-559 | the streaming reader gives the whole-buffer result for every file and every buffer size |
| Levenshtein.NoCheaperScript | internal/agent/fuzzy_edit.go:874-904 | no edit script is cheaper than the recurrence says |
| Levenshtein.CheapestScript | internal/agent/fuzzy_edit.go:874-904 | some edit script costs exactly what it says |
| Levenshtein.FillRow | internal/agent/fuzzy_edit.go:883-898 | one row of the table from the row above it, in place |
| Levenshtein.EditDistance | internal/agent/fuzzy_edit.go:874-904 | the two-row program computes the minimum edit-script length |
| Levenshtein.NewBag | internal/agent/fuzzy_edit.go:772-786 | the sorted rune bag holds each rune with its multiplicity |
| Levenshtein.CompareBags | internal/agent/fuzzy_edit.go:840-869 | the merge walk counts what each bag lacks of the other |
| Levenshtein.BagBelowDistance | internal/agent/fuzzy_edit.go:840-869 | neither count exceeds the edit distance |
| Levenshtein.BoundIsAbove | internal/agent/fuzzy_edit.go:840-904 | the rune-bag bound is at least the similarity for every pair of lines |
| Alignment.NoBetterMatching | internal/agent/fuzzy_edit.go:910-925 | no monotone in-band matching of two prefixes totals more than the recurrence |
| Alignment.BestMatching | internal/agent/fuzzy_edit.go:910-925 | some monotone in-band matching attains it |
| Alignment.BestMonotone | internal/agent/fuzzy_edit.go:724-731 | higher scores never give a lower total |
| BlockAnchor.LineScorer.Bound | internal/agent/fuzzy_edit.go:840-869 | the cached bound of a pair; the budget only falls |
| BlockAnchor.LineScorer.Similarity | internal/agent/fuzzy_edit.go:874-904 | the cached similarity of a pair, or anything once the budget is spent |
| BlockAnchor.LineScorer.AlignRow | internal/agent/fuzzy_edit.go:910-925 | one row of the alignment table in place |
| BlockAnchor.LineScorer.AlignPrefixes | internal/agent/fuzzy_edit.go:910-925 | for every prefix length the best total over all in-band matchings, unless the budget ran out |
| BlockAnchor.CandidateSizes | internal/agent/fuzzy_edit.go:698-703 | the block sizes within the tolerance that end in the last anchor, ascending |
| BlockAnchor.BestSize | internal/agent/fuzzy_edit.go:710-723 | the first of the best-scoring sizes |
| BlockAnchor.PruningIsSound | internal/agent/fuzzy_edit.go:724-737 | an anchor whose bound stays below the threshold holds no block |
| BlockAnchor.ScoreAnchor | internal/agent/fuzzy_edit.go:706-737 | one anchor: bounded, then aligned, gives the block that full scoring gives unless the budget ran out |
| BlockAnchor.BlocksDisjoint | internal/agent/fuzzy_edit.go:742-751 | recorded blocks lie in the file, in order and without overlap, all at or above the threshold |
| BlockAnchor.FindBlockAnchor | internal/agent/fuzzy_edit.go:680-754 | the tier finds exactly what scoring every anchor in full finds, or gives up, and it gives up only on a budget below 40400 for each pair of a quoted and a file line: every score is paid for once |
| EditSpans.Apply | internal/agent/fuzzy_edit.go:311-339 | a single span, and every span when all are meant, is written; of several the first on the hinted line, if there is one; otherwise the edit is ambiguous |
| EditSpans.EditKeepsGaps | internal/agent/fuzzy_edit.go:324-332 | before and after an edit the same gaps stand, in the same order, around the old and the new texts |
| EditSpans.UndoRestores | internal/agent/fuzzy_edit.go:324-332 | replacing the replacements with what was there gives the content back |
| EditSpans.InOrderMeans | internal/agent/fuzzy_edit.go:311-313 | spans in order are in bounds and pairwise disjoint and ascending |
| EditSpans.SelectedInOrder | internal/agent/fuzzy_edit.go:513-519 | leaving out spans that cut a word, or changing the texts of spans, keeps the rest in order |
| EditSpans.LiteralSpans | internal/agent/fuzzy_edit.go:374-388 | the spans are the occurrences of the needle, each the first behind the one before |
| EditSpans.OccurrencesComplete | internal/agent/fuzzy_edit.go:372-388 | every occurrence begins inside one of the spans |
| EditSpans.OccurrencesUnique | internal/agent/fuzzy_edit.go:372-388 | the list of occurrences is determined |
| EditSpans.LiteralFromOccurs | internal/agent/fuzzy_edit.go:374-388 | the occurrences as a function of the text, used by the tiers |
| EditSpans.OccurrencesInOrder | internal/agent/fuzzy_edit.go:374-388 | literal spans are in bounds, ascending and disjoint |
| EditSpans.LiteralIsReplaceAll | internal/agent/fuzzy_edit.go:372-388 | writing the literal spans is a replacement of every occurrence, left to right |
| LineBlocks.NewEditMatcher | internal/agent/fuzzy_edit.go:149-162 | the line table: where each line starts, and its text without its break and one carriage return |
| LineBlocks.LineSpanBorders | internal/agent/fuzzy_edit.go:392-408 | a line span starts a line, ends the last one before or behind its break as old_string asks, and adds no break at the end of the file |
| LineBlocks.BlockSpans | internal/agent/fuzzy_edit.go:413-428 | the spans of the accepted windows, left to right, none overlapping the one before |
| LineBlocks.BlocksInOrder | internal/agent/fuzzy_edit.go:413-428 | block spans are in bounds, ascending and disjoint |
| LineBlocks.WindowsComplete | internal/agent/fuzzy_edit.go:413-428 | every accepted window overlaps one that was taken |
| LineBlocks.WindowsUnique | internal/agent/fuzzy_edit.go:413-428 | the list of taken windows is determined |
| Typographic.NormalizeTypographicMap | internal/agent/fuzzy_edit.go:1386-1403 | the normalized text and, for each of its bytes and its end, the offset of the character it comes from |
| Typographic.OnBorder | internal/agent/fuzzy_edit.go:1386-1403 | a position that starts no stand-in maps to a character border: both sides normalize separately |
| Typographic.MapsBack | internal/agent/fuzzy_edit.go:549-567 | a stretch between two such positions comes from text that normalizes to exactly it |
| Typographic.FindTypographic | internal/agent/fuzzy_edit.go:545-567 | the occurrences that cut no character, left to right, mapped back to spans in order |
| Typographic.TypographicSpansExact | internal/agent/fuzzy_edit.go:545-567 | each span covers text that normalizes to exactly what old_string does |
| Typographic.TypographicFromInOrder | internal/agent/fuzzy_edit.go:549-567 | the typographic spans are in bounds, ascending and disjoint, for every text and needle |
| Typographic.RuneIsLocal | internal/agent/fuzzy_edit.go:1390-1391 | a whole UTF-8 character reads the same with less text behind it |
| LineEndings.CountsAgree | internal/agent/fuzzy_edit.go:133-137 | the two counts of line breaks agree exactly when no line feed is bare |
| LineEndings.RoundTripIff | internal/agent/fuzzy_edit.go:110-129 | to LF and back gives the text back if and only if no line feed is bare |
| LineEndings.PrepareLosesNothing | internal/agent/fuzzy_edit.go:106-130 | taking off the mark and the CRLF endings and putting them back gives every file back |
| LineEndings.FileKeepsItsBytes | internal/agent/fuzzy_edit.go:102-131 | of a file's own bytes, mark and line endings included, an edit changes only what its spans cover |
| EditChain.RunChain | internal/agent/fuzzy_edit.go:279-292 | the first tier that finds anything decides the outcome |
| EditChain.EarlierTiersFindNothing | internal/agent/fuzzy_edit.go:279-292 | no tier before the deciding one finds anything |
| EditChain.UniqueTierWritesOnce | internal/agent/fuzzy_edit.go:222-244 | a unique tier changes one place or none, whatever the call asks for |
| EditChain.ApplyEdit | internal/agent/fuzzy_edit.go:102-131 | the first tier that finds the strings as given decides, if none does the first strict tier that finds them without their prefixes: its single span is written, and so are several if replace_all is asked for and the tier is not unique, or the first on the line that a trusted prefix names; otherwise the edit is ambiguous, and not found exactly if no such tier finds anything; what is written is, byte for byte, the same mark and gaps around the old and the new texts |
| EditChain.EditIsDecided | internal/agent/fuzzy_edit.go:102-131 | the same decision for the edit as a function, for every chain of tiers in rank order that find spans in order |
| EditChain.FirstTierIff | internal/agent/fuzzy_edit.go:279-292 | the deciding tier is the first one up to the given rank that finds anything, and there is none exactly if none of them does |
| EditChain.EditChangesFoundSpans | internal/agent/fuzzy_edit.go:102-131 | the same of the edit as a function of the file and the strings |
| EditChain.ChainWrites | internal/agent/fuzzy_edit.go:279-339 | whatever the chain edits, it writes all the spans of the deciding tier, or one of them |
| EditTiers.StrategiesAreHonest | internal/agent/fuzzy_edit.go:233-244 | each of the ten tiers, for every file and every two strings, finds spans in bounds, ascending and disjoint, or at least in bounds where it may write one place only; the tiers are in rank order |
| EditTiers.WhitespaceOrdered | internal/agent/fuzzy_edit.go:494-523 | matches of the fields of old_string with runs of blanks between them, those that cut a word left out, are spans in order |
| EditTiers.UnicodeOrdered | internal/agent/fuzzy_edit.go:545-580 | so are the typographic matches, or else the whole-line ones, each with its own text |
| EditTiers.EscapeOrdered | internal/agent/fuzzy_edit.go:601-628 | so is whatever the strict tiers find for the unescaped strings |
| EditTiers.BlockAnchorInBounds | internal/agent/fuzzy_edit.go:680-754 | the blocks of the anchor search are ranges of the file |
| EditTiers.ApplyWithStrategies | internal/agent/fuzzy_edit.go:102-131 | with its own chain, for any file, strings and options, success, ambiguity and failure are decided as for ApplyEdit by what the ten tiers find; a success changes only spans that one of them finds, and nothing else in the file; not found only if none of the ten finds the strings as given |
| EditTiers.ExactEdit | internal/agent/fuzzy_edit.go:311-339 | if old_string occurs in the prepared text, replace_all gives the file with every occurrence replaced from left to right; without it a single occurrence is replaced and several are ambiguous |
| EditTiers.LineExactFinds | internal/agent/fuzzy_edit.go:454-466 | the line tier finds something exactly if the lines of old_string stand next to each other in the file |
| EditTiers.LineTrimmedFinds | internal/agent/fuzzy_edit.go:487-489 | the per-line tier does exactly if they do but for the white space around each |
| EditTiers.IndentFlexibleFinds | internal/agent/fuzzy_edit.go:471-485 | the indentation tier does exactly if they do and both sides are the same once dedented |
| EditTierLaws.WhitespaceFinds | internal/agent/fuzzy_edit.go:494-523 | the white-space tier takes lines that agree once white space is collapsed; else, for one line of two words or more, exactly the places where the words stand with any blanks between them, unless such a place cuts a word |
| EditTierLaws.FieldSpansAre | internal/agent/fuzzy_edit.go:494-523 | each match is a place where the words stand, and every such place begins inside a match |
| EditTierLaws.TrimmedBoundaryFinds | internal/agent/fuzzy_edit.go:630-637 | the boundary tier finds exactly the occurrences of the trimmed old_string that cut no word |
| EditTierLaws.EscapeFinds | internal/agent/fuzzy_edit.go:601-628 | the escape tier finds something exactly if old_string unescaped is another text, not empty, and the strict tiers find that |
| EditTierLaws.ContextFinds | internal/agent/fuzzy_edit.go:934-997 | the context tier has one span for each accepted window, so it may write exactly when one window is accepted |
| LineAlignment.FillTable | internal/agent/edit_indent.go:211-223 | the table holds the longest common subsequence of every pair of suffixes |
| LineAlignment.GreedyWalk | internal/agent/edit_indent.go:224-236 | the walk over the table is the specified one |
| LineAlignment.WalkIsPairing | internal/agent/edit_indent.go:211-236 | the walk pairs equal lines, strictly increasing on both sides, as many as the table says |
| LineAlignment.NoLongerPairing | internal/agent/edit_indent.go:211-223 | no pairing is longer than the table says |
| LineAlignment.WalkIsLongest | internal/agent/edit_indent.go:192-236 | the walk is a longest pairing |
| ReindentProofs.OnlyIndentationChanges | internal/agent/edit_indent.go:102-184 | for every quote, file and guessed unit: as many lines, blank ones as they are, and behind the indentation nothing changes |
| ReindentProofs.QuoteGetsFileIndentation | internal/agent/edit_indent.go:102-184 | within the size cap a replacement that quotes its block gets the file's indentation on every non-blank line, whichever mapping is chosen |
| ReindentChoice.ReindentChooses | internal/agent/edit_indent.go:102-184 | which indentation each line gets: tabs and spaces exchanged level by level if that gives the file's indentation of every quoted line, else the base replaced if that does, else level by level if that does, else the aligned lines the file's own |
| ReindentChoice.LevelIs | internal/agent/edit_indent.go:123-136 | a leveled indentation is the file's base with as many levels of the file as the line is deeper in levels of the quote, the rest in spaces, or without as many as it is shallower, rounded up |
| ReindentChoice.ColumnsAre | internal/agent/edit_indent.go:77-87 | a tab counts for as many columns as it is given, anything else for one |
| ReindentProofs.AlignedWithItself | internal/agent/edit_indent.go:192-237 | line by line, a quote of the block is aligned with the block |
| ReindentMethods.ReindentForFile | internal/agent/edit_indent.go:102-184 | the chosen mapping applied to every line, as a text |
| ReindentMethods.ReindentPerLine | internal/agent/edit_indent.go:192-266 | aligned lines take the file's indentation, the others keep their depth relative to the nearest aligned line; nothing when nothing aligns or too much would have to |
| ReindentMethods.AlignLines | internal/agent/edit_indent.go:192-240 | the map from aligned new lines to file lines |
| ReindentMethods.FitsLoop | internal/agent/edit_indent.go:136-146 | whether a mapping reproduces the file's indentation from every quoted line |
| ReindentMethods.ReindentedText | internal/agent/edit_indent.go:102-184 | the same as OnlyIndentationChanges, on the joined text split again |
| FileEdit.RebuildIff | internal/agent/llm_runtime_ext.go:547-577 | cutting out a line range and putting it back gives the text if and only if neither the lines before nor the lines after are a single empty line; each side that is loses its break |
| FileEdit.FinalNewlineIsLost | internal/agent/llm_runtime_ext.go:547-577 | a range over the only line of a text with a final newline drops that newline |
| FileEdit.OutsideRangeStays | internal/agent/llm_runtime_ext.go:547-577 | otherwise the lines of the result are the lines before, the edited ones and the lines after |
| FileEdit.RangedEditKeepsOtherLines | internal/agent/llm_runtime_ext.go:547-660 | a successful ranged edit leaves every other line as it was, in the file's line endings, under the same condition |
| FileEdit.SourceFile.RunFileEdit | internal/agent/llm_runtime_ext.go:514-660 | a call fails for the first reason in order -- no edit, stale, no line in the range, a blank item, the first edit that does not work or the total count, the approval, the re-check -- and then file and stamp are untouched; without one it succeeds, the edits having worked in turn on the range, and the whole result is written and stamped |
| FileEdit.EditedIs | internal/agent/llm_runtime_ext.go:521-645 | a call succeeds if and only if all its edits work in turn, each on the text the one before leaves and as often as expected, with the expected total; else it fails for the first that does not |
| FileEdit.AllWorkIs | internal/agent/llm_runtime_ext.go:603-645 | whenever they all work, the call gives what the last one leaves, put back in the range |
| FileEdit.RangeIs | internal/agent/llm_runtime_ext.go:547-577 | the range is refused exactly if no line of the file lies in it |
| FileEdit.ErrorStays | internal/agent/llm_runtime_ext.go:603-634 | the first failing edit decides; later ones are not looked at |
| FileEditBytes.CallChangesFoundSpans | internal/agent/llm_runtime_ext.go:521-660 | the whole call with its own chain: the range becomes, edit by edit, what the edits' own tiers found in it, as many as expected; each step keeps every byte of the file around the range and between its spans; the last text is what is written |
| FileEditBytes.EditKeepsBytes | internal/agent/llm_runtime_ext.go:603-645 | an edit that changes only its spans in the range changes only their bytes in the file, in the file's line endings |
| FileEditBytes.ScopeIsFile | internal/agent/llm_runtime_ext.go:547-577 | the range between the bytes around it is the file if and only if there is no range or neither side of it is a single empty line |
| ShellScan.LexHeredocDelimiter | internal/agent/commit_policy.go:282-312 | the delimiter word of a heredoc, its quoting undone, and its length |
| CommitLoops.SplitShellSegmentsWithRanges | internal/agent/commit_policy.go:136-275 | the scanner loop cuts a command exactly when it reads, and then at exactly the separators that the independent reading shows bare and unescaped at the top level; where flags may go is before the first heredoc bodies of a segment |
| CommitLoops.WriteSegment | internal/agent/commit_policy.go:72-92 | one segment is written, with the flag when it is a commit without the mark |
| CommitLoops.EnforceCommitCoAuthor | internal/agent/commit_policy.go:64-94 | a command that does not read stays; of any other each segment that is a commit without the mark has the flag behind its last non-blank character, before its heredoc bodies, and every other segment and every separator stays |
| ShellReading.CutsExactly | internal/agent/commit_policy.go:136-275 | for every command and position: segments exist exactly if there is a reading, each separator is ";", a line break, "|", "||" or "&&" that stands outside quotes, "$(" and heredocs and unescaped, and no such place lies inside a segment |
| ShellReading.CutsUnique | internal/agent/commit_policy.go:136-275 | so the cut of a command is determined by its reading |
| ShellReading.AnnouncedIs | internal/agent/commit_policy.go:282-312 | the heredoc an operator announces, read character by character |
| ShellReading.BodiesEndIs | internal/agent/commit_policy.go:136-275 | heredoc bodies end at the first line that is the last pending delimiter, each delimiter in turn |
| CommitPlain.EnforcePlain | internal/agent/commit_policy.go:64-94 | a plain command gets the flag exactly if it is a commit without the mark, before the blanks at its end |
| CommitPlain.EnforceSeparated | internal/agent/commit_policy.go:64-94 | two plain commands with any of the five separators between them are each rewritten as if they stood alone |
| CommitTrailer.OnlyInserts | internal/agent/commit_policy.go:64-94 | the command is the concatenation of some parts and the output is the same parts joined by the flag: nothing else changes |
| CommitTrailer.PiecesCover | internal/agent/commit_policy.go:136-275 | segments and separators together are the command |
| CommitRescan.FlagRun | internal/agent/commit_policy.go:64-94 | scanning an inserted flag brings the scanner back to the state before it |
| CommitRescan.InsertFlag | internal/agent/commit_policy.go:136-275 | a flag inserted at a point that is not inside a heredoc operator shifts what the scanner finds behind it and changes nothing else, unless the scanner refuses the text; also behind a backslash |
| CommitRescan.InsideIsEscaped | internal/agent/commit_policy.go:136-275 | a point inside an operator has an escaping backslash before it, so only a command with one there is unsafe |
| CommitRescan.Rescan | internal/agent/commit_policy.go:136-275 | scanning the rewritten command finds the same segments, longer by their flags, or refuses it, when no flag went inside a heredoc operator |
| CommitRescan.Idempotent | internal/agent/commit_policy.go:64-94 | the rewriter is idempotent, for every way of recognising commits, on every command in which no flag goes inside a heredoc operator |
| CommitBackslash.NotIdempotentAfterBackslash | internal/agent/commit_policy.go:64-94 | a command with an escaped heredoc delimiter on which a second pass adds a second flag |
| ShellLocality.SegmentLocal | internal/agent/commit_policy.go:136-275 | the first segment does not depend on the text behind its end |
| FileStamps.ToolRuntime.SetStampLocked | internal/agent/file_stamps.go:197-229 | after a read the stamp and the read stamp hold its content and the shell mark is lifted; after a whole write the stamp holds it and the mark is lifted; after a partial write the mark stays; a shell stamp sets the mark; every other file keeps its marks |
| FileStamps.ToolRuntime.CheckFileStamp | internal/agent/file_stamps.go:323-332 | a write is refused exactly when the file no longer holds its stamped content |
| FileStamps.ToolRuntime.CheckOverwriteSeen | internal/agent/file_stamps.go:340-349 | an overwrite is refused exactly while the shell mark stands |
| StampMarks.ShellMarkIff | internal/agent/file_stamps.go:197-229 | in every run a file bears the shell mark, so that an overwrite is refused, exactly if the end of a shell window changed its stamp, or it bore the mark at the start, and the agent has neither read it nor written the whole of it since |
| StampMarks.ReadStampIs | internal/agent/file_stamps.go:197-229 | the read stamp holds what the last read got |
| StampMarks.StampIs | internal/agent/file_stamps.go:197-229 | the stamp holds what the last read got, the last write wrote or the disk held at the end of the last shell window that changed it, whichever came last |
| StampMarks.RestampMarks | internal/agent/file_stamps.go:428-465 | re-stamping marks exactly the files whose stamp it changes, gives them the content on the disk and leaves every read stamp |
| StampMarks.SnapshotTakes | internal/agent/file_stamps.go:363-418 | within its budgets a snapshot takes exactly the files that hold their stamped content |
| StampMarks.RestampTakes | internal/agent/file_stamps.go:428-465 | within its budget a window gives every file it took the content on the disk |
| FileStamps.ToolRuntime.SnapshotStampsForShell | internal/agent/file_stamps.go:363-418 | the snapshot loop: trusted identities, hashes within the budgets, and the identities it records |
| FileStamps.ToolRuntime.RestampAfterShell | internal/agent/file_stamps.go:428-465 | the re-stamping loop over a snapshot, within its byte budget |
| FileStamps.ToolRuntime.TakeStampDelta | internal/agent/file_stamps.go:520-563 | one whole-state record for each changed path, and nothing left to carry |
| FileStamps.ToolRuntime.RestoreStamps | internal/agent/file_stamps.go:567-600 | the stamps after replaying records in order |
| StampHistory.TrustedProvesContent | internal/agent/file_stamps.go:97-128 | a trusted identity the file still shows proves that nothing has changed since the content was verified |
| StampHistory.ProofIffSettled | internal/agent/file_stamps.go:97-128 | an equal identity proves content if and only if it has a ctime at least two seconds old when it was recorded, or the file is empty |
| StampHistory.YoungProvesNothing | internal/agent/file_stamps.go:97-128 | for every other identity and any two contents of its size there is a history of a real file in which the content changes and the identity stays |
| StampRuns.KeepInv | internal/agent/file_stamps.go:197-465 | reads, agent writes, outside writes, shell windows and resumptions from carried stamps keep the guard sound |
| StampRuns.SnapSound | internal/agent/file_stamps.go:363-418 | a snapshot takes only files that hold their stamped content |
| StampRuns.RestampSound | internal/agent/file_stamps.go:428-465 | re-stamping changes only stamps of the window, marks each file it changes, and leaves every read stamp |
| StampRuns.StaleStaysRefused | internal/agent/file_stamps.go:323-465 | in every run, also one that starts from restored stamps with stale files among them, a file that is stale at some moment is refused from then on, however many snapshot and re-stamp rounds and resumptions pass, until the agent reads or writes it or its stamped content is put back |
| StampRuns.OutsideWriteIsStale | internal/agent/file_stamps.go:323-332 | an outside write or deletion outside a shell window makes a stamped file stale if and only if it does not write the stamped content |
| StampRuns.StaleEndsOnlyBy | internal/agent/file_stamps.go:323-465 | a stale mark ends only by the agent's own read or write of the file or by a write that puts the stamped content back |
| StampRuns.ShellMarkStays | internal/agent/file_stamps.go:218-229 | a shell mark stays until the file is read or written whole |
| StampRuns.ShellChangeRefusesOverwrite | internal/agent/file_stamps.go:340-465 | a file whose stamp a shell window changed refuses overwrite from then on until a file-read or a write of the whole content, and the window leaves every read stamp |
| StampReplay.KeepInv | internal/agent/file_stamps.go:520-600 | stamps, deltas, compactions and resumptions keep the last record of every carried path equal to its state |
| StampReplay.ReplayIsExact | internal/agent/llm_runtime.go:1280-1284 | in every run, replaying what the conversation still carries gives every path whose changes were carried exactly its seen, read and shell marks |
| StampReplay.SnapshotWithOlderDeltas | internal/agent/llm_runtime.go:1280-1284 | a full snapshot in front of any suffix of the older deltas replays to the same marks as all the deltas |
| StampReplay.UncarriedChangeIsLost | internal/agent/llm_runtime.go:1280-1284 | hypothetical: were a conversation compacted before a change was carried, the older delta kept behind the summary would override it; the loop carries the delta on each results message first |
| StampReplay.RestoreGives | internal/agent/file_stamps.go:567-600 | a replay gives each path the marks of its last record |
| RunLoopProofs.StepValid | internal/agent/llm_runtime.go:838-1185 | whatever provider, model, user and compactor do, a turn leaves every assistant turn with calls directly followed by one result per call in call order |
| RunLoopProofs.ValidAtEveryExit | internal/agent/llm_runtime.go:716-752 | at every return, success or failure, the conversation is a valid prefix, also with the next user turn behind it |
| RunLoopProofs.RunExtends | internal/agent/llm_runtime.go:747-752 | without compaction the conversation only grows, so every earlier request is a prefix of the later ones |
| RunLoopProofs.AnswerIsLast | internal/agent/llm_runtime.go:716-739 | a run that finishes on an answer in one piece ends on the assistant message with that answer |
| RunLoopProofs.JoinedAnswerIsSaid | internal/agent/llm_runtime.go:1146-1184 | an answer continued in pieces is all of them joined, and the conversation ends on the assistant messages they came in, one for each, in order |
| RunLoopProofs.DropNudgesValid | internal/agent/llm_runtime.go:1207-1232 | dropping nudges keeps calls and results paired |
| RunLoopNudges.DropEmptyNudges | internal/agent/llm_runtime.go:1214-1232 | the two passes remove the last n empty-reply nudges behind the last assistant message |
| RunLoopNudges.DropNudgesExact | internal/agent/llm_runtime.go:1214-1232 | dropping as many nudges as follow the last assistant message takes exactly those away |
| RunLoopNudges.GivingUpKeeps | internal/agent/llm_runtime.go:1019-1060 | a run that gives up drops nothing but nudges of what its streak added, and keeps exactly as many of them as had been sent when a tool call was lost along with text |
| RunLoopNudges.NudgeLeftIff | internal/agent/llm_runtime.go:1200-1214 | so a nudge is left if and only if a tool call was lost along with text after a nudge had been sent |
| RunLoopNudges.LostOnce | internal/agent/llm_runtime.go:1019-1034 | a tool call is asked for again once in a run at most |
| RunLoopNudges.StreakStart | internal/agent/llm_runtime.go:1036-1066 | every run that does not compact and gives up does so in such a streak |
| RunLoopNudges.GivingUpLeavesNoNudge | internal/agent/llm_runtime.go:1053-1060 | a run that gives up returns the conversation from before the streak plus what others added, and none of the streak's nudges, when no reply was recorded in between |
| RunLoopNudges.NudgeLeftBehind | internal/agent/llm_runtime.go:1019-1060 | a lost tool call that came with text leaves an earlier nudge of the streak in the conversation |
| RunLoopBounds.StepProgress | internal/agent/llm_runtime.go:838-1185 | every turn that goes on lowers a measure over steps, open fallback models, retries, overflow flags and the budget flag |
| RunLoopBounds.SwitchCloses | internal/agent/llm_runtime.go:435-480 | a switch closes a fallback model for good: the open ones, without the active one, get fewer |
| RunLoopBounds.CappedRunsEnd | internal/agent/llm_runtime.go:838-1185 | with a cap of M steps and no required read pending, at most M successful calls and 12C + 16M turns for a chain of C models, against every provider and model |
| RunLoopBounds.AtCapGoesOnIff | internal/agent/llm_runtime.go:1014-1184 | at the cap a run goes on after a reply if and only if the reply has text, no tool calls, and finds a required read pending |
| RunLoopBounds.PastTheCap | internal/agent/llm_runtime.go:1158-1164 | the successful calls beyond the cap are one for each reply at the cap that found a required read pending, and none besides |
| RunLoopBounds.ReadsExtendTheCap | internal/agent/llm_runtime.go:1158-1164 | calls and turns are bounded by the cap and the replies that go past it; replies that find a read pending below the cap cost nothing |
| RunLoopBounds.OnlyWorkGoesOn | internal/agent/llm_runtime.go:838-1185 | capped or not, with W tool-calling or read-pending replies a run makes at most 12W + 15 successful calls before its last turn |
| RunLoopBounds.PendingReadDefeatsTheCap | internal/agent/llm_runtime.go:1158-1164 | for every n a run of n successful calls under a cap of one step, while a required read stays pending |
| RunLoopMethods.RunToolLoop | internal/agent/llm_runtime.go:838-1185 | for any configuration and any finite surroundings the loop is a run whose every turn goes on, ends or fails as the turns before it say, with each call's own result recorded behind it, until it ends, on a valid conversation that holds the answer, or the surroundings do; with a cap and no required read pending it has ended within the bound |
| RunLoopHistory.EveryTurn | internal/agent/llm_runtime.go:838-1185 | from the turns so far alone: when a failed request is sent again, the model switched or the run failed; when an overflow is compacted, sent again or fatal; when a reply is a lost call, a piece to continue, an announcement or the answer; when the third empty reply, a filter, the cap or the budget ends the run; and what each adds to the conversation |
| RunLoopHistory.RunRemembers | internal/agent/llm_runtime.go:773-836 | the loop's counters and flags are what the turns so far came to: replies, failures in a row of the model asked, empty replies in a row, pieces since the last tool step, overflows since the last reply, the smallest window named, and what was asked for once |
| RunLoopHistory.NextIsFirst | internal/agent/llm_runtime.go:448-458 | the fallback is the first model of the chain that is known, did not fail and was not tried |
| RunLoopResults.ToolTurnRecords | internal/agent/llm_runtime.go:1071-1143 | behind what a step of tool calls was sent with stand the calls, directly followed by one result for each in order with its own id, name and output; the note rides on the last one only |
| RunLoopResults.ToolTurnEnds | internal/agent/llm_runtime.go:1071-1143 | after such a step the run ends exactly for a repetition, a stop by a tool, a completed goal or the cap, the first of these deciding |
| RunLoopResults.NotedIff | internal/agent/llm_runtime.go:1104-1112 | the note has been given exactly if an earlier step did nothing but plan |
| RunLoopResults.ResultsAreTheExecutors | internal/agent/llm_runtime_send.go:68-89 | the i-th result says what became of the i-th call: undecodable, refused by conversion, cap or agent budget, or run in its batch with its own output |
| RunLoopMethods.FindFallback | internal/agent/llm_runtime.go:448-458 | the first model of the chain that has not failed, been tried or is missing |
| ToolBatches.PlanToolBatches | internal/agent/llm_runtime.go:1347-1365 | the batches are the calls in order, only concurrent calls share one, and a run of concurrent calls is never cut |
| ToolBatches.PlanIsUnique | internal/agent/llm_runtime.go:1342-1365 | there is exactly one such plan |
| ToolBatches.MutatingCallsAreSerial | internal/agent/llm_runtime.go:1342-1346 | however a batch interleaves, a call that is not concurrent starts after all before it have ended and ends before any after it starts |
| StepExecutor.Judge | internal/agent/llm_runtime.go:1411-1469 | conversion, the cap on calls and the sub-agent budget: the refused calls get their result, the rest is runnable |
| StepExecutor.ParallelExec | internal/agent/llm_runtime.go:1406-1555 | every runnable call gets the result of its batch, in its own slot, under any order within the batches, stop and cancellation |
| StepExecutor.EverySlotOnce | internal/agent/llm_runtime.go:1406-1555 | every slot is written exactly once, except that a call which converts to one without a name is never written |
| StepExecutor.AgentsWithinBudget | internal/agent/llm_runtime.go:1452-1468 | the sub-agent calls that run are the first ones up to the budget, and no call from the cap on runs |
| StepExecutor.VerdictIs | internal/agent/llm_runtime.go:1411-1469 | a call is run exactly if it converts to one with a name, is below the cap, and is no sub-agent call with as many before it as the budget allows; the others get the result that says why |
| StepExecutor.ExecToolCalls | internal/agent/llm_runtime_send.go:68-89 | undecodable calls get their error; the others, in call order, the results of one pass of the executor over them, with every slot written as that pass says, so none that names a tool is without a result |
| StepExecutor.NoResultMissing | internal/agent/llm_runtime_send.go:68-89 | in the message that answers a step, a decodable call is without a result if and only if it converts to a call without a name |
| Checkpoint.EveryRunIsSound | internal/agent/checkpoint_speculative.go:113-191 | in every run a claim is of a successful preparation under 30 s old, with no background work, claimed once, that no possible write followed, and stages again unless the stats of the known files show nothing changed; each step has at most one snapshot, before its first mutating call; preparing begins after a first snapshot |
| Checkpoint.PrepareKeeps | internal/agent/checkpoint_speculative.go:113-152 | preparing keeps the log sound |
| Checkpoint.TakeKeeps | internal/agent/checkpoint_policy.go:79-93 | the step's snapshot keeps the log sound and is there afterwards |
| Checkpoint.ExecuteKeeps | internal/agent/llm_runtime.go:1708-1717 | a call, its checkpoint first and its note after, keeps the log sound |
| Checkpoint.ContentIffSettled | internal/agent/checkpoint_speculative.go:254-295 | when the stats show nothing changed, the preparation is sure to hold a stamped file's current content if and only if the file was not among the known ones, or was there with a ctime at least two seconds old when preparing began |
| Checkpoint.EveryClaimHolds | internal/agent/checkpoint_speculative.go:113-177 | so it is at every claim of every run that stages nothing again, and the known files are those stamped when preparing began |
| CheckpointClaims.SnapshotIs | internal/agent/checkpoint_speculative.go:158-177 | in every run, before a mutating call of a step without a snapshot, the prepared one is claimed exactly if one stands that nothing has undone, succeeded, is under 30 s old and accepted with no background work, staged again exactly if a stat shows that a known file may have moved; else one is taken |
| CheckpointClaims.PreparedWhen | internal/agent/checkpoint_speculative.go:113-152 | in every run a snapshot is prepared exactly if the run has taken one, none stands that is under 30 s old and has not failed, and no background work runs |
| Checkpoint.YoungFileMayChange | internal/agent/checkpoint_speculative.go:254-288 | a known file that had not settled, of any size, can change before the staging and back after it with both stats equal |
| Checkpoint.AbsentFileMayBeStaged | internal/agent/checkpoint_speculative.go:254-288 | a file known to be absent can be created, staged and deleted |
| Checkpoint.StepCheckpoints.PrepareStepCheckpoint | internal/agent/checkpoint_speculative.go:113-138 | the fields after a preparation, a reuse or a skip |
| Checkpoint.StepCheckpoints.ClaimSpeculativeLocked | internal/agent/checkpoint_speculative.go:158-177 | the prepared snapshot is given up either way and claimed exactly under the listed conditions |
| Checkpoint.StepCheckpoints.NoteTreeUse | internal/agent/checkpoint_speculative.go:184-191 | a call that may write makes the preparation unusable |
| Checkpoint.StepCheckpoints.CheckpointStep | internal/agent/checkpoint_policy.go:79-93 | one snapshot a step, claimed or taken |
| Checkpoint.StepCheckpoints.ResetStepCheckpoint | internal/agent/checkpoint_policy.go:69-73 | the next mutating call takes a fresh snapshot |
| GlobMatch.MatcherIsRelation | internal/agent/glob.go:157-199 | the matcher that cuts segments off a slash path is the relation that gives "**" any stretch of segments and every other pattern exactly one it matches |
| GlobMatch.MatcherIsSound | internal/agent/glob.go:164-190 | an accepted path has such an assignment |
| GlobMatch.MatcherIsComplete | internal/agent/glob.go:164-190 | a path with such an assignment is accepted |
| GlobWalk.MatcherOnWalkPaths | internal/agent/glob.go:160-190 | on the paths a walk yields the matcher is the relation over their names |
| GlobWalk.FoundExactlyOnce | internal/agent/glob.go:205-263 | every file below the root that a pattern matches, relative to the root or to the workspace, lies under exactly one start of the narrowed walk |
| GlobWalk.SomeCandidateCovers | internal/agent/glob.go:205-224 | one of the two readings of the patterns covers the file |
| GlobWalk.GlobWalkStarts | internal/agent/glob.go:205-224 | the starts of a walk, in order |
| GlobWalk.LiteralDirsOf | internal/agent/glob.go:148-154 | the leading literal segments, the file name excluded |
| GlobWalk.CommonLiteralDirsOf | internal/agent/glob.go:227-242 | the shared prefix of all patterns' literal directories |
| GlobWalk.CommonIsLongest | internal/agent/glob.go:227-242 | it is the longest prefix they share |
| GlobWalk.OutermostDirs | internal/agent/glob.go:245-263 | the directories that are neither later duplicates nor inside another one |
| GlobWalk.KeptCovers | internal/agent/glob.go:245-263 | every dropped directory is inside a kept one |
| GlobWalk.OutNotNested | internal/agent/glob.go:245-263 | kept directories are pairwise not nested |
| GoalLoop.GoalState.ShouldContinueGoal | internal/agent/goal.go:39-68 | the verdict on a finished run and the fields it leaves |
| GoalLoop.RunGoalCommand | internal/acp/goal.go:126-225 | for any configuration and any finite list of agent runs the ACP loop stops after the first run whose verdict, said of the runs so far, is not to go on, and returns it; it completes exactly when the last run called goal-complete; with a cap it has stopped within its bound |
| GoalLoop.RunHeadlessGoal | cmd/spettro/headless_goal.go:88-199 | the same for the headless loop |
| GoalLoop.AcpStopsWhen | internal/acp/goal.go:126-225 | complete if the run called goal-complete; else at the cap if the run finished in an iteration from the cap on; else stalled if a run finished or failed for the third time and the last L iterations, finished or given up, changed nothing; else it goes on |
| GoalLoop.HeadlessStopsWhen | cmd/spettro/headless_goal.go:88-199 | complete if the run called goal-complete; at the cap if it finished as run M or later; stalled if the last L runs failed, or the last L finished ones changed nothing; else it goes on |
| GoalLoop.AcpBounded | internal/acp/goal.go:126-225 | no pattern of failures and progress keeps the ACP loop going past 3(M+L-1) agent runs, which is at most M(3L+1) |
| GoalLoop.HeadlessBounded | cmd/spettro/headless_goal.go:88-199 | no pattern keeps the headless loop going past M+L-1 agent runs |
| GoalLoop.AcpProgress | internal/acp/goal.go:126-225 | although retries roll the iteration counter back, every run uses up part of the bound |
| GoalLoop.BoundsAttained | internal/acp/goal.go:126-225 | both bounds are attained by one adversary each, so neither can be lowered |
| GoalLoop.UnlimitedNeverStops | internal/acp/goal.go:126-225 | without an iteration cap an agent that always changes the workspace is never stopped |

## Left out

- Regular expressions, gitignore walking, symlinks and the symbol index: a line match is
  an abstract predicate per line, literal and ASCII-fold matching are spelled out.
- Provider calls, HTTP, the ACP protocol, the TUI, configuration and storage: the
  provider is an adversary.
- Real files, git and processes: maps from paths to contents, a clock and stat
  identities. A hash stands for the content it hashes.
- Cancellation from outside and walk errors in the parallel search: the search is
  cancelled only by its own cut.
- The final ordering and capping of grep and glob listings behind the search.
- isGitCommitInvocation and lexShellTokens: which segment is a commit is an arbitrary
  predicate, and the theorems hold for each one.
- CommitRescan.Idempotent: goes one way, because with a flag inside a heredoc operator the
  rewriter is idempotent on some commands (a second scan refuses, or finds the mark) and
  not on others.
- Floating point and float32 caching in the line scorer: exact reals.
- detectIndentUnit: the guessed unit is an arbitrary value, and the re-indentation
  theorems hold for each one.
- Trimming is over the ASCII white space; Unicode spaces beyond it are text.
- The string functions of the tiers (dedentLines, collapseWS, trimBoundaryLike,
  asciiLikeFile, the two unescapings, stripLineNumberPrefixes) and the context tier's test
  of a window are arbitrary functions, and what is proved of the tiers holds for each
  choice. How alike a tier's match is to old_string is proved for the literal,
  whole-line, white-space, typographic and block-anchor searches.
- Snapshot and re-stamping of file stamps are each one step: a write tool running beside
  them between two of their file accesses is not interleaved.
- StampRuns.KeepInv: an agent write and its stat are one step, so an outside write between
  the two is not modelled; a file that changes while it is read is.
- Compaction is any valid conversation; that it keeps validity is assumed, and so is that
  a carried history is valid. Reasoning blocks, images, traces and token counts are not
  part of a message.
- The texts the loop adds are abbreviated, and remain pairwise different.
- RunLoopMethods.RunToolLoop: keeps the loop's local variables in one record that each turn
  replaces.
- The length of retry delays; only whether a failed call is sent again is modelled.
- Parallel calls of one step within the checkpoint machine: its operations are atomic
  under their lock.
- The read-only shell classifier tables behind `needsCheckpoint` and `treeReadOnlyCall`.
- Path cleaning above the workspace: a pattern whose literal prefix leaves the workspace
  matches no file below it.
