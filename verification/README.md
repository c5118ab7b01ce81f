# Sokkan, modelled and verified

Sokkan runs a board of cards, a crew of scheduled agents and their sessions. This project models five of
its components and proves what they promise, for all inputs and all runs. `dafny verify dfyconfig.toml`
checks everything.

**The board and Helm** (`Forest`, `Walks`, `Hanging`, `Board`, `BoardLaws`, `BoardEffects`, `Rollup`, `RollupLaws`,
`Helm`, `HelmLaws`, `HelmJournal`). Cards hang under cards. The walks over them are bounded and guarded; on a forest they are
proved complete. The parent check accepts exactly the moves that keep a forest. Each operation is a method
on the rows, tied to a step function; every run from the empty board keeps the forest, a journal that
replays into each card, and closing in step with the last column. Helm stores a roll-up per card with
children and repairs only the chains above the cards an operation announces: the repaired table is proved
to be the fully recomputed one, after every operation of every run, the lines it writes in the journals are a
chain of states that ends on the table, and the flat roll-up is proved to have its level-by-level meaning.

**Redaction** (`Base64`, `Encodings`, `Spans`, `Redaction`). All hits of all forms and pieces of all secrets are merged
and replaced by marks. The output is the text minus the union of the hits, no kept stretch holds a form, the
secret itself and each way of writing it disappear wherever they occur, nothing else is looked for, and a
secret inside a larger base64 text is found at any alignment.

**The scheduler and the crew** (`Cron`, `Runs`, `CatchUp`, `Scheduling`, `Runtime`, `Safety`, `Progress`,
`Effects`, `Stalled`, `Agents`, `AgentLaws`, `FourEyes`). The next run time over a zone with gaps and repeats;
catch-up after downtime; the run machine of one process as a transition system over restarts, ticks, requests,
cancellations and the ends of tasks; two processes share only the claim and the uniqueness of occurrences.
`Effects` says what each event does to the runs and the agents. `Agents` is the approval lifecycle, `AgentLaws`
who may do what in each approval mode, `FourEyes` what four-eyes approval promises.

**The feature registry** (`Graph`, `Features`, `FeatureLaws`, `Validation`, `Registry`). Memoised, guarded
resolution is proved equal to its memo-free meaning on acyclic registries, the shipped one among them; the
cycle detector is exact.

**Metering** (`Metering`, `SessionCost`). Streamed usage records, merged per message, with a stop rule
whose overshoot is bounded; and cumulative totals of restarting processes, announced or not.

**Suggestions** (`Suggestions`) reconciles what Helm detects with what managers have decided.

## Choices

- Tables are maps and sequences; each public operation is one atomic step. An id is never used twice.
- `Up(cards, live, d, n)`, the n-th card above `d`, carries all reasoning about the board. The live signals
  of a card (`Feed`) are a fixed function of its number and its session; `tidy` stands for the clean-up of
  one decision's text. Journal entries are records instead of sentences.
- The clock is a parameter, positive and never going back where a statement needs it. The approval mode,
  the limits and the prices are constants of a run. Money and instants are exact reals, token counts
  non-negative.
- A time zone is any map between wall minutes and instants that satisfies `ZoneOk`; `Summer` is one with a
  spring gap and a repeated hour. Wall minutes are read on one time line, 1440 to a day, and a schedule
  carries an arbitrary calendar that dates the day numbers.
- Access to what other modules decide (owner may run, validation of fields, probes of integrations) is an
  arbitrary input.
- Every path of a run's body writes an end status once; `recorded` holds the live tasks past that write. The
  write itself is unconditional, and that it never overwrites a final status is proved.
- `last` and `writers` of an agent, the role and project in its override record, and `done` and `clock` of the cycle search, are history kept to state
  properties; no operation reads them.
- A meter is two classes: `Meter` prices tokens, `SdkGuard` holds prices of the SDK.

## Where code and documentation disagree

The model follows the code.

- The docstring of `backend/cronexpr.py` gives the Vixie rule for day fields. `_day_ok` treats any field
  that starts with a star as unrestricted, stepped stars included. `Cron.VixieWhenStarsAreFull` says
  exactly when the two rules agree; `Cron.SteppedStarIsUnrestricted` is an input on which they differ.
- Four-eyes approval is described as another person than the one who proposed. The code compares with the
  owner and with one recorded proposer, and the record is incomplete in two ways. An edit of a draft is not
  recorded at all, so one person can rewrite a draft and approve it alone (`FourEyes.OneWriterApprovesAlone`).
  And a recorded proposer is replaced at the next edit, so of two writers the first can approve
  (`FourEyes.FirstOfTwoWritersApproves`). `FourEyes.WriterCanApproveExactly` says, from the operations of a
  run, exactly when a writer can approve.
- The scheduler is documented never to die and to catch up after a downtime. A search that finds nothing
  raises inside the loop over the due agents; the tick is caught and tried again, but the agent stays due,
  so every later tick ends at the same place and no run starts until that agent is edited or paused
  (`Stalled.StalledUntilEdited`). `CatchUp.LatestRaisesExactly` and `Progress.TickServesExactly` say exactly
  when an agent is served; a schedule on 29 February raises in 2096, since 2100 has no leap day
  (`Stalled.LeapDayStalls`).
- `validate_registry` looks for cycles in `requires`. Resolution also follows conflicts with earlier
  features, so a registry that passes can still give answers that depend on where resolution starts:
  `Registry.KnotPassesValidation` and `FeatureLaws.OrderMattersWithoutAcyclicity`.
- The snooze rule reads the latest row of a fingerprint. On every reachable store this is the same as any
  decision inside the window (`Suggestions.SnoozedByAnyDecision`).

## Model

| member | source | states |
|---|---|---|
| `Forest.ShallowMeansShortChains` | backend/board.py:912-926 | the depth bound, as the walks see it, says exactly that no chain of cards is longer than six |
| `Forest.NoCycle` | backend/board.py:912-926 | in a forest no card is above itself, at any distance |
| `Forest.BelowIsKidsAndBelow` | backend/board.py:928-943 | what lies below a card, archived branches cut or not, is its children and what lies below them |
| `Forest.AboveIsComplete` | backend/board.py:912-926 | the chain above a card of a forest holds every card above it and no other |
| `Walks.Children` | backend/board.py:903-909 | lists each child once, archived ones only when asked for |
| `Walks.Ancestors` | backend/board.py:912-926 | on any table it stops; on a forest it is the whole chain from the root to the mother |
| `Walks.ClimbIsNew` | backend/board.py:918-920 | on a forest the `seen` guard of `ancestors` never fires |
| `Walks.LevelIsUnseen` | backend/board.py:933-942 | on a forest the `seen` guard of `descendants` never fires: the next level is all new |
| `Walks.WalkIsComplete` | backend/board.py:933-942 | the depth bound cuts nothing: once a level is empty or the bound is passed, everything below has been met |
| `Walks.Descendants` | backend/board.py:928-943 | each card once on any table; on a forest exactly the cards below |
| `Walks.SubtreeHeight` | backend/board.py:966-974 | on a forest the number of steps of the longest way down |
| `Hanging.CheckParent` | backend/board.py:946-963 | the refusals in order: no such parent in the project, itself, below itself, a chain through the new link longer than `MAX_DEPTH` |
| `Hanging.MoveIsExact` | backend/board.py:946-1002 | for a card that exists the check accepts a mother if and only if the cards are still a forest after the move |
| `Hanging.RefusalExactly` | backend/board.py:946-963 | which refusal a move gets: no such mother in the project, itself, a card below itself, or else one under which the cards are no forest |
| `Hanging.BirthIsExact` | backend/board.py:438-453 | for a new card the check accepts a mother if and only if the cards are a forest with it |
| `Hanging.SpliceKeepsForest` | backend/board.py:591-608 | deleting a card and hanging its children under its own mother keeps a forest |
| `Hanging.SpliceKeepsOrder` | backend/board.py:591-608 | deletion leaves every other card below exactly the same other cards |
| `Board.CleanDecisions` | backend/board.py:888-900 | the loop computes the cleaned list, cut at fifty |
| `Board.Board.Add` | backend/board.py:438-477 | new row, its journal, the line in its mother's journal, the listeners told; or a refusal that writes nothing |
| `Board.Board.Update` | backend/board.py:529-588 | the row after an update, closing time following the column, one event per change |
| `Board.Board.Close` | backend/board.py:626-644 | the last column and the closing time together; nothing on a closed card |
| `Board.Board.Reopen` | backend/board.py:647-666 | back to an open column, unarchived; refused for the last column; nothing on an open card |
| `Board.Board.Archive` | backend/board.py:669-684 | the flag and its event; nothing on an archived card |
| `Board.Board.SetParent` | backend/board.py:977-1002 | the new link, three journals written; refused exactly when the check refuses |
| `Board.Board.Delete` | backend/board.py:591-608 | the loop over the children computes the spliced cards and their journals |
| `BoardLaws.CleanIsExact` | backend/board.py:888-900 | no blank, no repeat, at most fifty, all taken from the input, and complete below fifty |
| `BoardEffects.CleanKeepsOrder` | backend/board.py:888-900 | the decisions kept are the first said, in the order in which they were first said |
| `BoardLaws.EditReplay` | backend/board.py:553-584 | the events of an update replay the old card into the new one |
| `BoardEffects.UpdateIsWhatWasAsked` | backend/board.py:529-588 | an update takes each field given and keeps each other one; closing time set on entering the last column unless set, dropped on entering another; refused exactly on a bad kind |
| `BoardEffects.UpdateTellsExactly` | backend/board.py:561-584 | the journal of an update: one line for each thing that changed, from what to what, and no other |
| `BoardEffects.AddIsWhatWasAsked` | backend/board.py:438-477 | a new card is as asked, in the first column when there is no such column, closed exactly when born in the last |
| `BoardEffects.ReopenExactly` | backend/board.py:647-666 | reopening is refused outside the first three columns, changes nothing on an open card, and else opens the card there |
| `BoardEffects.MoveTellsExactly` | backend/board.py:977-1002 | a move changes one link; the card tells from where to where, the mother it leaves and the one it joins tell the card, nobody else |
| `BoardEffects.DeleteTellsExactly` | backend/board.py:591-608 | each child of a deleted card hangs under its grandmother and tells so, nobody else |
| `BoardLaws.AddKeeps` | backend/board.py:438-477 | adding keeps forest, journals and closing in step, whatever the answer |
| `BoardLaws.UpdateKeeps` | backend/board.py:529-588 | so does updating |
| `BoardLaws.SetParentKeeps` | backend/board.py:977-1002 | so does moving |
| `BoardLaws.DeleteKeeps` | backend/board.py:591-608 | so does deleting: the orphans' journals tell their new mother |
| `BoardLaws.StepKeeps` | backend/board.py:438-1002 | every operation, accepted or refused, keeps the board sound |
| `BoardLaws.CloseThenReopen` | backend/board.py:626-666 | reopening a closed card where it was undoes closing it |
| `BoardLaws.ArchiveThenRestore` | backend/board.py:529-684 | restoring an archived card undoes archiving it |
| `BoardLaws.MoveThenBack` | backend/board.py:977-1002 | an accepted move can be taken back, and gives the cards back |
| `BoardLaws.AddThenDelete` | backend/board.py:438-608 | deleting a card just added gives the cards back |
| `Rollup.Rollup` | backend/helm.py:330-377 | the breadth-first gathering and the counting pass compute the declared roll-up of the set of live cards below |
| `RollupLaws.CountsAdd` | backend/helm.py:338-359 | the counts of a card are the sums of its live children's counts, state by state |
| `RollupLaws.TotalIsLeaves` | backend/helm.py:338-360 | every leaf is counted once, none twice |
| `RollupLaws.LeafStateExactly` | backend/helm.py:315-327 | a card without live child: done by its column; else blocked by an incident or a failed run; else waiting in review or by a waiting run or agent; else in progress by its column or something at work; else to do |
| `RollupLaws.ParentStateExactly` | backend/helm.py:361-372 | a card with live children: done when every leaf is; else blocked by a blocked leaf or trouble anywhere below; else waiting by a leaf; else in progress by a leaf in progress or done, or anything at work; else to do |
| `RollupLaws.ProgressIsShare` | backend/helm.py:373-377 | progress is the share of the leaves that are done |
| `RollupLaws.FlagsAdd` | backend/helm.py:344-355 | the alarm (incidents, failed runs of cards not done) and the activity of a card are its own and its live children's |
| `RollupLaws.DoneMeansAllLeaves` | backend/helm.py:361-364 | a card is done if and only if all its leaves are |
| `RollupLaws.DoneIffChildrenDone` | backend/helm.py:361-364 | a card with live children is done if and only if each of them is |
| `RollupLaws.NoBetterThanChild` | backend/helm.py:361-372 | a card not done is at least as severe (to do, in progress, waiting, blocked) as each live child not done |
| `Helm.Helm.RefreshOne` | backend/helm.py:387-404 | one stored row: kept for a card with a live child, the change of state written in its journal, a leaf left alone |
| `Helm.Helm.Refresh` | backend/helm.py:380-405 | the chain from a card to its root, and nothing else, is recomputed |
| `Helm.Helm.OnBoardChange` | backend/helm.py:408-414 | with the feature on each touched card that still exists is refreshed; with it off nothing changes |
| `HelmLaws.SameRoll` | backend/helm.py:330-377 | a roll-up depends on nothing but the cards below, their column, session, mother and archived flag |
| `HelmLaws.ElsewhereSame` | backend/board.py:94-99 | an operation changes nothing below a card that is neither announced to the listeners nor above an announced card |
| `HelmLaws.OnlyChainsChange` | backend/helm.py:380-414 | a step changes stored roll-ups only on the chains above the touched cards |
| `HelmLaws.StepIsFullRecompute` | backend/helm.py:380-414 | after any operation and its listener each card with a live child has in the table what a full recomputation gives |
| `HelmLaws.EveryRunIsUpToDate` | backend/helm.py:380-417 | the same on every run from the empty board |
| `HelmLaws.EveryJournalTells` | backend/board.py:182-192 | on every run the journal of a card replays into its column, mother, archived flag and decisions, and the last column means closed |
| `HelmJournal.EveryChangeIsWritten` | backend/helm.py:387-404 | on every run the lines on progress in the journal of a card are a chain of changes of state, each from the one before, and the last is the state in the table |
| `HelmJournal.RefreshWritesExactly` | backend/helm.py:387-404 | a refresh leaves a card without live child alone, and writes a line if and only if the state is another one: from which, to which, how many leaves done of how many |
| `HelmLaws.EveryBoardIsForest` | backend/board.py:438-1002 | on every run mothers exist in the same project and a chain of cards has no repeat and at most six cards |
| `Base64.GroupsAreSextets` | backend/agents.py:1091-1091 | the characters of an encoding carry consecutive groups of six bits, zero bits at the end (section 4 of RFC 4648) |
| `Base64.Alphabets` | backend/agents.py:1091-1101 | the two alphabets of RFC 4648, letter by letter |
| `Base64.TestVectors` | backend/agents.py:1091-1098 | three test vectors of section 10 of RFC 4648 |
| `Base64.StripPadOfEncode` | backend/agents.py:1091-1099 | `rstrip("=")` leaves exactly the data characters |
| `Base64.CoresOf` | backend/agents.py:1085-1102 | the loop over the three alignments, the standalone forms and the replaced letters compute the set of cores |
| `Base64.SextetShift` | backend/agents.py:1091-1096 | six bits that lie in the secret are the same after any prefix as after its length modulo 3 zero bytes |
| `Base64.CoreExists` | backend/agents.py:1091-1102 | for a secret of 8 bytes or more each of the three cores is long enough to be kept, in both alphabets |
| `Base64.UrlEncodeIsReplaced` | backend/agents.py:1100-1101 | the section 5 encoding is the section 4 one with the two letters replaced |
| `Base64.CoreInsideEncoding` | backend/agents.py:1085-1102 | for all bytes before and after, the encoding contains the core of alignment length-of-prefix modulo 3, at its place |
| `Base64.UrlCoreInsideEncoding` | backend/agents.py:1100-1102 | the same in the section 5 alphabet |
| `Base64.CoreInAnyEncoding` | backend/agents.py:1085-1102 | in either alphabet the encoding contains a kept core, as long as the characters that depend on the secret alone |
| `Base64.CoreIsWhole` | backend/agents.py:1092-1095 | a core starts at the first and stops after the last character made of the secret alone |
| `Base64.CoresArePieces` | backend/agents.py:1085-1102 | conversely every core is a stretch of the encoding of the secret behind at most two bytes, of eight characters or more |
| `Spans.Sort` | backend/agents.py:1149-1149 | the same hits, by start, longest first |
| `Spans.Merge` | backend/agents.py:1150-1161 | the merging loop writes the text with one mark per maximal union of touching hits, named after a longest hit at its start |
| `Spans.CutsOfUnion` | backend/agents.py:1150-1161 | the union of the hits decides the cuts |
| `Spans.RenderIsMarked` | backend/agents.py:1150-1161 | read from left to right, the merged text has the mark of a cut where it starts, nothing of what it covers, and every other character in place |
| `Encodings.Utf8ReadsBack` | backend/agents.py:1105-1116 | the bytes of a secret read back into its characters |
| `Encodings.QuoteReadsBack` | backend/agents.py:1105-1116 | each of the three URL forms reads back into the bytes of the secret |
| `Encodings.QuotesExactly` | backend/agents.py:1115-1115 | byte by byte, what stays, what becomes a plus and what is written with a percent sign and two capital digits |
| `Encodings.HexReadsBack` | backend/agents.py:1116-1116 | either hexadecimal form reads back into the bytes of the secret |
| `Redaction.FormsOf` | backend/agents.py:1105-1116 | the forms looked for: the value, its base64 cores, its URL forms, its two hexadecimal forms |
| `Redaction.FindAll` | backend/agents.py:1137-1141 | the `find` loop reports every occurrence, overlapping ones too |
| `Redaction.FindGrams` | backend/agents.py:1142-1146 | the window loop reports every occurrence of a piece |
| `Redaction.Redact` | backend/agents.py:1127-1161 | the output is the text with exactly the covered stretches replaced by marks |
| `Redaction.KeptIsTextMinusHits` | backend/agents.py:1127-1161 | the marks deleted, the output is the text minus the union of all hits, in order |
| `Redaction.CutsAreUnique` | backend/agents.py:1127-1161 | the hits determine where the marks go |
| `Redaction.HitInsideOneCut` | backend/agents.py:1150-1158 | every hit disappears whole into one mark |
| `Redaction.KeptHoldsNoForm` | backend/agents.py:1127-1161 | no kept stretch of the redacted text contains a form or a piece of any of the secrets |
| `Redaction.LongPieceVanishes` | backend/agents.py:1119-1161 | a piece of a secret of 16 characters or more, all of whose 12-character windows have 5 distinct characters, disappears into one mark of the redacted text wherever it stands |
| `Redaction.EncodedSecretVanishes` | backend/agents.py:1085-1161 | for every secret of at least 8 characters: where the text holds the base64 of anything around it, the characters that depend on the secret alone disappear into one mark of the redacted text |
| `Redaction.ValueVanishes` | backend/agents.py:1105-1110 | a secret of four characters or more disappears into one cut wherever it occurs |
| `Redaction.HexVanishes` | backend/agents.py:1116-1116 | from eight characters on, so does its hexadecimal form, of either case |
| `Redaction.QuoteVanishes` | backend/agents.py:1115-1115 | and each of its three URL forms |
| `Redaction.Base64Vanishes` | backend/agents.py:1097-1102 | and its own base64, in either alphabet, padded or not |
| `Redaction.NothingElseIsLookedFor` | backend/agents.py:1085-1125 | conversely whatever is looked for is the secret, reads back to its bytes, is a stretch of its base64, or a varied window of a long one |
| `Redaction.RedactedTextIsMarked` | backend/agents.py:1128-1161 | the redacted text is the text with each cut replaced by `[secret:NAME]` of a secret with a longest hit at its start |
| `Cron.NextAfter` | backend/cronexpr.py:62-85 | the search with day, hour and minute jumps gives the result of the minute-by-minute search |
| `Cron.NextIsLeast` | backend/cronexpr.py:62-85 | the result is the least occurrence after `after`; there is none exactly when the window of 5 x 366 days holds no match |
| `Cron.FiresExactly` | backend/cronexpr.py:62-85 | minute 1440 d + 60 h + m is an occurrence if and only if it exists, day d is accepted, h is among the hours and m among the minutes |
| `Cron.NextIsNextTime` | backend/cronexpr.py:62-85 | the result is a day, hour and minute that the schedule names, and no such time lies between |
| `Cron.HalfPastNine` | backend/cronexpr.py:62-85 | a daily schedule at 9:30, asked at midnight, answers 9:30 |
| `Cron.NothingBetween` | backend/cronexpr.py:62-85 | no occurrence lies between `after` and the result |
| `Cron.SummerIsZone` | backend/cronexpr.py:62-85 | the assumptions on zones hold of a zone with a spring gap and a repeated hour |
| `Cron.SummerGap` | backend/cronexpr.py:62-85 | the wall minutes of the spring gap, and no others, do not exist |
| `Cron.SummerRepeat` | backend/cronexpr.py:62-85 | of the repeated hour only the first pass fires |
| `Cron.Field` | backend/cronexpr.py:98-131 | a field is refused exactly when an item is malformed, and is otherwise the union of its items, never empty |
| `Cron.VixieWhenStarsAreFull` | backend/cronexpr.py:49-59 | the day rule of the code is the documented Vixie rule if and only if each field marked starred is full |
| `Cron.SteppedStarIsUnrestricted` | backend/cronexpr.py:144-144 | with a stepped star in the day field the two rules differ |
| `CatchUp.CronLatestDue` | backend/agents_runtime.py:186-199 | the loop with its look-back bound |
| `CatchUp.LatestIsGreatest` | backend/agents_runtime.py:186-199 | with fewer missed occurrences than the bound the result is the greatest one not after now |
| `CatchUp.LatestIsOccurrence` | backend/agents_runtime.py:186-199 | with any number missed the result is an occurrence, not in the future |
| `CatchUp.LatestRaisesExactly` | backend/agents_runtime.py:186-199 | the loop raises if and only if one of the occurrences it passes is followed by a window without a due minute |
| `CatchUp.TurnKeeps` | backend/agents_runtime.py:304-368 | a turn of either loop keeps each agent's scheduled rows strictly increasing and the agent armed past them |
| `CatchUp.CatchUpAddsOneRow` | backend/agents_runtime.py:304-368 | a turn raises if and only if a missed occurrence is followed by an empty window; otherwise it adds exactly one row, for the greatest occurrence not after now, with the right status, and arms the agent after now |
| `CatchUp.OneShotTurnExactly` | backend/agents_runtime.py:304-368 | the turn of a one-shot agent: one row for the time it was armed for, skipped when too old or busy or held, and never armed again |
| `Runs.NoOccurrenceTwice` | backend/agents.py:892-911 | with any number of schedulers on one store no occurrence has two rows |
| `Runs.NoRunClaimedTwice` | backend/agents.py:947-955 | with any number of schedulers no run is claimed twice |
| `Runtime.Runtime.Start` | backend/agents_runtime.py:256-262 | the restart step: a new process, the two clean-ups |
| `Runtime.Runtime.Recover` | backend/agents_runtime.py:275-286 | the runs left running by another process, and only they, are interrupted |
| `Runtime.Runtime.DropBootBacklog` | backend/agents_runtime.py:288-302 | the runs queued before the boot, and only they, are skipped |
| `Runtime.Runtime.ScheduleDue` | backend/agents_runtime.py:304-368 | one turn per due agent, in order, up to the first search that fails |
| `Runtime.Runtime.StartQueued` | backend/agents_runtime.py:370-397 | the loop over the queue with its slot bound, its live agents and its cancellations |
| `Runtime.Runtime.Pause` | backend/revocation.py:287-305 | an agent paused: its queued runs cancelled, its live ones asked to stop |
| `Runtime.Runtime.Tick` | backend/agents_runtime.py:339-348 | the tick step, with and without credentials |
| `Runtime.Runtime.CancelRun` | backend/agents_runtime.py:441-451 | a live run is asked to stop, a queued one cancelled, anything else refused |
| `Runtime.Runtime.RecordEnd` | backend/agents_runtime.py:454-610 | the final status of each way a run can end, written once and whatever the row says by then |
| `Runtime.Runtime.TaskOver` | backend/agents_runtime.py:399-408 | a run left running by its task is closed |
| `Safety.ReachedIsSafe` | backend/agents_runtime.py:275-451 | over every interleaving at most one run per agent is running, each with a live task, within the limit of tasks; the run of a live task is running until its end is recorded and final from then on |
| `Safety.HistoryEvolves` | backend/agents.py:947-974 | over every run rows only go forward: queued, running, final |
| `Safety.FinalForEver` | backend/agents.py:958-974 | a final status is never left |
| `Safety.ClaimedRunEnds` | backend/agents_runtime.py:399-408 | a claimed run whose task is over, or whose process is gone, has a final status |
| `Safety.CancelIsHonoured` | backend/agents_runtime.py:399-586 | a live run that a human cancels ends cancelled if and only if its task is halted or dies before recording an end; no run ends cancelled unasked |
| `Safety.ArmedByNextFire` | backend/agents.py:503-519 | a row armed by `next_fire` is armed past every row of the agent |
| `Safety.ScheduledRowsIncrease` | backend/agents_runtime.py:350-368 | over every run with a clock that never goes back the scheduled instants of an agent strictly increase |
| `Progress.TurnsRaiseExactly` | backend/agents_runtime.py:304-368 | the loop over the due agents raises if and only if the search of one of them does |
| `Progress.TickCatchesUp` | backend/agents_runtime.py:339-368 | at the end of a tick a due cron agent has exactly one new row, for the greatest occurrence not after now, skipped exactly when held, too late or busy, unless its search or that of a due agent before it raised |
| `Progress.TickServesExactly` | backend/agents_runtime.py:339-368 | a due cron agent gets its row in a tick if and only if no search raises up to its own |
| `Progress.TickStopsAt` | backend/agents_runtime.py:339-368 | from the first search that raises on, a tick adds no row, arms nobody again and starts nothing |
| `Stalled.StalledUntilEdited` | backend/agents_runtime.py:324-368 | over every run: once the search of an agent raises, no run is started any more until that agent is edited or paused |
| `Stalled.LeapDayStalls` | backend/agents_runtime.py:350-368 | a reachable run on which a due daily agent gets no row, because the search of a leap-day agent before it finds nothing within five years |
| `Progress.NoRunWaitsForNothing` | backend/agents_runtime.py:370-397 | after `start_queued` every slot is used or each queued run has an agent already running |
| `Effects.StartsExactly` | backend/agents_runtime.py:370-397 | `start_queued` starts only queued runs of active, allowed, idle agents, cancels only those of agents that cannot run, pauses only agents whose owner may not run them, and starts no run before an older one of its agent |
| `Effects.TickLeavesNoneWaiting` | backend/agents_runtime.py:339-397 | a tick with credentials in which no search raises leaves every slot used or each queued run with an agent already running |
| `Effects.HeldTickStartsNothing` | backend/agents_runtime.py:304-348 | without credentials a tick starts nothing and adds only skipped rows |
| `Effects.RecordedExactly` | backend/agents_runtime.py:454-586 | which ending of a run gives which status, each if and only if |
| `Effects.RecordedAgentExactly` | backend/agents_runtime.py:483-596 | what an ending does to the row of the agent: paused when its owner is lost, its last run noted when the work itself ended |
| `Effects.TaskOverExactly` | backend/agents_runtime.py:399-408 | a run its task left running has failed, or is cancelled if a human asked; any other keeps its end |
| `Effects.RestartExactly` | backend/agents_runtime.py:256-302 | after a restart nothing runs: what ran is interrupted, and without credentials what was queued before is skipped |
| `Effects.RevokedExactly` | backend/revocation.py:287-305 | a paused agent alone is stopped and disarmed, its queued runs cancelled, its running ones asked to stop |
| `Effects.CancelExactly` | backend/agents_runtime.py:441-451 | a live run is asked to stop, a queued one cancelled, and nothing else changes |
| `Effects.FireExactly` | backend/agents_runtime.py:420-439 | an alert adds one row to an active event agent, skipped without credentials or while a run is under way |
| `Agents.Crew.CreateAgent` | backend/agents.py:710-750 | a refusal changes no row; otherwise one row is added, live only through the gate or pending, as the mode says |
| `Agents.Crew.UpdateAgent` | backend/agents.py:788-821 | a refusal changes no row; otherwise the named row alone: a waiting change, a proposal made anew, or a direct edit through the gate |
| `Agents.Crew.ApproveAgent` | backend/agents.py:824-849 | a refusal changes no row; otherwise the named row alone: the waiting change applied, or the draft or proposal made active |
| `Agents.Crew.RejectAgent` | backend/agents.py:852-858 | a refusal changes no row; otherwise the named row alone, its change dropped or its proposal made a draft |
| `Agents.Crew.ChangeStatus` | backend/agents.py:861-878 | a refusal changes no row; otherwise the named row alone: paused, resumed or archived |
| `Agents.Crew.Perform` | backend/agents.py:710-878 | any operation: nothing changes on a refusal, otherwise exactly one row, and the table grows only by a creation |
| `Agents.ReachableAgentsOk` | backend/agents.py:710-878 | every reachable agent: live means approved and covered, a pending change only on a live agent, armed only when active; what is live was put live by an admin of its project or of none, or where owners approve by its owner as a dev, and with four eyes by neither the owner nor the recorded proposer; overrides are by admins |
| `AgentLaws.WhatRunsWasAuthorised` | backend/agents.py:544-849 | over every run and in each mode: for every live agent some operation of the run put its present definition live, by someone authorised on role, project and name; with four eyes an approval by neither the owner nor the author on record |
| `AgentLaws.OnlyAuthorisedGoLive` | backend/agents.py:544-849 | every accepted approval, activation and direct edit of a live agent is by someone authorised in the mode |
| `AgentLaws.OwnerModeExactly` | backend/agents.py:573-593 | owner mode: who can approve, on role, project and name, and past which alert gate |
| `AgentLaws.AdminModeExactly` | backend/agents.py:573-593 | admin mode: the same, admins only |
| `AgentLaws.FourEyesModeExactly` | backend/agents.py:573-593 | four-eyes mode: the same, admins that are neither the owner nor the author on record |
| `AgentLaws.AccessExactly` | backend/agents.py:529-611 | an agent is missing for those who may not see it, and written only by admins and dev owners of its project or of none |
| `AgentLaws.LiveAlertsAreCovered` | backend/agents.py:298-335 | over every run: each write rule that an alert would let run on a live agent is on record by an admin |
| `AgentLaws.DirectEditExactly` | backend/agents.py:788-821 | an edit of a live agent applies at once if and only if it needs no review, and then past the gate; otherwise all of it waits |
| `AgentLaws.NewAgentExactly` | backend/agents.py:710-750 | a new agent lives in the project its author acts in, is live at once if and only if asked and without review, pending if proposed or in need of review |
| `AgentLaws.StatusChangeExactly` | backend/agents.py:861-878 | who can pause, resume and archive, from which status, and that nothing else of the definition changes |
| `AgentLaws.StatusMoves` | backend/agents.py:788-878 | the transitions of status of all operations; only an approval wakes a draft or a proposal |
| `Agents.ApprovedEditGoesLive` | backend/agents.py:788-849 | once approved, each field is the latest edit's, else that of an earlier waiting edit, else what ran; armed for the new definition |
| `Agents.RejectedEditLeavesNoTrace` | backend/agents.py:788-858 | a first waiting edit that is rejected leaves the agent as it was |
| `Agents.ArchivedForever` | backend/agents.py:788-878 | an archived agent is never changed again |
| `FourEyes.WritersAreThoseWhoWait` | backend/agents.py:710-878 | over every run: the writers of what waits are the authors of the accepted edits since the last approval, rejected change or archiving |
| `FourEyes.RecordExists` | backend/agents.py:573-593 | over every run: the proposer the check looks at is the author of the last edit that is recorded, and edits of a draft are not |
| `FourEyes.WriterCanApproveExactly` | backend/agents.py:573-849 | over every run in four-eyes mode: someone who wrote part of what waits can have its approval accepted if and only if, since the last approval, a person other than the owner edited the agent and is not the last one recorded |
| `FourEyes.OneWriterApprovesAlone` | backend/agents.py:788-849 | a run on which one person, not the owner, rewrites a draft and approves it alone |
| `FourEyes.FirstOfTwoWritersApproves` | backend/agents.py:788-849 | a run on which the first of two writers of a change approves it |
| `Agents.NothingHeldBack` | backend/agents_runtime.py:91-101 | on every reachable live agent `run_auto_approve` holds nothing back |
| `AgentLaws.HeldBackExactly` | backend/agents_runtime.py:91-101 | what runs unasked and what is held back: on an alert, while one write rule is on no record, all write rules are held, otherwise none |
| `Features.Resolver.Resolve` | backend/features.py:508-577 | the recursion that fills the memo |
| `Features.Resolver.All` | backend/features.py:580-585 | every feature in order, one memo |
| `Features.Resolver.Enabled` | backend/features.py:588-593 | an unknown name is an error, a known one is resolved from an empty memo |
| `FeatureLaws.ValueStackFree` | backend/features.py:508-577 | on an acyclic registry the memo-free value does not depend on the stack |
| `FeatureLaws.ResolveOneIsValue` | backend/features.py:508-577 | under any correct memo and any stack clear of what it reaches, resolution returns the memo-free value and keeps the memo correct |
| `FeatureLaws.ResolveAllIsValue` | backend/features.py:580-585 | in whatever order the features are visited |
| `FeatureLaws.EnabledAgreesWithResolve` | backend/features.py:580-593 | `enabled(f)` is `resolve()[f]` |
| `FeatureLaws.EnabledExactly` | backend/features.py:488-577 | on an acyclic registry a toggle or integration is on if and only if it is asked for (probe, forced, first recognised variable, edition default), every required feature is on and no earlier conflicting one is |
| `FeatureLaws.ProblemExactly` | backend/features.py:541-577 | a problem if and only if it is off although a recognised value asked for it |
| `FeatureLaws.EnabledHasRequirements` | backend/features.py:551-563 | an enabled feature, invariants aside, has every required feature on |
| `FeatureLaws.ConflictsNeverBothOn` | backend/features.py:564-577 | of two features that declare each other, invariants aside, at most one is on |
| `FeatureLaws.OrderMattersWithoutAcyclicity` | backend/features.py:508-577 | a registry with a cycle through a conflict on which the result depends on where resolution starts |
| `Validation.CycleSearch.Visit` | backend/features.py:641-651 | the colouring step terminates and keeps: grey is the path, what is reported comes back to itself, black is ordered |
| `Validation.FindCycles` | backend/features.py:638-653 | on every registry a cycle is reported if and only if `requires` has one |
| `Validation.Validate` | backend/features.py:605-653 | silent if and only if ids are unique, references good, conflicts mutual and `requires` acyclic; every report is true, and those on single entries are complete |
| `Registry.ShippedIsAcyclic` | backend/features.py:195-464 | the shipped registry satisfies the hypothesis of the feature laws |
| `Registry.ShippedIsWellDeclared` | backend/features.py:195-464 | and the structural checks |
| `Registry.KnotPassesValidation` | backend/features.py:638-652 | a registry that passes the checks although its combined graph has a cycle |
| `Metering.Meter.Add` | backend/agentcost.py:344-364 | a record merges into its message by componentwise maximum, or is a new loose entry |
| `Metering.Meter.Sum` | backend/agentcost.py:366-376 | the two loops sum every entry |
| `Metering.Meter.Stop` | backend/agentcost.py:391-421 | the stop rule, with the cap on tokens and the two budget tests in order |
| `Metering.SdkGuard.AddSdk` | backend/agentcost.py:315-328 | the guarded meter: the dearest price seen of each message, a fresh name for a loose one, and one step's overshoot |
| `Metering.SdkGuard.Stop` | backend/agentcost.py:391-399 | the guarded stop rule: stop if and only if a budget is set and another call as dear as the dearest would cross it |
| `Metering.CostOfTotal` | backend/agentcost.py:378-389 | pricing the summed tokens is summing the priced messages |
| `Metering.UnitPrices` | backend/agentcost.py:378-385 | a million tokens of one kind cost the price of that kind |
| `Metering.GoExactly` | backend/agentcost.py:391-421 | the run goes on if and only if its tokens are below the cap and, with a price and a budget, it has spent less and a call as dear as any so far still fits |
| `Metering.RecordKeeps` | backend/agentcost.py:344-389 | the cost is the sum of the messages' costs, `max_msg_usd` their maximum, and the cost never falls |
| `Metering.EntriesAreLeast` | backend/agentcost.py:351-356 | each message's entry is the least one above all its records |
| `Metering.SameRecordsSameCount` | backend/agentcost.py:344-364 | the entries do not depend on the order of the records nor on how often they come |
| `Metering.SameRecordsSameCost` | backend/agentcost.py:344-389 | nor, when all records carry an id, do the cost and the dearest message |
| `Metering.OneCallPastTheBudget` | backend/agentcost.py:391-421 | after a go, a record that raises the cost by d leaves it at most at budget - previous maximum + d |
| `Metering.RunStaysNearBudget` | backend/agentcost.py:391-421 | a run that asks before its last record costs at most its budget plus its dearest message |
| `SessionCost.Session.EnsureStarted` | backend/agentchat.py:400-400 | a new process counts from zero |
| `SessionCost.Session.OnResult` | backend/agentchat.py:720-726 | the step from a cumulative total, including one that fell |
| `SessionCost.CostIsSumOfProcesses` | backend/agentchat.py:720-726 | over any results and relaunches the cost is the sum of each process's last total |
| `SessionCost.UnannouncedProcess` | backend/agentchat.py:720-726 | a process whose start was not announced is counted in full if and only if its first total is below the last one seen, or none was seen |
| `SessionCost.IdleResultsDoNotCount` | backend/agentchat.py:720-726 | a result without a total, or a total of zero, changes nothing, whenever it comes |
| `Suggestions.Store.Suggest` | backend/helm.py:964-998 | the two loops: detected fingerprints observed, the project's other open rows resolved |
| `Suggestions.Store.Decide` | backend/helm.py:1059-1096 | refused unless the row is open |
| `Suggestions.Store.Rebaseline` | backend/helm.py:1099-1114 | the loop resolves the open scope rows of the card and leaves every other row as it was |
| `Suggestions.CheckIsExact` | backend/helm.py:964-998 | after a check the open fingerprints of the project are exactly those detected minus the snoozed ones; other projects untouched |
| `Suggestions.CheckRowsExactly` | backend/helm.py:964-998 | a check loses no row and decides nothing: each earlier row is resolved or stays, each new one is open, made now and of something detected |
| `Suggestions.RebaseRowsExactly` | backend/helm.py:1099-1114 | answering a card resolves its open scope suggestions and touches nothing else |
| `Suggestions.RunKeeps` | backend/helm.py:964-1114 | in every reachable store only the latest row of a fingerprint can be open |
| `Suggestions.CheckAfterAnyRun` | backend/helm.py:964-1114 | over whole runs: detected and not decided inside the window |

## Left out

- Board.CleanDecisions: the splitting of a text into lines and the collapsing and cutting of one line are the parameter `tidy`.
- Board.Board.Update: the order of the events of one update is fixed here and follows the caller's field order in the code; description, tag, priority, due date, checklist, assignee and sort key behave like `title` and are not modelled, nor is the baseline of a card turned project.
- Walks.Children: the order by sort key and number; the cards come in any order.
- Board.Board.Add: the classification level a card inherits, the default title, and the stored fields named under Board.Board.Update.
- Rollup.Rollup: the rounding of progress to three digits, and the lists of links, merge requests and leaves that are only displayed.
- Helm.Helm.OnBoardChange: the two touched cards are refreshed in one order, where the code's order is that of a set.
- Cron.Field: a field comes as its list of parsed items; splitting the text and reading numbers and month and day names is not modelled, nor are the `@daily` macros.
- CatchUp.CronLatestDue: a schedule that no longer parses is represented by an absent one.
- Runtime.Runtime.ScheduleDue: logging and notifications.
- Runtime.Runtime.RecordEnd: the body of a run (prompts, models, deliveries) is an arbitrary ending; the watchdog only asks a task to stop, which shows as a later halted ending.
- Runtime.Runtime.StartQueued: whether an owner may run is an arbitrary set per call.
- Agents.ReachableAgentsOk: validation of fields, name uniqueness and triggers are one arbitrary verdict per call; the override record keeps its author and its rules, not its time. A definition is put live by whoever is on the last approval, activation or direct edit.
- FourEyes.WriterCanApproveExactly: roles are ranks, and the membership of projects is one optional project per user.
- Features.Resolver.Resolve: the reason, variable, note and legacy flag of a state.
- Validation.Validate: the checks of statuses, kinds, variable names, editions and probes of single declarations, and that a shipped feature requires no planned one.
- Metering.Meter.Stop: the wording of the reason; `first_msg_usd`, which only calibrates later runs; currency conversion is part of the price.
- Suggestions.Store.Suggest: the detectors are an arbitrary input, and counts and texts of the rows are not modelled.
- Suggestions.Store.Decide: the reframe card that an approval creates is an ordinary `Board.Board.Add`.
- `redact_obj` applies `redact` to each string of a structure.
- Levels of cards, comments, links and search; the moving of demo data; migrations, and boards of earlier versions.
- Concurrent connections between a check and its write on the board.
- Prompts, chat streaming, servers, tmux, forges, notifications, memory, vault and revocation sweeps.
