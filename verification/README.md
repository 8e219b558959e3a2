# Verified model of the front-door process edge

`tools/front-door` is the edge of the Provenant tool: the process that hooks, webhooks, terminals and peers talk to.
This project models the parts of it that have to be right over whole runs or for every input, and proves what they
promise. It is written in Dafny 4.11; `dafny verify dfyconfig.toml` checks all of it. Nothing here executes the
original program.

| Files | What they model |
|---|---|
| `Json`, `AnswerRecords`, `AnswerDecode`, `AnswerReply`, `Packing` | how a page of human answers becomes a hook reply: two JSON layers around hardened data, packed under a byte budget; and how it is read back by the names of its fields |
| `AnswerGuarantees`, `AnswerSearch`, `AnswerSelection`, `AnswerCommit` | what the reply guarantees, the search over store pages and delivery states, which answers may be written off, and the commit before the reply |
| `ShellQuote`, `ChairLaunch` | the launch line of a handed-over session, typed into an unknown login shell, through two shells and JSON settings |
| `EventIntake` | durable admission of webhook deliveries, with failing writes, exits, power cuts and reopenings |
| `PeerReader` | the concurrent peer reader as an interleaved step system: workers, counter, channel, receiver, clock |
| `HookStreams` | truncation-tolerant reading of the lane and worktree streams, and resuming from a cursor |
| `SourceInventory`, `Ledger` | the build script's walk over the tracked source tree and its limits |
| `FairProbes`, `StdinBridge` | division of probe time between peers; the stdin byte bridge |
| `LaneStates` | which worktrees have only finished lanes, the snapshot's staleness latch, refreshing during a sweep |
| `PathRewrites`, `GraphPaths` | whole-path replacement in prompts, one path or many, and confinement of read roots |
| `WorktreeOwnership` | the two-record ownership of worktrees made by the hook |
| `Basics` | options, results, bytes, subsequences and small facts about sequences |

Text is a sequence of Unicode scalar values and byte counts are UTF-8 widths. Clocks, write outcomes, read results,
arrival of messages, the policy that confines a path, JSON decoding of a single stream line, and the store's rows
are parameters or step labels, so results hold for every behaviour of theirs.

Where the source and its comments differ, the source is followed. Seven places are worth knowing.

- Ownership of a worktree is decided by two records that the hook writes after creating the worktree. If the worktree is
  removed and another one made at its path before the marker is written, the record vouches for the other one
  (`WorktreeOwnership.RaceBeforeResolving`, `WorktreeOwnership.RaceBetweenWrites`). `WorktreeOwnership.OwnedIff` says
  exactly when the worktree vouched for is the hook's own.
- The removal hook checks the records of the worktree at a path, and then has the owner remove the worktree that the
  path's last name means, by directory or by branch and wherever it lies. If the checked worktree is removed or moved in
  between, another one can go that has no record at all (`WorktreeOwnership.RemovesAnother`);
  `WorktreeOwnership.RemovesCheckedIff` says exactly when it is the checked one.
- Renames are applied to a prompt one after the other, so a later one can find what an earlier one wrote
  (`PathRewrites.ChainExample`). `PathRewrites.PromptAtOnce` says when each path is replaced once, and for two renames
  `PathRewrites.PairExact` says exactly when.
- An answer whose queued record grew between selection and commit can be recorded as offered without being shown
  (`AnswerCommit.GrownNotShown`); it is shown if no record grew (`AnswerCommit.NoLongerIsShown`).
- The hook reads only first pages of lanes, and there every cut resumes exactly (`HookStreams.FirstPageResumes`). A
  caller that lists from a later cursor and receives not one record of its page starts over from the first page
  (`HookStreams.ResumeBytesIff`, `HookStreams.RestartExample`).
- A lane whose outcome is `unsettled` is terminal by its own record but is never in the listing of settled lanes
  (`HookStreams.TerminalIff`).
- The stdin bridge answers a zero-length buffer with zero bytes without being at the end of input
  (`StdinBridge.EmptyReadIsEnd` therefore speaks of buffers with room).

## Model

| member | source | states |
|---|---|---|
| `AnswerReply.ReplySize` | tools/front-door/src/hooks.rs:295-321 | the rendered reply's byte length is a fixed overhead of the hook plus the page's own size after inner escaping, `&<>` hardening and outer escaping, so sizes add up item by item |
| `AnswerReply.AcceptsIff` | tools/front-door/src/hooks.rs:323-343 | a page renders within the 8192-byte budget if and only if it has items and its load fits the room the hook's own text leaves |
| `AnswerReply.AcceptsMeans` | tools/front-door/src/hooks.rs:323-343 | a page is acceptable if and only if it has items and its whole reply is at most 8192 bytes long |
| `AnswerReply.FitAnswers` | tools/front-door/src/hooks.rs:323-343 | the push, render, pop loop computes the greedy packing of the page |
| `AnswerReply.CleanTagless` | tools/front-door/crates/workflow/src/session/state.rs:109-125 | cleaned command text holds no angle bracket |
| `AnswerReply.CleanEach` | tools/front-door/crates/workflow/src/session/state.rs:109-125 | an underscore stands for each angle bracket or backquote, a space for each control character, every other character for itself, and a tilde only where the text was cut |
| `AnswerReply.CleanExactly` | tools/front-door/crates/workflow/src/session/state.rs:109-125 | cleaning leaves a text alone if and only if it holds no angle bracket, backquote or control character and is within the limit, or is one byte over it with a tilde at its end |
| `AnswerReply.AcknowledgeExactly` | tools/front-door/src/hooks.rs:309-311 | the acknowledgement command is shown, exactly as it is to be run, if and only if its directory can be quoted and cleaning would leave it alone |
| `Packing.FitMeaning` | tools/front-door/src/hooks.rs:323-343 | the kept items are an in-order subsequence, within the budget although `truncated` may flip after items were accepted, and `truncated` holds exactly when the input was truncated or something was dropped |
| `Packing.PackLoop` | tools/front-door/src/hooks.rs:328-342 | the loop equals greedy packing for any item sizes and any acceptance test that is a bound on the load |
| `Packing.PackIsGreedy` | tools/front-door/src/hooks.rs:323-343 | packing under a load is keeping each item in turn exactly if the page with it passes the test |
| `Packing.PackEmpty` | tools/front-door/src/hooks.rs:323-343 | if packing keeps nothing then no item fits alone on an untruncated page, so an oversized item blocks no other |
| `Packing.PackSome` | tools/front-door/src/hooks.rs:323-343 | if packing keeps something then some item fits alone on a truncated page |
| `Packing.FitAll` | tools/front-door/src/hooks.rs:253-260 | a page within the budget is kept whole, so fitting again after the commit drops nothing |
| `Json.WidthExactly` | tools/front-door/crates/workflow/src/session/state.rs:118-121 | a character counts as many bytes as its UTF-8 form has, by section 3 of RFC 3629 |
| `Json.ParsePrint` | tools/front-door/src/hooks.rs:304-308 | compact JSON text parses back to exactly the value it was printed from |
| `Json.HardenPrint` | tools/front-door/src/hooks.rs:304-308 | replacing `&`, `<` and `>` in printed JSON is printing with those characters escaped |
| `Json.PrintClean` | tools/front-door/src/hooks.rs:304-308 | hardened JSON text holds none of `&`, `<`, `>` |
| `AnswerRecords.PageInjective` | tools/front-door/crates/records/src/inbox.rs:206-262 | two pages of answers with the same JSON value are the same page |
| `AnswerDecode.PageBack` | tools/front-door/crates/records/src/inbox.rs:206-262 | every page whose foreign fields keep to other names is read back from its JSON value, each field of answer, delivery, offer and page under its own wire name |
| `AnswerGuarantees.ExceedsIff` | tools/front-door/src/hooks.rs:345-355 | the context-free test measures exactly the answer's wire size against the budget |
| `AnswerGuarantees.NeverDeliverable` | tools/front-door/src/hooks.rs:345-355 | an answer over the context-free bound is in no acceptable reply, for any event, command prefix, wording, company and delivery record |
| `AnswerGuarantees.GuardReply` | tools/front-door/src/hooks.rs:247-260 | the reply built after the store commit never exceeds the byte budget |
| `AnswerGuarantees.CommittedOffersAreShown` | tools/front-door/src/hooks.rs:253-260 | committed offers that are some of the selected ones, unchanged, all survive the second fitting |
| `AnswerCommit.CommitLoop` | tools/front-door/crates/fabric-store/src/human_inbox.rs:125-160 | the loop threads the outbox from candidate to candidate and stops at the first exhausted record, for any way of deciding one |
| `AnswerCommit.OfferOnce` | tools/front-door/crates/fabric-store/src/human_inbox.rs:99-165 | the commit fails if and only if some candidate asks for a queued record of ours whose attempts are exhausted, and then changes nothing; otherwise a queued record of ours that is asked for gets state, attempt count and attempt time, and every other field and every other record stays; candidates for different answers are offered if and only if their record is ours and is queued or is the same offer, with the record now in the outbox; the order is kept; and if every record is still the one its candidate was prepared from, all are offered unchanged |
| `AnswerCommit.CommitExactly` | tools/front-door/crates/fabric-store/src/human_inbox.rs:99-165 | the same for any verdicts on the candidates, field by field and in the records' own terms |
| `AnswerCommit.SpentExactly` | tools/front-door/crates/fabric-store/src/human_inbox.rs:145-150 | an attempt count overflows if and only if a queued record of ours has counted 18446744073709551615 attempts |
| `AnswerCommit.DistinctOffers` | tools/front-door/crates/fabric-store/src/human_inbox.rs:99-165 | candidates for different answers are decided independently: each is offered, with which record, or not, by its own stored record alone |
| `AnswerCommit.SecondFitIff` | tools/front-door/src/hooks.rs:253-260 | the second fitting drops nothing if and only if the committed page is empty or within the budget |
| `AnswerCommit.NoLongerIsShown` | tools/front-door/src/hooks.rs:253-260 | if no record that the commit would write is longer than the one its candidate was selected with, everything committed is shown, whatever else changed |
| `AnswerCommit.GrownNotShown` | tools/front-door/src/hooks.rs:253-260 | otherwise it need not be: for every candidate and hook, a long enough error text on the queued record makes the commit book the answer as offered while the reply holds nothing |
| `AnswerCommit.Deliver` | tools/front-door/src/hooks.rs:253-260 | only committed answers are shown, each candidate decided by its own record, within the budget; nothing is shown or changed if the commit fails, and the whole selection is shown if its records did not change |
| `AnswerGuarantees.DataRoundTrip` | tools/front-door/src/hooks.rs:303-308 | the data block holds no markup character, decodes to this page and no other, and read by the names of the fields gives back the page, for every answer text |
| `AnswerGuarantees.ReplyRoundTrip` | tools/front-door/src/hooks.rs:295-321 | the reply is one line that parses as the envelope, its context has two tags in all and so exactly one data block, and a reader that knows only the names gets back the event and the page |
| `AnswerGuarantees.ContextBlock` | tools/front-door/src/hooks.rs:312-314 | whatever the answers say, the context is the prose and one data block between its two tags, and nothing in it looks like another |
| `AnswerSearch.ReadPage` | tools/front-door/crates/fabric-store/src/local_delivery.rs:151-261 | a bounded read returns the items of a stretch of rows except those too big alone; it stops only at its limit or before an item that does not fit beside the others; its cursor is the last scanned key, absent exactly when every row was scanned and nothing left out |
| `AnswerSearch.PrepareItems` | tools/front-door/src/hooks.rs:428-447 | every kept item takes its offered form, or an attempt count overflows |
| `AnswerSearch.FindExceeding` | tools/front-door/src/hooks.rs:372-378 | the keys of exactly the items over the context-free bound |
| `AnswerSearch.OfferBatch` | tools/front-door/src/hooks.rs:372-396 | what a batch delivers is the greedy packing of the offered forms of its rows that are not written off; if it delivers nothing then no row of its stretch could be delivered; its marks are exactly those its rows call for; and a page not marked truncated holds everything |
| `AnswerSearch.SearchBatch` | tools/front-door/src/hooks.rs:357-403 | a batch that delivers nothing holds nothing deliverable, its cursor is strictly later, and every row of it that is over the bound or too big for the store is marked, with a flag that tells which |
| `AnswerSearch.SearchState` | tools/front-door/src/hooks.rs:357-403 | the page loop ends, finds nothing only if no row of the state could be delivered, and has marked every row it came to that has to be |
| `AnswerSearch.Search` | tools/front-door/src/hooks.rs:357-403 | queued rows are searched before offered ones, which are reached only if no queued row is deliverable; the marks of each state are exact |
| `AnswerSelection.OfferGrowth` | tools/front-door/src/hooks.rs:428-447 | preparing an offer can shorten its record by at most 80 bytes |
| `AnswerSelection.PreparedFields` | tools/front-door/src/hooks.rs:428-447 | the offered form of a queued answer has its attempt counted and timed and nothing else changed, field by field; an offer stays as it is; only an exhausted attempt count fails |
| `AnswerSelection.StoreOversizedNeverDeliverable` | tools/front-door/crates/fabric-store/src/local_delivery.rs:241-250 | a record over the store's page limit is, in its offered form, in no acceptable reply |
| `AnswerSelection.SelectAnswers` | tools/front-door/src/hooks.rs:357-403 | the page returned is acceptable, the greedy packing of the last stretch of one delivery state, queued before offered; a row is passed over only if its offered form would not fit alone on an untruncated page; only answers that no reply could ever carry are marked undeliverable, and of the rows come to every one over the context-free bound, or too big for the store on any page, is marked, true if the store handed it out and false if it did not; the search fails only on a row of the searched state whose attempts are exhausted; if some row fits alone and no attempts are exhausted, something is delivered; and what is not marked truncated is all there is |
| `ShellQuote.Quote` | tools/front-door/src/chair.rs:135-164 | the two-buffer loop quotes maximal plain runs singly and every apostrophe and backslash doubly |
| `ShellQuote.LexQuoted` | tools/front-door/src/chair.rs:135-164 | in all three shells quoted text continues a word by exactly the original text |
| `ShellQuote.QuotedIsOneWord` | tools/front-door/src/chair.rs:135-164 | for every text, the quoted form lexes to one word equal to it under POSIX, zsh with RC_QUOTES and fish |
| `ShellQuote.FishBackslash` | tools/front-door/src/chair.rs:139-142 | why single quotes alone will not do: inside them fish reads two backslashes as one and the other shells read them as they stand |
| `ShellQuote.ZshDoubledQuote` | tools/front-door/src/chair.rs:139-142 | why adjacent single quotes will not do: inside single quotes a doubled quote is a quote to zsh with RC_QUOTES and nothing to the others |
| `ShellQuote.QuotedInjective` | tools/front-door/src/chair.rs:135-164 | no two texts have the same quoted form |
| `ShellQuote.LineRoundTrip` | tools/front-door/src/chair.rs:222-232 | a line of plain words, quoted words and `&&` lexes to exactly its own tokens in every shell |
| `ChairLaunch.OuterLine` | tools/front-door/src/chair.rs:230-232 | every shell reads the launch line as `/bin/sh`, `-c` and the script |
| `ChairLaunch.InnerScript` | tools/front-door/src/chair.rs:222-229 | lexing the script gives back the exact directories, settings text and prompt |
| `ChairLaunch.HookCommandWords` | tools/front-door/src/chair.rs:207-212 | a hook command in the settings reads back as the executable and its three arguments |
| `ChairLaunch.LaunchSurvivesTwoShells` | tools/front-door/src/chair.rs:197-233 | a launch is refused exactly for a rotating target or a path that cannot be typed, and otherwise survives both levels of shell exactly |
| `ChairLaunch.LaunchableExactly` | tools/front-door/src/chair.rs:165-175 | what can be launched: the target does not rotate and all five paths are text without a character below 0x20 or from 0x7f to 0x9f |
| `ChairLaunch.SettingsSurvive` | tools/front-door/src/chair.rs:207-217 | the settings text parses back to JSON in which each of the three events, found by its name, has the hook command of its own leaf, of type command and with its own time limit |
| `ChairLaunch.LaunchCanBeTyped` | tools/front-door/src/chair.rs:165-169 | the launch line holds no control character |
| `EventIntake.Intake.Open` | tools/front-door/src/event_intake.rs:106-131 | opening reads what is visible, writes nothing, and refuses unreadable, unsupported and foreign state |
| `EventIntake.OpensExactly` | tools/front-door/src/event_intake.rs:106-131 | opening succeeds if and only if there is no file, or one of version 1 for this or no repository, with its deliveries unchanged; the error says which |
| `EventIntake.Intake.Write` | tools/front-door/src/event_intake.rs:263-283 | what is visible and what a power cut could leave, after a write that succeeds or fails before or after its rename |
| `EventIntake.Intake.Admit` | tools/front-door/src/event_intake.rs:134-212 | the whole new state for rejected, known and new deliveries; a new one stays in memory although its write failed |
| `EventIntake.AdmitsExactly` | tools/front-door/src/event_intake.rs:134-212 | Accepted or Duplicate is answered if and only if the secret is set, the delivery signed and named, its event one of the eight, its payload of this repository, and the write succeeds; which of the two tells whether it was known; a rejection changes nothing |
| `EventIntake.AdmittedMarker` | tools/front-door/src/event_intake.rs:176-210 | a new delivery is recorded with its time and event, pending and not completed, for the pull request that its payload names in the way of its event, or else for the repository; nothing else changes |
| `EventIntake.Intake.CompleteAt` | tools/front-door/src/event_intake.rs:244-261 | only named, known deliveries are settled, and memory is rolled back when the write fails |
| `EventIntake.CompletesExactly` | tools/front-door/src/event_intake.rs:244-261 | a successful completion settles exactly the named known deliveries, at the given time, keeping the rest of them; a failed one changes nothing |
| `EventIntake.Intake.PendingTargets` | tools/front-door/src/event_intake.rs:220-236 | the result is the exact coalescing of the pending deliveries |
| `EventIntake.CoalescingUnique` | tools/front-door/src/event_intake.rs:220-236 | there is only one exact coalescing |
| `EventIntake.CoalescesMeans` | tools/front-door/src/event_intake.rs:219-236 | one sweep if a pending delivery asks for it, and else the pull requests that pending deliveries name, every one, no other, in ascending order |
| `EventIntake.EverywhereStep` | tools/front-door/src/event_intake.rs:134-283 | a fact kept by state changes that holds in memory and in every recoverable state still does after any step |
| `EventIntake.AcknowledgedIsDurable` | tools/front-door/src/event_intake.rs:134-212 | in every run, a delivery answered Accepted or Duplicate stays in memory and in every state a crash could recover, with its time, target and event unchanged; for one accepted these are what the delivery itself says |
| `EventIntake.AcknowledgedStaysPending` | tools/front-door/src/event_intake.rs:219-261 | a delivery answered Accepted, or answered Duplicate while pending, stays pending everywhere until a completion names it, so completing a snapshot leaves later admissions pending |
| `EventIntake.CompletedStaysSettled` | tools/front-door/src/event_intake.rs:244-261 | after a successful completion its deliveries are never pending again, in any later or recovered state |
| `EventIntake.SettledOnlyIfNamed` | tools/front-door/src/event_intake.rs:244-261 | nothing is settled anywhere unless some completion named it or the run began with it settled |
| `EventIntake.AcceptedOnce` | tools/front-door/src/event_intake.rs:134-212 | no delivery id is ever answered Accepted again after an acknowledgement |
| `EventIntake.AcknowledgedReopens` | tools/front-door/src/event_intake.rs:106-131 | after an acknowledgement every reopening succeeds, whatever failed in between |
| `PeerReader.InvStep` | tools/front-door/src/console.rs:434-482 | every step of every worker, receiver and clock keeps the relation between counter, workers, channel and results |
| `PeerReader.ReadsAtMostOnce` | tools/front-door/src/console.rs:454-476 | in every interleaving each host is read at most once, and a result is the one value read for that host, noted as finished by the deadline |
| `PeerReader.ClaimedOnce` | tools/front-door/src/console.rs:455-466 | no two workers hold the same index, and a held index is neither in the channel nor in the results |
| `PeerReader.DisconnectIsComplete` | tools/front-door/src/console.rs:471-480 | a disconnect before the deadline without a panicked worker finds every host collected |
| `PeerReader.EarlyReturnIsComplete` | tools/front-door/src/console.rs:471-482 | returning before the deadline, no read having panicked, means every host has a value |
| `PeerReader.ReturnedIsFinal` | tools/front-door/src/console.rs:432-482 | nothing a detached worker does after the return changes the results |
| `PeerReader.NoReadAfterDeadline` | tools/front-door/src/console.rs:458-461 | once the deadline has passed no read starts |
| `PeerReader.DeadlineEndsReceiver` | tools/front-door/src/console.rs:471-480 | past the deadline the receiver always has a step of its own and returns after at most two, whatever the workers do |
| `PeerReader.CanComplete` | tools/front-door/src/console.rs:432-482 | whatever the hosts return, some run collects all of it before the deadline |
| `PeerReader.WorkersExactly` | tools/front-door/src/console.rs:450-452 | there are as many workers as hosts but never more than eight |
| `PeerReader.TimesOut` | tools/front-door/src/console.rs:471-474 | when time passes the deadline a waiting receiver returns with what it has |
| `PeerReader.LateSender` | tools/front-door/src/console.rs:465-467 | a worker that sends after the receiver is gone ends, and changes no result |
| `HookStreams.ReadRows` | tools/front-door/src/hook_state.rs:419-434 | the record loop reads the leading complete, decodable records up to the page's total |
| `HookStreams.LineEndMeans` | tools/front-door/src/hook_state.rs:406-410 | a line ends at the first byte 10 |
| `HookStreams.RowsOfCut` | tools/front-door/src/hook_state.rs:419-434 | every byte cut of the record lines decodes to exactly the records wholly within it |
| `HookStreams.WholeMeans` | tools/front-door/src/hook_state.rs:419-434 | that number of records is the largest whose lines fit in the cut |
| `HookStreams.ParseLanes` | tools/front-door/src/hook_state.rs:363-398 | the filter loop shows the lanes of the inspected rows that the listing asks for, in order |
| `HookStreams.ShownExact` | tools/front-door/src/hook_state.rs:363-398 | a lane is shown if and only if an inspected row holds it and no time was given, or its state is terminal and it finished after that time |
| `HookStreams.TerminalIff` | tools/front-door/src/hook_state.rs:22-40 | the states that count as terminal are the names of all outcomes of an attempt except the unsettled one |
| `HookStreams.ParseLaneStream` | tools/front-door/src/hook_state.rs:402-443 | the reader for any bytes: nothing without a complete header or from a page of more than 100 records; else the leading records, filtered, the number left out, and the continuation after the last record, at the start, or where the header says |
| `HookStreams.LaneCut` | tools/front-door/src/hook_state.rs:402-443 | every truncation after the header inspects exactly the complete leading records, inspected plus skipped is the total, and the cursor is that of the last inspected record |
| `HookStreams.LaneMonotone` | tools/front-door/src/hook_state.rs:402-443 | more bytes only add records at the end and skip no more |
| `HookStreams.RemainingAfterRow` | tools/front-door/crates/run/src/reader.rs:969-1048 | listing after a row's cursor gives exactly the rows after it, ascending or newest first |
| `HookStreams.ResumeIff` | tools/front-door/src/hook_state.rs:435-440 | over records: resuming after the first n records of a page repeats and passes over nothing if and only if some record was read, there was none, or the page began the listing |
| `HookStreams.ResumeBytesIff` | tools/front-door/src/hook_state.rs:402-443 | the same for every page and every cut of its bytes that leaves the header: records read and rows listed next are together what was to be listed if and only if the read is resumable |
| `HookStreams.FirstPageResumes` | tools/front-door/src/hook_state.rs:145-173 | for the first page, which is all the hook reads, every cut after the header leaves read records and continuation that together are the whole listing |
| `HookStreams.RestartExample` | tools/front-door/src/hook_state.rs:435-440 | a caller that lists from a later cursor and gets only the header of its page is sent back to the first row |
| `HookStreams.GatherExact` | tools/front-door/src/hook_state.rs:400-443 | over any number of byte cuts and resumptions, each of them resumable, the records read and what is left are together exactly what there was to list; a cut header is read again |
| `HookStreams.ParseWorktreeStream` | tools/front-door/src/hook_state.rs:445-493 | lists the complete records from the second on, each at its place, and listed plus skipped is the total minus the primary, whatever follows the header |
| `HookStreams.WorktreeCut` | tools/front-door/src/hook_state.rs:464-493 | every truncation after the header lists exactly the complete records from the second on and counts the others as skipped; a truncated header reads as nothing |
| `SourceInventory.SelectedExactly` | tools/front-door/build.rs:629-680 | the walk selects exactly the tracked regular files beneath the root that no `.git` or generated directory holds |
| `SourceInventory.VisibleExactly` | tools/front-door/build.rs:650-700 | what the walk sees: no name on the way is `.git` and no directory on the way has one of the thirteen generated names |
| `SourceInventory.JoinCuts` | tools/front-door/build.rs:171-190 | a tracked name is the names on its way, joined by slashes |
| `SourceInventory.RefusedExactly` | tools/front-door/build.rs:629-680 | the walk refuses exactly when something it can see is a link, device, directory or file where the index says otherwise |
| `SourceInventory.SelectedOnce` | tools/front-door/build.rs:629-680 | no path is selected twice |
| `SourceInventory.PruneChangesNothing` | tools/front-door/build.rs:171-190 | removing every entry that is neither tracked nor an ancestor of a tracked name changes neither selection nor refusal |
| `SourceInventory.NonInterference` | tools/front-door/build.rs:629-680 | two trees that differ only in irrelevant entries give the same inventory in the same order |
| `SourceInventory.OrderFreeInventory` | tools/front-door/build.rs:629-680 | two trees that hold the same things wherever it matters, in any order and beside anything else, give the same files, the same refusal and, under any limits, the same success |
| `Ledger.LoadPermuted` | tools/front-door/build.rs:63-95 | what the limits look at does not depend on the order of the files |
| `SourceInventory.LimitsExactly` | tools/front-door/build.rs:31-33 | an empty inventory admits at most 100000 files of at most 16777216 bytes each and 268435456 together |
| `SourceInventory.Inputs.ReadFile` | tools/front-door/build.rs:63-95 | a file is recorded, whole and under its name, if and only if there are fewer than 100000, it is at most 16777216 bytes long and the total stays within 268435456; the running total stays exact |
| `SourceInventory.Inputs.CollectTree` | tools/front-door/build.rs:629-680 | the walk succeeds if and only if nothing is refused and the limits admit the whole selection, and has then recorded exactly the selection |
| `SourceInventory.Inputs.Visit` | tools/front-door/build.rs:655-677 | one entry: refused, descended into, added or passed over |
| `SourceInventory.CollectRoot` | tools/front-door/build.rs:635-643 | a missing root is an error only when required, and a root must be a directory |
| `Ledger.LoadMeans` | tools/front-door/build.rs:63-95 | the load's count and largest size say what the limits ask of every file |
| `FairProbes.FairShareFits` | tools/front-door/src/fabric.rs:220-224 | a share is positive, times the probes left it fits the remaining time, and it is absent only if the time is less than one unit per probe |
| `FairProbes.ShareNeverShrinks` | tools/front-door/src/fabric.rs:220-224 | a probe within its share leaves every later probe at least that share |
| `FairProbes.CallsFair` | tools/front-door/src/fabric.rs:799-902 | whatever the probes take within their caps, any lawful sequence of divisions keeps these bounds |
| `FairProbes.ProbeLoop` | tools/front-door/src/fabric.rs:799-902 | for any division in which a probe that keeps to its share leaves later ones at least that share: caps never shrink, none is below the first share, the total spent is within the budget, and the k-th cap is the share of what is left for the probes left, of which there is always at least one |
| `FairProbes.ProbeHosts` | tools/front-door/src/fabric.rs:799-902 | caps never shrink, none is below the even share of the budget, the total spent is within the budget, each cap is the fair share of what the earlier probes left, and the divisor is never zero |
| `StdinBridge.Stdin.Read` | tools/front-door/src/fabric.rs:977-1002 | case by case the outcome, the bytes put in the buffer, what stays pending and queued; the rest of the buffer untouched |
| `StdinBridge.StepConserves` | tools/front-door/src/fabric.rs:977-1002 | bytes delivered followed by bytes left are the bytes that were left, whatever the outcome, and end of input is sticky |
| `StdinBridge.RunConserves` | tools/front-door/src/fabric.rs:977-1002 | the same over every sequence of buffer sizes and waits |
| `StdinBridge.ReadsArePrefix` | tools/front-door/src/fabric.rs:943-1002 | what a run of reads returns is a prefix of what was sent, and all of it once the end of input was seen |
| `StdinBridge.EmptyReadIsEnd` | tools/front-door/src/fabric.rs:980-1002 | a read with room returns no bytes only at the end of input, and then always |
| `LaneStates.CountMeans` | tools/front-door/src/gc_support.rs:421-437 | for every path the two maps say whether it has a writer, whether all its writers finished, and when the newest did |
| `LaneStates.TerminalExactly` | tools/front-door/src/gc_support.rs:344-377 | a worktree reads as terminal exactly when it has a writer attempt, all its attempts finished, and the newest finish is strictly after its creation |
| `LaneStates.OrderFree` | tools/front-door/src/gc_support.rs:344-467 | the order of lanes does not matter |
| `LaneStates.CountPage` | tools/front-door/src/gc_support.rs:413-438 | one page counted in order, failing exactly on an unknown task or a relative path |
| `LaneStates.UsableExactly` | tools/front-door/src/gc_support.rs:413-424 | the scan fails exactly if some lane's task is not known or writes to a path that is not absolute |
| `LaneStates.ScanTerminal` | tools/front-door/src/gc_support.rs:379-443 | the paging loop ends with the tally of the whole listing for every page size, and fails exactly if some lane is unusable |
| `LaneStates.LaneStateMap` | tools/front-door/src/gc_support.rs:350-377 | a worktree is in the map if and only if some lane writes to it, and settled there if and only if all such lanes finished and one of them after the worktree was made |
| `LaneStates.LatchExact` | tools/front-door/src/gc_support.rs:276-313 | a snapshot answers exactly while every look so far found the store it was scanned from |
| `LaneStates.SameExactly` | tools/front-door/src/gc_support.rs:278-313 | a look counts as a change exactly if it could not be made, or found another directory, another database file or another version |
| `LaneStates.StaleForever` | tools/front-door/src/gc_support.rs:276-313 | a stale snapshot never answers again |
| `LaneStates.LaneSnapshot.IsCurrent` | tools/front-door/src/gc_support.rs:278-313 | one look moves the latch and tells whether the snapshot may answer |
| `LaneStates.LaneSnapshot.Get` | tools/front-door/src/gc_support.rs:268-270 | an answer only from a current snapshot |
| `LaneStates.LaneSnapshot.NoLiveLanes` | tools/front-door/src/gc_support.rs:272-274 | true only for a current snapshot without a live lane at the path |
| `LaneStates.SweepCells.RefreshIfStale` | tools/front-door/src/gc_support.rs:240-257 | the two cells after a refresh |
| `LaneStates.RefreshIsFresh` | tools/front-door/src/gc_support.rs:240-257 | a refresh leaves a current or new snapshot, or none together with the failure flag |
| `LaneStates.FailedForGood` | tools/front-door/src/gc_support.rs:240-257 | one failed rescan leaves no snapshot for the rest of the sweep |
| `PathRewrites.ReplacePath` | tools/front-door/src/graph_support.rs:149-166 | for every absolute path the loop equals a left-to-right scan that decides each occurrence by its neighbours in the original text, although the loop consults its own output |
| `PathRewrites.Neighbours` | tools/front-door/src/graph_support.rs:147-166 | a path is left alone beside a letter, digit, slash, underscore or dash, and after a dot; beside anything else it is replaced |
| `PathRewrites.RewrittenIsReplaced` | tools/front-door/src/graph_support.rs:147-166 | for a path that none starts in the midst of, the scan replaces exactly the whole occurrences |
| `PathRewrites.OneMore` | tools/front-door/src/graph_support.rs:136-143 | one more rename after a substitution is the substitution of all of them, unless the new path can be found where a canonical one was written |
| `PathRewrites.PromptAtOnce` | tools/front-door/src/graph_support.rs:136-143 | if no path starts in the midst of a given or canonical one, and no later given path begins an earlier canonical path or is begun by it, then for every prompt the renames one after the other replace each given path once |
| `PathRewrites.PairExact` | tools/front-door/src/graph_support.rs:136-143 | for two renames of such paths the condition is exact: they replace each path of every text once if and only if neither the second given path nor the first canonical one begins the other |
| `PathRewrites.ChainExample` | tools/front-door/src/graph_support.rs:136-143 | with links `/l` to `/d.o` and `/d` to `/q` the prompt `/l` becomes `/q.o`, which is in no list |
| `PathRewrites.RewritePrompt` | tools/front-door/src/graph_support.rs:136-143 | the loop over the renames; if they are orderly every given path is replaced once |
| `GraphPaths.BareExactly` | tools/front-door/src/graph_support.rs:37-41 | a root is bare if and only if it is `${name}` for a name without `$`, `{` and `}` |
| `GraphPaths.UsableExactly` | tools/front-door/src/graph_support.rs:84-96 | a root is usable if and only if it is text that holds no `${`, or one placeholder and nothing else |
| `GraphPaths.CollectNames` | tools/front-door/src/graph_support.rs:84-97 | succeeds exactly if every root is text and a root with a placeholder is nothing else; a parameter is collected if and only if its placeholder is one of the roots, in the order of the roots |
| `GraphPaths.NamedIff` | tools/front-door/src/graph_support.rs:84-97 | a parameter is named if and only if its placeholder is one of the roots |
| `GraphPaths.ConfineValues` | tools/front-door/src/graph_support.rs:106-125 | succeeds exactly if every value is absolute text the policy admits; each value is then the path it confines to, and the changed ones are remembered in order after the known ones |
| `GraphPaths.ChangesMean` | tools/front-door/src/graph_support.rs:116-124 | the remembered changes are exactly the values that the policy moves, with where it moves them |
| `GraphPaths.ConfineParameters` | tools/front-door/src/graph_support.rs:84-134 | under a policy that settles, success exactly if the roots are usable and every named parameter has a closed list of allowed values; then each named list holds the confined paths, a default taken from its list is still in it, other parameters are untouched, and the renames are the known ones and the changed values of named lists, however often a parameter is named |
| `GraphPaths.ParametersMean` | tools/front-door/src/graph_support.rs:98-134 | the same for the loop over names from any point on |
| `GraphPaths.RenamesExactly` | tools/front-door/src/graph_support.rs:54-134 | the renames of a node are exactly the values of its roots' closed lists that the policy moves, with where it moves them |
| `GraphPaths.GraphNode.ConfinePatternRoots` | tools/front-door/src/graph_support.rs:49-145 | the edited node on success, its prompt having each given path replaced once by the canonical one where the renames are orderly; on refusal the prompt is untouched |
| `GraphPaths.ConfinedTwice` | tools/front-door/src/graph_support.rs:49-145 | when the policy settles, confining an admitted node again succeeds and changes nothing |
| `GraphPaths.ConfinedIsCanonical` | tools/front-door/src/graph_support.rs:43-48 | after a success every value a root can take is canonical and allowed |
| `WorktreeOwnership.InvStep` | tools/front-door/src/hook_worktree.rs:138-328 | every step of every hook, and everything else that happens to worktrees and records between them, keeps each written record tied to the hook that wrote it and each marker to the worktree it landed in |
| `WorktreeOwnership.OwnedExactly` | tools/front-door/src/hook_worktree.rs:190-200 | in every run the records vouch for a worktree exactly when one and the same hook wrote both copies for the path the worktree is at, and then it is the worktree that hook's marker landed in |
| `WorktreeOwnership.HookOwnedMeans` | tools/front-door/src/hook_worktree.rs:202-205 | a worktree that reads as owned as it stands is not the primary checkout, and a hook marked this very worktree for its present path, branch and HEAD |
| `WorktreeOwnership.TrackRun` | tools/front-door/src/hook_worktree.rs:173-210 | where a worktree is after a run, or that it is gone, can be read off the removals and moves in it |
| `WorktreeOwnership.LandsIff` | tools/front-door/src/hook_worktree.rs:173-188 | a hook's marker lands in the worktree the hook made if and only if that worktree was at its path when the path was resolved and had not been removed when the marker was written |
| `WorktreeOwnership.UndisturbedLands` | tools/front-door/src/hook_worktree.rs:214-245 | in particular it does if nothing removes or moves the worktree while the hook is marking |
| `WorktreeOwnership.OwnedIff` | tools/front-door/src/hook_worktree.rs:138-205 | in every run the worktree that a hook's record vouches for is the one that hook made if and only if the same condition holds |
| `WorktreeOwnership.HandMadeOnlyByRace` | tools/front-door/src/hook_worktree.rs:190-205 | a worktree made by hand is vouched for only by a hook that made another one |
| `WorktreeOwnership.RaceBeforeResolving` | tools/front-door/src/hook_worktree.rs:173-188 | it happens: the worktree is replaced by hand before its hook resolves the path |
| `WorktreeOwnership.RaceBetweenWrites` | tools/front-door/src/hook_worktree.rs:173-188 | it happens: the worktree is replaced between the two writes under the same admin directory name |
| `WorktreeOwnership.RemovesCheckedIff` | tools/front-door/crates/confinement/src/worktrees/lifecycle.rs:1129-1166 | hook removal takes away the one worktree that answers to the checked path's last name by then; it is the one whose records were checked if and only if the removals and moves in between took that one to where it is found, and a worktree at the checked path is never passed over for another |
| `WorktreeOwnership.UndisturbedRemoval` | tools/front-door/src/hook_worktree.rs:299-321 | in particular it is the checked one, at its path, if nothing removes or moves it in between |
| `WorktreeOwnership.RemovesAnother` | tools/front-door/src/hook_worktree.rs:309-319 | it happens otherwise: the checked worktree is removed by hand and one made by hand elsewhere, without any record but with the same last name, goes |
| `WorktreeOwnership.AnswersExactly` | tools/front-door/crates/confinement/src/worktrees/lifecycle.rs:1129-1143 | a checkout answers to a name if and only if its directory has that name or it is on that branch |
| `WorktreeOwnership.PrimaryBlocks` | tools/front-door/crates/confinement/src/worktrees/lifecycle.rs:1144-1146 | while the primary checkout answers to the name, nothing is removed |
| `WorktreeOwnership.OwnedLasts` | tools/front-door/src/hook_worktree.rs:190-210 | ownership lasts through every step that touches neither the worktree nor its record file |
| `WorktreeOwnership.Disowned` | tools/front-door/src/hook_worktree.rs:131-137 | it ends when a record is lost or the worktree removed or moved; a worktree that moved on to another branch or HEAD does not read as owned as it stands |
| `WorktreeOwnership.Reusable` | tools/front-door/src/hook_worktree.rs:89-124 | the first entry holding `refs/heads/` and the branch decides; it is handed out, or refused for the first reason that holds: path unknown, in the primary, not where the hook makes it, writer live, not clean, not owned |
| `WorktreeOwnership.MadeAtExactly` | tools/front-door/src/hook_worktree.rs:108-110 | a branch's worktree is made in `.worktrees` of the primary checkout, under the branch's name with a dash for every slash |
| `WorktreeOwnership.ReuseIsMarked` | tools/front-door/src/hook_worktree.rs:89-124 | in every run, with anything happening between listing and reading the records, what is reused is not the primary checkout and a hook marked it for this path, branch and listed HEAD; it is the listed worktree if and only if that one was left there |
| `WorktreeOwnership.Hook.MarkOwned` | tools/front-door/src/hook_worktree.rs:173-188 | the writes are a run of the steps; finished, the path reads as owned with exactly this record; unfinished, no worktree changes; other record files are untouched |
| `WorktreeOwnership.Hook.Forget` | tools/front-door/src/hook_worktree.rs:207-210 | afterwards nothing vouches for the path, and every path with another record file is as before |
| `WorktreeOwnership.Hook.Remove` | tools/front-door/src/hook_worktree.rs:272-328 | a path that does not exist is fine; the primary checkout, any other directory, a worktree without both records, and one whose last name also means another or the primary checkout are refused and stay; a removed one takes its record along once its path is gone, and the removal is a run of the steps |

## Left out

- AnswerSelection.SelectAnswers: reads one unchanging snapshot of the store's rows; deadline errors, database errors and concurrent writers are not modelled, and the store's canonical form is measured as compact text of the same length.
- AnswerCommit.OfferOnce: the checks of schema, answer and destination on a stored record are one given predicate; the deadline, the item limit and the transaction are not modelled.
- AnswerGuarantees.ReplyRoundTrip: the prose of the reply is a parameter without angle brackets rather than the exact sentences.
- AnswerDecode.PageBack: a page whose foreign fields reuse the record's own names is not read back; the source's reader refuses such duplicates.
- Json.ParsePrint: the reader covers what the printer writes; numbers are kept as their text and surrogate escapes are not read.
- ShellQuote.QuotedIsOneWord: the lexers answer nothing for expansions, globs and other operators, which quoted text never reaches.
- EventIntake.Intake.Admit: the signature check is a given yes or no and the payload is given as the fields that admission looks at; file locking and permissions are not modelled.
- PeerReader.InvStep: time is a monotone counter, and spawning a thread never fails.
- HookStreams.ParseLaneStream: decoding one JSON line is a parameter, and the printed columns of a lane or worktree are opaque.
- HookStreams.GatherExact: the listing does not change between reads.
- SourceInventory.Inputs.ReadFile: a file does not change between the listing and the read, and failing file system calls are not modelled.
- FairProbes.ProbeHosts: only probes take time, as the division assumes; the exchange with a peer is the time it takes.
- StdinBridge.Stdin.Read: the reader thread is the sequence of messages it sends.
- LaneStates.ScanTerminal: the branch for an absent run store and the identity checks while opening it are not modelled.
- GraphPaths.GraphNode.ConfinePatternRoots: read roots are given in the order they are collected from the nested JSON, parameters are found by name, and edits inside a refused pattern are not kept.
- WorktreeOwnership.InvStep: files are written whole or lost; a path is canonical, so symbolic links are not modelled, nor is copying a worktree's directory by hand or deleting it without Git; the owner's own removal is one step, and its reasons to keep a worktree are a given yes or no.
- PathRewrites.PromptAtOnce: for more than two renames the condition is sufficient, not exact, since a third can undo what a second did; and it asks that every inner slash of a path follows a letter, digit, `_`, `-`, `.` or `/`, without which a path can also be found across what was written and its surroundings.
- Rendering, option parsing, subprocess calls and the wording of errors around these parts; and the handoff, release, installer, disk, pull-request and chair-log commands, whose rules are mostly in other crates.
- SHA-256, HMAC and the SQLite stores: not part of this model.
