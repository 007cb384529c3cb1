# A verified model of Dearborn's server

Dearborn plans epics with people and coding agents and then runs the plan. This project models the
parts of its Rust server (`dearborn-server`) that keep state or scan text, and proves what they are
for. Nothing here runs the server.

| file | models |
|---|---|
| `Text.dfy`, `Utf8.dfy` | the string searches, trimming and splitting the server relies on, and UTF-8 |
| `Scanner.dfy`, `Printer.dfy` | the HTML anchor scanner of the living Document, and its exactness against a printer |
| `DocumentStore.dfy`, `DocumentIndex.dfy`, `DocumentRuns.dfy` | versioned Document syncs, interleaved; the section index over the whole history; whole syncs and the failure window |
| `Redaction.dfy`, `HiddenTokens.dfy`, `RedactedUrls.dfy` | keeping tokens out of stored text, exactly which tokens are hidden, and the equations that determine the redacted text and the authenticated clone URL |
| `TaskGraph.dfy`, `LinkProtocol.dfy` | the task DAG, and dependency links cut at their statements |
| `RunEvents.dfy`, `Breakdown.dfy`, `BreakdownProtocol.dfy`, `BreakdownRuns.dfy` | the event stream of a run, a breakdown run, its interleavings, and the run that nobody disturbs |
| `AfkEngine.dfy` | unattended runs of map nodes |
| `Settings.dfy`, `SettingsProtocol.dfy` | agent settings and their resolution, and requests cut at every await |
| `EvidenceLog.dfy`, `EvidenceRows.dfy` | log capping, and the life of evidence rows across crashes and boots |
| `Cost.dfy`, `Prices.dfy` | pricing and the two-stage cost aggregation, and the price list itself |
| `Comments.dfy`, `Promotions.dfy` | comment threads and promotion, and promotions cut at their statements |
| `Capability.dfy` | the pruning token store and what a token may call |
| `ConfigFile.dfy` | the config file parser |

Conventions.

- Code that updates fields or advances a cursor is a class or a method with loops, proved equal to a
  function of its inputs or of the old state; the theorems are lemmas about those functions. A loop
  over a database update is the statement's effect on the rows.
- Protocols are state machines: `Step` runs one SQL statement, lock operation or stream event, and
  `After` runs any list of them, in any order, by any number of clients. Fields that are history
  only (what was accepted, what was lost) are named as such where they are declared.
- Text is a sequence of Unicode scalar values. The server indexes by byte;
  `Utf8.SearchCommutesWithEncoding` shows that a byte search finds encoded text at character
  offsets only, and exactly where a character search does, so the indices agree. Log capping, whose
  bound is in bytes, is modelled on bytes.
- What the code spells out (heading levels, delimiters, the failure marker, prices, routes, slot names) is
  spelt out a second time where it is proved: the printer's grammar has its own character classes and
  heading tags, and the theorems below name the literals, not the tables of the operations.
- ULIDs are fresh names. Clocks, agent runs and random choices are parameters or events.

Where the code does not do what its comments or names say, the model follows the code, a lemma shows
an instance, and another says exactly when the code does it.

- A sync that is dropped between the lineage insert and the pointer update leaves the epic
  unable to accept any later sync (`DropBetweenWritesFreezes`, `FrozenForever`); a sync is
  accepted exactly when its base is current and no row stands ahead (`AloneIsSync`).
- A sync dropped while it rebuilds the index can leave a torn one (`DropWhileFillingTears`): it
  does exactly when it stops before the clearing and the old or the new index has rows, when rows
  are left to insert, or when it remembered a wrong credit (`InterruptTearsExactly`). A rebuild
  that finishes after a torn one is right exactly when it remembers every credit it needs
  (`IndexAgreesExactly`); what it would remember wrongly is a credited section among the rows the
  torn one lost, or one whose credit the version it gave up on had changed
  (`InterruptRecallsExactly`).
- `redact` says a token can never survive. A token is hidden in all texts exactly if it neither
  starts nor ends with `*` nor contains `***`, or if no surroundings keep the URL masking off it
  (`HidesExactly`); without a `://` only the stars matter (`HidesExactlyOpaqueTokens`).
  It says the userinfo of every URL is masked. A URL that begins inside another one's
  authority is stepped over (`NestedUrlKeepsUserinfo`, `AllCleanExactly`).
- Re-authenticating an authenticated URL keeps the old token's tail when that token has a slash
  (`ReauthenticateExactly`).
- The lane of an epic, and the state of a node, are read before the run's lock is taken, so a run
  can start on an epic or node that has just settled (`StartsOnReadyEpic`, `StartsOnSettledNode`).
  It does exactly when the last event since the check that set the lane or the state settled it,
  be it a run or a person (`StartsPlanningExactly`, `StartsUnsettledExactly`). What such a run
  reports changes nothing settled.
- A breakdown whose agent crashed without a failed CLI call still moves the epic to Ready
  (`CrashedAgentStillMoves`); only failed calls decide (`OnlyCleanRunsMove`).
- A failed breakdown keeps the links it made between tasks that were there before
  (`FailedRunKeepsOldLink`); `FailedRunRestores` says exactly when the edges are restored.
- The rollback is promised to spare the tasks of earlier runs. When the snapshot of those tasks
  cannot be read, the run goes on with an empty one, and a failure then deletes every task of the
  epic (`FailedSnapshotLosesTasks`); an undisturbed failed run leaves the DAG it found exactly when
  the snapshot was read or there was nothing to lose (`FailedRunRestoresDag`).
- The queries of a link's cycle search and its insert are separate statements, so two links can
  close a cycle (`OverlappingLinksCycle`); the DAG stays acyclic exactly when no insert was
  overtaken (`AlwaysAcyclicExactly`).
- A log that was at the cap exceeds it after orphan reconciliation (`OrphanedLogExceedsCap`,
  `OrphanedWithinCapExactly`).
- A lease can lapse while its worker still runs, and two workers then draw the same attempt
  (`LapsedLeaseCollides`); attempts are 1, 2, 3, … exactly when each open carries the attempt that
  is next as it is made (`AttemptsCountExactly`), as under leases that hold (`AttemptsCount`).
- `normalize_model` is not idempotent for names with white space behind their prefixes, and only
  for those (`NormalizeTwiceDiffers`, `NormalizeTwiceExactly`).
- A promoted node's derived title comes from the comment named in the request, which need not be
  the thread's first one, as the comment on `derived_title` has it (`ReplyTitlesNode`); it is the
  first one's exactly when the two read alike (`TitleIsHeadsExactly`).
- A reply to a resolved thread is unresolved (`ReplyBreaksUniform`, `UniformExactly`).
- Two promotions that overlap both make a node (`PromotionsRace`); there is one node for each
  promoted thread exactly when, along the run, every stamp found its thread unpromoted and none was
  dropped between its two writes (`OrderedExactly`, `PromotionKeepsOkExactly`).
- A slot edit checked before a harness is disabled and saved after it leaves the slot on a disabled
  harness (`StaleSaveBreaksOk`); the settings stay in order exactly when every save still passes
  its check as it is made (`AlwaysOkExactly`).
- With the clock set back, a pruned token stays refused (`ClockSetBackShowsPruning`,
  `PruningShowsExactly`).

## Model

| member | source | states |
|---|---|---|
| `Utf8.SearchCommutesWithEncoding` | dearborn-server/src/document.rs:137-140 | a byte search for encoded text matches at character offsets only, and exactly where a character search does |
| `Utf8.FindCommutesWithEncoding` | dearborn-server/src/git.rs:150-155 | the first byte match is the encoding of the first character match, and there is none exactly when there is none |
| `Utf8.EncodedExamples` | dearborn-server/src/evidence.rs:100-118 | the encoding on characters of the examples in section 7 of RFC 3629, of one to four bytes |
| `Text.LowersLetters` | dearborn-server/src/document.rs:136-140 | lower-casing takes each capital letter to the small one at its place in the alphabet, and leaves all else |
| `Text.SpacesAre` | dearborn-server/src/document.rs:271-283 | white space is the 25 characters of Unicode |
| `Scanner.ExtractSections` | dearborn-server/src/document.rs:136-204 | the cursor loop, its tag, comment, title and duplicate cases, terminates on every text in range with the index `Extract` defines |
| `Scanner.ExtractIdAttr` | dearborn-server/src/document.rs:210-268 | the nested attribute loops return the value of the first `id` attribute outside quoted values |
| `Scanner.StripTagsLoop` | dearborn-server/src/document.rs:271-283 | the flag-driven loop keeps the text outside angle brackets, white space normalised |
| `Scanner.ExtractSound` | dearborn-server/src/document.rs:124-204 | for every text, ids are non-empty, pairwise distinct, lower-case and stand in the lower-cased text |
| `Scanner.FirstOnlyKeepsFirsts` | dearborn-server/src/document.rs:124-134 | the first occurrence of every id is kept, with its own title |
| `Scanner.FirstOnlyInOrder` | dearborn-server/src/document.rs:136-204 | what is kept stands in document order |
| `Scanner.TitleIsNormal` | dearborn-server/src/document.rs:271-283 | for every text, a title is trimmed, has single blanks and no other white space between its words, and its words are those of the text outside the tags |
| `Printer.ExtractPrinted` | dearborn-server/src/document.rs:124-283 | on the print of every document tree, the index is the preorder of its non-empty lower-cased ids, first occurrences only, each `h1` to `h6` with its normalised text |
| `Printer.IdAttrOfPrint` | dearborn-server/src/document.rs:206-268 | from printed attributes, any mix of names and blanks, with values in either quote, unquoted or missing, the first `id` value is read back |
| `Printer.TitlePrinted` | dearborn-server/src/document.rs:136-204 | a printed heading's title is its own text, whatever comments, tags and other headings it holds |
| `Printer.StripTagsOfTrim` | dearborn-server/src/document.rs:271-283 | trimming the heading before stripping its markup changes nothing |
| `DocumentStore.DocumentEpic.CommitVersion` | dearborn-server/src/document.rs:370-397 | lands a lineage row with the HTML, editor and node sent and moves the pointer to it, or writes nothing when the version exists |
| `DocumentStore.DocumentEpic.RebuildSections` | dearborn-server/src/document.rs:406-458 | replaces the index by every anchor of the HTML, with the sync's node or each section's previous provenance |
| `DocumentStore.DocumentEpic.Sync` | dearborn-server/src/document.rs:533-599 | stale, failed or accepted, and the whole database after each |
| `DocumentStore.RunKeepsSafe` | dearborn-server/src/document.rs:533-599 | for any number of clients, interleaved at every await, dropped or crashed anywhere: versions are 1..n, each base accepted at most once and yielding the next, the document is the newest accepted sync's, the lineage at most one ahead, one client in the critical section |
| `DocumentStore.LineageHoldsWhatWasSent` | dearborn-server/src/document.rs:370-397 | over every run, row k + 1 of the lineage holds the HTML, the editor and the node that the k-th accepted sync sent, and the current document shows the HTML and the editor of the newest of those rows |
| `DocumentStore.RowAheadHolds` | dearborn-server/src/document.rs:378-393 | so does the row written ahead of the pointer, for the sync between its writes |
| `DocumentStore.WritesNeedTheBase` | dearborn-server/src/document.rs:546-556 | a step writes only for the lock holder on the very base it named, and an acceptance moves the version by one |
| `DocumentIndex.CreditedIsLatestNaming` | dearborn-server/src/document.rs:399-405 | provenance is the node of the latest node-naming sync since which the section was present in every version, and there is none exactly when there is no such sync |
| `DocumentIndex.RebuiltIsIndexExactly` | dearborn-server/src/document.rs:406-458 | one rebuild agrees with the definition over the whole history exactly when it names a node or remembers every section's credit |
| `DocumentIndex.RebuiltIsIndex` | dearborn-server/src/document.rs:406-458 | one rebuild from the previous index agrees with the definition over the whole history |
| `DocumentIndex.IndexAgreesExactly` | dearborn-server/src/document.rs:406-458 | after any run, drops and crashes included, the stored index is the one the accepted syncs define exactly when the last rebuild was not cut short with rows outstanding and remembered every credit it needed; and the lineage is those syncs |
| `DocumentIndex.InterruptTearsExactly` | dearborn-server/src/document.rs:421-448 | in every reachable state, dropping the rebuilding client or crashing leaves the history's index exactly when old and new index are both empty (before the clearing), or nothing is left to insert and every credit was remembered (while filling) |
| `DocumentIndex.InterruptRecallsExactly` | dearborn-server/src/document.rs:421-448 | after the first rebuild that is cut short, the next sync would remember a wrong credit exactly when it names no node and its HTML keeps, before any clearing, a section whose credit the given-up version set or took away, or, while filling, a credited section among the rows not yet inserted |
| `DocumentIndex.UninterruptedNeverTears` | dearborn-server/src/document.rs:406-458 | a run in which no rebuild is cut short never tears the index |
| `DocumentRuns.DropWhileFillingTears` | dearborn-server/src/document.rs:421-448 | a run from the start that ends with the new version current and its one anchor missing from the index |
| `DocumentRuns.AloneIsSync` | dearborn-server/src/document.rs:533-599 | a waiting sync that then runs alone ends as the uninterrupted one: accepted exactly when its base is current and no row stands ahead |
| `DocumentRuns.FrozenForever` | dearborn-server/src/document.rs:378-393 | once a row stands ahead of the pointer with nobody to move it, no sync is ever accepted again |
| `DocumentRuns.DropBetweenWritesFreezes` | dearborn-server/src/document.rs:378-393 | a run that gets there |
| `Redaction.RedactUrlUserinfo` | dearborn-server/src/git.rs:147-170 | the loop over `rest` and `result` computes the masking of the whole text |
| `Redaction.Redact` | dearborn-server/src/git.rs:136-144 | the replacement of the token, then the masking |
| `Redaction.ReplacedHasNone` | dearborn-server/src/git.rs:136-142 | after the replacement the token is nowhere, the seams of every mask included |
| `Redaction.OnlyTokensChange` | dearborn-server/src/git.rs:136-142 | the text and its replacement are the same pieces, joined by the token and by the mask |
| `Redaction.MaskUrlsReflects` | dearborn-server/src/git.rs:147-170 | masking spells nothing star-free that did not already stand in the text |
| `Redaction.RedactedHidesToken` | dearborn-server/src/git.rs:131-144 | for every text, an opaque token is not a substring of the redacted text |
| `Redaction.StarFreeIsOpaque` | dearborn-server/src/git.rs:131-144 | every non-empty token without `*` is opaque |
| `HiddenTokens.HidesExactly` | dearborn-server/src/git.rs:131-170 | a token is hidden in all texts exactly when it is opaque or no beginning (in the open, in the midst of a `://`, inside an authority, behind a mask) keeps the masking off it |
| `HiddenTokens.HidesExactlyOpaqueTokens` | dearborn-server/src/git.rs:131-144 | a token without `://` is hidden in all texts exactly when it is opaque |
| `HiddenTokens.MaskedIsSteady` | dearborn-server/src/git.rs:147-170 | every authority that a scan of the masked text meets is as masking would leave it |
| `Redaction.MaskUrlsTwice` | dearborn-server/src/git.rs:147-170 | masking is idempotent: the second scan stops at the same authorities |
| `Redaction.OnlyUserinfoChanges` | dearborn-server/src/git.rs:147-170 | the text and its masking differ only in pieces between a `://` and an `@` with no delimiter inside |
| `Redaction.AllCleanExactly` | dearborn-server/src/git.rs:131-170 | after masking every URL shows no userinfo but the mask exactly when no URL the scan steps over has any |
| `Redaction.NestedUrlKeepsUserinfo` | dearborn-server/src/git.rs:147-170 | a text whose nested URL keeps its userinfo |
| `RedactedUrls.PlainTextStays` | dearborn-server/src/git.rs:131-170 | with no token, or an empty one, text without a `://` stays as it is |
| `RedactedUrls.UserinfoHidden` | dearborn-server/src/git.rs:131-170 | with no token, the userinfo of the first URL, up to its last `@`, becomes `***`, its host stays, and the rest is redacted from its first `/`, `?`, `#` or white space on |
| `RedactedUrls.HostStays` | dearborn-server/src/git.rs:131-170 | with no token, a first URL without userinfo stays, and the rest is redacted |
| `RedactedUrls.TextForms` | dearborn-server/src/git.rs:147-170 | every text is of one of these forms, so the equations determine what becomes of it |
| `RedactedUrls.TokenHidden` | dearborn-server/src/git.rs:136-142 | the first occurrence of a token becomes `***`, and so on behind it |
| `RedactedUrls.TokenFirst` | dearborn-server/src/git.rs:136-144 | a token is replaced before the URLs are masked, and one that does not occur makes no difference |
| `RedactedUrls.RedactedShowsNoUsers` | dearborn-server/src/git.rs:131-170 | for every text and every token, or none, no authority that a scan of the redacted text meets has an `@` but the one behind the mask |
| `RedactedUrls.OnlyUserinfoRedacted` | dearborn-server/src/git.rs:131-170 | without a token, the text and its redaction differ in userinfo only |
| `RedactedUrls.LeakedCloneUrl` | dearborn-server/src/git.rs:598-604 | the message of a failed clone, redacted without a token, shows no secret |
| `RedactedUrls.AuthenticatedExactly` | dearborn-server/src/git.rs:96-129 | a token goes in front of the host of an https URL, in the place of any userinfo, with nothing else changed |
| `RedactedUrls.UnauthenticatedExactly` | dearborn-server/src/git.rs:96-109 | without a token the URL is used as it is, and with one exactly the https URLs are accepted |
| `Redaction.HostPathOf` | dearborn-server/src/git.rs:111-118 | userinfo is dropped from the authority before the first slash, and the rest is kept |
| `Redaction.StripOf` | dearborn-server/src/git.rs:123-129 | what follows the last `@` is the host |
| `Redaction.ReauthenticateExactly` | dearborn-server/src/git.rs:96-129 | authenticating an authenticated https URL with a second token is authenticating the original with it, exactly when the first token has no slash |
| `TaskGraph.WouldCreateCycle` | dearborn-server/src/tasks.rs:242-273 | the stack-and-seen search answers whether the blocked task already reaches the blocker |
| `TaskGraph.EdgeKeepsAcyclicExactly` | dearborn-server/src/tasks.rs:242-247 | a new edge keeps an acyclic graph acyclic exactly when its head does not reach its tail |
| `TaskGraph.WritesKeepAcyclic` | dearborn-server/src/tasks.rs:174-243 | whatever is created, linked, unlinked and deleted, a link's checks and insert in one step, the dependencies stay acyclic |
| `LinkProtocol.AloneIsLink` | dearborn-server/src/tasks.rs:180-273 | a link that runs alone, however many queries its search takes, is the atomic link |
| `LinkProtocol.AlwaysAcyclicExactly` | dearborn-server/src/tasks.rs:180-273 | over every interleaving of links, their searches cut at each query, with unlinks, creations and deletions, the dependencies are acyclic throughout exactly when each inserted edge's head still does not reach its tail as it is inserted |
| `LinkProtocol.EdgesComeByInsert` | dearborn-server/src/tasks.rs:218-223 | an edge comes by the insert of the link that names it, and by nothing else |
| `LinkProtocol.OverlappingLinksCycle` | dearborn-server/src/tasks.rs:213-223 | a run in which two links pass their search and then close a cycle |
| `TaskGraph.RestrictedWritten` | dearborn-server/src/tasks.rs:418-431 | what a write does to a set of tasks and the edges among them |
| `TaskGraph.EdgesExactly` | dearborn-server/src/tasks.rs:174-240 | which edges stand after each write: a link adds its own exactly when both tasks are there, differ, and the second does not reach the first |
| `TaskGraph.RowGoesExactly` | dearborn-server/src/tasks.rs:415-431 | a task goes exactly when it is the one named and no edge names it |
| `TaskGraph.NewTaskComesLast` | dearborn-server/src/tasks.rs:84-120 | a new task has its trimmed title and the place right behind the last; one with a blank title is not made |
| `Breakdown.BreakdownOutcome.Absorb` | dearborn-server/src/breakdown.rs:363-402 | one event keeps the fold equal to the meaning of the stream so far |
| `Breakdown.Drain` | dearborn-server/src/breakdown.rs:505-516 | the log is the deltas in order, and the failures are exactly the failed ends of open calls whose output has the marker, in order, with the names of their latest starts |
| `Breakdown.OpenNameIs` | dearborn-server/src/breakdown.rs:354-357 | a call is open exactly when its latest start was not ended since, and has that start's name |
| `Breakdown.FailureAtExactly` | dearborn-server/src/breakdown.rs:379-396 | from the events alone: a failure is recorded for an event exactly when it ends, not ok, an open call whose output is there and holds `dearborn: `; it has the name of the latest start and that output |
| `Breakdown.FailedCallsExactly` | dearborn-server/src/breakdown.rs:363-402 | the recorded failures are, in order, those of exactly these events |
| `RunEvents.TextOfParts` | dearborn-server/src/breakdown.rs:365-365 | the log of a stream is that of its parts, a delta adding its text and nothing else anything |
| `RunEvents.SessionExactly` | dearborn-server/src/breakdown.rs:366-369 | the session is the one named last, and none when none was |
| `Breakdown.FailuresIgnoreText` | dearborn-server/src/breakdown.rs:363-402 | dropping or re-chunking text leaves the failures as they are |
| `Breakdown.BreakdownEpic.RollbackPartialDag` | dearborn-server/src/breakdown.rs:630-654 | the loop leaves exactly the tasks of the snapshot and the edges among them |
| `Breakdown.BreakdownEpic.Run` | dearborn-server/src/breakdown.rs:411-624 | a run's tasks, edges, evidence row and lane, with and without a failed call |
| `Breakdown.FailedRunRestores` | dearborn-server/src/breakdown.rs:489-531 | a failed run leaves lane and tasks as they were, and the edges exactly if it linked no two tasks that were there |
| `Breakdown.FailedRunKeepsOldLink` | dearborn-server/src/breakdown.rs:489-531 | a failed run that ends with an edge between two tasks that were there and had none |
| `Breakdown.RunLeavesEvidence` | dearborn-server/src/breakdown.rs:558-600 | each run leaves one row of evidence: ok unless a call failed, with the last session, the text streamed and, for a failed run, the note |
| `Breakdown.OneFailureNote` | dearborn-server/src/breakdown.rs:558-577 | the note of a run in which one call failed, word for word |
| `Breakdown.DescribedIs` | dearborn-server/src/breakdown.rs:559-569 | a failure is named by its tool and, in brackets, what it printed, if anything |
| `Breakdown.JoinedIs` | dearborn-server/src/breakdown.rs:559-569 | the note names the failures in order, with commas between them |
| `Breakdown.DecimalIs` | dearborn-server/src/breakdown.rs:570-577 | the note counts them in decimal |
| `Breakdown.OnlyCleanRunsMove` | dearborn-server/src/breakdown.rs:603-613 | the lane moves exactly when it was Planning and no call failed |
| `Breakdown.CrashedAgentStillMoves` | dearborn-server/src/breakdown.rs:545-613 | a crashed agent with no failed call moves the lane |
| `Breakdown.FailedRunsThenAny` | dearborn-server/src/breakdown.rs:534-545 | after any number of failed runs the next one ends with the lane, tasks, positions and edges it would have had first |
| `BreakdownProtocol.RunKeepsSafe` | dearborn-server/src/breakdown.rs:273-624 | over every interleaving: one run holds the lock, it deletes only tasks outside its snapshot and only after a failure, and it moves the lane only without one |
| `BreakdownProtocol.OneRunAtATime` | dearborn-server/src/lib.rs:479-490 | no two runs of an epic are ever in flight together |
| `BreakdownProtocol.MovesOnlyAfterCleanDrain` | dearborn-server/src/breakdown.rs:603-613 | besides a person's edit, the lane moves only from Planning to Ready at the end of a drained run without a recorded failure |
| `BreakdownProtocol.RollbackLeavesBase` | dearborn-server/src/breakdown.rs:630-654 | when a rollback is over the DAG is the run's base: the tasks of its snapshot with other people's edits to them, and nothing else; a snapshot that could not be read has no tasks |
| `BreakdownProtocol.FailedRunRestoresDag` | dearborn-server/src/breakdown.rs:489-531 | a failed run among other triggers, its deletions succeeding, nobody else writing and no two tasks it found newly linked, leaves the DAG it found exactly when its snapshot was read or there was no task, and an empty one otherwise |
| `BreakdownProtocol.FailedSnapshotLosesTasks` | dearborn-server/src/breakdown.rs:489-531 | a run from the start in which an unreadable snapshot and one failed call delete a person's task |
| `BreakdownRuns.AloneIsRun` | dearborn-server/src/breakdown.rs:273-624 | a run that nobody disturbs, from its trigger to the release of its lock, ends with the lane and the DAG of the uninterrupted run, whatever its agent streams and writes |
| `BreakdownProtocol.PlanningExactly` | dearborn-server/src/breakdown.rs:280-317 | after any events, people's edits included, a planning epic is still planning exactly when the last event that set its lane, an edit or a clean run's update, did not take it out |
| `BreakdownProtocol.StartsPlanningExactly` | dearborn-server/src/breakdown.rs:280-317 | a run that passed its check and takes the lock starts on a planning epic exactly when the last event since that set the lane did not take it out |
| `BreakdownProtocol.ChecksExactly` | dearborn-server/src/breakdown.rs:280-317 | a trigger goes on exactly past a planning lane, then past an eligible map, then with the lock |
| `BreakdownProtocol.FailedStatementSkips` | dearborn-server/src/breakdown.rs:603-654 | a statement that fails changes neither the DAG nor the lane, and the run goes on |
| `BreakdownProtocol.StartsOnReadyEpic` | dearborn-server/src/breakdown.rs:280-317 | an interleaving in which a run starts on a Ready epic |
| `AfkEngine.AfkOutcome.Absorb` | dearborn-server/src/afk_engine.rs:345-364 | one event keeps the outcome equal to the meaning of the stream so far |
| `AfkEngine.AfkOutcome.Failed` | dearborn-server/src/afk_engine.rs:366-384 | the reason of a failed run, in the order the checks are made |
| `AfkEngine.ReportsExactly` | dearborn-server/src/afk_engine.rs:366-384 | a run reports exactly when no error came, its last exit was good or missing, and its text is not blank |
| `AfkEngine.ReasonExactly` | dearborn-server/src/afk_engine.rs:366-384 | why a run failed: the last harness error before all else, then a cancel, then a code that is not zero, then a missing report |
| `AfkEngine.FiresExactly` | dearborn-server/src/afk_engine.rs:255-303 | a node is fired exactly when it is research or a task in mode afk, and is open or in progress |
| `AfkEngine.AloneRunSettles` | dearborn-server/src/afk_engine.rs:255-549 | a run that nobody disturbs and whose stream is good leaves its node resolved with the trimmed text as gist, one feed row, and the node free |
| `AfkEngine.AloneRunFails` | dearborn-server/src/afk_engine.rs:255-515 | one whose stream is not good leaves an open node in progress, any other as it was, no feed row, and the node free |
| `AfkEngine.HumanUpdateExactly` | dearborn-server/src/map.rs:437-540 | a person's edit sets what it names and nothing else, and leaves a resolution in the feed, with the gist as it then stands, exactly when it resolves the node |
| `AfkEngine.HumanCreateExactly` | dearborn-server/src/map.rs:336-430 | a node that is new has the row it was made with, and no other row changes |
| `AfkEngine.ReplyLocks` | dearborn-server/src/lib.rs:501-512 | a reply takes the lock of a node that is free, and its end gives it back |
| `AfkEngine.RunsNeverOverlap` | dearborn-server/src/lib.rs:501-512 | two runs, or a run and a reply, never work on one node together |
| `AfkEngine.OnlyFlipsAndSettles` | dearborn-server/src/afk_engine.rs:292-523 | besides people's edits a node changes only by the lock holder's flip of open to in progress, and by the settle of an unsettled node with the trimmed text of a good stream |
| `AfkEngine.SettledStays` | dearborn-server/src/afk_engine.rs:511-523 | no run changes the state or gist of a settled node |
| `AfkEngine.FailedRunsChangeNothing` | dearborn-server/src/afk_engine.rs:292-515 | over any interleaving, a client whose finished streams all failed does no more to the map, in any number of runs, than flip open nodes to in progress, never touches the feed, and frees its node |
| `AfkEngine.EverySettleIsFed` | dearborn-server/src/afk_engine.rs:511-549 | settles by runs equal their feed rows, plus those dropped or failed before the insert, plus at most one still to come |
| `AfkEngine.SettledExactly` | dearborn-server/src/afk_engine.rs:270-292 | after any events, people's edits included, a node is settled exactly when the last event that set its state, an edit or a run's settle, settled it |
| `AfkEngine.StartsUnsettledExactly` | dearborn-server/src/afk_engine.rs:270-303 | a run that saw its node unsettled and takes the lock starts on an unsettled node exactly when the last event since that set its state did not settle it |
| `AfkEngine.StartsOnSettledNode` | dearborn-server/src/afk_engine.rs:270-303 | an interleaving in which a run starts on a resolved node, which it then leaves as it is |
| `Settings.SettingsStore.PutSettings` | dearborn-server/src/agent_settings.rs:563-649 | merge, trim, refuse or save, with the loops over models, harnesses, slots and references |
| `Settings.SettingsStore.PutAgentSetting` | dearborn-server/src/agent_settings.rs:775-847 | the facet edits, the refusals, and the row saved or deleted |
| `Settings.ParseInvertsKeys` | dearborn-server/src/agent_slot.rs:54-96 | parsing accepts exactly the slots' own keys |
| `Settings.NameParses` | dearborn-server/src/agent_slot.rs:54-96 | the eleven names, and the slot of each |
| `Settings.UnknownSlotRefused` | dearborn-server/src/agent_settings.rs:768-780 | any other name is refused |
| `Settings.SlotSavedExactly` | dearborn-server/src/agent_settings.rs:775-847 | a slot change is saved exactly when slot and project exist, a harness given is not blank, is enabled and, being `pi`, meets a worker slot, and a model given is not blank; else nothing is written |
| `Settings.GlobalSavedExactly` | dearborn-server/src/agent_settings.rs:563-649 | a global change is saved exactly when nothing in it is blank, the default it leaves is enabled and not `pi`, and no slot names a harness it disables; else nothing is written |
| `Settings.CleanModelsIs` | dearborn-server/src/agent_settings.rs:573-583 | of the models entered for a harness, the last one counts, trimmed |
| `Settings.OverrideDecides` | dearborn-server/src/agent_settings.rs:486-518 | an override's harness decides, else the default; an override's model, else the one entered for the harness so decided, else none |
| `Settings.SavedSlotResolves` | dearborn-server/src/agent_settings.rs:486-847 | after a saved slot change the slot runs with the trimmed harness and model it named; null falls back to the global layer, and what was left out stays |
| `Settings.OtherSlotsResolve` | dearborn-server/src/agent_settings.rs:775-847 | every other slot runs as before |
| `Settings.UntouchedSlotResolves` | dearborn-server/src/agent_settings.rs:486-847 | after any requests, a slot that none of them named runs with the default harness and the model entered for it |
| `Settings.SavedGlobalResolves` | dearborn-server/src/agent_settings.rs:486-649 | after a saved global change a slot without a harness of its own runs with the default named, and one without a model of its own gets the last model entered for its harness |
| `Settings.CleanListIs` | dearborn-server/src/agent_settings.rs:583-597 | the cleaned list holds each trimmed value once, and nothing else |
| `Settings.PutGlobalKeepsOk` | dearborn-server/src/agent_settings.rs:552-649 | a saved global change keeps every override on an enabled harness that fits its slot |
| `Settings.PutSlotKeepsOk` | dearborn-server/src/agent_settings.rs:768-847 | a saved slot change keeps the overrides enabled, fitting, trimmed and never all null |
| `Settings.RunKeepsOk` | dearborn-server/src/agent_settings.rs:563-847 | so does every sequence of requests from the initial state |
| `Settings.EverySlotResolves` | dearborn-server/src/agent_settings.rs:486-518 | after any requests every slot of every project resolves to its override's harness, or else the default, which is enabled and runs it whenever Dearborn has an adapter for it; an override's model is the slot's |
| `Settings.ModelFollowsHarness` | dearborn-server/src/agent_settings.rs:488-512 | no other harness's default model can reach a slot |
| `SettingsProtocol.AloneIsApply` | dearborn-server/src/agent_settings.rs:563-847 | a request cut at its awaits that runs alone leaves what the endpoint leaves |
| `SettingsProtocol.BusyClientWaits` | dearborn-server/src/agent_settings.rs:563-847 | a client with a request under way starts no other |
| `SettingsProtocol.StepKeepsOkExactly` | dearborn-server/src/agent_settings.rs:625-847 | from settings in order, a save keeps them in order exactly when the check made before it would still pass |
| `SettingsProtocol.AlwaysOkExactly` | dearborn-server/src/agent_settings.rs:563-847 | over every interleaving of requests, dropped anywhere, the settings are in order throughout exactly when every save still passes its check as it is made |
| `SettingsProtocol.StaleSaveBreaksOk` | dearborn-server/src/agent_settings.rs:563-847 | a run from the start in which a slot edit is saved on a harness disabled since its check |
| `EvidenceLog.FloorCharBoundary` | dearborn-server/src/evidence.rs:100-108 | the loop finds the last character boundary at or before the index |
| `EvidenceLog.CeilCharBoundary` | dearborn-server/src/evidence.rs:110-118 | the loop finds the first character boundary at or after the index |
| `EvidenceLog.BoundaryNear` | dearborn-server/src/evidence.rs:100-118 | in well-formed text a boundary is at most three bytes away |
| `EvidenceLog.CapLog` | dearborn-server/src/evidence.rs:77-98 | head, marker and tail, or the log itself |
| `EvidenceLog.CappedIsValid` | dearborn-server/src/evidence.rs:64-98 | capping well-formed UTF-8 gives well-formed UTF-8 of at most 262144 bytes: the log when it fits, else a prefix, the marker and a suffix, not overlapping, each within three bytes of its budget |
| `EvidenceLog.CappedTwice` | dearborn-server/src/evidence.rs:77-98 | capping is idempotent |
| `EvidenceLog.LongLogSaysSo` | dearborn-server/src/evidence.rs:64-98 | a log over 256 KB says so between its head and its tail, word for word |
| `EvidenceLog.ShortLogStays` | dearborn-server/src/evidence.rs:77-82 | a log of at most 256 KB is stored as it is |
| `EvidenceRows.AgentRunTable.OpenStage` | dearborn-server/src/evidence.rs:157-184 | appends one running row |
| `EvidenceRows.AgentRunTable.FlushStageLog` | dearborn-server/src/evidence.rs:192-204 | stores the capped log and reasoning of one row |
| `EvidenceRows.AgentRunTable.GuardStageClose` | dearborn-server/src/evidence.rs:415-466 | closes one row for a body that finished, failed or panicked |
| `EvidenceRows.AgentRunTable.CancelOrphanedRunning` | dearborn-server/src/evidence.rs:286-304 | every running row is cancelled with the note, and no other row changes |
| `EvidenceRows.AgentRunTable.DrawAttempt` | dearborn-server/src/evidence.rs:309-326 | one past the highest attempt of the task and stage |
| `EvidenceRows.WholeStage` | dearborn-server/src/evidence.rs:157-466 | a stage that is opened, flushed, closed and given its verdict and reasoning leaves one row: running till then, and with the status, verdict and capped log its body ended with, `error` for a failure or a panic |
| `EvidenceRows.DrawnOpens` | dearborn-server/src/evidence.rs:157-184 | a drawn attempt opens as any stage does, with the task and the attempt drawn, and is used up |
| `EvidenceRows.BootCancels` | dearborn-server/src/evidence.rs:286-304 | a boot leaves each row that still runs cancelled and ended, with the note, word for word, behind its log |
| `EvidenceRows.LostWrites` | dearborn-server/src/evidence.rs:415-466 | a write that does not reach the database leaves every row as it was, and the stage lets go all the same |
| `EvidenceRows.LeaseMovesExactly` | dearborn-server/src/worker.rs:1635-1660 | a lease comes to a worker by a claim of a free or lapsed task, and goes by another claim once it lapsed, by its owner, or at boot |
| `EvidenceRows.LeaseLapsesExactly` | dearborn-server/src/worker.rs:1737-1760 | a lease lapses when it is not renewed in time, and only its owner, still at work, renews it |
| `EvidenceRows.WorksExactly` | dearborn-server/src/worker.rs:1737-1760 | a worker is at work from its claim until it releases, finds its lease gone, or dies |
| `EvidenceRows.RunKeepsInv` | dearborn-server/src/evidence.rs:157-304 | over every interleaving of stages, crashes and boots a row is running exactly while it has no end, and every log is well-formed and at most the cap, a newline and one note |
| `EvidenceRows.ClosedStaysClosed` | dearborn-server/src/evidence.rs:225-304 | rows are never removed, keep their attempt, and a closed row never runs again |
| `EvidenceRows.BootLeavesNothingRunning` | dearborn-server/src/evidence.rs:262-304 | right after boot nothing is running, and only what was running changed |
| `EvidenceRows.OrphanedWithinCapExactly` | dearborn-server/src/evidence.rs:286-304 | an orphaned log stays within the cap exactly when it was empty or left room for the note |
| `EvidenceRows.OrphanedLogExceedsCap` | dearborn-server/src/evidence.rs:286-304 | a run from the start that ends with a log over the cap |
| `EvidenceRows.AttemptsCountExactly` | dearborn-server/src/evidence.rs:306-326 | over every run, with leases lapsing and taken over, crashes and boots, a pair's attempts are 1, 2, 3, … exactly when each row was opened with the attempt that was next as it was opened |
| `EvidenceRows.AttemptsCount` | dearborn-server/src/evidence.rs:306-326 | they are when the task's lease lapses only once nobody works on it |
| `EvidenceRows.LapsedLeaseCollides` | dearborn-server/src/worker.rs:1645-1650 | a run from the start in which a lease lapses under its worker, another worker takes it over, and both open attempt 1 |
| `Cost.NormalizeModel` | dearborn-server/src/cost.rs:41-54 | the loop strips provider prefixes until none is left |
| `Cost.StacksPriceAlike` | dearborn-server/src/cost.rs:37-69 | any stack of known prefixes before a whitespace-free name prices like the name |
| `Cost.NormalizeTwiceExactly` | dearborn-server/src/cost.rs:41-54 | normalising is idempotent exactly on the names in which no white space stands right behind a stack of prefixes |
| `Cost.NormalizeTwiceDiffers` | dearborn-server/src/cost.rs:41-54 | a name that normalises further the second time |
| `Prices.PriceExactly` | dearborn-server/src/cost.rs:69-116 | a normalised name has the price of the family it starts with, or of the name it is, from the list spelt out, and none when it is neither |
| `Prices.PrefixesPriceAlike` | dearborn-server/src/cost.rs:37-54 | `openrouter/`, `anthropic/` and `us.anthropic.` in front of a name change no price |
| `Prices.DollarsExactly` | dearborn-server/src/cost.rs:56-59 | a million input tokens cost the first price and a million output tokens the second, and any number in proportion |
| `Prices.UnpricedCostsNothing` | dearborn-server/src/cost.rs:126-164 | tokens of a name without a price cost nothing, and are what makes an estimate incomplete |
| `Prices.SonnetMillion` | dearborn-server/src/cost.rs:37-116 | a Sonnet under any stack of prefixes costs 3 and 15 dollars a million |
| `Prices.ContributesExactly` | dearborn-server/src/cost.rs:203-212 | a run counts for a project exactly when it closed well and its epic, its own or else its task's, is one of the project's |
| `Prices.StandsUnder` | dearborn-server/src/cost.rs:218-300 | a run stands under its stage, under its harness and model, and under the day it ended, missing counts being zero |
| `Prices.DayExactly` | dearborn-server/src/cost.rs:278-300 | a day is the 86400 seconds from its midnight on, milliseconds cut to seconds towards zero |
| `Cost.FoldBucket` | dearborn-server/src/cost.rs:126-164 | the loop over sub-totals computes their direct totals |
| `Cost.LoadBuckets` | dearborn-server/src/cost.rs:218-248 | collecting sub-rows per bucket and folding them shows each bucket with rows once, with the totals of its own rows |
| `Cost.GroupThenFold` | dearborn-server/src/cost.rs:126-164 | grouping by model and folding the groups is the direct fold over the runs, tokens and estimate alike |
| `Cost.BucketsAreDirect` | dearborn-server/src/cost.rs:207-315 | a bucket has rows exactly when it has runs, and they fold to the summed tokens of its runs and the per-run sum of dollars, none exactly when a run with tokens has an unknown or missing model |
| `Cost.PairRowsAreAlone` | dearborn-server/src/cost.rs:250-276 | grouping by harness and model returns one row for each pair |
| `Cost.ShownAddsUp` | dearborn-server/src/cost.rs:207-315 | under each grouping the buckets shown add up to the tokens of the runs |
| `Cost.LoadProjectCost` | dearborn-server/src/cost.rs:201-315 | of the runs the joins reach from the project, each grouping shows every bucket with runs once, with the direct totals of its runs, and each adds up to the project's tokens |
| `Comments.DerivedTitle` | dearborn-server/src/comments.rs:275-285 | the first line, trimmed and cut, or the fallback |
| `Comments.TitleIsOneLine` | dearborn-server/src/comments.rs:270-285 | a title is one non-empty line of at most 81 characters, and a posted body never needs the fallback |
| `Comments.TitleFrom` | dearborn-server/src/comments.rs:275-285 | a title is the first line, trimmed, or its first 80 characters and an ellipsis, or the fallback, word for word |
| `Comments.PostedExactly` | dearborn-server/src/comments.rs:405-505 | a post is taken exactly when its body is not blank and it joins a thread of the epic without re-anchoring it, or starts one at a node or section that exists; its row is then the last, with its trimmed body, its author and the thread's anchor, unresolved and unpromoted, and nothing else changes |
| `Comments.ResolvedExactly` | dearborn-server/src/comments.rs:249-266 | resolving answers for a comment of the epic, and then sets the flag on the comments of its thread and on no other |
| `Comments.PromotedExactly` | dearborn-server/src/comments.rs:297-350 | a promotion is done exactly when its kind is one of the three, its comment is in the epic and its thread has no stamp; the node has the given title, or else the derived one, and the given question |
| `Comments.CommentStore.PostComment` | dearborn-server/src/comments.rs:405-505 | a post or reply placed in its thread, or refused |
| `Comments.CommentStore.SetThreadResolved` | dearborn-server/src/comments.rs:249-266 | sets the flag on exactly the thread's comments |
| `Comments.CommentStore.PromoteThread` | dearborn-server/src/comments.rs:297-350 | makes the node and stamps exactly the thread's comments, or refuses |
| `Comments.RunKeepsOk` | dearborn-server/src/comments.rs:405-622 | over every sequence of requests a thread keeps to one epic and anchor, promoted ids agree within a thread and differ between threads, and nodes made by promotion equal promoted threads |
| `Comments.PromotionStampsThread` | dearborn-server/src/comments.rs:287-350 | a promotion stamps every comment of its thread and no other, with the one node it makes |
| `Comments.StampsStay` | dearborn-server/src/comments.rs:311-315 | a stamp is never changed or taken back |
| `Comments.UniformExactly` | dearborn-server/src/comments.rs:246-266 | a thread's flag is uniform exactly when its last comment is resolved or its first is not |
| `Comments.ReplyBreaksUniform` | dearborn-server/src/comments.rs:145-179 | a reply to a resolved thread is unresolved |
| `Comments.TitleIsHeadsExactly` | dearborn-server/src/comments.rs:275-332 | after any requests, a derived title is the first comment's exactly when the comment named in the promotion reads like it |
| `Comments.ReplyTitlesNode` | dearborn-server/src/comments.rs:275-332 | a run in which a node is named after a reply |
| `Comments.PromotionKeepsOkExactly` | dearborn-server/src/comments.rs:306-349 | a promotion's writes keep the store in order exactly when the thread is still unpromoted |
| `Promotions.AloneIsPromoted` | dearborn-server/src/comments.rs:297-350 | a promotion cut at its statements that runs alone does what the handler does |
| `Promotions.RunKeepsInv` | dearborn-server/src/comments.rs:297-350 | over every interleaving every node is a promoted thread's, one still to be stamped, or an orphan, and threads keep to one epic, anchor and node |
| `Promotions.OrderedExactly` | dearborn-server/src/comments.rs:306-349 | with no promotion between its two writes, the store is in order exactly when along the run every stamp found its thread unpromoted and none was dropped between its writes |
| `Promotions.PromotionsRace` | dearborn-server/src/comments.rs:306-349 | a run in which two promotions make two nodes for one thread, which keeps the second |
| `Capability.CapabilityStore.Resolve` | dearborn-server/src/capability.rs:128-138 | answers, and prunes an expired token |
| `Capability.CapabilityStore.Mint` | dearborn-server/src/capability.rs:100-124 | inserts the scope |
| `Capability.CapabilityStore.Revoke` | dearborn-server/src/capability.rs:140-166 | removes the token |
| `Capability.PruningShowsExactly` | dearborn-server/src/capability.rs:126-138 | under any clock, pruning is visible exactly for a live token once resolved past its expiry and resolved again before it |
| `Capability.PruningIsInvisible` | dearborn-server/src/capability.rs:126-138 | under a clock that never runs backwards every resolve answers as a store that never prunes |
| `Capability.ResolvesExactly` | dearborn-server/src/capability.rs:85-166 | under a clock that never runs backwards, a lookup answers a scope exactly when the token was minted with it, its guard was not dropped since, and its expiry still lies ahead |
| `Capability.ClockSetBackShowsPruning` | dearborn-server/src/capability.rs:126-138 | a run in which it does not |
| `Capability.OwnEpicOnly` | dearborn-server/src/capability.rs:186-253 | an authorised path is the scope query or addresses the token's own epic, and no other |
| `Capability.AuthorizedExactly` | dearborn-server/src/capability.rs:170-253 | a path is authorised exactly when it asks for the token's scope, or names a route of the list spelt out below the token's own epic, of those that reshape the map only in grilling and prototype |
| `Capability.UnattendedWritesExactly` | dearborn-server/src/capability.rs:170-253 | outside grilling and prototype a token writes exactly the four posts |
| `Capability.SegmentsSplit` | dearborn-server/src/capability.rs:206-206 | a slash separates, and extra slashes make no difference |
| `Capability.SegmentsOfPath` | dearborn-server/src/capability.rs:206-206 | segments joined by slashes split into themselves |
| `ConfigFile.ParseConfigFile` | dearborn-server/src/config.rs:415-439 | the loop over lines collects the entries into the map |
| `ConfigFile.PrintThenParse` | dearborn-server/src/config.rs:395-439 | printed entries, among comments, blank lines and lines without a key and with any spacing, parse back to what they mean: values in either quotes, with quotes, `=`, `#` or outer white space inside, or without any where they read the same |
| `ConfigFile.LastEntryWins` | dearborn-server/src/config.rs:435-437 | a key has the value of its last entry, and is there exactly when it has one |

## Left out

- HTTP routing, JSON, WebSocket frames, the hub, authentication, cryptography, processes and the client: plumbing over libraries.
- Scanner input outside the printed grammar (unquoted values that contain `id=`, a quote or an angle bracket, a slash right behind an unquoted value, a `>` inside quotes): only what `Scanner.ExtractSound` says of every text.
- `resolve.rs`, which folds a Document sync into a node resolution, and the field edits of `map.rs`: they reach the Document through the same sync.
- Document rows of several epics: one epic's rows stand for all, since lock, lineage and index are keyed by epic.
- Foreign keys into a task other than its dependency edges: deleting a task that a lease or evidence row names is not modelled.
- Links within a breakdown: `BreakdownProtocol` writes a link in one step; `LinkProtocol` cuts it at the queries of its search and at its insert. The reads of its two tasks are one step there.
- Agent writes after the event stream ended: an agent writes while its stream is open.
- The wording of a failed unattended run's log, and the live updates that follow each write.
- Evidence rows that breakdown and unattended runs insert already closed, with logs they do not cap: `EvidenceRows` covers the rows of stages.
- Floating-point rounding: dollars are real numbers. Token counts are non-negative where the null rule needs it.
- The order of cost buckets, and of a bucket's sub-rows.
- SHA-256 of prompts, prompt texts, and stored settings that fail to parse.
- The order in which an anchor's existence is checked against concurrent edits of nodes and sections: the existing anchors are a parameter of each post.
- Config keys' meaning: environment variables, defaults and number parsing.
