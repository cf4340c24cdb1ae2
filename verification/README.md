# Verified model of the gateway's audit trail

The gateway stands between OPC UA clients and a PLC and records every change
made to it. This project models the parts that record's worth rests on, and
proves what they guarantee:

- **The hash-chained store** (`Chain`, `Store`, `StoreRuns`, `Retention`): rows
  are appended in transactions, the oldest are pruned while a
  `retention_pruned` record vouches for the cut, and the store is reopened
  after a lost tail.
- **The verifier** (`Verifier`, `TamperEvidence`, `LostTail`, `ManyLosses`,
  `Healing`): one streaming pass with one open gap, and anchors noted outside. It
  accepts exactly the good chains; every clean run produces one; what passes with
  the right head hash is what was written; and lost tails show, until retention
  gets past them, which it cannot always.
- **The audit pipeline** (`LossAccounting`, `BatchWriter`): callers, a batching
  writer that can panic and restart, a thread that saves the lost count.
- **The exporter** (`Exporter`, `ExportRuns`): at-least-once delivery from a
  trail that is written and pruned at the same time.
- **The relay** (`AuditPlan`, `Forward`, `Summaries`, `Transport`,
  `SecureChannels`, `Sessions`, `Admission`): the audit of a Write request, how
  requests are put together, channels and sessions over all connections, and the
  admission of connections.
- **Configuration and printing** (`SummariseGroups`, `SummariseList`,
  `LineProtocol`, `Csv`).

Tables are sequences of rows, a transaction is one atomic step that commits or
not, SHA-256 and JSON are fields of a datatype `Encoding`. Two properties of the
hash are hypotheses of the theorems that need them, and only about the records
at hand: no two of them collide (`TamperEvidence.CollisionFree`), and none has
the genesis constant as its hash (`TamperEvidence.NoGenesisPreimage`).
Code that updates objects in place is a class whose methods are proved equal to
a function of the old state; the theorems are about those functions, over all
runs. Protocols of several threads or connections are state machines whose steps
interleave in any order.

## Findings

Where a natural claim does not hold of the code, the code is modelled as it is,
a lemma exhibits the failure, and another says when the claim holds.

- *The lost-count file can forget.* A panic of the writer releases the `saved`
  lock while the losses are in flight; if the save thread runs before the
  restart has put them back, the file no longer holds them
  (`LossAccounting.PanicCanEraseTheFile`). The file never forgets exactly if
  that window is not hit (`LossAccounting.FileNeverForgets`).
- *Retention can stop early, or fail.* After a lost tail the numbers have a
  hole. A call that deletes fewer than `MAX_PRUNE` rows then leaves old ones
  exactly if the numbers reach the limit before the rows do
  (`Retention.ShortPruneStopsEarlyIff`; `Retention.HoleEndsRoundEarly` is a run),
  and a call fails exactly if its cut falls into the hole
  (`Retention.PruneFailsExactlyInAHole`; `Retention.LostTailMakesPruneFail` is a
  run). If at least `MAX_PRUNE - 1` records are lost and some, but fewer than
  `MAX_PRUNE`, are left, the trail never verifies again, whatever follows
  (`LostTail.LargeLossIsForever`); for all other numbers lost and left there is a
  run in which it does (`Healing.LossIsForeverIff`).
- *A fail-closed intent does not list everything that is recorded.* A summarised
  write for which the summaries have no room is sent without an intent and then
  recorded like others (`Forward.TurnedAwayIsNotAnnounced`). Every recorded item
  was listed exactly if the pending nodes and those of the request's summarised
  items are at most ten thousand (`Forward.RecordedWasAnnouncedIff`).
- *The exporter is silent at position 0.* A first round leaves records out
  exactly if some before the start of the trail were neither accepted nor
  reported yet (`ExportRuns.FirstRoundCoversIff`), and a run leaves none out
  exactly if no first position is taken like that
  (`ExportRuns.NothingIsSkippedIff`); `ExportRuns.SkippingRunLosesRecord` is a
  run that loses one.
- *Sessions depend on fresh tokens.* Every session stays with a connection secure
  enough for it exactly if the server never gives out a token while an
  activation with it waits on a connection that is not secure enough for the new
  session (`Sessions.SessionsAreSafeIff`). Such an answer does harm as soon as
  the activation succeeds (`Sessions.HarmfulAnswerLosesSecurity`);
  `Sessions.ReusedTokenLosesSecurity` is a run.
- *Cleaning summarise groups can stop summarising.* It changes nothing exactly
  if every node of a group for all clients is first in such a group
  (`SummariseGroups.CleaningChangesNothingIff`).
- *The apostrophe before formulas is not injective*
  (`Csv.GuardIsSafeButNotInjective`).

`drop_summarise_overlaps` compares clients as they are written, while
`SummariseList::set` trims them; the model does the same.

## Model

| member | source | states |
|---|---|---|
| `Chain.MessageDeterminesParts` | src/audit/store.rs:62-70 | the hashed text determines previous hash, number and body when neither previous hash has a line break |
| `Chain.HonestMessageDeterminesParts` | src/audit/store.rs:62-70 | it does so, too, when only one of two messages comes from the gateway, whose hashes and bodies have no line breaks |
| `Chain.MessagesCanCoincide` | src/audit/store.rs:62-70 | without that, two different records can have the same message |
| `Decimals.DecimalIsInjective` | src/audit/store.rs:66-66 | printed sequence numbers are equal only for equal numbers |
| `Store.AuditStore.Append` | src/audit/store.rs:143-150 | one transaction appends all entries, numbered and linked on from the head, with columns that describe them, and returns their numbers; on error nothing changes |
| `StoreSpec.RowHoldsEntry` | src/audit/store.rs:242-275 | row i of an append holds entry i, in its body and, field by field, in its columns, under the next number, with the hash of the row before it and its own |
| `Chain.ColumnsDescribe` | src/audit/store.rs:227-238 | the columns are exactly the microsecond, target, kind, client address, application URI, user and node of the entry |
| `Store.AuditStore.PruneBefore` | src/audit/store.rs:161-211 | deletes and vouches in one transaction, fails when the cut is no row, and on error changes nothing |
| `Store.AuditStore.Open` | src/audit/store.rs:94-139 | continues after the newest record ever written, and records a truncation if it is gone |
| `StoreSpec.FirstKeptMeaning` | src/audit/store.rs:181-186 | the first kept row is the oldest in key order that is not before the cutoff |
| `Verifier.VerifyChain` | src/audit/store.rs:647-736 | the streaming pass reports no error exactly for tables that are contiguous, linked, correctly hashed, column-consistent and start at genesis or at a cut some later record names; otherwise it names the first bad record, and what it says of it is wrong with it |
| `Verifier.ErrorsAreReal` | src/audit/store.rs:679-721 | each error of a row is a real one, and a row passes only if its columns describe the entry in its body, field by field |
| `Verifier.GoodPrefixIsLinked` | src/audit/store.rs:679-721 | the checks of each row, together, are the links, hashes and columns of the chain |
| `Verifier.VerifyAgainst` | src/audit/store.rs:613-645 | passes exactly if the chain is good and every anchor is in it or was pruned; else names the first anchor that fails and how |
| `StoreRuns.EveryCleanRunVerifies` | src/audit/store.rs:87-211 | after any sequence of appends, prunes and clean reopens, committed or not, the table verifies and is the tail of everything written, newest record included |
| `StoreRuns.StepStaysClean` | src/audit/store.rs:143-211 | each step keeps the table a vouched-for tail of an unbroken history |
| `StoreRuns.ReopenIsIdentity` | src/audit/store.rs:115-126 | reopening an intact database changes nothing |
| `StoreRuns.CutLeavesClean` | src/audit/store.rs:187-209 | a prune leaves a start that its own record explains, whatever earlier prunes did |
| `TamperEvidence.TamperingShows` | src/audit/store.rs:607-736 | a table that verifies and ends with the real head hash contains the whole real table as its tail and is itself a tail of what was written: nothing changed, removed, reordered or cut |
| `TamperEvidence.AgreesBackwards` | src/audit/store.rs:679-693 | from one genuine hash back, every row is the genuine one |
| `TamperEvidence.AnchorsAreSound` | src/audit/store.rs:613-645 | if a verified table holds the anchor of a written record, its rows up to there are those written |
| `TamperEvidence.AnchorsKeepPassing` | src/audit/store.rs:613-645 | an untampered trail passes with every anchor ever taken from it, in all later states |
| `LostTail.NumbersAreNeverReused` | src/audit/store.rs:115-126 | over any run, also with lost tails, the records inserted are numbered 1, 2, 3 and so on, those since deleted or lost included: none is given twice |
| `StoreRuns.StepKeepsThenWrites` | src/audit/store.rs:94-211 | each step leaves a stretch of the table followed by what it inserts, so the history misses nothing |
| `LostTail.LostTailStaysVisible` | src/audit/store.rs:115-137 | after a lost tail the trail verifies again exactly when a prune has deleted the record after the hole |
| `LostTail.HoledStep` | src/audit/store.rs:185-194 | no append, prune or reopen closes or hides the hole, except a prune past it |
| `LostTail.LargeLossIsForever` | src/audit/store.rs:182-194 | if at least MAX_PRUNE - 1 records are lost and between 1 and MAX_PRUNE - 1 are left, then in every later clean run the last record before the hole stays and verification fails |
| `Healing.LossIsForeverIff` | src/audit/store.rs:182-194 | for each number of records lost and left: no run before and after the loss makes the trail verify again, exactly if the numbers are those |
| `ManyLosses.VerifiesExactlyIfUnbroken` | src/audit/store.rs:94-211 | over every run with any number of lost tails, each row left is the one written under its number, and the trail verifies exactly if the numbers are consecutive and start at 1 or after a cut that a row names |
| `Retention.PruneDeletesOldPrefix` | src/audit/store.rs:152-211 | a call deletes a prefix of at most MAX_PRUNE rows, all before the cutoff, never the newest, and adds one record naming how many and the last |
| `Retention.PruneFailsExactlyInAHole` | src/audit/store.rs:182-194 | a call fails, and then changes nothing, exactly if its cut number lies strictly between the numbers of two neighbouring rows |
| `Retention.LostTailMakesPruneFail` | src/audit/store.rs:115-194 | a run of the store after which a call fails |
| `Retention.ShortPruneStopsEarlyIff` | src/audit/store.rs:182-189 | a call that deletes fewer than MAX_PRUNE rows leaves work to do exactly if fewer than MAX_PRUNE rows end at the number that is MAX_PRUNE - 1 after the first, and the next row is still before the first to keep |
| `Retention.ShortPruneSettles` | src/audit/store.rs:182-189 | on a table without holes and future dates a call succeeds, and if it deletes fewer than the limit, leaves an oldest row in the period, or the former newest |
| `Retention.HoleEndsRoundEarly` | src/audit/store.rs:182-189 | a run of the store after which a call deletes two rows and leaves an old one that is not the newest |
| `Retention.RetentionRound` | src/audit/mod.rs:512-530 | the loop ends though records keep coming, loses no record of the period, and ends short or with an error; if it began without holes and future dates and does not end with an error, the oldest row left is in the period, or only the former newest row is left, with the record of the last call if that deleted any |
| `LossAccounting.NoEventIsForgotten` | src/audit/mod.rs:189-227 | over every interleaving each event is in exactly one place, and the counted losses are those reported, plus the counter, plus those in flight |
| `LossAccounting.NothingIsLostSilently` | src/audit/mod.rs:277-303 | when all is settled, every event is stored or counted once, and trail and counter say how many are not stored |
| `LossAccounting.WriterAndCallersDoNotOverlap` | src/audit/mod.rs:377-400 | in every reachable state, an event submitted once and counted as lost is counted once, and not stored, queued, with the writer, with its caller or refused |
| `LossAccounting.WriterNeverCountsAwaited` | src/audit/mod.rs:377-400 | an event whose caller waits is counted as lost exactly as often as that caller lets it go in fail-open mode, through failed batches, panics and all that others do |
| `LossAccounting.StoredBatchIsSettled` | src/audit/mod.rs:372-402 | from the first to the last step of a batch that is stored: it is in the trail, with a report of the losses before; the counter is empty and the writer ready for the next |
| `LossAccounting.FailedBatchIsSettled` | src/audit/mod.rs:372-402 | of one that is not: the trail is as it was, what nobody waits for is counted, the rest is left to the callers |
| `LossAccounting.RestartPutsBack` | src/audit/mod.rs:277-303 | after a panic nothing is written until the restart, which counts again every loss that was in flight |
| `LossAccounting.FileNeverForgets` | src/audit/mod.rs:152-175 | if the process dies at any step, file and trail hold every loss known at the last save, exactly if there is no save after a panic while losses are in flight |
| `LossAccounting.StepKeepsFile` | src/audit/mod.rs:372-401 | the same for each single step |
| `LossAccounting.PanicCanEraseTheFile` | src/audit/mod.rs:277-293 | a run in which a saved loss is forgotten |
| `BatchWriter.Writer.TakeBatch` | src/audit/mod.rs:326-345 | takes the queue's appends in order, at most 512, and stops at the first other command |
| `BatchWriter.Writer.WriteBatch` | src/audit/mod.rs:366-402 | stores the batch and then the losses so far, answers with its numbers, or counts what nobody waits for |
| `BatchWriter.Writer.WriterLoop` | src/audit/mod.rs:324-364 | everything queued is handled, in order, in well-formed batches, and everyone who waits is answered once |
| `WriterSpec.BatchHoldsAll` | src/audit/mod.rs:372-384 | a stored batch adds one row for each request, in order, and one with the number of losses before it if there were any |
| `WriterSpec.BatchingIsInvisible` | src/audit/mod.rs:324-364 | without failures and losses, trail and answers are those of a writer that takes one command at a time |
| `WriterSpec.BatchIsOneByOne` | src/audit/store.rs:242-284 | one batch stores and answers what single appends would |
| `WriterSpec.AnswersNameTheirRows` | src/audit/mod.rs:385-390 | an acknowledged number is that of the row holding that caller's entry |
| `WriterSpec.EveryoneIsAnsweredOnce` | src/audit/mod.rs:383-398 | over every run, failures included, each ticket gets exactly one answer |
| `WriterSpec.EveryAnswerIsTrue` | src/audit/mod.rs:366-402 | over every run, Ok with a number goes to a caller whose entry the trail then has under that number, Ok of a prune tells how many rows are gone, and an error is given exactly where the batch was not stored and nothing changed |
| `Exporter.ExportState.PositionFor` | src/export/mod.rs:189-201 | a position kept per kind goes to the first destination that asks, and to no other |
| `Exporter.ExportState.Set` | src/export/mod.rs:218-223 | the file has all positions after a write that succeeds, the old ones after one that fails |
| `ExportRuns.GapReportsExactlyTheRemoved` | src/export/mod.rs:369-404 | without tampering and with a position, a gap is found exactly when retention deleted the next record, and it names the range; never cut off, never rewritten |
| `Exporter.NoGapIffContinued` | src/export/mod.rs:369-404 | of any trail, tampered or not: no gap exactly if the trail reaches the position and what follows, if anything, is the next number and links to it; each other answer gives the reason that holds |
| `TamperedExport.SilentRoundGoesOn` | src/export/mod.rs:369-466 | over all runs in which the trail is replaced at will, a round with a position reports no gap exactly if the trail goes on right after an accepted record, or not at all, and then sends just that |
| `ExportRuns.DeliveredAtLeastOnce` | src/export/mod.rs:418-466 | over all interleavings, every record from the first delivery to the saved position was accepted or reported as removed, and no position is beyond the trail |
| `ExportRuns.SavedPositionsAreAnchors` | src/export/mod.rs:203-216 | the saved position is an anchor the trail keeps passing |
| `ExportRuns.FirstRoundCoversIff` | src/export/mod.rs:380-383 | a first round that goes well leaves nothing out up to its position exactly if all before the start of the trail were accepted or reported already |
| `ExportRuns.PrunedStartIsSkipped` | src/export/mod.rs:380-383 | a first round that finds the start pruned neither exports nor reports the missing records |
| `ExportRuns.NothingIsSkippedIff` | src/export/mod.rs:369-466 | over all interleavings, no position held or saved leaves a record out, from record 1 on, exactly if no first position is taken beyond a record that was neither accepted nor reported |
| `ExportRuns.SkippingRunLosesRecord` | src/export/mod.rs:380-383 | a run from the beginning that leaves record 1 out |
| `AuditPlan.WritePlan.TakeIgnored` | src/relay/audit_map.rs:302-314 | splits a plan, in order, into value writes to summarised nodes and the rest |
| `AuditPlan.SidesAddUp` | src/relay/audit_map.rs:302-314 | each item is on one side |
| `AuditPlan.SelectedFrom` | src/relay/audit_map.rs:302-314 | each item on a side is one of the request, with its place |
| `AuditPlan.WritePlan.PreRead` | src/relay/audit_map.rs:323-366 | fills in the known names and asks for exactly the other names and, if wanted, old values |
| `AuditPlan.WritePlan.ApplyPreRead` | src/relay/audit_map.rs:371-406 | applies the answers one after the other; the cache never grows beyond its limit |
| `AuditPlan.ItemsGetTheirOwnReads` | src/relay/audit_map.rs:323-406 | each item ends up with the good answers to its own reads and no others, also when answers are missing |
| `AuditPlan.OwnReadsAskForTheItem` | src/relay/audit_map.rs:328-356 | the old value is read from the node, attribute and range that the item writes, the name from its node |
| `AuditPlan.NameCache.Insert` | src/relay/audit_map.rs:70-76 | a full cache starts over |
| `AuditPlan.NamesAreReal` | src/relay/audit_map.rs:371-406 | each name in the cache was there before or is what the server answered to a read of that node's name |
| `Forward.Target.Forward` | src/relay/connection.rs:1262-1395 | what is handed to trail, summaries and server, and in which order |
| `Forward.IntentComesFirst` | src/relay/connection.rs:1298-1310 | fail-closed: a request with items that are not summarised is sent only after an intent listing exactly those, in order, is stored; otherwise nothing is sent or counted |
| `Forward.RecordedWasAnnouncedIff` | src/relay/connection.rs:1278-1374 | fail-closed: every item recorded after a request was listed by an intent stored before it, exactly if the pending nodes together with those of the summarised items are at most ten thousand |
| `Forward.TurnedAwayIsNotAnnounced` | src/relay/connection.rs:1345-1374 | with ten thousand other nodes pending, a single summarised write is sent without an intent, and recorded |
| `Summaries.AllFitIff` | src/relay/ignore.rs:111-115 | no write is turned away exactly if the pending nodes and those of the writes are at most ten thousand |
| `Forward.SummarisedItemIsCounted` | src/relay/connection.rs:1345-1374 | a summarised item is counted if its node has a summary afterwards and else recorded in short, with the status at its original index |
| `Forward.RecordedItemHasItsOutcome` | src/relay/audit_map.rs:472-519 | any other item is recorded with what it writes, the old value and name its own reads brought, and the status the reply has at its original index, that of the service, or that it is uncertain |
| `Forward.OneOutcomePerItem` | src/relay/audit_map.rs:472-519 | items and the actions after the request correspond one to one: different items have different places, each action is at the place of an item, and each item has its action, but for those beyond the first hundred to record of a request that failed as a whole |
| `Summaries.IgnoredWrites.Add` | src/relay/ignore.rs:102-139 | counts a write, or refuses it when its node is new and ten thousand are pending |
| `Summaries.EveryWriteIsCountedOrRefused` | src/relay/ignore.rs:1-6 | in a period the writes to a node are all in its one summary, with count, failures, last name, first, last and clients, or all recorded as usual |
| `Summaries.RefusedStaysRefused` | src/relay/ignore.rs:111-115 | which of the two does not change within the period |
| `Transport.Downstream.HandleIncoming` | src/relay/transport.rs:330-427 | a chunk is buffered, completes a request, gives one up, or ends the connection, after the checks in the order of the code |
| `Transport.BufferIsBounded` | src/relay/transport.rs:375-408 | whatever arrives, no more chunks and bytes than the limits are held, and before a channel exists only an OpenSecureChannel of 64 KiB |
| `Transport.RequestsAreStretches` | src/relay/transport.rs:391-427 | each request is made of exactly the chunks since the one before it ended or was given up, in order, and there is one for each final chunk |
| `Transport.RequestsAreSecured` | src/relay/transport.rs:330-427 | each chunk of a request was secured, in order, and showed the security of the channel |
| `Transport.FailsExactlyIf` | src/relay/transport.rs:341-427 | a chunk ends the connection exactly if it is not allowed now, or, unless it gives a request up, fails a check or a limit or completes something unreadable |
| `SecureChannels.Connection.Receive` | src/relay/transport.rs:383-389 | the binding is checked before the channel takes the policy of a request |
| `SecureChannels.Connection.OpenSecureChannel` | src/relay/connection.rs:510-656 | issues or renews, or closes the connection |
| `SecureChannels.IssuedChannelNeverChanges` | src/relay/connection.rs:549-575 | no OpenSecureChannel changes policy, certificate or mode of an issued channel; an accepted one has a greater token id, any other ends the connection |
| `SecureChannels.IssuedOnlyByTheRules` | src/relay/connection.rs:576-621 | a channel is issued exactly by a first request over an offered policy, with a mode that fits it and a trusted certificate, or unsecured |
| `SecureChannels.RenewedOnlyByTheRules` | src/relay/connection.rs:549-575 | a renewal is accepted exactly with the policy, certificate and mode of the channel, a new nonce and a certificate still trusted, or unsecured |
| `Sessions.SessionRegistry.RemoveOwned` | src/relay/mod.rs:144-150 | a connection ends its own sessions only |
| `Sessions.SessionRegistry.Insert` | src/relay/mod.rs:114-120 | forgets the stale sessions and adds one |
| `Sessions.SessionsAreSafeIff` | src/relay/connection.rs:1085-1218 | over all interleavings, sessions and waiting activations are with connections secure enough for them exactly if no token is given out while an activation with it waits on a connection not secure enough for the new session |
| `Sessions.StepStaysSafeIff` | src/relay/connection.rs:1085-1218 | the same for each single step |
| `Sessions.SessionsKeepTheirSecurity` | src/relay/connection.rs:1108-1150 | then, in every reachable state, a session created with encryption belongs to a connection with encryption, one created with signatures to a connection with at least those, and over a secure channel the client certificate is the same |
| `Sessions.SessionsKeepTheirOrigin` | src/relay/connection.rs:1206-1218 | a session has the policy, mode and client certificate of the connection that created it; no step changes them, and only an accepted activation its owner |
| `Sessions.MayActivateExactlyIf` | src/relay/connection.rs:1108-1150 | an activation is let through exactly if the channel encrypts or signs where that of the creation did, and, unless it is unsecured, the same client has signed |
| `Sessions.StepKeepsOwners` | src/relay/connection.rs:1206-1218 | each step keeps that |
| `Sessions.HarmfulAnswerLosesSecurity` | src/relay/connection.rs:1085-1218 | from any safe state, such an answer and one activation that succeeds leave a session with a connection not secure enough for it |
| `Sessions.ReusedTokenLosesSecurity` | src/relay/connection.rs:1085-1218 | a run in which a token given out again does that |
| `Admission.Admission.Admit` | src/relay/mod.rs:484-513 | the verdict and its effect on counts, tokens and refusals |
| `Admission.Admission.TakeRefused` | src/relay/mod.rs:523-533 | reports all refusals and forgets idle addresses |
| `AdmissionRuns.RateIsBounded` | src/relay/mod.rs:463-513 | in any window of T seconds after any run an address is admitted at most 10 + 5 T times |
| `AdmissionRuns.CountsAreExact` | src/relay/mod.rs:484-521 | total and counts per address are those of the open connections, within their limits |
| `AdmissionRuns.AdmittedExactlyIf` | src/relay/mod.rs:484-513 | after any run, who is let in and for which reason not, told from the open connections and the tokens |
| `AdmissionRuns.RestedIsAdmitted` | src/relay/mod.rs:463-513 | where there is room, an address not let in for a fifth of a second is let in, however often it tried |
| `AdmissionRuns.EveryRefusalIsReported` | src/relay/mod.rs:509-532 | each refusal is reported or pending; forgetting loses none |
| `AdmissionRuns.ForgettingChangesNothing` | src/relay/mod.rs:530-531 | never forgetting would decide and report the same |
| `SummariseGroups.TargetConfig.DropSummariseOverlaps` | src/config.rs:391-422 | the nested loops give the cleaned groups; each message is justified, and each dropped node is told |
| `SummariseGroups.CleanedIsDisjoint` | src/config.rs:365-391 | no node is left in two overlapping groups: those for the same client, as it is written, or of which one is for every client |
| `SummariseGroups.CleanGroupsStay` | src/config.rs:389-422 | cleaning the cleaned groups changes nothing, names included |
| `SummariseGroups.CleanGroupsStayIff` | src/config.rs:389-422 | cleaning leaves groups as they are exactly if no node is in two overlapping ones and overlapped groups have names for their own nodes only |
| `SummariseGroups.NodeKeepsItsFirstGroup` | src/config.rs:389-391 | each node stays in the first of the overlapping groups that have it |
| `SummariseGroups.CleaningSummarisesNoMore` | src/config.rs:391-422 | no write is summarised that was not before |
| `SummariseGroups.CleaningChangesNothingIff` | src/config.rs:391-422 | what is summarised stays the same, for all nodes and clients, exactly if every node of an all-clients group is first in one |
| `SummariseGroups.TargetConfig.SummariseOverlap` | src/config.rs:372-387 | finds no overlap exactly if there is none |
| `SummariseGroups.TargetConfig.MigrateIgnore` | src/config.rs:426-450 | moves every rule and leaves none |
| `SummariseGroups.MigrationKeepsMeaning` | src/config.rs:424-450 | exactly the writes are summarised that the groups or a rule summarised before |
| `SummariseGroups.RuleGoesToItsClient` | src/config.rs:426-450 | a rule goes to the first group of its client or a new one, with its name unless that is blank, and changes no other group |
| `SummariseList.SummariseList.Set` | src/relay/ignore.rs:46-73 | looking up in the index gives what a scan of the groups would, and it is empty exactly if no group has a node |
| `LineProtocol.EscapeName` | src/export/questdb.rs:153-166 | the loop gives the escaped name |
| `LineProtocol.EscapeString` | src/export/questdb.rs:169-182 | the loop gives the escaped string |
| `LineProtocol.Line` | src/export/questdb.rs:185-221 | the printed line |
| `LineProtocol.LineReadsBack` | src/export/questdb.rs:184-221 | a parser of the line protocol reads table, tags, number, fields and time; control characters read as spaces, empty values are absent |
| `LineProtocol.RecordIsRecovered` | src/export/questdb.rs:184-221 | the round trip: looking up each key in the parsed line gives the record back, whatever characters it contains |
| `LineProtocol.BodyReadsBack` | src/export/questdb.rs:73-75 | any records printed one after the other split into exactly one line each, from which each is recovered |
| `LineProtocol.MinimalReadsBack` | src/export/questdb.rs:223-235 | a minimal line reads back as kind, number and hashes |
| `LineProtocol.Send` | src/export/questdb.rs:69-96 | if sending succeeds, the posts that were accepted are the whole body, or one for each record, in order, in full or minimal; otherwise they are those of the first records and the last post was not accepted; a minimal line is posted only right after its record was refused, with the reason given |
| `LineProtocol.StandsForItsRecord` | src/export/questdb.rs:69-96 | a body accepted for a record is one line with its number and time |
| `Csv.CsvReadsBack` | src/web/mod.rs:1313-1439 | header and rows read, by section 2 of RFC 4180, as exactly one record of fourteen fields per row, in the order of the header, as they were but for the guard of formulas |
| `Csv.GuardIsSafeButNotInjective` | src/web/mod.rs:1403-1413 | no cell but a number starts a formula; two values read alike exactly if one is the other after an apostrophe |

## Left out

- SQLite, JSON and TOML: tables are sequences, transactions atomic, JSON an
  invertible encoding without line breaks; the queries of the web interface
  (`query`, `most_written`, `alarms`) are not part of this model.
- Sequence numbers and counters are unbounded; overflow of 64-bit (and of the
  32-bit token id) is not modelled.
- Times are integers in nanoseconds, timestamps in columns integers in
  microseconds with the order of their texts; time zones and leap seconds are
  not modelled.
- Audit events other than those the model inspects are one constructor with kind
  and JSON.
- LossAccounting.NoEventIsForgotten: panics occur inside an append before it commits, or between
  batches, as the accounting of the program assumes; a process exit after three
  restarts in a minute ends a run.
- LossAccounting.NothingIsLostSilently: a caller that stops waiting stays in
  `failing`; what its event then counts as is not modelled.
- Retention.RetentionRound: old rows behind one of the period stay, as the code
  has it; records written between its calls are not older than the cutoff; the check for clock jumps (src/audit/mod.rs:490-506) is not part
  of this model.
- ExportRuns.DeliveredAtLeastOnce: coverage starts at the first delivery that
  left position 0 (for earlier records see `ExportRuns.NothingIsSkippedIff`); the
  record of a gap is one of the trail's own steps.
- The other exporter settings, status display and several destinations at once:
  each destination has its own position, so they do not interact.
- Forward.RecordedItemHasItsOutcome: Call, HistoryUpdate, node management and TransferSubscriptions
  plans have the same form with the position as index, and are not repeated.
- Forward.Target.Forward: one request at a time; the names and summaries that
  other requests of the same target change meanwhile are those at its start.
- Rendering and clipping of values, and node ids longer than the clip.
- Summaries.IgnoredWrites.Take: the order of the summaries and their
  conversion to events.
- Frames, the Hello message, sockets, timeouts and cryptography: security checks,
  signatures, sequence numbers, decoding and trust are inputs of the model.
- Sessions.SessionsKeepTheirSecurity: user identities and nonces.
- Admission times are real numbers, so floating-point rounding of tokens is not
  modelled.
- SummariseGroups.CleanedIsDisjoint: overlap is that of `groups_overlap`; a group
  for an address and one for the URI of a client there may both keep a node.
- SummariseGroups: white space, the parser of node ids and the address in a
  client's `ip:port` are parameters.
- LineProtocol.MinimalReadsBack: kinds are plain words and hashes hexadecimal,
  as the program makes them; texts are sequences of characters, not UTF-8.
- The pages in which the CSV file is read from the trail, and its limit.
- Certificates, users, discovery, web handlers and the browser interface.
