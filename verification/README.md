# Verification of xMailman's mail engine

A Dafny model of the part of xMailman that moves mail, with proofs of what it promises:
the outbound queue, the digest watermark, the VERP bounce loop, the LMTP session, the post
pipeline and its moderation queue, the archive index, MIME attachment numbering, member
import and the member roster.

`dafny verify dfyconfig.toml` checks everything.

## How it is built

The store (`SqliteStore.Store`) is a class whose fields are the database tables. Its
methods are the store calls; each is atomic, and each may fail and then changes nothing
(`ArchiveMessage` and the backfill, which are two statements, may fail in between). The
ghost counter `faults` counts failures, so contracts can say what holds in any case and
what holds when no call failed; the ghost log `calls` says how each call went, so they can
also say what an operation that failed halfway leaves behind. Worker, digest worker,
pipeline, LMTP connection, message builder and roster are classes and methods with the
loops the program has. Where a method is a run of a protocol its contract says that every
step is its own, and ties its outside effects (Sends, replies, deliveries, failed writes)
to those steps.

The functions that the program computes with, such as the claim order, the backoff, the
digest period, the posting policy and the command parser, are functions here as well. What
the operations built on them do is therefore also stated without them, in the fields of the
rows and in the program's own numbers, and the command parser is the inverse of a client
that is written without it.

Where several processes work on one store the protocol is a step relation at the
granularity of store calls, with ghost history, and theorems are about every run:

| Modules | Subject |
|---|---|
| `QueueTable`, `QueueProtocol`, `QueueGuarantees`, `QueueWorker` | outbound queue: table, interleavings, guarantees, the worker's loop as a run of the protocol |
| `DigestSchedule`, `DigestProtocol`, `DigestGuarantees`, `DigestWorkers`, `DigestRefinement` | digest watermark: schedule and compare-and-swap, interleavings, guarantees, the worker, and the step from its contract to the protocol |
| `Text`, `Address`, `Verp`, `Bounces` | address codecs and bounce attribution |
| `LmtpProtocol`, `LmtpDialogue`, `Lmtp`, `DotStuffing`, `LmtpClient` | meaning of an LMTP dialogue, why the input determines it, the connection, message transparency, and a client whose session the server understands |
| `CallLog` | what the log of store calls says about a failing operation |
| `PostLifecycle`, `Moderation`, `FanOut`, `HeldNotices` | fate of posts, the pipeline's actions as its steps, delivery, notices about held posts |
| `ArchiveTable`, `ArchiveIndex` | archive and full-text index over every run of writes |
| `Mime`, `Members`, `MemberImport` | attachment ordinals, roster and paging, bulk import |

Bodies that are not needed for a proof are hidden with `hide`.

## What was found

Some expectations one may have of the program hold only under a condition. Each is proved
with its exact condition, in both directions; the last one never holds:

- A VERP address decodes to the pair it was made from exactly if the list domain has no
  `@`, the recipient domain no `=`, and no recipient part contains `-bounces+`.
- A bounce is counted for the member whose message bounced exactly if the list name has
  neither `+` nor `@`, the list domain no `@`, and the recipient is clean as above.
  Otherwise it can be counted for somebody else: `u-bounces+v@d` bounces to the account of
  `v@d` (`Bounces.MarkerMisattributes`).
- A post up to the watermark is in the digest of its window exactly if it had been inserted
  when that digest read the archive. With strictly increasing clock readings and stamping
  and insertion in one step none is missed; without, one can be
  (`DigestGuarantees.LatePostIsLost`).
- A message reaches delivery line for line exactly if none of its lines contains a line feed
  or ends in a carriage return (`DotStuffing.MessageSurvives`). A bare line feed can even end
  the message early, so that what follows is read as commands
  (`DotStuffing.LineFeedEndsMessage`).
- The path of a MAIL or RCPT comes out of its angle brackets as it went in exactly if no
  bracket of its own begins or ends it (`LmtpClient.PrintedIsRead`).
- After an operator discards a queued row, it is attempted again in some continuation exactly
  if a worker was about to send it, and announced to its poster in some continuation exactly
  if a worker held it on its last attempt (`QueueGuarantees.DiscardStopsExactly`).
- At the end of a run the full-text index equals the archive's projection exactly if the list
  of every entry between whose two statements ArchiveMessage or a backfill failed was deleted
  later (`ArchiveIndex.FromEmpty`). No backfill mends such an entry.
- A post is in exactly one of archived, held, rejected, discarded and expired, and was put
  there once, exactly if no approval or rejection of it took effect without removing its held
  row (`PostLifecycle.ExactlyOneFate`). Both act first and remove the row last, so when only
  the removal fails the post is archived and still held, and a second approval archives it
  again (`PostLifecycle.ArchivedTwice`). Which call decides what is in the contracts of
  `Moderation.PostPipeline.ApproveHeld` and `RejectHeld`.
- The Reply-To of held-post and auto-disable notices, list address plus `-owner@` plus
  domain, never reaches the list's owner address (`Address.NoticeReplyToMissesOwner`).

Where code and documentation differ the model follows the code: an unknown digest frequency
means daily (the comment in `internal/queue/digest.go` says never); the watermark is
compared with the snapshot by `<=` (ADR 0014 says `< now`); any subscription, whatever its
status, makes a sender a subscriber for the posting policy; a received line that begins with
a single dot keeps it, which only matters for senders that do not stuff.

## Model

| member | source | states |
|---|---|---|
| QueueTable.MaxRetries | internal/queue/worker.go:54-59 | the attempt cap is at least 1 for every configuration |
| QueueProtocol.StepKeepsInv | internal/queue/worker.go:61-112 | every step of every worker, caller and operator keeps the invariant that ties rows, claims, worker copies and history together |
| QueueProtocol.ReachableInv | internal/queue/worker.go:61-112 | so it holds in every run of any number of workers with arbitrary clocks and failing writes |
| QueueGuarantees.ClaimsAreExclusive | internal/store/sqlite/sqlite.go:772-791 | a row is in the hands of at most one worker at a time |
| QueueGuarantees.AttemptsAreCapped | internal/queue/worker.go:72-86 | Send is called for a row at most maxRetries times, and the MTA accepts it at most once |
| QueueGuarantees.RetriesCountFailures | internal/store/sqlite/sqlite.go:797-804 | Retries equals the failed attempts, in the table and in the copy a worker decides by |
| QueueGuarantees.MessagesAreKept | internal/store/sqlite/sqlite.go:797-804 | a row's message is never altered by claiming and requeueing |
| QueueGuarantees.ExactlyOneFate | internal/queue/worker.go:61-112 | at every moment every enqueued row is in exactly one of: waiting, held, stranded by a failed write, sent, discarded, given up |
| QueueGuarantees.FateExplained | internal/queue/worker.go:72-86 | a given-up row has failed exactly maxRetries times, a sent row's last attempt succeeded, a waiting row has attempts left, a stranded row has a failed write |
| QueueGuarantees.NoticesAreExact | internal/queue/worker.go:95-112 | a given-up post yields exactly one failure notice, addressed to its poster; only a post all of whose attempts failed has one, and notices never yield notices |
| QueueGuarantees.NoticesAreDistinct | internal/queue/worker.go:95-112 | no two rows share a failure notice |
| QueueGuarantees.AttemptsAreSpaced | internal/queue/worker.go:131-144 | the batch times of consecutive attempts are at least 1, 5, 15 and 60 minutes and then a day apart, across workers and clocks |
| QueueGuarantees.NoEarlyGiveUp | internal/queue/worker.go:131-144 | with the default cap no row is given up within 73h21m of its first attempt's batch |
| QueueGuarantees.SendsAreBounded | internal/queue/worker.go:61-112 | in every run the total of Sends is at most maxRetries * (2 * posts + notices) enqueued by callers |
| QueueGuarantees.DiscardStopsExactly | internal/store/sqlite/sqlite.go:814-816 | in every state: after a discard the row may still be attempted if and only if a worker is about to send it, and announced if and only if a worker holds it on its last attempt |
| QueueGuarantees.DiscardDoesNotRecall | internal/store/sqlite/sqlite.go:814-816 | a reachable run in which a discarded row is attempted and announced to its poster |
| QueueWorker.Worker.ProcessBatch | internal/queue/worker.go:61-89 | the batch loop is a run of this worker's own protocol steps, its Sends are those of the Send steps and its failed writes the unwritten ones; it ends although failures add eligible notices, sends at most the weight of the eligible rows, and unless a claim failed every row it leaves is claimed or due later |
| QueueWorker.Worker.Settle | internal/queue/worker.go:72-87 | one Send of the row's message, as protocol steps; unless a write failed the row is then gone if the MTA took it, unclaimed with one more retry and due after the backoff for its retries if it has attempts left, and otherwise given up |
| QueueWorker.Worker.Retry | internal/queue/worker.go:72-84 | a failed row is given up from the configured number of attempts on, or from the 8th if none is configured, and requeued a minute, 5, 15 and 60 minutes or a day later before |
| QueueWorker.Worker.GiveUp | internal/queue/worker.go:95-112 | giving up is a notice step if there is a poster, then a removal step, without a Send; unless a write failed the queue has lost the row and gained a notice from the list to the poster |
| SqliteStore.Store.ClaimNextQueued | internal/store/sqlite/sqlite.go:772-791 | claims, of the unclaimed rows that are due, the one with the least next attempt and then id, and returns it as it was; nothing only if there is none |
| SqliteStore.Store.FirstEligible | internal/store/sqlite/sqlite.go:777-778 | the minimum by next attempt and id among the unclaimed due rows |
| SqliteStore.Store.Enqueue | internal/store/sqlite/sqlite.go:759-770 | one new row under a fresh id |
| SqliteStore.Store.RequeueWithBackoff | internal/store/sqlite/sqlite.go:797-804 | releases the claim, counts a retry and sets the next attempt, if the row is there |
| SqliteStore.Store.MarkQueuedSent | internal/store/sqlite/sqlite.go:793-795 | removes the row |
| DigestProtocol.GuardIsEquality | internal/store/sqlite/sqlite.go:896-905 | although it compares with <=, the claim succeeds exactly when the stored watermark equals the snapshot |
| DigestProtocol.ReachableInv | internal/queue/digest.go:96-143 | snapshots lie behind the watermark and wins form a chain, in every run with stale snapshots and arbitrary clocks |
| DigestGuarantees.WinsAreSpaced | internal/queue/digest.go:70-90 | a win for a weekly list comes at least a week after every win before it, and any other at least a day after, also when the frequency changed in between; no window is won twice |
| DigestGuarantees.WatermarkGrows | internal/store/sqlite/sqlite.go:896-905 | once set the watermark stays or grows by at least the period of the frequency in the snapshot that is claimed |
| DigestGuarantees.ClaimSucceedsIff | internal/queue/digest.go:102-109 | a claim wins if and only if nobody claimed since its snapshot |
| DigestGuarantees.WindowOf | internal/queue/digest.go:96-109 | the won windows tile the time up to the watermark: every stamp lies in exactly one |
| DigestGuarantees.CoveredIffInsertedInTime | internal/queue/digest.go:96-143 | a post is in the digest of its window if and only if it was inserted before that digest read the archive |
| DigestGuarantees.NoPostFallsBetweenDigests | internal/queue/digest.go:96-143 | with strict clocks and atomic archiving every post up to the watermark was in the entries of the worker that won its window |
| DigestGuarantees.LatePostIsLost | internal/store/sqlite/sqlite.go:838-840 | a run in which a post stamped before but inserted after the read is in no digest |
| DigestRefinement.DigestListRefines | internal/queue/digest.go:96-109 | the worker's calls for one list, also when they fail, are steps of the protocol that win a window exactly if the worker claimed it; a won window carries exactly the entries the digest is built from |
| DigestWorkers.DigestWorker.DigestList | internal/queue/digest.go:96-143 | claims at most its snapshot's window; only a claim that found posts queues anything, and then one row per Active digest-mode encodable subscription |
| DigestWorkers.DigestWorker.ProcessDue | internal/queue/digest.go:52-67 | moves a watermark only to now, and only where there was none or it was a week old, for a weekly list, or a day, for any other; every new row takes a digest to an Active digest member; unless the store failed every such list is claimed and each of its digest members has a row with the digest of the posts since the watermark |
| SqliteStore.Store.AdvanceDigestWatermark | internal/store/sqlite/sqlite.go:894-905 | writes the watermark and reports success if and only if the guard matches |
| SqliteStore.Store.ListArchiveSince | internal/store/sqlite/sqlite.go:859-868 | exactly the list's entries received after the cut-off |
| Verp.Cut | internal/mail/verp.go:21-35 | which addresses can be encoded, and that the parts put together give the address back |
| Verp.PrintedForm | internal/mail/verp.go:5-35 | the printed form list-bounces+local=domain@listdomain of a pair of addresses cut at their first @, and that addresses without both parts cannot be printed |
| Verp.LastMarker | internal/mail/verp.go:53-60 | the decoder's last marker is the encoder's own if and only if neither recipient part contains one |
| Verp.LocalExact | internal/mail/verp.go:53-77 | the local part decodes to its recipient if and only if the recipient is clean |
| Verp.RoundTripExact | internal/mail/verp.go:18-80 | DecodeVERP undoes EncodeVERP if and only if the list domain has no @, the recipient domain no =, and neither recipient part contains -bounces+ |
| Verp.DecodesExactly | internal/mail/verp.go:39-80 | for every envelope sender: it decodes to a pair if and only if it is a printed form of that pair which splits where it was joined |
| Address.ParsedIff | internal/mail/address.go:44-53 | an address is parsed if and only if it has something on both sides of its last @ |
| Address.RoleAddressExact | internal/mail/address.go:84-105 | request, owner, subscribe and unsubscribe addresses parse back if and only if the domain is non-empty without @ and the name is not shadowed by a plus-prefix |
| Address.PlusAddressExact | internal/mail/address.go:55-81 | bounce, confirm and moderate addresses parse back with their encoded part if and only if the domain is plain and the name has no + |
| Address.PostAddressExact | internal/mail/address.go:84-111 | the list's own address is a post if and only if the domain is plain, the name not shadowed, and no role suffix ends it |
| Address.AddressConventions | internal/mail/address.go:32-43 | all documented addresses of an ordinary list parse as documented |
| Address.NoticeReplyToMissesOwner | internal/mail/pipeline.go:307-309 | the Reply-To printed in notices never parses to the list's owner address |
| Bounces.EnvelopeParses | internal/mail/lmtp.go:251-256 | the envelope sender of a plain list parses as its bounce address, and the handler reassembles exactly what was printed |
| Bounces.AttributionExact | internal/mail/lmtp.go:251-277 | the bounce of mail to a member is counted for that member if and only if list and recipient are free of separators |
| Bounces.TargetIsUnique | internal/mail/lmtp.go:258-272 | and for no other subscription |
| Bounces.MarkerMisattributes | internal/mail/lmtp.go:251-277 | a recipient containing the marker has its bounces counted for another member |
| Bounces.QueuedPostBouncesHome | internal/mail/pipeline.go:154-194 | a queued delivery is addressed to its member and its envelope sender bounces to that member's counter, exactly if list and recipient are clean |
| Bounces.QueuedDigestBouncesHome | internal/queue/digest.go:124-141 | the same for digests |
| Bounces.BouncesCount | internal/mail/pipeline.go:378-395 | n bounces add n, disable the subscription exactly when the count has reached the threshold, and change no other subscription |
| Bounces.ThresholdBounceDisables | internal/mail/pipeline.go:378-395 | an Active member without bounces is disabled by exactly the T-th bounce and by none before |
| Bounces.LMTPServer.RecordBounce | internal/mail/pipeline.go:378-395 | the bounce is counted with the first call, and the subscription disabled, at the threshold, with the third; whatever fails it is counted at most once, and the answer is success exactly if no call failed |
| Bounces.LMTPServer.HandleBounce | internal/mail/lmtp.go:251-277 | a bounce is recorded for its target, if there is one and the three lookups succeed, and touches nothing else; without a failed call the MTA is answered with success exactly if the address decodes and the member is unknown or the list exists; with a target, a failed lookup of member or subscription is answered with success, and a failed lookup of the list or call of the recording with an error |
| Bounces.LMTPServer.FindTarget | internal/mail/lmtp.go:251-272 | the target if the three lookups find one; otherwise which lookups were made and what the MTA is answered |
| LmtpProtocol.RecipientsAfter | internal/mail/lmtp.go:91-145 | how each exchange moves the transaction: recipients are those named since the last MAIL, RSET or received message |
| LmtpProtocol.RecipientsNeedMail | internal/mail/lmtp.go:132-145 | recipients exist only after a MAIL that nothing has reset since, null sender included |
| LmtpClient.EveryLine | internal/mail/lmtp.go:84-113 | what every line means: the seven verbs, in any letter case, alone or before a space, and nothing else |
| LmtpClient.PathExact | internal/mail/lmtp.go:141-142 | a path comes out of its angle brackets as it went in if and only if no bracket of its own begins or ends it, whatever blanks come before |
| LmtpClient.PrintedIsRead | internal/mail/lmtp.go:84-142 | the server takes a command a client printed, in any letter case, for what the client means, if and only if its path has that form |
| LmtpClient.CommandsAreRead | internal/mail/lmtp.go:75-145 | the commands a client sends first, as text, are the first exchanges of the dialogue, one line each |
| LmtpClient.RecipientsAreMeant | internal/mail/lmtp.go:91-145 | the recipients in force are those a client means that forgets them at RSET and MAIL |
| LmtpClient.SessionIsUnderstood | internal/mail/lmtp.go:75-188 | for the text of commands, DATA and a stuffed message: 503 and no delivery if the client means no recipients, else the message is delivered line for line to exactly the recipients meant, in order, with one 250 or 550 each |
| LmtpClient.ResetRefusesData | internal/mail/lmtp.go:100-104 | on the wire, a DATA after a RSET and before the next MAIL is answered 503, and nothing the client sent to then is delivered |
| LmtpClient.NoopChangesNothing | internal/mail/lmtp.go:105-106 | a NOOP anywhere leaves the recipients the client means as they are |
| LmtpClient.NothingAfterReset | internal/mail/lmtp.go:100-104 | in any session, from a line that says RSET to the next that says MAIL, nothing is delivered and every line that says DATA is answered 503 |
| LmtpClient.NoopLeavesRecipients | internal/mail/lmtp.go:105-106 | in any session a line that says NOOP leaves the transaction alone |
| LmtpDialogue.DialogueIsDetermined | internal/mail/lmtp.go:75-188 | the lines a client sends determine the dialogue: exchanges, the lines of each, and what is left over after QUIT, all but the fate of deliveries |
| Lmtp.LmtpConn.Serve | internal/mail/lmtp.go:75-114 | for every input the session conducts the dialogue the input determines, up to QUIT or the end of input, and replies and deliveries are exactly those due for it |
| Lmtp.LmtpConn.HandleData | internal/mail/lmtp.go:147-188 | DATA is refused if and only if there are no recipients; otherwise the message is read up to its dot and answered, unless the input ends first |
| Lmtp.LmtpConn.Answer | internal/mail/lmtp.go:175-188 | a received message gives one delivery and one reply per recipient, in order, and ends the transaction |
| Lmtp.LmtpConn.ReadMessage | internal/mail/lmtp.go:154-173 | the lines up to the lone dot, unstuffed and joined by CRLF |
| Lmtp.LmtpConn.ReadString | internal/mail/lmtp.go:79-82 | the next line up to its line feed; text without one ends the session |
| Lmtp.LmtpConn.HandleSimple | internal/mail/lmtp.go:91-145 | every other command updates the transaction and answers as due |
| DotStuffing.LineSurvives | internal/mail/lmtp.go:155-170 | a stuffed line is read as one line, never ends the message and unstuffs to itself, if and only if it contains no line feed and does not end in a carriage return |
| DotStuffing.MessageSurvives | internal/mail/lmtp.go:154-173 | for the text on the wire, the message received is line for line the client's if and only if no line contains a line feed or ends in a carriage return; then it ends at the client's dot |
| DotStuffing.LineFeedEndsMessage | internal/mail/lmtp.go:154-164 | a line feed inside a line can end the message early |
| PostLifecycle.ReachableInv | internal/mail/pipeline.go:27-73 | in every run of pipeline actions, clock ticks and sweeps, actions that fail halfway included, held rows, outcomes and archive agree |
| PostLifecycle.ExactlyOneFate | internal/mail/pipeline.go:319-360 | in every run a post is in exactly one of archived, held, rejected, discarded, expired, and was put there once, if and only if no approval or rejection of it took effect without removing its row |
| PostLifecycle.Conservation | internal/mail/pipeline.go:319-360 | outcomes plus pending holds of a post are one, plus one for each action that left its row behind; its archive entries at most one, plus one for each such approval |
| PostLifecycle.ArchivedTwice | internal/mail/pipeline.go:321-333 | a reachable run in which a post is archived and held, and one in which it is archived twice |
| PostLifecycle.ResolvedAtMostOnce | internal/mail/pipeline.go:319-360 | a post is dealt with at most once, and archived at most once, unless an action on it left its row behind; it is never archived after its hold expired |
| PostLifecycle.FateIsFinal | internal/mail/pipeline.go:319-360 | what was done with a post stays done, and nothing more happens to it once it is no longer held |
| PostLifecycle.MessagesAreKept | internal/mail/pipeline.go:319-348 | list, sender and text of a post never change |
| PostLifecycle.ModeratedIsApproved | internal/mail/policy.go:23-28 | in every run a post to a moderated discussion list is in the archive only if a moderator approved it while it was held |
| Moderation.PostPipeline.ProcessPost | internal/mail/pipeline.go:27-73 | an incoming post is exactly the lifecycle step that size policy and posting policy decide; on a moderated discussion list it is never archived and, unless it violates a policy or a call failed, held; on an unmoderated one it is archived exactly if its sender subscribes, on a newsletter exactly if the sender is an owner or designated sender, and otherwise the sender gets the notice; a failed lookup can only turn acceptance into rejection; the call after the lookups decides whether anything happens, and what is answered follows from it and the calls after it |
| Moderation.PostPipeline.Standing | internal/mail/pipeline.go:40-59 | who counts as subscriber, owner and designated sender; failed lookups only take a standing away |
| Moderation.PostPipeline.HoldMessage | internal/mail/pipeline.go:199-218 | the post is held exactly if the creating call succeeds, with its list, sender, text and the list's expiry; it is announced then, and stays held if an announcement fails |
| HeldNotices.Notifier.Announce | internal/mail/pipeline.go:209-217 | exactly one notice for every known owner and moderator, whatever roles they hold, and one for the sender if the list is set so; it stops with an error at the first notice that cannot be queued |
| HeldNotices.Notifier.NotifyModerators | internal/mail/pipeline.go:224-264 | queues nobody's notice wrongly or twice, everybody's whose address was found unless one cannot be queued, and everybody's unless a call failed |
| HeldNotices.Notifier.Moderators | internal/mail/pipeline.go:227-251 | the addresses of all known owners and moderators, each once |
| Moderation.PostPipeline.RejectMessage | internal/mail/pipeline.go:446-461 | rejection queues one notice, from the list's owner address to the sender, with the reason |
| Moderation.BuildRejection | internal/mail/pipeline.go:449-459 | the text of the notice, with the policy's reason or the hint of the posting policy |
| Moderation.PostPipeline.HeldContext | internal/mail/pipeline.go:430-444 | a held message can be acted on exactly until its expiry, if both loading calls succeed |
| Moderation.PostPipeline.ApproveHeld | internal/mail/pipeline.go:319-333 | the post is archived, as it was posted, exactly if the first three calls succeed, indexed with the fourth, delivered with the fifth, and no longer held exactly if the last does too |
| Moderation.PostPipeline.RejectHeld | internal/mail/pipeline.go:335-348 | the original sender is told exactly if the first three calls succeed, and the post is no longer held exactly if the fourth does too |
| Moderation.PostPipeline.DiscardHeld | internal/mail/pipeline.go:350-360 | the held row is removed exactly if all three calls succeed |
| Moderation.PostPipeline.Sweep | internal/store/sqlite/sqlite.go:736-741 | the sweep expires exactly the held messages past their expiry |
| FanOut.Pipeline.DeliverToList | internal/mail/pipeline.go:137-197 | one archive entry with the first call and its index row with the second; every new row takes the post to an Active regular-mode member other than the poster; if the subscriptions can be listed every such member with a printable VERP address has one, short of at most one per failed call |
| FanOut.Pipeline.QueuePost | internal/mail/pipeline.go:154-194 | the loop over subscriptions queues nobody wrongly or twice, and misses at most one member per failed call |
| FanOut.RecipientsAreDisjoint | internal/queue/digest.go:124-141 | on one store nobody gets a post both at once and by digest |
| ArchiveIndex.FromEmpty | internal/store/sqlite/sqlite.go:827-848 | from an empty database no run gives an index row anything but its own entry's subject and text; at its end the index equals the archive's projection if and only if every entry torn by a failed second statement lost its list later |
| ArchiveIndex.SpoiledAfter | internal/store/sqlite/sqlite.go:122-134 | which entries the index does not show as they are after a write, complete or torn |
| ArchiveIndex.GapRemains | internal/store/sqlite/sqlite.go:843-847 | such an entry stays so until its list is deleted, and is gone once it is |
| ArchiveIndex.TornBackfillStays | internal/store/sqlite/sqlite.go:122-134 | a backfill that fails between its statements leaves an index row without text that no later backfill fills in |
| ArchiveIndex.BackfillIsIdempotent | internal/store/sqlite/sqlite.go:122-134 | repeating the backfill changes nothing |
| SqliteStore.Store.ArchiveMessage | internal/store/sqlite/sqlite.go:827-848 | one entry and its index row, or only the entry, or nothing |
| SqliteStore.Store.BackfillArchive | internal/store/sqlite/sqlite.go:122-134 | every entry without text gets it, in the entry and in the index, and nothing else changes; a failing backfill stops at one statement, with the entries before it complete and at most one torn |
| SqliteStore.Store.DeleteList | internal/store/sqlite/sqlite.go:261-297 | of the seven tables and the index exactly the rows of other lists are left, unchanged; the list is found if there is one |
| Mime.MessageBuilder.ParsePart | internal/mailparse/mime.go:85-117 | folding a part, whatever its media type, adds its own attachments and nested messages under the next ordinals |
| Mime.MessageBuilder.ParseMultipart | internal/mailparse/mime.go:136-148 | the loop over a multipart folds its parts in order |
| Mime.MessageBuilder.ParseNested | internal/mailparse/mime.go:150-161 | a nested message continues the numbering of its parent |
| Mime.MessageBuilder.ReadAttachment | internal/mailparse/mime.go:163-165 | an attachment takes the next ordinal |
| Mime.LeafFiles | internal/mailparse/mime.go:92-134 | a part without parts is a file exactly if it is declared to be one, whatever its type, or is neither plain text nor HTML |
| Mime.ContainerFiles | internal/mailparse/mime.go:92-97 | a multipart or nested message is no file itself, even if declared to be |
| Mime.OrdinalsAreDocumentOrder | internal/mailparse/mime.go:85-167 | for every tree the ordinals are exactly 0..n-1 in document order, although attachments and nested messages are kept apart |
| Mime.SearchFindsFirst | internal/mailparse/mime.go:214-226 | the search finds an attachment with the ordinal if the tree has one |
| Mime.DownloadIsExact | internal/mailparse/mime.go:212-226 | ordinal k names the k-th file of the message, and nothing for k >= n |
| Members.ListMembers | internal/store/sqlite/sqlite.go:434-535 | the roster has each known subscriber with a subscription or role exactly once, sorted by email |
| Members.RosterIsUnique | internal/store/sqlite/sqlite.go:522-533 | so it does not depend on map iteration or row order |
| Members.LessMeans | internal/store/sqlite/sqlite.go:533 | the order of the roster is the lexicographic one |
| Members.HandleConsoleMembers | internal/server/console.go:565-606 | the held queue are the loaded members with a held subscription; the page is cut, by offset and limit, from the others whose email contains the query, although they are compacted in place |
| Members.SplitInPlace | internal/server/console.go:568-576 | the in-place partition |
| Members.FilterInPlace | internal/server/console.go:578-587 | the in-place filter |
| Members.ListingIsExact | internal/server/console.go:565-606 | for any limit the held queue and all pages together list every roster entry exactly once, sorted |
| MemberImport.ImportMembers | internal/mail/import.go:23-63 | every row is counted once: as invalid if it was dropped or holds no address, as disabled if its member is Disabled, as added once for each distinct address without a subscription, else as already there; existing subscriptions stay as they are |
| MemberImport.ImportOne | internal/mail/import.go:30-60 | what one address does, by its outcome; whatever fails, an outcome other than invalid is true of the tables |
| MemberImport.SameMember | internal/mail/import.go:31 | two spellings of an address are one member exactly if they differ only in letter case and in the white space around them |
| MemberImport.SecondImportIsIdle | internal/mail/import.go:23-63 | importing the same file again adds nobody, changes nothing, and counts the added as already there |

## Left out

- Sockets, TLS, the SMTP client, the HTTP layer, the command line, configuration and the web
  interface: plumbing around the modelled calls. Send succeeds or fails as it pleases.
- Parsers and encoders of Go's library (messages, MIME, CSV, base64, HTML cleaning): their
  results are inputs. Rewriting a message for a recipient, the digest text, the subject and
  the searchable text are function parameters.
- Letter case and white space outside ASCII in commands and addresses.
- The other handlers behind processRecipient: subscribe, unsubscribe, email commands, owner
  forwarding, confirmation, moderation by email. In the LMTP model a delivery answers
  success or failure as it pleases.
- UpdateListSettings: its read-then-save can write back an old watermark, so it is not among
  the digest protocol's steps.
- PostLifecycle: deleting a list is not among the lifecycle's steps; what it removes is
  stated by `DeleteList`.
- Two moderators acting on one held message at the same moment: no other action comes
  between the calls of one.
- Eventual delivery: a worker that stops keeps its row, and nothing reclaims it.
- Audit events, sessions, magic links, confirmation tokens and rate limits.
- GiveUp: the wording of the failure notice is a stand-in; its addresses are exact.
- Announce: the texts of the notices, with the random token in their reply address, are
  function parameters.
- RecordBounce: does not model the optional notice to owners when a member is disabled, nor
  the error that is answered if that notice cannot be queued.
- BackfillArchive: does not model the reset of the old message-size default in list settings.
- ReadAttachment: does not model how file name, type and content are read from the headers.
- ListMembers: role holders are counted only with a subscriber row, as in the program;
  the library sort is an insertion sort here.
- DigestList: entries are a set; their order and layout inside the digest are not modelled.
