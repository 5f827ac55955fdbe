# Flamingo IM: verified models of the stateful core

This project models the parts of the Flamingo instant-messaging backend whose correctness is a property of
whole runs rather than of one call, and proves those properties with Dafny 4.11. `dafny verify dfyconfig.toml`
checks everything.

| part | modules | main results |
|---|---|---|
| Concurrent `SendMessage` transactions on Postgres READ COMMITTED | `SendProtocol`, `SendSafety`, `SendContent`, `SendProgress`, `SendHistory` | `SendIdempotent`, `SendDense`, `SendFaithful`, `NoDeadlock`, `RunsDry`, `RowsOrdered`, `ForwardInRuns`, `BackwardInRuns`, `CompleteInRuns` |
| Burn and auto-delete deadlines, the cleanup worker | `MessageExpiry`, `AutoDelete`, `MessageService` | `ExpiryExact`, `ExpiryNeverLater`, `Cleanup`, `AckReadTriggers` |
| Sequence-window queries and paging | `MessageWindow`, `MessagePaging` | `AroundExact`, `BeforeExact`, `ForwardServes`, `ForwardComplete`, `BackwardServes`, `BackwardComplete` |
| Read cursors | `ReadCursor` | `CursorIsMaximum`, `MarkedStaysRead`, `FirstUnreadExact`, `ReportedCount` |
| Group member listing | `MemberListing` | `ListGroupMemberIDs`, `ListingExact` |
| Connection registry and subscriptions | `ConnectionRegistry`, `RealtimeHandlers` | `RegistryFaithful`, `NoLeak`, `CoverExact` |
| Verification codes | `VerificationCodes`, `VerificationSafety`, `VerificationAgreement` | `AcceptedAtMostOnce`, `WithinExact`, `AcceptedInTime`, `FinalExact`, `SettledForever`, `StoresAgree`, `AcceptedExact` |
| Group membership | `Groups`, `GroupSafety`, `GroupEffects`, `GroupService` | `OwnershipExact`, `OneOwner`, `OwnerChanges`, `MembershipEnds`, `AdmissionExact`, `CounterDrift` |
| Friendship | `Friends`, `FriendSafety`, `FriendEffects` | `FriendshipsPaired`, `SecondAccept`, `NeverAgain`, `PeaceExact` |

How it is set up:

- Tables and Redis hashes are maps or sequences. A unique constraint is an explicit failure branch, so no
  generated id is assumed fresh: a colliding one takes the error path of the code. A verification code id is the pair
  of clock reading and random suffix it spells out.
- A send is a transaction of single SQL statements. `SendProtocol.Waits` says which statement waits for which
  uncommitted row version or row lock of another transaction; everything else interleaves freely, together with
  aborts, retries of the same key, recalls, deletions, acknowledgements and sweeps.
- Services that update rows are classes; every call is proved equal, state and result, to a step function
  (`Sent`, `Checked`, `Step`, `Apply`, `Advanced`), and the theorems about whole runs are about those step functions.
  A transaction that fails restores what it had written. What each step requires, changes and leaves alone is stated
  a second time without the step functions: row by row in `GroupEffects` and `FriendEffects`, per answer in
  `VerdictFiled` and `SendFiled`, and in the contracts of the message and receipt methods.
- Times are integers counted in nanoseconds, and every clock reading is a parameter. A timestamp column keeps whole
  microseconds and a jsonb column keeps the value but not the spelling of a text: `MessageModel.Stored`. JSON text is
  a pair of value and spelling, so nothing is assumed about either. Integers are unbounded.

Where the code does not do what its name or its documentation promises, the code is modelled as it is and the exact
condition is proved:

- A query bound of 0 means no bound, so "before" an anchor with sequence 1 is the whole conversation
  (`MessageWindow.BeforeExact`, `AroundExact`, `BeforeFirstCounterexample`).
- The unread count sent with the first-unread anchor is the size of a query limited to one row
  (`ReadCursor.ReportedCount`, `ReportedCountCounterexample`).
- An unsubscription decided before a reconnect can cut the reconnected user off
  (`RealtimeHandlers.CoverExact`, `ReconnectRace`).
- Sending and verifying a code discards some store errors and cannot undo others. The failures after which cache and
  records disagree are listed exactly by `VerificationAgreement.SendExact` and `VerifyExact`; in `StrandedRun` a
  cancelled code is still accepted. `StoresAgree` gives the exact condition over whole runs, key by key. A failed
  deletion of a used-up cache entry lets its code be accepted twice or guessed once too often, and nothing else does
  (`VerificationSafety.WithinExact`, `RepeatExceeds`, `AcceptedTwice`). Whatever failed, a code is final exactly when
  no live, unexpired entry names it (`FinalExact`).
- A role update may ask for the owner role and give a live group a second owner row
  (`GroupSafety.OwnershipExact`, `TwoOwners`).
- Handling a join request checks the operator in the group the call names and admits into the group the request was
  made for (`GroupSafety.AdmissionExact`, `ForeignAccept`).
- Members are listed page by page ordered by join time alone, and all initial members of a group share one join time;
  a tie over a page boundary can lose a recipient (`MemberListing.ListingExact`, `CreatedGroupsSplit`).
- The first reply to a send shows the text and time as sent, a repeated one shows them as stored
  (`SendSafety.SendIdempotent`).
- `member_count` counts the creator again for every time the creator's id is listed at creation
  (`GroupSafety.CounterDrift`).
- Friendship rows are soft-deleted but keep their unique key, so two users whose friendship ended can never be
  friends again (`FriendSafety.NeverAgain`).
- The blacklist is looked at when a friend request is sent and not when it is accepted
  (`FriendSafety.PeaceExact`, `BlockedFriends`).

## Model

| member | source | states |
|---|---|---|
| `SendSafety.StatementKeeps` | app/message/internal/service/message_service.go:114-192 | after any statement of a send, the transaction still knows what its next statement relies on about its key row, its sequence row and its message |
| `SendSafety.StatementApart` | app/message/internal/repository/send_idempotency_repository.go:28-53 | a statement that did not have to wait acquires no key lock, sequence row or message id held by another transaction |
| `SendSafety.NoCollision` | migrations/000005_create_message_tables.up.sql:20 | in every state of the invariant the allocated number collides with no committed message, so only an id collision can fail the insert |
| `SendSafety.CommitKeepsOther` | app/message/internal/service/message_service.go:114-192 | a commit invalidates nothing that any other transaction in flight relies on |
| `SendSafety.CreateCounts` | app/message/internal/repository/sequence_repository.go:66-89 | a creating commit makes the next number of its conversation visible and leaves every other conversation's numbers alone |
| `SendSafety.HitKeepsDb` | app/message/internal/service/message_service.go:119-140 | an idempotency hit changes no row and repeats the earlier reply of its key |
| `SendSafety.OutsideKeeps` | app/message/internal/service/message_service.go:531-621 | recalls, deletions, acknowledgements and sweeps keep every invariant of the send protocol |
| `SendSafety.RunKeeps` | app/message/internal/service/message_service.go:114-192 | the protocol invariant holds after every interleaved run |
| `SendSafety.SendIdempotent` | app/message/internal/service/message_service.go:114-192 | in every interleaving all successful responses of a key agree up to what storing changes, all repeats are equal and are what the row still says, the first and only the first created a row, and every row was created by exactly one response |
| `SendSafety.SendDense` | app/message/internal/repository/sequence_repository.go:29-89 | in every reachable state a conversation's messages of whatever status carry exactly 1..current_seq, each once, and became visible in that order |
| `SendContent.StatementDrafts` | app/message/internal/service/message_service.go:149-171 | a statement drafts a message only at the insert, with the request's sender, conversation, content and policies and the clock read there |
| `SendContent.CommitReflects` | app/message/internal/service/message_service.go:180-192 | the published row and the reply carry what the transaction drafted, the row to the microsecond |
| `SendContent.SendFaithful` | app/message/internal/service/message_service.go:149-192 | in every interleaving each response that created a message answers a request that was begun: the reply shows its content, key and the clock of the insert, and the row ever after holds that content, clock, burn seconds and auto-delete deadline in numbers |
| `SendProgress.Runnable` | app/message/internal/service/message_service.go:119-143 | with any unfinished transaction, following the lock order finds one whose next statement waits for nobody |
| `SendProgress.NoDeadlock` | app/message/internal/repository/sequence_repository.go:29-76 | no reachable state with an unfinished send is deadlocked |
| `SendProgress.AdvanceWorks` | app/message/internal/service/message_service.go:114-192 | every statement brings its transaction strictly closer to its end |
| `SendProgress.StatementFares` | app/message/internal/service/message_service.go:132-192 | with a fresh id a statement fails only where it fetches a deleted message |
| `SendProgress.RunsDry` | app/message/internal/service/message_service.go:114-192 | every reachable state has an abort-free continuation in which every unfinished transaction commits, save those whose key is bound to a deleted message |
| `SendHistory.RowsOrdered` | app/message/internal/service/message_service.go:142-192 | the reachable message table, listed in commit order, is exactly the rows created and has increasing numbers per conversation, which is what the window queries rely on |
| `SendHistory.RunProgresses` | app/message/internal/service/message_service.go:114-192 | in every continuation of a run the message table keeps every row in place, adds higher numbers only, and makes no message normal again |
| `SendHistory.ForwardInRuns` | app/message/internal/service/message_service.go:395-419 | in every run of the send protocol, with any events between the requests, forward paging neither skips nor repeats a message visible at the end, up to an anchor recalled or deleted meanwhile |
| `SendHistory.BackwardInRuns` | app/message/internal/service/message_service.go:368-392 | the same of backward paging from a sequence of 2 or more |
| `SendHistory.CompleteInRuns` | app/message/internal/service/message_service.go:395-419 | while only send transactions step, commit or abort between the requests, forward paging yields exactly what follows the anchor when the last page is served |
| `MessageModel.ApplyEvolves` | app/message/internal/repository/message_repository.go:113-118 | no row update adds or drops a row or changes what a reply shows, and a deleted message never comes back |
| `MessageModel.ReplyOfStored` | migrations/000005_create_message_tables.up.sql:9-18 | a reply built from the stored row is the reply built from memory up to storage, and storing again changes nothing |
| `MessageExpiry.IgniteTimed` | app/message/internal/service/message_service.go:866-907 | an acknowledgement makes the burn deadline the earlier of old and new to the microsecond, keeps expire_time the minimum, and moves no deadline later |
| `MessageExpiry.ExpiryExact` | app/message/internal/service/message_service.go:164-171 | in every run expire_time is the minimum of the deadlines set, absent iff both are, and the worker's reason names exactly the policies attaining it |
| `MessageExpiry.ExpiryNeverLater` | app/message/internal/service/message_service.go:866-907 | in every continuation of a run a message keeps its row and its expiry never moves later |
| `MessageExpiry.ReasonExact` | app/message/internal/service/auto_delete_worker.go:115-132 | the inferred reason names a policy iff that policy's deadline is the expiry |
| `AutoDelete.DisturbDrifts` | app/message/internal/service/message_service.go:164-171 | no send, recall, deletion, sweep or acknowledgement timed at or after `now` enlarges the worker's target set |
| `AutoDelete.SweepDrifts` | app/message/internal/repository/message_repository.go:206-214 | a batch update removes exactly the batch from the target set |
| `AutoDelete.AutoDeleteWorker.GetExpiredMessages` | app/message/internal/repository/message_repository.go:195-203 | the batch holds only targets, earliest expiry first, and all of them when it is not full |
| `AutoDelete.AutoDeleteWorker.BatchUpdateStatus` | app/message/internal/repository/message_repository.go:206-214 | the rows of the batch have only their status set to deleted, and no other row changes, comes or goes |
| `AutoDelete.AutoDeleteWorker.Pass` | app/message/internal/service/auto_delete_worker.go:63-113 | one pass ends the cleanup or strictly shrinks the target set, whatever happens between its statements; beyond what other transactions do, it only marks the reported rows deleted |
| `AutoDelete.AutoDeleteWorker.Cleanup` | app/message/internal/service/auto_delete_worker.go:63-113 | the loop terminates, deletes only messages normal and expired at `now` when it started, leaves none on an empty-batch exit, gives only justified reasons, and in a quiet world changes nothing but the status of the rows it reports |
| `MessageService.DistinctIds` | app/message/internal/service/message_service.go:751-765 | the distinct non-empty ids of a request in order of first appearance |
| `MessageService.MessageService.AckReadTriggers` | app/message/internal/service/message_service.go:825-913 | exactly the named normal burn messages sent by others are acknowledged, each once; only their deadlines move, to the stated values, and no other row changes |
| `MessageService.MessageService.RecallMessage` | app/message/internal/service/message_service.go:531-569 | within two minutes the sender recalls a message that is not deleted; its row is recalled and no other row changes, and else each error comes in its order without a change |
| `MessageService.MessageService.DeleteMessage` | app/message/internal/service/message_service.go:592-621 | the sender deletes a message that is not deleted; only the status of its row changes; a failed announcement is reported although the message is deleted, and the other errors come in their order without a change |
| `MessageWindow.SelectSound` | app/message/internal/repository/message_repository.go:63-87 | the range query returns exactly the normal rows of the conversation within its bounds |
| `MessageWindow.SplitAt` | app/message/internal/repository/message_repository.go:63-87 | cutting at any number splits a range result into two adjacent range results |
| `MessageWindow.LookupFinds` | app/message/internal/repository/message_repository.go:51-60 | a message that is not deleted is found under its id |
| `MessageWindow.NormalizeLimit` | app/message/internal/service/message_service.go:1021-1029 | a limit within 1..100 is kept, one of 0 or less becomes 20 and a larger one 100 |
| `MessageWindow.ReverseModelMessages` | app/message/internal/service/message_service.go:1090-1094 | the in-place swaps reverse the list |
| `MessageWindow.FindAnchorExact` | app/message/internal/service/message_service.go:1031-1045 | a request finds its anchor iff it is well-formed, its caller has access and the anchor is a normal message of the conversation; otherwise the error tells which fails first |
| `MessageWindow.FetchBeforeMessages` | app/message/internal/service/message_service.go:1047-1065 | over-fetching, truncating and reversing gives the last messages of the source range with an exact flag |
| `MessageWindow.FetchAfterMessages` | app/message/internal/service/message_service.go:1067-1080 | over-fetching and truncating gives the first messages after the anchor with an exact flag |
| `MessageWindow.GetMessagesBefore` | app/message/internal/service/message_service.go:368-392 | the before-page of a valid anchor, or the error of the anchor lookup |
| `MessageWindow.GetMessagesAfter` | app/message/internal/service/message_service.go:395-419 | the after-page of a valid anchor, or the error of the anchor lookup |
| `MessageWindow.GetMessagesAroundAnchor` | app/message/internal/service/message_service.go:422-462 | for an anchor of sequence 2 or more, the contiguous slice of the visible messages around it, each side as long as its limit allows, with exact flags |
| `MessageWindow.AroundExact` | app/message/internal/service/message_service.go:422-462 | the joined answer is that slice iff the anchor's sequence is at least 2 |
| `MessageWindow.SliceShape` | app/message/internal/service/message_service.go:422-462 | the slice is strictly increasing and holds the anchor exactly once |
| `MessageWindow.BeforeExact` | app/message/internal/service/message_service.go:1047-1065 | the before-page is the messages before the anchor iff the anchor's sequence is at least 2 |
| `MessageWindow.BeforeFirstCounterexample` | app/message/internal/repository/message_repository.go:68-73 | asked for what precedes the first of two messages, the query returns both |
| `MessagePaging.AcceptsExact` | app/message/internal/service/message_service.go:1031-1045 | a message is accepted as an anchor iff its row is still normal |
| `MessagePaging.AnchorFound` | app/message/internal/service/message_service.go:1031-1045 | a well-formed request of a caller with access succeeds iff its anchor is accepted |
| `MessagePaging.PageExact` | app/message/internal/service/message_service.go:1067-1080 | a page with more to come holds exactly the visible messages between the anchor and its own last message |
| `MessagePaging.ForwardServes` | app/message/internal/service/message_service.go:395-419 | whatever is sent, recalled or deleted between pages, the pages are strictly increasing, a message visible at the end was served once iff it is behind the anchor and not behind an anchor whose request failed, and a request fails only because its anchor is no longer visible |
| `MessagePaging.ForwardComplete` | app/message/internal/service/message_service.go:395-419 | while messages are only sent, paging forwards yields exactly what follows the anchor when the last page is served |
| `MessagePaging.BackwardServes` | app/message/internal/service/message_service.go:368-392 | from a sequence of 2 or more, whatever is sent, recalled or deleted between pages, the pages joined are strictly increasing, a message visible at the end was served once iff it is before the anchor and not before an anchor whose request failed, and a request fails only because its anchor is no longer visible |
| `MessagePaging.BackwardComplete` | app/message/internal/service/message_service.go:368-392 | on a fixed table, paging backwards from a sequence of 2 or more ends and yields everything before the anchor in order |
| `ReadCursor.ReadReceipts.MarkAsRead` | app/message/internal/service/message_service.go:679-734 | the cursor becomes the later of the old one and the given number, 0 by default, and no other cursor changes; or it fails with the given error and no change |
| `ReadCursor.HighestIsMax` | app/message/internal/service/message_service.go:776-783 | the scanned maximum is the highest sequence among the named normal messages, 0 if there are none |
| `ReadCursor.ReadReceipts.MarkMessagesRead` | app/message/internal/service/message_service.go:737-822 | accepts exactly the named normal messages, each once; the cursor becomes the later of the old one and the greatest of their sequences, and no other cursor changes; fails exactly in the stated cases |
| `ReadCursor.ReadReceipts.GetUnreadCount` | app/message/internal/service/message_service.go:916-944 | counts what is unread behind the given position or the cursor, or answers with the stated error |
| `ReadCursor.UnreadCountExact` | app/message/internal/repository/message_repository.go:136-143 | that count is the number of normal messages of the conversation with a higher sequence |
| `ReadCursor.EffectiveExact` | app/message/internal/service/message_service.go:699-816 | the position a call stands for is the greatest number it submits, outright or as the sequence of a normal message it names |
| `ReadCursor.ReadReceipts.GetFirstUnreadAnchor` | app/message/internal/service/message_service.go:465-513 | answers with the first unread message behind the caller's cursor, or with the stated error |
| `ReadCursor.CursorIsMaximum` | app/message/internal/service/message_service.go:699-724 | after any run of the two calls the cursor is the maximum of the given numbers and of the sequences of the named normal messages, and exists iff there is one |
| `ReadCursor.MarkedStaysRead` | app/message/internal/service/message_service.go:776-816 | whatever else is called, a message once marked as read is not unread behind the cursor |
| `ReadCursor.CursorNeverDecreases` | app/message/internal/service/message_service.go:704-710 | no continuation moves a cursor back |
| `ReadCursor.FirstUnreadExact` | app/message/internal/service/message_service.go:478-503 | an anchor exists iff the unread count is positive, and is the least normal message above the cursor |
| `ReadCursor.ReportedCount` | app/message/internal/repository/message_repository.go:136-143 | the count sent with the anchor equals the number of unread messages iff that number is at most 1 |
| `ReadCursor.ReportedCountCounterexample` | app/message/internal/service/message_service.go:498-503 | with two messages and nothing read the reported count is 1 |
| `MemberListing.PageFollows` | app/group/internal/repository/group_member_repository.go:107-127 | each page continues exactly where the previous ones ended and is empty iff they covered the table |
| `MemberListing.ListGroupMemberIDs` | app/message/internal/service/message_service.go:1242-1288 | for every group size and every order of ties on each page, the listing ends with what the pages contribute, each id once; that is every recipient if the pages share one order or no tie with a recipient is split; it fails iff the caller is no member |
| `MemberListing.RanksAgree` | app/group/internal/repository/group_member_repository.go:118-124 | two orders by join time of the same rows have the same join time at every rank |
| `MemberListing.ListingExact` | app/group/internal/repository/group_member_repository.go:107-127 | the listing is complete for every possible order of ties iff no tie with a recipient stretches over a page boundary |
| `MemberListing.CreatedGroupsSplit` | app/group/internal/service/group_service.go:149-169 | the rows of every group created with a hundred or more members besides the owner have such a tie, so a listing can lose a member |
| `ConnectionRegistry.ConnectionManager.Register` | app/realtime/internal/handler/manager.go:27-42 | the registry step of a registration: the slot's earlier client is closed and replaced |
| `ConnectionRegistry.ConnectionManager.Unregister` | app/realtime/internal/handler/manager.go:45-58 | the registry step of a leave: only the client itself is removed, and an empty device map with it |
| `ConnectionRegistry.ConnectionManager.OnlineCount` | app/realtime/internal/handler/manager.go:121-125 | the count is the number of users for whom IsOnline holds |
| `ConnectionRegistry.RegistryFaithful` | app/realtime/internal/handler/manager.go:27-58 | over every interleaving the registry holds exactly the clients that registered and neither left nor were replaced, and a Done channel is closed once iff its client was replaced |
| `RealtimeHandlers.NotificationSubscriber.SubscribeUser` | app/realtime/internal/service/subscriber.go:38-58 | subscribing twice is subscribing once, and success means being subscribed |
| `RealtimeHandlers.NotificationSubscriber.UnsubscribeUser` | app/realtime/internal/service/subscriber.go:61-72 | exactly the user's subscription goes |
| `RealtimeHandlers.NextSubs` | app/realtime/internal/handler/handler.go:157-174 | after every step a subscription has a handler left that will see to it |
| `RealtimeHandlers.NoLeak` | app/realtime/internal/handler/handler.go:157-174 | in every interleaving, once all handlers of a user have returned the user has neither a registry entry nor a subscription |
| `RealtimeHandlers.CheckExact` | app/realtime/internal/handler/handler.go:171-174 | a handler that is done goes on to unsubscribe iff the registry holds no client of the user, and else returns without touching anything |
| `RealtimeHandlers.CoverExact` | app/realtime/internal/handler/handler.go:157-174 | in every run a connected user is subscribed iff no stale unsubscription and no refused subscription has cut the user off since the user's last accepted subscription |
| `RealtimeHandlers.ReconnectRace` | app/realtime/internal/handler/handler.go:171-174 | for every user and device there is a run after which the user is online and not subscribed |
| `VerificationCodes.VerificationManager.CancelPreviousCode` | app/user/internal/service/verification_manager.go:343-360 | the newest record of the slot is cancelled iff it is pending |
| `VerificationCodes.VerificationManager.SendCode` | app/user/internal/service/verification_manager.go:107-185 | the send step of both stores under every combination of handled and discarded failures, and success iff nothing on the way failed |
| `VerificationCodes.VerificationManager.VerifyCode` | app/user/internal/service/verification_manager.go:187-277 | the verify step of both stores under every combination of failures, and its outcome: missing, other type, expired, wrong, locked, accepted, bypassed or failed |
| `VerificationSafety.AcceptedIsLastWritten` | app/user/internal/service/verification_manager.go:200-277 | in every serial run, whatever failed in it, a verification with working stores is accepted iff a live entry has not expired and the code is the last one written for that purpose and target |
| `VerificationSafety.AcceptedInTime` | app/user/internal/service/verification_manager.go:129-149 | in every serial run and under every failure an acceptance is of the last code written for the slot and at most the configured seconds after its issue, and a code is called expired at most a second early |
| `VerificationSafety.LiveAccepts` | app/user/internal/service/verification_manager.go:228-276 | with working stores the code of a live entry is accepted until a second before that deadline, and any other code is wrong |
| `VerificationSafety.NeverOtherType` | app/user/internal/service/verification_manager.go:223-226 | in every serial run no entry is found to be of the other target type |
| `VerificationSafety.VerdictFiled` | app/user/internal/service/verification_manager.go:233-276 | what each answer leaves: the record verified, expired or locked and the entry deleted, one more attempt counted in both, or nothing; no other record or entry changes |
| `VerificationSafety.LockExact` | app/user/internal/service/verification_manager.go:243-262 | a wrong guess locks the code iff it is guess number max_attempts, and else leaves it open |
| `VerificationSafety.UnspentExact` | app/user/internal/service/verification_manager.go:239-270 | a step keeps a code unspent, never accepted and with all its wrong guesses counted and some left, iff it is not a verification whose deletion of that code's entry fails after acceptance or lock |
| `VerificationSafety.AcceptedAtMostOnce` | app/user/internal/service/verification_manager.go:239-276 | in every serial run in which the deletion of this code's entry did not fail after acceptance or lock, and whatever else failed, the code is accepted at most once and compared with at most max_attempts wrong guesses |
| `VerificationSafety.WithinExact` | app/user/internal/service/verification_manager.go:239-276 | up to then, a further step leaves these bounds safe in every continuation without such a failure iff it is not such a failure itself |
| `VerificationSafety.RepeatExceeds` | app/user/internal/service/verification_manager.go:239-276 | after such a failure the same call once more is a second acceptance, or wrong guess number max_attempts + 1 |
| `VerificationSafety.AcceptedTwice` | app/user/internal/service/verification_manager.go:265-276 | in every serial run, after a failed deletion of an accepted entry the same call is accepted a second time |
| `VerificationSafety.FinalExact` | app/user/internal/service/verification_manager.go:200-277 | after any serial run an issued code is accepted in no continuation iff no live, unexpired entry names it, whatever its record says |
| `VerificationSafety.SettledForever` | app/user/internal/service/verification_manager.go:233-276 | a code whose record is expired is never accepted or compared in any continuation; neither is a verified or locked one unless the deletion of its own entry failed after acceptance or lock, nor a cancelled one unless a live, unexpired entry still names it |
| `VerificationAgreement.LatestIsNewest` | app/user/internal/repository/verification_code_repository.go:41-51 | the latest record of a slot is not older than any other of that slot |
| `VerificationAgreement.CancelClears` | app/user/internal/service/verification_manager.go:343-360 | after cancelling, the slot has no pending record and every other slot is untouched |
| `VerificationAgreement.StoresAgree` | app/user/internal/service/verification_manager.go:107-185 | in every serial run, whatever failed, a slot has at most one pending record, the newest, and a live cache entry names exactly it, with the same digest and attempts, iff neither the last send for its key stranded it nor a verification since skewed it |
| `VerificationAgreement.SendExact` | app/user/internal/service/verification_manager.go:125-177 | where the stores agree, a send keeps them in agreement iff it neither fails to overwrite the entry of the cancelled code nor fails to delete a new entry that has no pending record |
| `VerificationAgreement.VerifyExact` | app/user/internal/service/verification_manager.go:233-276 | where the stores agree, a verification keeps them in agreement iff it neither leaves the entry of a settled or locked code behind nor counts a guess in the cache only |
| `VerificationAgreement.MirrorStep` | app/user/internal/service/verification_manager.go:107-277 | under any key, an entry has its record after a step iff the step wrote the entry without stranding it, or the entry had it before and the step neither stranded nor skewed it |
| `VerificationAgreement.AcceptedExact` | app/user/internal/service/verification_manager.go:200-277 | in every serial run in which the stores agree about the key, a code is accepted iff a live entry has not expired and the code is that of the slot's newest record, which is pending |
| `VerificationAgreement.SendFiled` | app/user/internal/service/verification_manager.go:125-177 | past the cancellation no older code of the slot is pending; a dispatched code has a pending record and a live entry, one whose dispatch fails a cancelled record, one that fails earlier none, and neither has an entry as far as the clean-up works |
| `VerificationAgreement.SentIsAccepted` | app/user/internal/service/verification_manager.go:107-277 | right after a code was dispatched it is accepted until a second before its deadline, and every other code is wrong |
| `VerificationAgreement.BypassExact` | app/user/internal/service/verification_manager.go:207-219 | the development code is taken iff there is no entry |
| `VerificationAgreement.MissingExact` | app/user/internal/service/verification_manager.go:443-464 | without an entry the answer reports the status of the slot's newest record |
| `VerificationAgreement.StrandedRun` | app/user/internal/service/verification_manager.go:125-149 | for every slot there is a run after which a code whose record is cancelled is accepted |
| `GroupService.BatchIsInitial` | app/group/internal/service/group_service.go:149-169 | skipping the creator and inserting the rest in one batch gives the initial member rows, or fails on an id listed twice |
| `GroupService.GroupService.AddMember` | app/group/internal/repository/group_member_repository.go:29-31 | a row is added iff the user has none in the group |
| `GroupService.GroupService.AddMembers` | app/group/internal/repository/group_member_repository.go:34-36 | all rows of a batch are added if none violates the unique key, and otherwise none |
| `GroupService.GroupService.CreateGroup` | app/group/internal/service/group_service.go:87-172 | the creation step, with all of its rows or none |
| `GroupService.GroupService.InviteMembers` | app/group/internal/service/group_service.go:461-556 | the invitation step: members skipped, the others asked or admitted one after the other |
| `GroupService.GroupService.HandleJoinRequest` | app/group/internal/service/group_service.go:980-1053 | the handling step; accepting a member's request rolls back and leaves it pending |
| `GroupSafety.StepOwners` | app/group/internal/service/group_service.go:687-792 | a live group keeps owner_id's owner row under every step, gets a second owner row exactly by an owner's update of another member to the owner role, and never loses it again |
| `GroupSafety.OwnershipExact` | app/group/internal/service/group_service.go:687-709 | in every serial run a live group has exactly one owner row, that of owner_id, iff no such update of the group ever happened |
| `GroupSafety.TwoOwners` | app/group/internal/service/group_service.go:705-709 | any two users can end up as two owners of one live group |
| `GroupSafety.OneOwner` | app/group/internal/service/group_service.go:119-172 | in every serial run whose role updates of a group ask for admin or member only, the group has exactly one owner row while live and it is owner_id's |
| `GroupSafety.OwnerChanges` | app/group/internal/service/group_service.go:758-792 | in any state owner_id changes only by a transfer of the live group by somebody with an owner row, to the named member; where owner_id's is the only owner row, by the current owner |
| `GroupSafety.MembershipEnds` | app/group/internal/model/group_member.go:52-62 | a member leaves only by quitting or by a removal that the operator's role permits against the target's, and an owner never does |
| `GroupSafety.MembershipBegins` | app/group/internal/service/group_service.go:508-553 | a user enters an existing group only as a plain member, by an invitation or join without verification or by the accept of a pending request for that group by someone who manages the group the call names |
| `GroupSafety.AdmissionExact` | app/group/internal/service/group_service.go:1000-1037 | handling a request admits somebody into a group its operator does not manage iff it accepts a non-member's pending request for another group than the one named, which the operator does manage |
| `GroupSafety.ForeignAccept` | app/group/internal/service/group_service.go:1000-1037 | a run in which an owner of one group admits a user into another owner's group |
| `GroupSafety.RoleChanges` | app/group/internal/service/group_service.go:673-718 | a member's role changes only by an owner's role update or transfer, to the role asked for or to owner and admin |
| `GroupSafety.StepSurplus` | app/group/internal/repository/group_repository.go:71-79 | no step changes the difference between member_count and the number of member rows of an existing group |
| `GroupSafety.CounterDrift` | app/group/internal/service/group_service.go:97-111 | in every serial run that difference is how often the creator's own id was listed at creation |
| `GroupEffects.CreateEffect` | app/group/internal/service/group_service.go:87-172 | a creation succeeds iff there are 1 to 499 ids, none but the creator's twice, and the group id is new; then the creator is owner, the others plain members, and nothing else has changed; each error iff its cause |
| `GroupEffects.InviteEffect` | app/group/internal/service/group_service.go:461-556 | who may invite, exactly; with approval exactly the strangers get a pending request each in order, else all invited are members and the count grew by as many as came; nothing else has changed |
| `GroupEffects.RemoveEffect` | app/group/internal/service/group_service.go:559-615 | a removal succeeds iff both are members, the target is no owner, and the operator is an owner or an admin over a plain member; then the target's row is gone, the count one lower and nothing else changed |
| `GroupEffects.QuitEffect` | app/group/internal/service/group_service.go:618-670 | a member who is no owner loses the row and one from the count; an owner quits only alone, which dissolves the group; nothing else changes |
| `GroupEffects.DisbandEffect` | app/group/internal/service/group_service.go:304-338 | an owner, and nobody else, makes the group no longer live and changes nothing else |
| `GroupEffects.RoleEffect` | app/group/internal/service/group_service.go:673-718 | an owner, and nobody else, sets the role of a member who is no owner, and nothing else changes |
| `GroupEffects.TransferEffect` | app/group/internal/service/group_service.go:744-800 | an owner, and nobody else, hands over to a member: both roles and, while live, owner_id change, and nothing else |
| `GroupEffects.JoinEffect` | app/group/internal/service/group_service.go:889-977 | who is a member at once, who waits with exactly one more request, and who is refused and why; nothing else changes |
| `GroupEffects.HandleEffect` | app/group/internal/service/group_service.go:980-1053 | a manager of the named group takes a pending request; a rejection only marks it, an accept marks it and admits its user, or fails without a change; each error iff its cause |
| `Friends.FriendService.CreateBatch` | app/friend/internal/repository/friendship_repository.go:34-36 | both rows are inserted if they differ and neither exists, and otherwise none |
| `Friends.FriendService.DeleteBidirectional` | app/friend/internal/repository/friendship_repository.go:92-99 | both rows of a pair are marked deleted and stay |
| `Friends.FriendService.SendFriendRequest` | app/friend/internal/service/friend_service.go:94-227 | the request step, including auto-accept and its rollback |
| `Friends.FriendService.HandleFriendRequest` | app/friend/internal/service/friend_service.go:230-313 | the handling step, including the rollback of an accept that hits the unique key |
| `Friends.FriendService.AddToBlacklist` | app/friend/internal/service/friend_service.go:411-464 | the block step, which ends a friendship |
| `FriendSafety.FriendshipsPaired` | migrations/000002_create_friend_tables.up.sql:10 | in every serial run two users' rows exist together with one status, and exist iff exactly one request between the two is accepted; otherwise none is |
| `FriendSafety.FriendsSymmetric` | app/friend/internal/repository/friendship_repository.go:102-109 | friendship is symmetric and never with oneself |
| `FriendSafety.SecondAccept` | app/friend/internal/service/friend_service.go:263-298 | accepting a pending request changes nothing, and leaves it pending, iff it is to oneself or a request between the two was accepted before |
| `FriendSafety.AcceptanceFinal` | app/friend/internal/service/friend_service.go:263-298 | once a pair has rows, no continuation accepts another request between the two |
| `FriendSafety.FriendshipBegins` | app/friend/internal/service/friend_service.go:94-194 | two users become friends only if they never were, by an auto-accepted request while neither blocks the other or by the recipient's accept of a pending request |
| `FriendSafety.NeverAgain` | app/friend/internal/repository/friendship_repository.go:84-89 | a friendship ends only by a removal or block between the two, and in every continuation they are never friends again and every accept or auto-accept fails |
| `FriendSafety.PeaceExact` | app/friend/internal/service/friend_service.go:253-293 | two users were friends with one blocking the other at some point of a serial run iff the run has an accept of their request while they were blocked and had no rows |
| `FriendSafety.BlockedFriends` | app/friend/internal/service/friend_service.go:263-293 | any two users can end up friends while one blocks the other |
| `FriendEffects.SendEffect` | app/friend/internal/service/friend_service.go:94-194 | when a request is filed, exactly, and when it makes the two friends at once; each error iff its cause; nothing else changes |
| `FriendEffects.HandleEffect` | app/friend/internal/service/friend_service.go:230-313 | only the recipient handles a pending request; a rejection only marks it, an accept marks it and makes the two friends, or fails without a change |
| `FriendEffects.RemoveEffect` | app/friend/internal/service/friend_service.go:359-385 | in every run a removal succeeds iff the two are friends, and then they are friends no more and nothing else changes |
| `FriendEffects.BlockEffect` | app/friend/internal/service/friend_service.go:411-464 | in every run a block succeeds iff there is none; it lists the pair, ends their friendship and changes nothing else |
| `FriendEffects.UnblockEffect` | app/friend/internal/service/friend_service.go:467-490 | an unblock succeeds iff there is a block, takes the pair off the list and changes nothing else |

## Left out

- Who may send (`authorizeSend`), content types, mentions, and every notification: permission lookups and publishing have no effect on the tables modelled.
- `GetMessages`, `SearchMessages`, typing indicators, pinned messages and group QR tokens: they would only add easy members. A QR join starts from the group its token names.
- SendSafety.SendIdempotent: reply-to, mentions and content type of a reply are left out; they are stored as given.
- The message table's service methods, read receipts, groups, friends and verification codes are taken one call at a time, as serial runs; only sends, the cleanup loop and the realtime handlers are interleaved.
- Storage failures of message, receipt, group and friend operations outside the send transaction and the cleanup loop: each would return an error and change nothing.
- The read of the just-created friend request after its transaction, and remarks on friends: they change no row modelled here.
- MemberListing.ListGroupMemberIDs: the member rows themselves do not change while they are listed.
- Integer widths: `member_count` and sequence numbers do not overflow.
- VerificationAgreement.StoresAgree: assumes max_attempts of at least 1. Serial runs read a clock that never goes back and is strictly later at each send. Normalised phone numbers contain no at sign and e-mail addresses do, and the keyed digest is taken as injective.
- Rate-limit counters of the verification manager: whether a send is limited is a parameter; the counters themselves are deleted on a breach and hold no window bound.
- VerificationSafety.AcceptedAtMostOnce: the fixed development code names no code id, so its acceptances are not counted.
- Changing group settings is one unconditional step, so the results hold whoever may change them.
- Unused repository operations (`Reset` and `Delete` of sequence rows, batch message creation, `DeleteExpired` of codes), RTC, files, profiles, push, gateway and configuration.
