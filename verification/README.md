# Telegram Desktop: models and proofs

This project models the parts of Telegram Desktop (the TDLib-based variant) that hold real
algorithms and state machines, and proves what they promise. `dafny verify dfyconfig.toml`
checks all of it.

Code that updates objects or arrays is modelled by classes and methods; each such method is
proved equal to a function of the old state, and the promises are lemmas about those
functions and about the runs built from them. A request is modelled as sent at once, with a
fresh id, and answered or failed at most once while it is in flight; a cancelled request is
no longer in flight. Every run theorem quantifies over every sequence of calls, answers and
failures.

| files | subject |
|---|---|
| `Fips180.dfy`, `Packer.dfy` | SHA-1 as FIPS 180-4 defines it, and the packer's one-pass digest that refines it |
| `ApiHash.dfy` | the 64-bit xorshift-add hash of lists |
| `InviteList.dfy` | changes of one peer's first slice of invite links |
| `InviteProtocol.dfy`, `InviteRuns.dfy`, `InviteSlices.dfy` | the invite-link cache as a state machine, and what its runs keep |
| `InviteAgreement.dfy` | when the first-element test for the permanent link agrees with a search |
| `InviteLinks.dfy` | the InviteLinks object, proved against that machine |
| `StickerTable.dfy` | what saving sticker sets does to table, order and recent stickers, set by set |
| `StickerProtocol.dfy`, `StickerRuns.dfy` | the requests of saves, and what their runs keep |
| `StickerSave.dfy` | the saving code, proved against both |
| `Album.dfy` | sending an album when its last upload is ready |
| `SearchMerged.dfy` | a search over a history and the chat it was migrated from |
| `SendProgress.dfy` | the throttle of activity updates and its live requests |
| `TextEntities.dfy` | conversion of text entities to and from TDLib's form |
| `Forward.dfy` | the requests that forward a draft, as intended and as sent |

## What turned out

* Forwarding a draft from several chats repeats messages. The lambda that sends a request
  returns before the statement that empties the list of ids, so each request carries all ids
  so far under the chat of the latest run: [a from chat 1, b from chat 2] goes out as
  (1, [a]) and (2, [a, b]) (`TwoChats`). Exactly what is sent is proved for all drafts
  (`ForwardMessages`, `EachRequestIsAPrefix`), and the draft is forwarded as intended, or only
  from the right chats, exactly when all its messages are from one chat
  (`ForwardedExactlyFromOneChat`).
* The digest is SHA-1 for messages below 2^29 bytes. The length word is `len << 3` on 32 bits,
  so the padding is that of FIPS 180-4 exactly for those messages (`PaddingAgrees`, both
  directions); that two different paddings give different digests is not claimed. From
  2^32 - 64 bytes on, the end of the last block wraps to 0 and the block loop never ends
  (`BlockLoopEnds`, both directions).
* No active link is ever behind the front of a slice in exactly the runs whose events are
  `Safe`, a condition on each event (`CleanExactlyInSafeRuns`). An honest server (at most one
  active link in a page, updates that never make a link permanent, final revocation) sends
  only such events, so the first-element test for "my permanent link" is a search of the list
  (`LookupAlwaysFindsPermanent`).
* The test alone agrees with a search in more runs: it fails exactly when the front is not
  active and a later link is, and it agrees throughout in exactly the runs whose events are
  `Shows`, another condition on each event (`AgreesExactlyInShowingRuns`). A page with two
  active links is the smallest difference (`AgreesThoughNotClean`).
* The count of links falls below the list's length at some place of exactly the runs that
  contain one of two events (`CoversExactlyInCountedRuns`): a first page that announces fewer links than it has,
  or setMyPermanent of a new link on a slice with no slack, since it inserts a link without
  counting it (`FirstPageIsNotCounted` and `SetPermanentIsNotCounted` are the smallest
  examples).
* A failed deletion of all revoked links has no handler, so its key stays and every later call
  for the peer waits for ever. A key is without a request in exactly the runs with such a
  failure (`StuckExactlyAfterFailure`, `StuckStaysStuck`; `FailedDeletionIsStuck` is the smallest example).
* A callback handed in with a request is lost at once exactly when the request is an edit or a
  revocation of a link that is being deleted (`RequestLoses`, with the smallest example
  `DroppedEditIsLost`), and a failure loses exactly the queue of its request
  (`FailureLoses`). Nothing else loses a callback: in every run each one that was handed in is
  waiting, called or discarded by one of these two events, and only one of the three
  (`EveryCallbackHasOneFate`). A lost one is never called (`LostStaysLost`).
* A callback is called by the answer of the request that was in flight for its key when it was
  handed in (`AnsweredByPending`). So a revocation that meets an edit of the same link in
  flight is never sent, and its callback gets the edited link (`RevocationAnsweredByEdit`,
  both directions); a deletion of all revoked links of one admin is reported as done by that
  of another (`DeletionAnsweredForOtherAdmin`, both directions).
* The timer that stops typing is armed by typing in any topic and cancels only outside topics:
  it cancels the request that armed it exactly when that was not in a topic
  (`TimerCancelsOutsideTopics`; `TopicTypingOutlivesTimer` is the smallest example).
* A failed activity request has no handler. In every run an entry is without a request in
  flight exactly when that request has failed (`StaleExactlyAfterFailure`), and it stays
  exactly until an event cancels its key (`StaleUntilCancelled`; `FailedTypingIsStale` is the
  smallest example). The throttle itself does not
  depend on the clock being monotone.
* An album two of whose items share a task is never sent (`SentOnceInItemOrder`).
* In the loop over removed sticker sets the branch for archived sets that sets `writeArchived`
  stands under a test that the set is not archived, so it is not in the model.

## Model

| member | source | states |
|---|---|---|
| Packer.ShiftSwap | Telegram/SourceFiles/_other/packer.cpp:63-71 | the assignments of the macro in their order perform one round of section 6.1.2 of FIPS 180-4 on the five variables, whenever f and k have the values of that round |
| Packer.SameChoice | Telegram/SourceFiles/_other/packer.cpp:78-79 | the OR form used in rounds 0 to 19 is Ch, and the constant is that of the standard |
| Packer.SameMajority | Telegram/SourceFiles/_other/packer.cpp:81 | the OR form used in rounds 40 to 59 is Maj, and the constant is that of the standard |
| Packer.SameParity | Telegram/SourceFiles/_other/packer.cpp:80-82 | rounds 20 to 39 and 60 to 79 use Parity with the constants of the standard |
| Packer.ShiftShiftSwap | Telegram/SourceFiles/_other/packer.cpp:73-76 | a later round extends temp by exactly the next word of the message schedule and performs that round with it |
| Packer.Sha1PartHash | Telegram/SourceFiles/_other/packer.cpp:60-92 | for every chaining value and block, the schedule-inside-the-rounds loop leaves the result of the two-phase compression of section 6.1.2, a function of the first 16 words alone |
| Fips180.ScheduleRecurrence | Telegram/SourceFiles/_other/packer.cpp:74 | the recurrence that the in-place statement uses holds at every place of the finished schedule |
| Fips180.ConstantsAreRoots | Telegram/SourceFiles/_other/packer.cpp:78-82 | the four round constants are the square roots of 2, 3, 5 and 10, scaled and rounded down |
| Fips180.InitialValueCounts | Telegram/SourceFiles/_other/packer.cpp:100 | the bytes of the initial value |
| Fips180.FunctionTables | Telegram/SourceFiles/_other/packer.cpp:78-82 | the three logical functions on all combinations of bits |
| Fips180.ExampleRound | Telegram/SourceFiles/_other/packer.cpp:63-71 | the first round of the published example "abc" |
| Fips180.ExampleWords | Telegram/SourceFiles/_other/packer.cpp:74 | its first word and its first expanded word |
| Fips180.PadExactly | Telegram/SourceFiles/_other/packer.cpp:111-123 | every byte of the padded message: message, marker, zeros, length, in as few blocks as hold them |
| Packer.LoadBlock | Telegram/SourceFiles/_other/packer.cpp:102-107 | the inner loop parses 64 bytes into 16 big-endian words (section 5.2.1) and leaves block at the end |
| Packer.HashBlocks | Telegram/SourceFiles/_other/packer.cpp:101-109 | the loop stops with less than one block left, having folded the compression over all whole blocks, with no index out of range |
| Packer.PutByte | Telegram/SourceFiles/_other/packer.cpp:114-117 | ORing a shifted byte into its zero place is the same as writing that byte in the block |
| Packer.FillTail | Telegram/SourceFiles/_other/packer.cpp:111-117 | the tail loop and the marker leave the words of tail, 0x80 and zeros |
| Packer.TailBlocks | Telegram/SourceFiles/_other/packer.cpp:111-123 | marker, zeros and length fit the first tail block exactly when fewer than 56 bytes are left, otherwise they take a second one, and together they are the padded message |
| Packer.HashTail | Telegram/SourceFiles/_other/packer.cpp:111-123 | the one or two last blocks complete the fold over the padded message |
| Packer.WriteDigest | Telegram/SourceFiles/_other/packer.cpp:127-129 | the 20 bytes written are the five words most significant byte first, and nothing else is written |
| Packer.LowBytes | Telegram/SourceFiles/_other/packer.cpp:122 | the wrapping `len << 3` has the low four bytes of the true bit length |
| Packer.PaddingAgrees | Telegram/SourceFiles/_other/packer.cpp:111-123 | the code pads as section 5.1.1 does if and only if the message is shorter than 2^29 bytes |
| Packer.BlockLoopEnds | Telegram/SourceFiles/_other/packer.cpp:101-109 | the block loop ends if and only if the length is below 2^32 - 64 |
| Packer.HashSha1 | Telegram/SourceFiles/_other/packer.cpp:96-132 | for every length for which the loop ends the output is the digest of the code's padding, and for every message below 2^29 bytes it is SHA-1 |
| ApiHash.HashUpdate | Telegram/SourceFiles/api/api_hash.h:40-45 | nothing is lost in an update: the new state and the value determine the old state, and the two states determine the value, by explicit inverses |
| ApiHash.CountHash | Telegram/SourceFiles/api/api_hash.h:63-70 | the loop over the range computes the fold Hash |
| ApiHash.UpdateIsBijection | Telegram/SourceFiles/api/api_hash.h:40-45 | for a fixed value an update is a bijection of the 64-bit state, with an explicit two-sided inverse |
| ApiHash.UpdateDeterminesValue | Telegram/SourceFiles/api/api_hash.h:40-45 | for a fixed state every result is reached by exactly one value |
| ApiHash.StepValues | Telegram/SourceFiles/api/api_hash.h:40-45 | the shifts are by 21, 35 and 4, by a value of each statement and of a whole update |
| ApiHash.HashValues | Telegram/SourceFiles/api/api_hash.h:36-70 | the hash of nothing is 0, and the hash of [1, 2] by its value |
| ApiHash.WideningInjective | Telegram/SourceFiles/api/api_hash.h:47-57 | the zero- and sign-extending overloads are injective |
| ApiHash.UnsignedHalves | Telegram/SourceFiles/api/api_hash.h:51-53 | an unsigned 32-bit value keeps its bits below a zero upper half |
| ApiHash.SignedHalves | Telegram/SourceFiles/api/api_hash.h:55-57 | a signed one keeps its bits below an upper half that repeats its sign |
| ApiHash.HashFromIsBijection | Telegram/SourceFiles/api/api_hash.h:63-70 | hashing a whole range is a bijection of the start state |
| ApiHash.SuffixKeepsDifference | Telegram/SourceFiles/api/api_hash.h:63-70 | appending the same suffix keeps equal hashes equal and unequal hashes unequal |
| ApiHash.OneValueForEachHash | Telegram/SourceFiles/api/api_hash.h:63-70 | at any place of a range of uint64 exactly one value gives a wanted hash |
| ApiHash.OnePlaceDistinguishes | Telegram/SourceFiles/api/api_hash.h:63-70 | ranges of one length that differ in exactly one place, in values of one of the four integer types, hash differently |
| InviteList.LookupIsSearch | Telegram/SourceFiles/api/api_invite_links.cpp:185-202 | when no active link is behind the front, the first-element test is a search of the whole list and what it finds is the only active link |
| InviteList.PrependKeepsClean | Telegram/SourceFiles/api/api_invite_links.cpp:226-252 | prepending puts an active link behind the front if and only if one was there |
| InviteList.EditKeepsClean | Telegram/SourceFiles/api/api_invite_links.cpp:344-364 | an edit answer does so if and only if it makes a link active that is not in front |
| InviteList.UpdateKeepsClean | Telegram/SourceFiles/api/api_invite_links.cpp:644-653 | the same for an external update, over all links with the updated name |
| InviteList.SetKeepsClean | Telegram/SourceFiles/api/api_invite_links.cpp:754-813 | setting the permanent link keeps active links in front |
| InviteList.ClearKeepsClean | Telegram/SourceFiles/api/api_invite_links.cpp:815-844 | clearing it does too, and leaves no active link |
| InviteList.MergeKeepsClean | Telegram/SourceFiles/api/api_invite_links.cpp:538-563 | a first page does if and only if a permanent link is known or the page has at most one active link |
| InviteList.BroughtToFrontMovesOne | Telegram/SourceFiles/api/api_invite_links.cpp:32-40 | the first active link comes first, and every other link, active or not, keeps its place among the others |
| InviteList.BroughtToFrontIsStable | Telegram/SourceFiles/api/api_invite_links.cpp:32-40 | bringing the permanent link to the front is a permutation that keeps the list of links that are not active |
| InviteList.BroughtToFrontIsUnique | Telegram/SourceFiles/api/api_invite_links.cpp:32-40 | for a page with at most one active link it is the only such list |
| InviteList.MergedWithKnown | Telegram/SourceFiles/api/api_invite_links.cpp:538-563 | with a known permanent link the list becomes that link and the page's other inactive links in page order, and the count is the larger of the total and the list's length |
| InviteList.LookupByFields | Telegram/SourceFiles/api/api_invite_links.cpp:193-202 | the first-element test over the fields permanent and revoked |
| InviteList.PrependStores | Telegram/SourceFiles/api/api_invite_links.cpp:226-252 | where a prepended link goes, what stays where, and the exact count |
| InviteList.EditStores | Telegram/SourceFiles/api/api_invite_links.cpp:351-363 | the answer of an edit is stored as it is at the first link of that name, or exactly that link goes if the answer newly revokes it; the exact count |
| InviteList.EditOfUnknown | Telegram/SourceFiles/api/api_invite_links.cpp:351-363 | an answer for a name that is not in the list changes nothing |
| InviteList.SetStores | Telegram/SourceFiles/api/api_invite_links.cpp:754-800 | what setting the permanent link stores in each of its four cases, with the usage and the exact count |
| InviteList.ClearStores | Telegram/SourceFiles/api/api_invite_links.cpp:815-838 | what clearing it leaves, with the exact count |
| InviteList.MergeStores | Telegram/SourceFiles/api/api_invite_links.cpp:538-563 | what a first page stores, with the exact count in both branches |
| InviteList.InactiveExactly | Telegram/SourceFiles/api/api_invite_links.cpp:42-47 | how often each link is left when the active ones are removed |
| InviteList.UnnamedExactly | Telegram/SourceFiles/api/api_invite_links.cpp:866-871 | how often each link of a page is left without the known permanent link |
| InviteList.UnnamedConcat | Telegram/SourceFiles/api/api_invite_links.cpp:866-871 | that filter keeps the order, for any division of the page |
| InviteList.PrependKeepsSlack | Telegram/SourceFiles/api/api_invite_links.cpp:226-252 | despite the guarded decrement, prepending never reduces count minus length |
| InviteList.EditKeepsSlack | Telegram/SourceFiles/api/api_invite_links.cpp:344-364 | nor does an edit answer that erases a link |
| InviteList.ClearKeepsSlack | Telegram/SourceFiles/api/api_invite_links.cpp:815-838 | nor does clearing the permanent link |
| InviteList.SetDropsSlack | Telegram/SourceFiles/api/api_invite_links.cpp:770-800 | setting a permanent link keeps the count covering the list if and only if it inserts nothing or there was slack |
| InviteRuns.StepCoalesces | Telegram/SourceFiles/api/api_invite_links.cpp:128-516 | every step keeps one key per request in flight and one request per key, except that a failed deletion of all revoked links leaves a key alone, and nothing else does |
| InviteRuns.SlotsShared | Telegram/SourceFiles/api/api_invite_links.cpp:128-516 | which requests queue behind one another: the same peer or the same link, edits with revocations, deletions of all revoked links whatever the admin |
| InviteRuns.KeyExactlyWhileInFlight | Telegram/SourceFiles/api/api_invite_links.cpp:128-183 | in every run a key is present exactly while a request for it is in flight, and that request is the only one |
| InviteRuns.CalledAtMostOnce | Telegram/SourceFiles/api/api_invite_links.cpp:128-183 | in every run no callback is called twice |
| InviteRuns.AnswerCallsQueue | Telegram/SourceFiles/api/api_invite_links.cpp:166-182 | a success calls the whole queue of its key in queue order with the same link, a failure calls nothing, and both remove the key |
| InviteRuns.RequestLoses | Telegram/SourceFiles/api/api_invite_links.cpp:303-314 | a callback handed in with a request is lost at once exactly when the request is an edit or a revocation of a link that is being deleted, and no other callback becomes lost |
| InviteRuns.FailureLoses | Telegram/SourceFiles/api/api_invite_links.cpp:180-182 | a failure loses exactly the callbacks queued for its request, and none if it has no handler |
| InviteRuns.AnswerLosesNothing | Telegram/SourceFiles/api/api_invite_links.cpp:172-182 | a success loses no callback |
| InviteRuns.LostExactlyWhenDiscarded | Telegram/SourceFiles/api/api_invite_links.cpp:128-516 | in every run a callback is lost exactly when one of these two events discarded it |
| InviteRuns.DroppedEditIsLost | Telegram/SourceFiles/api/api_invite_links.cpp:303-304 | the smallest example: delete a link, then edit it with a callback |
| InviteRuns.EveryCallbackHasOneFate | Telegram/SourceFiles/api/api_invite_links.cpp:128-516 | in every run each callback that was handed in is waiting in one place, called once or discarded, and only one of the three |
| InviteRuns.LostStaysLost | Telegram/SourceFiles/api/api_invite_links.cpp:128-516 | from any state on, a callback that neither waits nor was called is never called |
| InviteRuns.AnsweredByPending | Telegram/SourceFiles/api/api_invite_links.cpp:128-516 | in every run a callback is called by the answer of the request that was in flight for its key when it was handed in, and of its own request only if there was none |
| InviteRuns.RevocationAnsweredByEdit | Telegram/SourceFiles/api/api_invite_links.cpp:303-316 | a callback of a revocation is called with an edited link, and no revocation is sent for it, exactly when an edit of the link was in flight |
| InviteRuns.EditAnswersRevocation | Telegram/SourceFiles/api/api_invite_links.cpp:303-416 | the smallest example: edit, then revoke with a callback, then the answer of the edit |
| InviteRuns.DeletionAnsweredForOtherAdmin | Telegram/SourceFiles/api/api_invite_links.cpp:485-515 | a callback of a deletion of one admin's revoked links is called by that of another admin's, and its own is not sent, exactly when the other was in flight |
| InviteRuns.DeletionAnswersOtherAdmin | Telegram/SourceFiles/api/api_invite_links.cpp:485-515 | the smallest example |
| InviteRuns.StuckStaysStuck | Telegram/SourceFiles/api/api_invite_links.cpp:485-516 | once a key has lost its request, all later deletions for the peer only queue up |
| InviteRuns.StuckExactlyAfterFailure | Telegram/SourceFiles/api/api_invite_links.cpp:506-515 | a key is without a request in exactly the runs in which such a deletion has failed |
| InviteRuns.FailedDeletionIsStuck | Telegram/SourceFiles/api/api_invite_links.cpp:485-516 | the smallest example: one such deletion and its failure |
| InviteSlices.AnswerSlices | Telegram/SourceFiles/api/api_invite_links.cpp:172-563 | which change of which slice each answer makes, including the new link after a revocation |
| InviteSlices.OtherSlicesUntouched | Telegram/SourceFiles/api/api_invite_links.cpp:128-844 | no call and no answer changes the slice of another peer |
| InviteSlices.OtherEventsStore | Telegram/SourceFiles/api/api_invite_links.cpp:620-844 | what an update, setting, clearing and pruning do to the slice of their peer |
| InviteSlices.StepKeepsClean | Telegram/SourceFiles/api/api_invite_links.cpp:226-844 | a step of the whole cache keeps active links in front exactly when its event is safe |
| InviteSlices.CleanExactlyInSafeRuns | Telegram/SourceFiles/api/api_invite_links.cpp:185-202 | in exactly the runs of safe events no active link is ever behind the front |
| InviteSlices.LookupAlwaysFindsPermanent | Telegram/SourceFiles/api/api_invite_links.cpp:185-202 | with an honest server, in every run and for every peer, the first-element test finds what a search of the whole list would, and it is the only active link |
| InviteAgreement.AgreesExactly | Telegram/SourceFiles/api/api_invite_links.cpp:193-202 | the first-element test and a search of the list disagree exactly when the front is not active and a later link is |
| InviteAgreement.PrependAgrees | Telegram/SourceFiles/api/api_invite_links.cpp:226-252 | the exact condition on slice and link under which they agree after a prepended link |
| InviteAgreement.EditAgrees | Telegram/SourceFiles/api/api_invite_links.cpp:344-364 | the same after an edit answer, for each of its branches |
| InviteAgreement.UpdateAgrees | Telegram/SourceFiles/api/api_invite_links.cpp:644-653 | the same after an external update |
| InviteAgreement.SetAgrees | Telegram/SourceFiles/api/api_invite_links.cpp:754-813 | the same after setting the permanent link |
| InviteAgreement.ClearAgrees | Telegram/SourceFiles/api/api_invite_links.cpp:815-844 | the same after clearing it |
| InviteAgreement.MergeAgrees | Telegram/SourceFiles/api/api_invite_links.cpp:538-563 | after a first page they always agree, whatever the page |
| InviteAgreement.StepKeepsAgreement | Telegram/SourceFiles/api/api_invite_links.cpp:226-844 | a step of the whole cache keeps the agreement for all peers exactly when its event hides no active link |
| InviteAgreement.AgreesExactlyInShowingRuns | Telegram/SourceFiles/api/api_invite_links.cpp:185-202 | they agree throughout in exactly the runs of such events |
| InviteAgreement.AgreesThoughNotClean | Telegram/SourceFiles/api/api_invite_links.cpp:32-40 | a first page with two active links: they agree, although an active link is behind the front |
| InviteSlices.StepKeepsCover | Telegram/SourceFiles/api/api_invite_links.cpp:226-844 | a step keeps every count at least the length of its list exactly when its event is counted |
| InviteSlices.CoversExactlyInCountedRuns | Telegram/SourceFiles/api/api_invite_links.cpp:226-844 | the counts cover the lists throughout in exactly the counted runs |
| InviteSlices.SetPermanentIsNotCounted | Telegram/SourceFiles/api/api_invite_links.cpp:770-803 | after the first setMyPermanent for a peer the list has one link and the count is 0 |
| InviteSlices.FirstPageIsNotCounted | Telegram/SourceFiles/api/api_invite_links.cpp:538-563 | a first page that announces no links and has one leaves a count of 0 |
| InviteLinksObject.FindLink | Telegram/SourceFiles/api/api_invite_links.cpp:351-354 | the search loop finds the first link of that name |
| InviteLinksObject.BringPermanentToFront | Telegram/SourceFiles/api/api_invite_links.cpp:32-40 | the find-and-rotate code is BroughtToFront, including when nothing moves |
| InviteLinksObject.RemovePermanent | Telegram/SourceFiles/api/api_invite_links.cpp:42-47 | exactly the active links are removed, the others keep their order |
| InviteLinksObject.InviteLinks.ParseSlice | Telegram/SourceFiles/api/api_invite_links.cpp:858-888 | a page loses exactly the links named like the known permanent link |
| InviteLinksObject.InviteLinks.PrependMyToFirstSlice | Telegram/SourceFiles/api/api_invite_links.cpp:226-259 | erase, count and insert together are the step LinkPrepended, and nothing else changes |
| InviteLinksObject.InviteLinks.PerformCreate | Telegram/SourceFiles/api/api_invite_links.cpp:128-183 | queue behind a pending creation or send one request, as the machine's step |
| InviteLinksObject.InviteLinks.PerformEdit | Telegram/SourceFiles/api/api_invite_links.cpp:292-416 | the same for edits and revocations; dropped while the link is being deleted |
| InviteLinksObject.InviteLinks.Destroy | Telegram/SourceFiles/api/api_invite_links.cpp:441-483 | the same for deletions of one link |
| InviteLinksObject.InviteLinks.DestroyAllRevoked | Telegram/SourceFiles/api/api_invite_links.cpp:485-516 | the same for deletions of all revoked links of an admin, queued by peer alone |
| InviteLinksObject.InviteLinks.RequestMyLinks | Telegram/SourceFiles/api/api_invite_links.cpp:518-569 | at most one first-page request per peer |
| InviteLinksObject.InviteLinks.MyLinksDone | Telegram/SourceFiles/api/api_invite_links.cpp:538-564 | the arrival of a first page is the machine's merge step |
| InviteLinksObject.InviteLinks.OnDone | Telegram/SourceFiles/api/api_invite_links.cpp:172-563 | every answer handler, including the new link after a revocation, is the machine's answer step |
| InviteLinksObject.InviteLinks.OnFail | Telegram/SourceFiles/api/api_invite_links.cpp:180-568 | every failure handler, and the missing one, is the machine's failure step |
| InviteLinksObject.InviteLinks.ApplyExternalUpdate | Telegram/SourceFiles/api/api_invite_links.cpp:644-660 | exactly the links of the updated name are replaced |
| InviteLinksObject.InviteLinks.SetMyPermanent | Telegram/SourceFiles/api/api_invite_links.cpp:754-813 | rejection, usage update, replacement and insertion are the machine's step |
| InviteLinksObject.InviteLinks.ClearMyPermanent | Telegram/SourceFiles/api/api_invite_links.cpp:815-844 | the permanent link in front is erased with its count, if there is one |
| InviteLinksObject.InviteLinks.PruneFirstSlice | Telegram/SourceFiles/api/api_invite_links.cpp:620 | the one statement that drops the peer's first slice |
| StickerTable.OrderSurvivesPruning | Telegram/SourceFiles/apiwrap.cpp:2023-2082 | the stored order, built before the last loop, is the local order restricted to ids in the final table: pruning loses none |
| StickerTable.PresentElements | Telegram/SourceFiles/apiwrap.cpp:2023-2068 | an id is in the stored order exactly when it is in the local order and in the table |
| StickerTable.PresentConcat | Telegram/SourceFiles/apiwrap.cpp:2023-2068 | the stored order keeps order and repetitions, for any division of the local order |
| StickerTable.SavedExactly | Telegram/SourceFiles/apiwrap.cpp:1903-2082 | for every set, by its raw flags, its id and the two lists: whether it is there after a save, and its installed and archived flags and its date; no other field changes |
| StickerTable.OtherKindsStayInstalled | Telegram/SourceFiles/apiwrap.cpp:2010-2021 | an installed set in neither list is still there and installed exactly when it is not of the saved kind, by its emoji and masks flags |
| StickerTable.InstalledExactlyWhenOrdered | Telegram/SourceFiles/apiwrap.cpp:2010-2068 | after a save a non-archived set of the saved kind, by its emoji and masks flags, is installed exactly when it is in the order, and every set of the order is |
| StickerTable.ArchivedInOrder | Telegram/SourceFiles/apiwrap.cpp:2023-2062 | a set of the order stays archived exactly when it was and is also being removed |
| StickerTable.WhoSurvives | Telegram/SourceFiles/apiwrap.cpp:1903-2082 | which sets of the old table are still there, in terms of the old flags and the two lists |
| StickerTable.OthersUntouched | Telegram/SourceFiles/apiwrap.cpp:1903-2082 | sets in neither list and of another type (or archived), other than those a cloud set takes away, are not changed, and kept exactly when something needs them |
| StickerTable.SetsRemovedOneByOne | Telegram/SourceFiles/apiwrap.cpp:1903-2008 | the set-by-set description of the removals agrees with one more turn of the loop, for repeated and cloud ids too |
| StickerTable.SetsInstalledOneByOne | Telegram/SourceFiles/apiwrap.cpp:2024-2068 | the same for the loop over the order |
| StickerRuns.ReorderComesLast | Telegram/SourceFiles/apiwrap.cpp:1812-1880 | in every run a save sends its reorder at most once, with its own order of at least two ids, after all its changes have completed, and never after a newer save of the type has started |
| StickerRuns.ReorderSentExactlyWhenDone | Telegram/SourceFiles/apiwrap.cpp:1870-1880 | in every run the reorder of the latest save of a type has been sent exactly when none of its changes is pending and its order has at least two ids |
| StickerRuns.OlderSavesCancelled | Telegram/SourceFiles/apiwrap.cpp:1812-1818 | in every run whatever is in flight for a type belongs to its latest save |
| StickerRuns.RunKeeps | Telegram/SourceFiles/apiwrap.cpp:1788-2123 | the invariant behind these, over pending ids, requests in flight and the log, for all three types together |
| StickerProtocol.BegunExactly | Telegram/SourceFiles/apiwrap.cpp:1812-1818 | which requests a new save takes back and what it forgets; other types are not touched |
| StickerProtocol.OneOrderExactly | Telegram/SourceFiles/apiwrap.cpp:1926-1991 | what one more request of a save changes: log, requests in flight, pending and remembered ids |
| StickerProtocol.OrdersSent | Telegram/SourceFiles/apiwrap.cpp:1903-2062 | the requests of a save are sent in order, each for its set and direction, with consecutive ids |
| StickerProtocol.CompletedExactly | Telegram/SourceFiles/apiwrap.cpp:1853-1880 | what the completion of each sort of request forgets, and when the reorder is sent |
| StickerSave.UninstallsRequested | Telegram/SourceFiles/apiwrap.cpp:1903-1991 | uninstalling is requested for exactly the removed sets that are known and not archived: once if that deletes the set, otherwise as often as it is removed, and never after a cloud set took it away |
| StickerSave.ClearsRequested | Telegram/SourceFiles/apiwrap.cpp:1903-1932 | clearing recent stickers is requested once for each mention of a cloud set, attached for the one of attached stickers |
| StickerSave.InstallsRequested | Telegram/SourceFiles/apiwrap.cpp:2024-2062 | installing is requested exactly once for each archived set of the order that is not being removed, and nothing else is requested there |
| StickerSave.SomeInstallRequested | Telegram/SourceFiles/apiwrap.cpp:2024-2062 | some installing is requested exactly when there is such a set |
| StickerSave.RecentErasedSetBySet | Telegram/SourceFiles/apiwrap.cpp:1903-1962 | erasing the recent stickers of one removed set after another erases the documents of all of them, or everything when a cloud set is removed |
| StickerSave.RecentAfterSave | Telegram/SourceFiles/apiwrap.cpp:1903-1962 | how often each recent sticker is left after a save: not at all if a removed set has it or a cloud set is removed, otherwise as before |
| StickerSave.WithoutConcat | Telegram/SourceFiles/apiwrap.cpp:1955-1962 | erasing keeps the order, for any division of the recent stickers |
| StickerSave.EraseRecent | Telegram/SourceFiles/apiwrap.cpp:1955-1962 | exactly the documents of the set are erased, the rest keeps its order, and the flag says whether any was |
| StickerSave.ClearInstalled | Telegram/SourceFiles/apiwrap.cpp:2010-2021 | the loop clears the flag of exactly the non-archived sets of the saved type |
| StickerSave.Prune | Telegram/SourceFiles/apiwrap.cpp:2070-2082 | the loop removes exactly the sets that nothing needs |
| StickerSave.OrderedTogether | Telegram/SourceFiles/apiwrap.cpp:1903-2068 | requests of the two loops sent one after the other are the requests of their concatenation |
| StickerSave.ApiWrap.CancelPending | Telegram/SourceFiles/apiwrap.cpp:1812-1818 | a new save cancels the pending requests of its type and the clearing of recent stickers |
| StickerSave.ApiWrap.RemoveSets | Telegram/SourceFiles/apiwrap.cpp:1903-2008 | table, recent stickers, requests, other orders and write flags after the loop over the removed sets |
| StickerSave.ApiWrap.InstallSets | Telegram/SourceFiles/apiwrap.cpp:2023-2068 | table, order, requests and write flag after the loop over the order |
| StickerSave.ApiWrap.SaveStickerSets | Telegram/SourceFiles/apiwrap.cpp:1788-2123 | a whole save leaves the described table, the order restricted to the final table, the recent stickers without the removed ones, the machine's save step with exactly the described requests, and says exactly what must be written |
| StickerSave.ApiWrap.OnCompleted | Telegram/SourceFiles/apiwrap.cpp:1853-1880 | the completion of any request is the machine's step, with the reorder after the last change, and only a failed reorder asks for the sets to be loaded again |
| Album.Session.SendPreparedAlbumIfReady | Telegram/SourceFiles/api/api_sending.cpp:393-437 | exactly one send of all contents in item order when every item has content (a message for a single item), otherwise none |
| Album.Session.Ready | Telegram/SourceFiles/api/api_sending.cpp:847-879 | a ready upload edits media, goes out alone, or stores its content in its item and lets the album go out |
| Album.ItemsOfRun | Telegram/SourceFiles/api/api_sending.cpp:868-876 | after any completions an item holds the last content of its task if it is the first item of that task |
| Album.NothingSentYet | Telegram/SourceFiles/api/api_sending.cpp:393-412 | nothing is sent while a task is missing or when two items share a task |
| Album.SentOnceInItemOrder | Telegram/SourceFiles/api/api_sending.cpp:393-438 | for every order in which the uploads become ready once each, exactly one send happens, on the last one and in item order, if the tasks are distinct, and none otherwise |
| SearchMerged.RunKeepsInvariant | Telegram/SourceFiles/api/api_messages_search_merged.cpp:25-105 | in every run the whole state is determined by the pages received, and the two sides take turns |
| SearchMerged.ShownMessages | Telegram/SourceFiles/api/api_messages_search_merged.cpp:37-80 | in every run the list is the history pages in order followed, once the history is complete, by the migrated pages in order, each once |
| SearchMerged.TotalAddedOnce | Telegram/SourceFiles/api/api_messages_search_merged.cpp:25-35 | the migrated total is added once, precisely when both first pages are there, and the one event for new results fires only then |
| SearchMerged.InterleavingIrrelevant | Telegram/SourceFiles/api/api_messages_search_merged.cpp:45-74 | two runs that received the same pages on each side show and announce the same, however answers, failures and calls interleaved |
| SearchMerged.SidesContinue | Telegram/SourceFiles/api/api_messages_search.cpp:174-240 | in every run each side goes on where the last page it answered with ended, and is full exactly when that was the last of all; failures and refusals do not move it |
| SearchMerged.AsksForMore | Telegram/SourceFiles/api/api_messages_search_merged.cpp:99-105 | in every run, which side is asked for more, and that it sends a request exactly when it has none in flight and is not full |
| SearchMerged.SearchAsksBoth | Telegram/SourceFiles/api/api_messages_search_merged.cpp:91-97 | a search asks both sides from the start |
| SearchMerged.AnswerEndsRequest | Telegram/SourceFiles/api/api_messages_search.cpp:119-128 | an answer, a failure or a refusal ends the request it belongs to and no other |
| SearchMerged.RefusedFromTheStart | Telegram/SourceFiles/api/api_messages_search.cpp:121-127 | a refused query announces an empty history that is complete |
| SearchMerged.MessagesSearchMerged.AddFound | Telegram/SourceFiles/api/api_messages_search_merged.cpp:76-80 | the loop appends all messages in order |
| SearchMerged.MessagesSearchMerged.OnHistoryFound | Telegram/SourceFiles/api/api_messages_search_merged.cpp:45-58 | the handler of history pages is the machine's step |
| SearchMerged.MessagesSearchMerged.OnMigratedFound | Telegram/SourceFiles/api/api_messages_search_merged.cpp:60-73 | the handler of migrated pages is the machine's step |
| SearchMerged.MessagesSearchMerged.Search | Telegram/SourceFiles/api/api_messages_search_merged.cpp:91-97 | starting a search is the first state of every run |
| SearchMerged.MessagesSearchMerged.More | Telegram/SourceFiles/api/api_messages_search_merged.cpp:99-105 | asking for more is the machine's step |
| SearchMerged.MessagesSearchMerged.Deliver | Telegram/SourceFiles/api/api_messages_search.cpp:94-240 | an answer, a failure and a refused query of either side reach their handlers |
| SendProgress.DecisionsFollowRule | Telegram/SourceFiles/api/api_send_progress.cpp:93-117 | in every run an update is approved exactly when its key has none in force or the last is an interval old, a stop exactly when the last approved update is less than two intervals old |
| SendProgress.UpdateExactly | Telegram/SourceFiles/api/api_send_progress.cpp:70-209 | in every run, in numbers and over the peer's fields: when an update is ignored, approved and sent, and what is then remembered and armed |
| SendProgress.CancelExactly | Telegram/SourceFiles/api/api_send_progress.cpp:44-61 | a cancel takes back the request of exactly its key; a typing cancel that of typing outside topics, and stops the timer |
| SendProgress.ApprovedUpdatesSpaced | Telegram/SourceFiles/api/api_send_progress.cpp:93-117 | in every run two approved updates of a key with no approved stop between them are at least the send interval apart |
| SendProgress.OtherKeysUntouched | Telegram/SourceFiles/api/api_send_progress.cpp:70-117 | an update changes neither the throttle nor the live request of any other key |
| SendProgress.MapHoldsMostRecentSends | Telegram/SourceFiles/api/api_send_progress.cpp:119-189 | in every run the map holds for a key only the id of its most recent send, and no id twice |
| SendProgress.DoneRemovesItsEntry | Telegram/SourceFiles/api/api_send_progress.cpp:211-218 | in every run done(id) removes exactly the entry that holds the id, and nothing when it was cancelled or replaced |
| SendProgress.StaleExactlyAfterFailure | Telegram/SourceFiles/api/api_send_progress.cpp:176-183 | in every run the entry of a key has no request in flight exactly when its request has failed |
| SendProgress.StaleUntilCancelled | Telegram/SourceFiles/api/api_send_progress.cpp:44-91 | in every run such an entry stays as it is exactly until an event cancels its key |
| SendProgress.FailedTypingIsStale | Telegram/SourceFiles/api/api_send_progress.cpp:176-183 | the smallest example: one typing request and its failure |
| SendProgress.TimerCancelsOutsideTopics | Telegram/SourceFiles/api/api_send_progress.cpp:33-61 | in every run the timer removes exactly the entry of typing outside topics in the history of the last typing request and is then idle; that is the request that armed it exactly when that was outside topics |
| SendProgress.TopicTypingOutlivesTimer | Telegram/SourceFiles/api/api_send_progress.cpp:58-61 | the smallest example: typing in a topic is still in flight and remembered after the timer |
| SendProgress.SendProgressManager.Approve | Telegram/SourceFiles/api/api_send_progress.cpp:93-117 | the branches on the stored time decide and record as the function Decided |
| SendProgress.SendProgressManager.CancelKey | Telegram/SourceFiles/api/api_send_progress.cpp:44-56 | the request of exactly this key is cancelled and forgotten |
| SendProgress.SendProgressManager.Send | Telegram/SourceFiles/api/api_send_progress.cpp:119-209 | a request is skipped, or sent and remembered, and typing arms the timer |
| SendProgress.SendProgressManager.UpdateKey | Telegram/SourceFiles/api/api_send_progress.cpp:70-91 | an update is ignored, refused, or cancels and sends |
| SendProgress.SendProgressManager.OnTimer | Telegram/SourceFiles/api/api_send_progress.cpp:33-36 | the timer stops typing in the remembered history |
| SendProgress.SendProgressManager.OnDone | Telegram/SourceFiles/api/api_send_progress.cpp:211-218 | the scan that stops at the first hit removes every entry with the id |
| TextEntities.EntitiesFromTdb | Telegram/SourceFiles/api/api_text_entities.cpp:194-262 | the loop converts entity by entity and drops those without a type |
| TextEntities.EntitiesToTdb | Telegram/SourceFiles/api/api_text_entities.cpp:273-341 | the loop with its skips sends entity by entity |
| TextEntities.RoundTrip | Telegram/SourceFiles/api/api_text_entities.cpp:194-341 | sending and receiving keeps exactly the positive-length entities of allowed type (mentions only with a user), in order, with canonical data |
| TextEntities.StableProjection | Telegram/SourceFiles/api/api_text_entities.cpp:194-341 | converting to TDLib's form, back and again is the same as converting once, for every list |
| TextEntities.SentBack | Telegram/SourceFiles/api/api_text_entities.cpp:194-341 | a list from TDLib is sent back unchanged exactly when each of its entities has positive length and a type and data that are sent |
| TextEntities.ReceivedExactly | Telegram/SourceFiles/api/api_text_entities.cpp:194-262 | exactly three types are dropped; any other entity is received at its place with a type and data that lead back to what was sent, but for an empty code language and a mention of user 0 |
| TextEntities.ReceivedByName | Telegram/SourceFiles/api/api_text_entities.cpp:203-253 | what each of TDLib's types is received as, by name |
| TextEntities.SentByName | Telegram/SourceFiles/api/api_text_entities.cpp:278-338 | what each type of positive length is sent as, by name |
| TextEntities.CastsUndone | Telegram/SourceFiles/api/api_text_entities.cpp:240-251 | the casts keep ids modulo 2^64 and undo each other |
| TextEntities.ParseUndoesNumber | Telegram/SourceFiles/api/api_text_entities.cpp:248-251 | printing a 64-bit id in decimal and parsing it is the identity |
| TextEntities.FormattedTextStable | Telegram/SourceFiles/api/api_text_entities.cpp:264-347 | texts are unchanged and their entities stable |
| Forward.ForwardMessages | Telegram/SourceFiles/apiwrap.cpp:4166-4285 | the loop, with a send that leaves the ids as they are, sends one request for each maximal run, with the chat of that run and the ids of all items up to its end; the counter is the number of requests |
| Forward.EachRequestIsAPrefix | Telegram/SourceFiles/apiwrap.cpp:4166-4285 | each request has the ids of a prefix of the draft that ends with a maximal run of its chat, the prefixes grow, and the last is the whole draft |
| Forward.ForwardedExactlyFromOneChat | Telegram/SourceFiles/apiwrap.cpp:4166-4285 | the draft is forwarded once and in order, equivalently as intended, equivalently only from the right chats, exactly when all its messages are from one chat |
| Forward.TwoChats | Telegram/SourceFiles/apiwrap.cpp:4178-4233 | the smallest example: the first of two messages goes out twice, the second time under the other chat |
| Forward.RunsSplit | Telegram/SourceFiles/apiwrap.cpp:4273-4285 | the intended requests: non-empty, each from one chat, neighbours from different chats, together the draft in order |
| Forward.SplitIsUnique | Telegram/SourceFiles/apiwrap.cpp:4273-4285 | there is only one such split, so the intended runs are maximal |

## Left out

- Packer.HashSha1: requires a length below 2^32 - 64, because for longer inputs the loop of the original does not end (Packer.BlockLoopEnds).
- Packer.OutByte and Packer.Place: the variable shifts are written as their four values 24, 16, 8 and 0.
- The packer's directory listing, LZMA, RSA signing and file writing: foreign calls and file system.
- Network and TDLib: a request is sent at once and gets at most one answer or failure; what the server does otherwise is a parameter of the events.
- Callbacks are recorded in the order in which they are called, not run, so a callback that calls back into the same object is not modelled.
- InviteLinks: the event streams, notify, editPermanentLink, joined-by-link slices, further pages and revokePermanent (it only forwards to the modelled calls); the admin of an edit or a revocation is reduced to "is me".
- InviteLinksObject.InviteLinks.PruneFirstSlice: only the statement on the first slices; the rest of processRequest is one more guarded single request and the joined slices.
- InviteList: counts are unbounded integers; the overflow of an int count is not modelled.
- StickerSave.ApiWrap.SaveStickerSets: the flags say what has to be written, the storage writes and notifyUpdated are not modelled; writeInstalled is always true.
- StickerSave.ApiWrap.OnCompleted: says when the sets must be loaded again; that reload (updateStickers and its like) is not part of this model.
- StickerSave: the recent pack is a sequence of documents and ratings; a set keeps only the fields and flags that saving reads or writes, under the key that is also its id; the clock is one value for the whole call.
- SearchMerged: a second search on the same object, whose full flag is not reset; the token is never empty, because it ends in the decimal id of the sender filter; the start cache is consulted only by such a second search.
- Album: message options, reply, schedule and caption; items are not taken out of an album while it is being uploaded.
- Forward.ForwardMessages: does not promise that each message is forwarded once and from its own chat, because the compiled lambda returns before it empties the ids (Forward.ForwardedExactlyFromOneChat says exactly when it does).
- forwardMessages: options and flags of the requests are not modelled; the compiled code counts requests for the success callback but never calls it, so neither does the model.
- SendProgress: the peer's status (online time, kind of chat) comes with each update, as it is at that time; the action and progress value in a request, and the speaking notification of group calls.
- TextEntities.ParseUndoesNumber: is about a parser of this project; the library's own is an assumption.
- TextEntities: the mention-data helpers and the number parser belong to other libraries and are parameters assumed to return what was stored; TextEntities.Parse is an example of such a parser. Entity types that the conversion does not name are one case.
- ApiHash: the callers that collect ids of stickers and GIFs into ranges.
