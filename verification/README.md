# Verified model of the couple calendar

This project models the behaviour of a couple calendar (a NestJS API and a React client) in Dafny
and proves what its algorithms and protocols keep. `dafny verify dfyconfig.toml` checks all of it.
The model follows the code where the code and its documentation differ; those places are named
below.

## What is modelled

**Where two routes meet** (`RouteOverlap`, `MeetupMatching`, `MeetupStation`). The station loops
and the pairing loop are methods. The station-name rule, the number reader and "at most 50 metres
apart" are parameters, so every result holds for all of them. The greedy result is shown to be the
only stable pairing of the two lists; from that follow that it is a pairing, that it cannot be
extended, and that no pairing is more than twice as large. The meetup minimises the sum of the two
positions among all pairs by name and all nearby pairs whose first station has no namesake. Two
partners each put their own route first. Where nearness is symmetric and no station near one of
another name has a namesake on the other route, both get a meetup or neither does, and they meet
on one pair of stations exactly when the least matching pair is unique; where a nearby station
stands before a namesake, even a unique least pair does not help.

**Couples and invites** (`CoupleTables`, `CoupleInterleaving`, `CoupleRequests`, `CoupleInvites`,
`CoupleOrphans`, `CoupleService`, `CoupleOverlap`, `CoupleWhole`, `CoupleSchedules`,
`CoupleRaces`). The tables are maps with the schema's uniqueness rules and cascades. Each awaited
database call is one step, a transaction is one step that may abort, and a request may stop
between any two. In every interleaving each user is in at most one couple, an ACTIVE couple is
exactly the inviter and the invitee of its one invite, and a PENDING couple is empty and lacks an
invite exactly where a send is about to add it or was stopped there. The other rules (one open
invite per sender, nobody in a couple holds an open invite, a handled invite stays handled, an
invite is ACCEPTED exactly where its couple is ACTIVE) hold when requests run one at a time.
`CoupleOverlap` and `CoupleWhole` show that they survive overlaps in which no user is relied on by
two requests at once, the first already if no user has two sends in flight. `CoupleSchedules` says
for pairs of calls, from any tables in order, at which step of the first the second comes too
early; `CoupleRaces` holds concrete runs.

**Route caches** (`Calendar`, `Digits`, `TmapDateTime`, `StableStringify`, `CanonicalText`,
`CacheKeys`, `RouteStores`, `CoupleRoutes`, `RouteInvalidation`, `RouteInterleaving`,
`RouteAlone`, `RouteAnswers`, `RouteService`). Keys are built from the real texts: the printed instant, the colon-joined
question and the canonical JSON of a route. One Redis map holds both layers, rows are keyed by the
same key, and every store call may fail. Cached results are shown to be results of the uncached
computation, in serial runs with age bounds, which are reached to within two milliseconds, and in
every interleaving of overlapping requests with bounds that grow with the longest time a request
takes; a provider failure is reported only if the provider was needed and gave no reply.
`RouteAlone` shows that the steps of a request that runs alone amount to its serial form.
`RouteAnswers` says what such a result means in terms of the provider's answers and the stored
homes, events and stops alone. `RouteService` is the same code as objects: its requests keep every
entry right, and an analysis of such an object returns what the uncached computation gives.

**Chat** (`ChatStore`, `ChatLog`, `ChatEntries`, `ChatResync`, `ChatPaging`, `ChatCuts`,
`ChatTies`, `ChatClient`, `ChatConnection`, `ChatSocket`, `ChatHeartbeat`, `ChatGateway`).
Database pages are relations because rows of one time have no order. The log, resynchronisation,
paging, reconnection and heartbeat are state machines over whole runs; `ChatClient`, `ChatSocket`
and `ChatGateway` are the handlers as objects whose `Valid()` is the invariant of those machines.
Timers are kept as the environment holds them, so that a leaked timer would show.

**Encryption keys** (`KeyText`, `KeyRing`, `KeyTexts`). Hexadecimal, base64 and base64url as
sections 8, 4 and 5 of RFC 4648 define them, the list parser on written lists and on any text, and
decryption across key rotation with the cipher as a pair of inverse functions.

**Photos** (`PhotoPaging`, `PhotosHook`). Cursor paging with uploads and deletions by both
partners in between.

## Where the code does not do what is said of it

- The repository's README says at most one open invite per sender. With two overlapping calls
  there can be two (`CoupleRaces.TwoOpenInvites`), exactly when the second arrives before the first
  has ended (`CoupleSchedules.SecondSendIsSafeIff`); without two overlapping sends of one user there
  never are (`CoupleOverlap.OneOpenInviteIfOneSend`).
- It describes DECLINED and CANCELED as states of an invite. Refusing or withdrawing deletes the
  couple and, with it, the invite, so the status is gone at once
  (`CoupleRequests.DeclineLeavesNoRow`). A refused invite can still be accepted by an overlapping
  call (`CoupleRaces.DeclinedThenAccepted`), exactly when the second of the two arrives before the
  first has written (`CoupleSchedules.RefusalIsSafeIff`, `CoupleSchedules.AcceptanceIsSafeIff`); so can
  a withdrawn one, and one that the inviter's own overlapping send cancels
  (`CoupleSchedules.OwnSendIsSafeIff`, `CoupleSchedules.AcceptAfterOwnSendIsSafeIff`).
- A member of a couple can be left with an open invite (`CoupleRaces.MemberHoldsOpenInvite`), exactly
  when a send that touches one of the two users overlaps the acceptance as
  `CoupleSchedules.SendIsSafeIff` and `CoupleSchedules.AcceptAfterSendIsSafeIff` say.
- A send that stops half-way leaves a PENDING couple without an invite
  (`CoupleRaces.CoupleWithoutInvite`); `CoupleWhole.InviteIsMissingIff` says which couples lack one.
- Sending again cancels the earlier invite but leaves its pending couple behind for good
  (`CoupleOrphans.ResendOrphans`, `CoupleOrphans.OrphansRemainForGood`); so does an acceptance with
  the other invites of the two users (`CoupleOrphans.OrphansAfterIff`).
- It says that caches are invalidated when an event or a home changes. After a failed row write
  they are not, however many edits follow, until an analysis writes the row or Redis drops the
  entry (`RouteInvalidation.LostRowOutlivesEdits`, `RouteInvalidation.LostRowHappens`);
  `RouteInvalidation.EditClearsIffRow` says exactly what stays.
- The arrival time the two route services exchange survives the exchange exactly for Korean
  years 1000 to 9999 (`TmapDateTime.RoundTripIffFourDigits`).
- The canonical text of a route key depends on insertion order where two keys tie in the
  collation (`CanonicalText.TiedKeysKeepInsertionOrder`).
- Partners can be sent to different stations (`MeetupStation.PartnersCanBeSentApart`,
  `MeetupStation.NamesakeCanMislead`; `MeetupStation.PartnersAgreeIffLeastIsUnique` says when they
  are not), and a nearer pair can be passed over (`MeetupStation.NearbyPairCanBePassedOver`).
- A message of one's own is shown twice when it comes back by resynchronisation
  (`ChatLog.SyncShowsOwnMessageTwice`); `ChatLog.ShownTwiceIff` says exactly when.
- Resynchronisation can stay stuck once 50 messages of one time have been seen
  (`ChatResync.RoundShrinksIff`, `ChatTies.ResyncStopsAtTies`), chat paging passes messages where a
  page ends between two of one time (`ChatCuts.PagingShowsAllIffCuttable`, `ChatTies.PagingLosesTie`),
  and photo paging ends behind a deleted photo, one's own included
  (`PhotoPaging.PhotosAreCompleteIff`, `PhotoPaging.OwnDeletionHappens`).

## Model

| member | source | states |
|---|---|---|
| RouteOverlap.ExtractStations | apps/api/src/transit/route-overlap.ts:22-48 | the i-th station has the name, latitude and longitude of the i-th ridden stop and the number i; which stop that is, is counted leg by leg: a walking leg, a transfer leg and a leg without a station list add nothing, any other adds its list in order |
| RouteOverlap.FindOverlapStations | apps/api/src/transit/route-overlap.ts:61-85 | the loop with its growing set of used stations computes the specified greedy pairs, each with the caller's station and both positions; the paired stations have one normalised name or are near in latitude and longitude |
| MeetupMatching.GreedyIsTheStablePairing | apps/api/src/transit/route-overlap.ts:61-85 | a pairing is the greedy one if and only if no two stations would jointly leave it; a characterisation without the loop |
| MeetupMatching.PairsAreInjective | apps/api/src/transit/route-overlap.ts:61-85 | positions on the first route strictly increase and positions on the second never repeat |
| MeetupMatching.GreedyIsPairing | apps/api/src/transit/route-overlap.ts:61-85 | the result pairs only stations of one name or nearby ones, each at most once |
| MeetupMatching.GreedyIsMaximal | apps/api/src/transit/route-overlap.ts:61-85 | every two stations of one normalised name, or near in latitude and longitude, share a station with the result |
| MeetupMatching.GreedyCovers | apps/api/src/transit/route-overlap.ts:65-81 | a matching pair left out lost its second station to an earlier one, or its first station got a partner it likes at least as much |
| MeetupMatching.GreedyIsHalfOfAnyPairing | apps/api/src/transit/route-overlap.ts:61-85 | no pairing of the two lists is more than twice as large |
| MeetupStation.BestIsFirstLeast | apps/api/src/transit/route-overlap.ts:87-94 | the reduction yields the first pair of least sum |
| MeetupStation.MeetupIsLeast | apps/api/src/transit/route-overlap.ts:22-94 | null exactly when nothing matches; otherwise the sum is least among all greedy pairs, all pairs by name and all nearby pairs without a namesake, ties to the smallest position on the first route |
| MeetupStation.NearbyPairCanBePassedOver | apps/api/src/transit/route-overlap.ts:66-76 | two lists on which a nearby pair of smaller sum is passed over |
| MeetupStation.MeetupIsLeastMatch | apps/api/src/transit/couple-route.service.ts:84-87 | where no station near one of another name has a namesake on the other route, the meetup is a least matching pair, the first on the caller's route |
| MeetupStation.PartnersAgreeIffLeastIsUnique | apps/api/src/transit/couple-route.service.ts:84-103 | with symmetric nearness and no namesake beside a nearby station of another name: both partners get a meetup or neither, of one sum; they meet on one pair of stations, and at stations that match, exactly when the least matching pair is unique, and at one station name exactly when that pair is also one of namesakes |
| MeetupStation.PartnersCanBeSentApart | apps/api/src/transit/couple-route.service.ts:84-103 | two routes on which the partners are sent to different stations |
| MeetupStation.NamesakeCanMislead | apps/api/src/transit/route-overlap.ts:65-81 | two routes with a unique least pair, one nearby station standing before a namesake, on which the partners get different pairs, names and sums |
| CoupleTables.CoupleHasItsTwo | prisma/schema.prisma:80-115 | what the invariant means for one couple: ACTIVE has exactly the inviter as owner and the invitee as member, PENDING has nobody |
| CoupleTables.AcceptKeepsMembership | apps/api/src/couple/couple.service.ts:250-281 | the committed transaction keeps membership: one couple per user, every ACTIVE couple complete, every PENDING one empty |
| CoupleTables.AcceptJoinsTheTwo | apps/api/src/couple/couple.service.ts:250-281 | the committed transaction joins exactly the invite's two users: their couple had no rows and has theirs, as owner and member, and every other couple has the rows it had |
| CoupleTables.AcceptedCoupleWasPending | apps/api/src/couple/couple.service.ts:250-281 | the transaction commits only for a couple that was pending and empty |
| CoupleTables.DeleteKeepsMembership | prisma/schema.prisma:88-110 | deleting a couple with its cascades keeps every other couple in order |
| CoupleInterleaving.StepKeepsMembership | apps/api/src/couple/couple.service.ts:114-320 | every single statement of every request keeps membership |
| CoupleInterleaving.MembershipAlways | apps/api/src/couple/couple.service.ts:114-320 | in every interleaving of statements, requests stopping anywhere: one couple per user, ACTIVE couples with one owner and one member, who are the inviter and the invitee of any invite the couple has, PENDING couples empty |
| CoupleWhole.InviteIsMissingIff | apps/api/src/couple/couple.service.ts:174-199 | in every interleaving, requests stopping anywhere, a couple has no invite if and only if a send is about to add it, was stopped just before adding it, or the couple had none to begin with; an ACTIVE couple always has its invite |
| CoupleWhole.CoupleIsWhole | prisma/schema.prisma:80-115 | in every interleaving, an ACTIVE couple has one invite and exactly that invite's inviter, as owner, and invitee, as member; a PENDING couple has nobody |
| CoupleRequests.ServeIsItsSteps | apps/api/src/couple/couple.service.ts:114-320 | served alone, each request's statements amount to its closed form, result included |
| CoupleRequests.ServeKeepsInv | apps/api/src/couple/couple.service.ts:114-320 | every request keeps the serial invariant and moves statuses only away from PENDING |
| CoupleRequests.FreshTablesAreInOrder | prisma/schema.prisma:40-115 | tables of users only satisfy the serial invariant, so runs can begin there |
| CoupleRequests.RunKeepsInv | apps/api/src/couple/couple.service.ts:145-320 | over every serial run: one open invite per sender, no open invite for a member, every invite has a couple of its own, every PENDING couple an invite, ACCEPTED exactly where ACTIVE |
| CoupleInvites.InvitesAndCouplesCorrespond | prisma/schema.prisma:80-115 | over every serial run from tables without couples: every couple, ACTIVE ones included, has exactly one invite and every invite exactly one couple, through all cascades |
| CoupleInvites.InviteLastsWithCouple | prisma/schema.prisma:80-115 | over every serial run, whatever couples the tables held before: an invite is there for as long as its couple is |
| CoupleInvites.BreakUpIsForTheTwo | apps/api/src/couple/couple.service.ts:114-143 | a couple is ended exactly when it is ACTIVE and the caller sent or accepted its invite; anyone else is told not to be a member, and the tables stay as they are |
| CoupleRequests.OpenInviteIsAcceptable | apps/api/src/couple/couple.service.ts:227-287 | acceptance succeeds if and only if the invite exists, is open and is addressed to the caller, so both "already in a couple" rejections are unreachable |
| CoupleRequests.HandledInvitesStayHandled | apps/api/src/couple/couple.service.ts:227-320 | a status other than PENDING never changes again while the row exists |
| CoupleRequests.CancelUndoesSend | apps/api/src/couple/couple.service.ts:145-203 | withdrawing a first invite leaves the tables as before it |
| CoupleRequests.DeclineUndoesSend | apps/api/src/couple/couple.service.ts:290-306 | so does refusing it |
| CoupleRequests.DeclineLeavesNoRow | apps/api/src/couple/couple.service.ts:290-320 | no table shows a refused invite afterwards |
| CoupleRequests.BreakUpUndoesAccept | apps/api/src/couple/couple.service.ts:114-143 | breaking up right after acceptance frees both users; other invites stay canceled |
| CoupleOrphans.ResendOrphans | apps/api/src/couple/couple.service.ts:174-199 | sending again leaves the earlier pending couple with a canceled invite |
| CoupleOrphans.OrphansRemain | apps/api/src/couple/couple.service.ts:114-320 | no later request removes such a couple |
| CoupleOrphans.OrphansAfterIff | apps/api/src/couple/couple.service.ts:174-281 | after any request the orphaned couples are exactly those before it and the couples of the open invites that a send or an acceptance cancels |
| CoupleOrphans.OrphansRemainForGood | apps/api/src/couple/couple.service.ts:114-320 | no run of requests removes an orphaned couple |
| CoupleService.CoupleService.Send | apps/api/src/couple/couple.service.ts:145-203 | the statements in order have the effect and outcome of the whole request: done exactly for two different users who exist and are in no couple, a new PENDING couple with the one new invite, the sender's other open invites canceled and nothing else changed; the tables stay in order, and statuses move only away from PENDING |
| CoupleService.CoupleService.Accept | apps/api/src/couple/couple.service.ts:227-288 | the same for acceptance, the transaction all or nothing, done exactly for an open invite addressed to the caller |
| CoupleService.CoupleService.Decline | apps/api/src/couple/couple.service.ts:290-306 | the same for refusal, done exactly for an open invite addressed to the caller; its couple and that couple's invites are gone and every other row is as it was |
| CoupleService.CoupleService.Cancel | apps/api/src/couple/couple.service.ts:308-320 | the same for withdrawal of whichever open invite of the caller the query returns; without one nothing changes |
| CoupleService.CoupleService.BreakUp | apps/api/src/couple/couple.service.ts:114-143 | the same for breaking up, done exactly when the couple is ACTIVE and the caller is the inviter or the invitee of its invite; the tables stay as they are otherwise |
| CoupleRaces.TwoOpenInvites | apps/api/src/couple/couple.service.ts:174-199 | an interleaving of two sends that leaves two open invites |
| CoupleRaces.DeclinedThenAccepted | apps/api/src/couple/couple.service.ts:227-306 | an interleaving in which a refused invite is accepted and its couple then deleted |
| CoupleRaces.MemberHoldsOpenInvite | apps/api/src/couple/couple.service.ts:145-199 | an interleaving that leaves a member with an open invite |
| CoupleRaces.CoupleWithoutInvite | apps/api/src/couple/couple.service.ts:174-199 | a run of one send in which no user is relied on twice and which leaves a couple without an invite |
| CoupleOverlap.OneOpenInviteIfOneSend | apps/api/src/couple/couple.service.ts:145-203 | in every interleaving of all five requests, stopping anywhere, in which no send arrives while its user has another in flight, nobody has two open invites out |
| CoupleOverlap.RulesHoldIfUsersApart | apps/api/src/couple/couple.service.ts:114-320 | in every interleaving in which no user is relied on by two requests at once, nobody has two open invites out, no member of a couple sends or holds one, and each request finds what it has read still true |
| CoupleOverlap.HandledStaysHandledIfUsersApart | apps/api/src/couple/couple.service.ts:227-306 | in such an interleaving a handled invite keeps its status for as long as its row exists |
| CoupleWhole.StatusesMatchIfUsersApart | apps/api/src/couple/couple.service.ts:227-320 | in such an interleaving an invite is ACCEPTED exactly where its couple is ACTIVE, and no refusal or withdrawal deletes an ACTIVE couple |
| CoupleWhole.SerialRulesIff | apps/api/src/couple/couple.service.ts:114-320 | in such an interleaving all rules of serial runs hold if and only if no couple lacks its invite, that is no send is just about to add one, was stopped there or found one missing |
| CoupleSchedules.SecondSendIsSafeIff | apps/api/src/couple/couple.service.ts:145-203 | from any tables in order, for two sends of one user that would each be done: every schedule keeps one open invite per sender if and only if the second arrives after all seven steps of the first |
| CoupleSchedules.RefusalIsSafeIff | apps/api/src/couple/couple.service.ts:227-320 | from any tables in order, for any open invite: every schedule of its acceptance and its refusal, or its withdrawal, keeps handled statuses if and only if the latter arrives after all four steps of the acceptance |
| CoupleSchedules.AcceptanceIsSafeIff | apps/api/src/couple/couple.service.ts:227-320 | the same where the refusal or withdrawal came first: if and only if it has marked the invite, its second step |
| CoupleSchedules.RefusalGoesWrong | apps/api/src/couple/couple.service.ts:227-320 | the schedule in which any such invite goes from DECLINED, or CANCELED, to ACCEPTED and then the couple disappears, both calls reporting that they are done |
| CoupleSchedules.OwnSendIsSafeIff | apps/api/src/couple/couple.service.ts:174-281 | the same for an acceptance and the inviter's own send, which cancels the invite: if and only if the send arrives after all four steps of the acceptance |
| CoupleSchedules.AcceptAfterOwnSendIsSafeIff | apps/api/src/couple/couple.service.ts:174-281 | the same where that send came first: if and only if it has canceled the invite, its fifth step |
| CoupleSchedules.SendIsSafeIff | apps/api/src/couple/couple.service.ts:145-288 | from any tables in order, for an acceptance and a send that touches one of its two users: every schedule keeps members free of open invites if and only if the send arrives after all four steps of the acceptance |
| CoupleSchedules.AcceptAfterSendIsSafeIff | apps/api/src/couple/couple.service.ts:145-288 | the same where the send came first: if and only if it has made all seven steps, or, being the inviter's own, the five by which it has canceled the invite |
| CoupleSchedules.StoppedSendLeavesCouple | apps/api/src/couple/couple.service.ts:174-199 | any send that would be done, alone and stopped before its last statement, leaves a PENDING couple without an invite |
| Calendar.MakeOfFields | apps/api/src/transit/couple-route.service.ts:158-166 | splitting an instant into UTC fields and putting them together gives the instant |
| Calendar.DateOfMake | apps/api/src/transit/transit.service.ts:302-304 | an existing date is the date of the day it makes |
| Calendar.YearIsUnique | apps/api/src/transit/couple-route.service.ts:158-160 | the year of a day is the only one whose first day is not after it and whose successor's is |
| Calendar.WindowIsLocalMonth | apps/api/src/event/event.service.ts:37-42 | an instant lies in a month's window exactly when that is its local month, so windows tile the timeline |
| TmapDateTime.RoundTripIffFourDigits | apps/api/src/transit/couple-route.service.ts:158-166 | reading the printed arrival time gives the instant to the minute if and only if its Korean year is 1000 to 9999 |
| TmapDateTime.BucketOfPrintedTime | apps/api/src/transit/transit.service.ts:232-305 | for such years and every bucket size, the bucket of the printed time is the bucket of the instant |
| TmapDateTime.BucketOfMinute | apps/api/src/transit/transit.service.ts:240-241 | rounding to the minute first never changes the bucket |
| CanonicalText.TextIffMeaning | apps/api/src/transit/transit.service.ts:369-384 | two well-formed values have one canonical text if and only if they are equal up to the order of object entries |
| CanonicalText.InsertionOrderIsInvisible | apps/api/src/transit/transit.service.ts:374-381 | rearranging an object's entries does not change the text |
| CanonicalText.PrintsEnd | apps/api/src/transit/transit.service.ts:369-384 | a printed value followed by what may follow a value reads in one way only |
| CanonicalText.TiedKeysKeepInsertionOrder | apps/api/src/transit/transit.service.ts:375-377 | two keys that tie in the collation keep their insertion order, so the text depends on it |
| CacheKeys.CoupleKeyIdentifiesQuestion | apps/api/src/transit/couple-route.service.ts:54-59 | for colon-free event ids, equal joined texts mean equal event, appointment and all six coordinates, although the printed instant contains colons |
| CacheKeys.JoinColonIsInjective | apps/api/src/transit/couple-route.service.ts:119-121 | colon-free parts can be recovered from the joined text |
| CacheKeys.ReadIsoOfText | apps/api/src/transit/couple-route.service.ts:54-59 | a reader of ISO instants that takes the fields from the end of the text gives back every instant, whatever its year |
| CacheKeys.RouteKeyIdentifiesBucket | apps/api/src/transit/transit.service.ts:307-327 | equal key texts mean equal end points, requested size, bucket size and bucket start |
| RouteStores.OuterKeyIdentifies | apps/api/src/transit/couple-route.service.ts:119-123 | with a digest without collisions, equal couple-route keys mean equal questions |
| RouteStores.InnerKeyIdentifies | apps/api/src/transit/transit.service.ts:325-326 | equal route keys mean equal routes and buckets |
| RouteStores.KeysAreApart | apps/api/src/transit/transit.service.ts:326-326 | the two layers never share a Redis key |
| RouteStores.FetchedIsGood | apps/api/src/transit/transit.service.ts:151-174 | a fetch returns the question's own error, a provider failure only where the provider gave no reply, or a body answered for the same end points in the same bucket within the longest lifetime |
| RouteStores.DrawIsFair | apps/api/src/transit/transit.service.ts:386-391 | the lifetimes a draw can give are exactly those from the lower bound, at least 1, to the upper bound or that |
| RouteStores.StoredBodyIsServed | apps/api/src/transit/transit.service.ts:151-230 | a stored body that is truthy is served without the provider for as long as its lifetime lasts |
| RouteStores.FetchKeepsSound | apps/api/src/transit/transit.service.ts:151-174 | a fetch with any failures keeps every stored entry right for its key |
| RouteStores.PutCoupleKeepsSound | apps/api/src/transit/couple-route.service.ts:137-147 | storing a route composed for a question keeps every entry right, whatever the key held before |
| RouteStores.PutSingleKeepsSound | apps/api/src/transit/transit.service.ts:223-230 | storing an answered body under its bucket keeps every entry of both layers right |
| RouteStores.PutRowKeepsSound | apps/api/src/transit/couple-route.service.ts:148-155 | inserting or updating a row keeps every entry right |
| CoupleRoutes.AnalysisIsUncached | apps/api/src/transit/couple-route.service.ts:37-156 | after every run of analyses, direct route requests, edits, moves, break-ups, expiries and swallowed failures, an analysis returns the error or route of the uncached computation for the current event, homes and place, from answers in the same bucket less than 24 h + 1 h + the longest inner lifetime old; with a forced refresh only the inner lifetime counts; a provider failure is returned only without a cached route and when a fetch got no reply |
| CoupleRoutes.FailsOnlyIfSilent | apps/api/src/transit/couple-route.service.ts:61-79 | an analysis reports a provider failure only if neither cache layer had a route and one of the two fetches got no reply |
| CoupleRoutes.HitIsComposed | apps/api/src/transit/couple-route.service.ts:125-143 | a cached route is composed of answers for exactly this question and is less than 25 hours old, refills included |
| CoupleRoutes.RefillIsServedForAnotherHour | apps/api/src/transit/couple-route.service.ts:131-139 | a row served just before it expires is served from Redis for another hour, so the 25 hours are reached |
| CoupleRoutes.SavedRouteIsServed | apps/api/src/transit/couple-route.service.ts:125-156 | what was saved is served, from Redis for an hour and from its row for a day |
| CoupleRoutes.OldestAnswerIsServed | apps/api/src/transit/couple-route.service.ts:61-156 | answers composed in the last millisecond of their lifetime, kept as a row for its whole lifetime and refilled in its last millisecond are served until two milliseconds before the age bound |
| CoupleRoutes.RunKeepsInv | apps/api/src/transit/couple-route.service.ts:125-156 | every entry ever stored is right for its key without relying on invalidation |
| CoupleRoutes.AskedBucketIsAppointments | apps/api/src/transit/couple-route.service.ts:66-79 | for Korean years 1000 to 9999 the bucket asked about is the appointment's own |
| RouteInvalidation.RunCovers | apps/api/src/transit/couple-route.service.ts:145-156 | without swallowed failures, every Redis entry of a live event has a row under the same key |
| RouteInvalidation.EditsLeaveNothing | apps/api/src/event/event.service.ts:53-97 | without failures, a place or time edit, a removal and a move of either partner's home leave no entry in either layer for any event they touch |
| RouteInvalidation.ChangesLeaveNothing | apps/api/src/event/event.service.ts:53-97 | told by what is stored: after a run without failures, whatever operation changes the latitude, longitude or time of an event, removes it, or changes the home of the first or the second member of its couple, leaves no entry for it in either layer |
| RouteInvalidation.EditsSpareOthers | apps/api/src/user/user.service.ts:79-101 | and they leave the entries of all other events alone |
| RouteInvalidation.ChangesSpareOthers | apps/api/src/user/user.service.ts:79-101 | told likewise: an edit leaves the entries of every event it does not name and, for a home, of every event whose couple the user is not in |
| RouteInvalidation.UserHasOneBatch | apps/api/src/user/user.service.ts:79-97 | in every run all events of one user are one couple's, so an edit of a home invalidates one batch |
| RouteInvalidation.EditClearsIffRow | apps/api/src/event/event.service.ts:82-97 | after any failures before, an edit whose own calls succeed leaves a Redis entry exactly where it had no row |
| RouteInvalidation.LostRowOutlivesEdits | apps/api/src/transit/couple-route.service.ts:145-156 | one failed row write leaves an entry that every later edit, move, removal and break-up leaves too, until an analysis writes the row or Redis drops the entry |
| RouteInvalidation.RowlessEntryOutlivesEdits | apps/api/src/event/event.service.ts:82-97 | an entry without a row is untouched by any number of edits, however well their own calls go |
| RouteInvalidation.LostRowHappens | apps/api/src/transit/couple-route.service.ts:145-156 | a concrete event, two homes and two answers for which this happens |
| RouteInvalidation.OneEventIsReached | apps/api/src/event/event.service.ts:53-97 | a run from empty tables leads to the event and homes of that example |
| RouteAnswers.GoodBodyIsFetched | apps/api/src/transit/transit.service.ts:151-174 | a fetched body was answered for the same end points within the longest lifetime, for a time in the same interval of the bucket size as the arrival time or, without one, as the present; the size is the requested one where one is requested |
| RouteAnswers.ComposeComesTo | apps/api/src/transit/couple-route.service.ts:81-113 | of the two bodies: reading the departure and adding my travel time gives the appointment, and likewise for the partner; the meeting has the name, latitude and longitude of a stop of my ridden legs; there is none exactly where no stop of mine has the normalised name of one of theirs or is near it |
| RouteAnswers.UncachedTells | apps/api/src/transit/couple-route.service.ts:37-117 | a route the uncached computation gives follows from an answer for the way from the user's home to the event and one for the partner's, both for the interval of the appointment |
| RouteAnswers.QuestionExplains | apps/api/src/transit/couple-route.service.ts:38-52 | each rejection says what is missing, in the order of the checks: the event, its place, its time, membership, the own home, the partner's home |
| RouteInterleaving.StepKeeps | apps/api/src/transit/couple-route.service.ts:37-156 | every store call, provider call and table read of a request, on its own, keeps all entries right and the request's knowledge true |
| RouteInterleaving.OverlappingAnalysesAreUncached | apps/api/src/transit/couple-route.service.ts:37-156 | in every interleaving of overlapping requests, edits, lost entries and failures, a finished analysis answers the request it was started for: after that request was made its event was read, then members and homes, and it returned what the uncached computation gives for these, from answers of bounded age, with a forced refresh bounded by the inner lifetime and the request's own length; a provider failure only if the provider gave this very request no reply |
| RouteInterleaving.QuestionWasRead | apps/api/src/transit/couple-route.service.ts:38-59 | the question a request works on is that of its own event id and user, about the event as read after the request was made and members and homes as read at a later moment |
| RouteInterleaving.RejectionWasRead | apps/api/src/transit/couple-route.service.ts:38-59 | a request that ended without a question met its own check, on what it read after it was made |
| RouteInterleaving.FailureWasSilence | apps/api/src/transit/transit.service.ts:151-174 | a request that reports a provider failure made a step to which the provider gave no reply |
| RouteAlone.AloneIsAnalyze | apps/api/src/transit/couple-route.service.ts:37-156 | within thirteen steps, an analysis that runs without any other request in between has the result and the effect of the analysis at one instant, every failure included |
| RouteAlone.SingleAloneIsFetch | apps/api/src/transit/transit.service.ts:151-230 | so does a direct route request, within three steps |
| RouteService.StoreClient.Invalidate | apps/api/src/event/event.service.ts:82-97 | finding, dropping and deleting, each call failing on its own, have the specified effect on both layers and keep every entry right |
| RouteService.TransitService.FetchWithCache | apps/api/src/transit/transit.service.ts:151-230 | the calls in order have the specified effect and result; the stores stay right; the body answers these end points within the longest lifetime, asked for a time in the same interval of the requested bucket size as the arrival time or the clock; the provider is heard at most once, and only from it come bodies that are not truthy; a refusal has its reason in the request |
| RouteService.CoupleRouteService.CheckCache | apps/api/src/transit/couple-route.service.ts:125-143 | Redis first, then an unexpired row of this event and user, refilled to Redis; nothing is found only where neither has one that could be read |
| RouteService.CoupleRouteService.SaveCache | apps/api/src/transit/couple-route.service.ts:145-156 | Redis for an hour and a row for a day, each write failing on its own, an existing row keeping its event and user, other keys untouched |
| RouteService.CoupleRouteService.BuildResult | apps/api/src/transit/couple-route.service.ts:81-113 | two answers, the station loops and the meetup give the composed route or its error: departures that reach the appointment after the travel time, and a meeting at a stop of my ridden legs exactly where two stops match |
| RouteService.CoupleRouteService.Analyze | apps/api/src/transit/couple-route.service.ts:37-117 | all checks in order, then cache, fetches, composition and saving, as specified; on every object kept by its methods the result is that of the uncached computation for the current event and homes: a route follows from answers for the ways from the two members' homes, its departures reach the appointment, and an error says what is missing |
| RouteService.CoupleRouteService.AnswerQuestion | apps/api/src/transit/couple-route.service.ts:61-117 | the part of an analysis behind its checks, as specified |
| RouteService.CoupleRouteService.UpdateEvent | apps/api/src/event/event.service.ts:53-74 | only one of the couple's two edits; the fields the patch names change, to null too, and the others stay; place or time edits invalidate the event's routes; entries stay right and rows belong to live events |
| RouteService.CoupleRouteService.RemoveEvent | apps/api/src/event/event.service.ts:76-80 | invalidation first, then the event with its remaining rows, keeping the same |
| RouteService.CoupleRouteService.UpdateMe | apps/api/src/user/user.service.ts:54-101 | the fields the patch names change in this user's home only; a home edit invalidates the routes of every event of the user's couple, keeping the same |
| RouteService.CoupleRouteService.BreakUp | apps/api/src/couple/couple.service.ts:114-143 | exactly the couple's events go with it and their rows with them, keeping the same |
| ChatStore.ShortPageIsAll | apps/api/src/chat/chat.service.ts:75-96 | a page that is not full holds every matching row |
| ChatLog.LogHasNoRepeats | apps/web/src/app/main/components/ChatTab.tsx:106-151 | over every run of sends, deliveries, redeliveries, syncs, reloads and older pages, the log's ids are pairwise distinct and exactly the ids counted as seen |
| ChatLog.ShownTwiceIff | apps/web/src/app/main/components/ChatTab.tsx:143-151 | one's own message comes to be shown twice if and only if it is brought without its client id, or with one not counted as seen, while its optimistic entry is in the log |
| ChatLog.OwnMessageShownOnce | apps/web/src/app/main/components/ChatTab.tsx:457-512 | however often it is delivered, a message that returns only over the socket with its client id is shown once |
| ChatLog.SyncShowsOwnMessageTwice | apps/api/src/chat/chat.service.ts:171-186 | a run in which resynchronisation shows one's own message twice, because stored views carry no client id |
| ChatEntries.EntriesAreGenuine | apps/web/src/app/main/components/ChatTab.tsx:92-151 | over every run, each entry of the log has the id, text, sender and time of a message that was brought, or of one sent from here, and is flagged as failed only after that send failed |
| ChatEntries.BroughtIsShown | apps/web/src/app/main/components/ChatTab.tsx:106-151 | every message an operation brings is shown afterwards unless it is dropped for its client id, and a first page leaves no other |
| ChatResync.RoundTakesPage | apps/web/src/app/main/components/ChatTab.tsx:185-210 | a round takes exactly its page off the missing messages; nothing else is lost or passed over |
| ChatResync.RoundShrinksIff | apps/api/src/chat/chat.gateway.ts:153-179 | while messages are missing, every possible answer brings some if and only if fewer than 50 messages of the last received time have been seen |
| ChatResync.StuckPage | apps/api/src/chat/chat.service.ts:82-93 | with 50 messages of the last received time seen, the database may answer with those 50 again |
| ChatResync.ResyncConverges | apps/web/src/app/main/components/ChatTab.tsx:185-210 | with fewer than 50 messages per time and no new traffic, as many rounds as messages were missing bring them all |
| ChatResync.MovesMark | apps/web/src/app/main/components/ChatTab.tsx:113-122 | the last received message moves to the latest unseen message of a page, or stays |
| ChatPaging.PagingShowsAllIff | apps/web/src/app/main/components/ChatTab.tsx:354-404 | after the first page and pages of 20 with other traffic in between, once the server has no more, every message stored at the first page is shown if and only if no page ended between two messages of one time |
| ChatCuts.PagingShowsAllIffCuttable | apps/web/src/app/main/components/ChatTab.tsx:354-404 | the same on the store alone: everything is shown if and only if, for every k with 50 + 20k fewer than all messages, some time has exactly 50 + 20k of them at or after it |
| ChatTies.PagingLosesTie | apps/api/src/chat/chat.service.ts:82-93 | a run over 51 messages of one time that ends with one of them never shown |
| ChatTies.ResyncStopsAtTies | apps/api/src/chat/chat.service.ts:82-93 | over such messages any number of resynchronisation rounds may bring nothing while one is missing |
| ChatPaging.PagingEnds | apps/web/src/app/main/components/ChatTab.tsx:354-404 | while the server has more, each page brought 20 new messages, so paging ends |
| ChatPaging.DistinctTimesAreWhole | apps/api/src/chat/chat.service.ts:82-93 | with distinct times no page can end between two of one time |
| ChatPaging.OlderKeepsSomePassed | apps/web/src/app/main/components/ChatTab.tsx:366-404 | a message that was passed is never asked for again |
| ChatClient.ChatTab.HandleIncomingMessage | apps/web/src/app/main/components/ChatTab.tsx:127-151 | a message not seen under either of its ids is added at the end with its text, sender and time and is the last seen unless it is earlier; otherwise nothing changes; the ids in the log stay distinct and are those counted as seen |
| ChatClient.ChatTab.HandleSync | apps/web/src/app/main/components/ChatTab.tsx:198-206 | the same for the answer to a resynchronisation, taken one message at a time |
| ChatClient.ChatTab.SendOptimistic | apps/web/src/app/main/components/ChatTab.tsx:468-478 | a sent message appears at once under its client id and does not count as received |
| ChatClient.ChatTab.SendFailed | apps/web/src/app/main/components/ChatTab.tsx:494-509 | a failed send flags its own entry and nothing else |
| ChatClient.ChatTab.FetchMessages | apps/web/src/app/main/components/ChatTab.tsx:217-252 | the first page, of distinct messages, replaces log and seen set, its latest message is the last seen, and fewer than 50 end the history; the log keeps the same |
| ChatClient.ChatTab.StartFetchingOlder | apps/web/src/app/main/components/ChatTab.tsx:354-370 | one request at a time, bounded by the least time shown, only while the server has more |
| ChatClient.ChatTab.FetchOlderFromServer | apps/web/src/app/main/components/ChatTab.tsx:376-403 | a page of older messages adds the unseen ones in front, as they were stored, and fewer than 20 end the history; the log keeps the same |
| ChatClient.FindLatest | apps/web/src/app/main/components/ChatTab.tsx:238-240 | the loop finds the first message of the latest time |
| ChatClient.FlagFailed | apps/web/src/app/main/components/ChatTab.tsx:496-500 | the loop flags exactly the entry of the given id |
| ChatClient.DropSeen | apps/web/src/app/main/components/ChatTab.tsx:387-389 | the loop keeps exactly the unseen messages in order |
| ChatConnection.ConnectionIsWatched | apps/web/src/app/main/components/ChatTab.tsx:157-183 | in every run: never two reconnect timers, none after unmounting, exactly one while a mounted client is down, each due within 18 s, and no live socket silent for more than 55 s; a mounted client shows itself connected only while its socket is up, and lost whenever it is down |
| ChatConnection.DroppedIffSilent | apps/web/src/app/main/components/ChatTab.tsx:312-321 | in every run a health check takes a live socket down if and only if it gave no sign, by its connection, the greeting, a ping or a message shown, for more than 40 s, and otherwise changes nothing |
| ChatConnection.DelaysBackOff | apps/web/src/app/main/components/ChatTab.tsx:157-183 | the first four delays since the last connection lie within 0.8 to 1.2 times 1, 2, 4 and 8 s, all later ones of 15 s |
| ChatConnection.DelayIsNearBase | apps/web/src/app/main/components/ChatTab.tsx:171-176 | jitter and rounding keep a delay within a fifth of its base |
| ChatSocket.ChatSocket.HandleConnect | apps/web/src/app/main/components/ChatTab.tsx:273-278 | a connection clears the timer and resets the attempts, keeping the invariant of the connection |
| ChatSocket.ChatSocket.HandleDisconnect | apps/web/src/app/main/components/ChatTab.tsx:280-284 | a lost socket leaves a mounted client with exactly one timer, and changes nothing once unmounting |
| ChatSocket.ChatSocket.HandleError | apps/web/src/app/main/components/ChatTab.tsx:286-291 | so do a failed connection and an error from the server, which leaves the socket as it is |
| ChatSocket.ChatSocket.RunHealthCheck | apps/web/src/app/main/components/ChatTab.tsx:312-321 | a silent live socket is disconnected and one reconnection scheduled, although both paths schedule, keeping the invariant |
| ChatSocket.ChatSocket.Unmount | apps/web/src/app/main/components/ChatTab.tsx:323-342 | unmounting clears the health check and leaves no timer pending |
| ChatHeartbeat.TimersAreTheWatched | apps/api/src/chat/chat.gateway.ts:216-242 | timer map and running intervals exist for exactly the accepted sockets not yet stopped |
| ChatHeartbeat.SilenceIsBounded | apps/api/src/chat/chat.gateway.ts:216-233 | no watched socket is ever silent for longer than timeout plus one interval |
| ChatHeartbeat.DroppedIffSilent | apps/api/src/chat/chat.gateway.ts:221-230 | a check drops its socket if and only if it was silent for longer than the timeout |
| ChatHeartbeat.SeenSocketsAreKept | apps/api/src/chat/chat.gateway.ts:216-246 | a socket that sent anything within the timeout survives its check |
| ChatHeartbeat.SteadyPingsKeepSocket | apps/web/src/app/main/components/ChatTab.tsx:312-321 | pings every 15 s with delays up to 45 s always survive a timeout of a minute |
| ChatHeartbeat.GoneSocketsAreForgotten | apps/api/src/chat/chat.gateway.ts:113-127 | no map and no interval remembers a socket that is gone |
| ChatHeartbeat.ReasonIsRight | apps/api/src/chat/chat.gateway.ts:113-127 | a disconnect counts under the heartbeat if that dropped it, else under the reason it announced, else as unknown |
| ChatHeartbeat.MetricsCount | apps/api/src/chat/chat.gateway.ts:256-261 | each metric is the number of disconnects for its reason |
| ChatHeartbeat.MetricsSum | apps/api/src/chat/chat.gateway.ts:256-261 | all metrics together are the number of disconnects |
| ChatGateway.ChatGateway.HandleConnection | apps/api/src/chat/chat.gateway.ts:71-111 | a socket is watched afterwards exactly when couple id, user id and token are there and the token's subject is the user id; timers stay those of the watched sockets |
| ChatGateway.ChatGateway.OnInterval | apps/api/src/chat/chat.gateway.ts:216-233 | a silent socket is stopped with its reason, another is looked at again later; silence stays bounded |
| ChatGateway.ChatGateway.HandleDisconnect | apps/api/src/chat/chat.gateway.ts:113-127 | the disconnect is counted by the reason of highest precedence, and no map keeps the socket |
| KeyText.HexRoundTrip | apps/api/src/chat/chat-encryption.service.ts:114-130 | bytes written in hexadecimal of either case read back |
| KeyText.Base64RoundTrip | apps/api/src/chat/chat-encryption.service.ts:73-88 | bytes of any length written in base64, padded or not, in either alphabet, read back |
| KeyText.JunkIsPassedOver | apps/api/src/chat/chat-encryption.service.ts:114-130 | characters of neither base64 alphabet do not change what is read |
| KeyRing.KeyRoundTrip | apps/api/src/chat/chat-encryption.service.ts:114-130 | a 32-byte key reads back from each of its encodings; the encodings are never mistaken for each other |
| KeyRing.RingRoundTrip | apps/api/src/chat/chat-encryption.service.ts:37-46 | for distinct versions, parsing the comma-separated list gives exactly the ring that was written |
| KeyRing.RingReads | apps/api/src/chat/chat-encryption.service.ts:37-46 | for any written list, the later of two entries of one version counts |
| KeyRing.ConfigureReads | apps/api/src/chat/chat-encryption.service.ts:25-63 | a service starts from a written list if and only if its active version is listed |
| KeyRing.LegacyKeyReads | apps/api/src/chat/chat-encryption.service.ts:25-63 | without a list, the single key of older configurations, in any encoding, is the active version's |
| KeyTexts.RingIff | apps/api/src/chat/chat-encryption.service.ts:37-46 | any list of entries: it is refused exactly if some entry names a version with a malformed key, and otherwise a version has a key in the ring exactly if the last entry that gives this version a key gives it this one; all other entries are passed over |
| KeyTexts.ConfigureIff | apps/api/src/chat/chat-encryption.service.ts:25-63 | which configurations start with which ring and active version, and which error each other one meets, blank texts and versions that are no number included |
| KeyTexts.DecodeKeyIff | apps/api/src/chat/chat-encryption.service.ts:114-130 | a text is a key exactly if, without the spaces around it, it is 64 hexadecimal digits, or base64 of either alphabet for 32 bytes |
| KeyTexts.ParseIntIff | apps/api/src/chat/chat-encryption.service.ts:25-43 | a text reads as a number exactly if it begins with spaces, a sign or none, and that number in digits |
| KeyRing.DecryptsAfterRotation | apps/api/src/chat/chat-encryption.service.ts:65-112 | encryption fails exactly without the active key; what was encrypted decrypts under every ring that maps the version to the same key, and fails under one without it |
| KeyRing.MessagesSurviveRotation | apps/api/src/chat/chat-encryption.service.ts:25-112 | from configuration text to configuration text, whatever else changed, a message stays readable if its version is still listed with its key, in any encoding |
| KeyRing.ReadKeys | apps/api/src/chat/chat-encryption.service.ts:37-46 | the loop with its skipped entries computes the specified ring or the malformed-key error |
| PhotoPaging.PhotosAreComplete | apps/web/src/hooks/usePhotos.ts:24-102 | through uploads and deletions by both partners that spare the current cursor, no photo is shown twice, and at the end the rows shown are all but those the partner uploaded since |
| PhotoPaging.PhotosAreCompleteIff | apps/web/src/hooks/usePhotos.ts:24-102 | through any uploads and deletions by both partners, no photo is shown twice, and at the end all rows but the partner's new ones are shown if and only if no current cursor was deleted or no row older than the deleted photo is left |
| PhotoPaging.PhotosAreNewestFirst | apps/web/src/hooks/usePhotos.ts:24-102 | through any such run, whatever stands before a photo that was loaded is newer; photos uploaded here stand in front |
| PhotoPaging.LostIffRowsBehind | apps/api/src/gallery/gallery.service.ts:65-73 | when the cursor's photo is deleted, by its owner or the partner, paging ends with the next page, and nothing is lost if and only if no other row was behind it |
| PhotoPaging.OwnDeletionLosesPhotos | apps/web/src/hooks/usePhotos.ts:84-102 | with more photos than a page, deleting one's own last loaded photo before the next page loses all older ones |
| PhotoPaging.OwnDeletionHappens | apps/web/src/hooks/usePhotos.ts:84-102 | the run on a concrete album of 37 photos |
| PhotoPaging.DeletedCursorEndsPaging | apps/web/src/hooks/usePhotos.ts:34-46 | a page asked for behind a deleted photo adds nothing and ends paging for good |
| PhotosHook.PhotosHook.LoadMore | apps/web/src/hooks/usePhotos.ts:63-66 | the callback appends a page and moves the cursor only while there is more; no photo repeats, loaded photos stay newest first, and rows down to the last one loaded are shown but for the partner's new ones |
| PhotosHook.PhotosHook.Refetch | apps/web/src/hooks/usePhotos.ts:104-110 | paging begins anew, and a cut made by a deleted cursor is forgotten |
| PhotosHook.PhotosHook.DeletePhotos | apps/web/src/hooks/usePhotos.ts:92-102 | photos deleted together leave the list, gone already or not, the order of the others stays, and the cut is recorded where the cursor was among them |
| PhotosHook.PhotosHook.DeletePhoto | apps/web/src/hooks/usePhotos.ts:84-90 | a single photo leaves the list only if it was still there to delete |
| PhotosHook.DropIds | apps/web/src/hooks/usePhotos.ts:100-101 | the filter keeps exactly the other photos in order |

## Left out

- Great-circle distances and the station-name expressions: `near` and `normalize` are parameters of `Geography`.
- The lookup of a matched station by object identity: stations of one list are distinct objects, so it finds the position that matched.
- HTTP, Redis, Prisma, queue and socket internals: stores are maps with expiry and failure flags, the provider is an input, and its answers are logged so that results can be traced to them.
- Bodies are reduced to their first itinerary and whether they count as true; removing other fields from them and conversion to and from JSON text are not modelled.
- CoupleRoutes.AnalysisIsUncached: a request happens at one instant there; RouteInterleaving lets requests overlap and take time.
- RouteInterleaving.OverlappingAnalysesAreUncached: when one of the two parallel fetches fails, the model lets the other finish before the failure is returned; age bounds are stated in terms of the longest time a request takes.
- RouteInvalidation.EditsLeaveNothing: stated for requests that run one at a time; an analysis that overlaps an edit stores its entry after it, under the key of what it had read (RouteInterleaving.LateSaveOutlivesEdit).
- Cache lifetimes that are not numbers, where every inner write fails; and bucket sizes that are not whole numbers, which request validation rejects.
- The endpoint that computes two departures at once: two fetches under prefixes of their own.
- Dates outside the range the language can represent, and month queries for years before 100.
- Text as code units: lone surrogates are not modelled, and characters stand for themselves in escapes.
- Invite codes, expiry times (written, never checked), response times, e-mail texts and photo files removed on break-up.
- CoupleInterleaving.MembershipAlways: claims membership only; that every ACTIVE couple has its invite is in CoupleWhole, and which overlaps the other rules survive in CoupleOverlap, CoupleWhole and CoupleSchedules.
- CoupleOverlap.RulesHoldIfUsersApart: sufficient for any number of overlapping requests; exact conditions are stated for pairs of calls, in CoupleSchedules.
- MeetupStation.PartnersAgreeIffLeastIsUnique: needs no namesake beside a nearby station of another name; where there is one, NamesakeCanMislead shows that the uniqueness of the least pair decides nothing.
- A `send` whose payload names another couple or user: the gateway refuses it before it counts as activity (apps/api/src/chat/chat.gateway.ts:141-147), so it is no message here.
- React rendering, scroll positions, the visible window of the log and its sorting for display; queued state updates count as applied in order.
- Timers and intervals run on time; a handler runs without interruption between two awaits.
- ChatPaging.PagingShowsAllIff and ChatCuts.PagingShowsAllIffCuttable: no message older than the oldest one shown arrives during paging, and the log is not reloaded.
- ChatResync.ResyncConverges: the client has received something and nothing later than its last message; no new messages arrive between rounds.
- Parsing of the heartbeat's settings, with its fallback to defaults: both settings are positive whole numbers.
- Key versions from 2^53 on, which the language's numbers no longer tell apart.
- AES-GCM and SHA-256: an inverse pair and a function without collisions.
- How the runtime's base64 reader treats characters of neither alphabet: it passes over them here.
- PhotoPaging.PhotosAreComplete: creation times are distinct, and each callback's request and answer count as one step; runs begin with a first page.
- Rows and files of the gallery: identical uploads share one file, and removing one photo removes it for the other.
- OAuth, tokens other than their verified subject, validation pipes, profile and couple details.
