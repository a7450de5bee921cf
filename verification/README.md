# Verified model of the gift registry back end

A Dafny model of the parts of the back end that keep state under concurrency or under expiry
times, with proofs of what each of them promises over whole runs, and of five small
transformations. `dafny verify dfyconfig.toml` checks all of it.

| file | what it models |
|---|---|
| `GiftTables.dfy` | gift tables, the atomic meaning of a reservation and of each owner action |
| `GiftReservations.dfy` | reservations cut at their look-ups and statements, with row locks, interleaved with owner actions |
| `GiftSaves.dfy` | the same beside owner actions that read a row and save all of it later |
| `GiftPublic.dfy` | the gift service's own code: public page, reservation, cancel, thank, edit |
| `GiftEffects.dfy` | what each owner action writes and leaves alone, and what becomes of withdrawn items and shut lists |
| `GiftFriends.dfy` | friend requests, gift lists and the feed of friends' lists, over every run |
| `Redis.dfy`, `Counters.dfy` | keyspaces whose keys expire at a clock of whole seconds, which sessions, codes, limiters and the permission cache share; counters on them |
| `Sessions.dfy`, `SessionService.dfy` | the four-keyspace session store against one map of sessions; the repository's and service's code |
| `Otp.dfy` | registration codes: four expiring keys against one challenge |
| `RateLimiter.dfy`, `LoginLimiter.dfy` | the fixed-window limiters and the login handler's order of checks |
| `Authscope.dfy`, `Rbac.dfy`, `RbacService.dfy` | permission keys, the permission tables and their cache, the middleware's decision |
| `RbacRaces.dfy` | the same cache when a miss reads and fills in two steps and a mutation commits and clears in two |
| `RbacEffects.dfy` | what the operations on users, roles and permissions bring about, and what none does without a superadmin |
| `Revocation.dfy` | token revocation with a blacklist that is purged, and concurrent refresh calls |
| `Refresh.dfy` | refresh calls over the session store and the blacklist together: what the new tokens are worth |
| `SyncJobs.dfy` | location sync jobs: job rows, goroutines, the atomic flag, crashes and restarts |
| `Menus.dfy` | accessible menus by parent-chain walk and by breadth-first loop, and when the walk ends |
| `MenuService.dfy`, `Sorting.dfy` | a user's menus from the permission tables, in order, and the menu update that can make the walk endless |
| `Redaction.dfy` | redaction of JSON trees |
| `Lines.dfy` | the line normaliser |
| `Storage.dfy` | object URLs of the two storage adapters and the names read back from them |
| `Strings.dfy`, `Wrappers.dfy` | the few library functions and result types the rest rests on |

Each stateful component has two layers. A specification layer gives state, operations and runs as
functions and proves the properties as lemmas over every run. A class beside it holds the same
state in fields, changes it in the source's own steps, and each of its methods is proved to do
exactly the operation the lemmas are about. Where calls interleave (reservations, refresh calls,
sync jobs) the specification layer is a machine whose steps are the source's statements.

## What was found

* Reservations never exceed availability, whatever the interleaving with owner actions that are single
  steps, exactly when no edit stores a quantity below what is confirmed (`NeverOverbookedIffNeverUndercut`). `UpdateItem` does
  not check for that, so README.md:241 of the repository promises more than the code keeps
  (`UndercutHappens`).
* Saving a thank-you read before a cancellation revives the cancelled reservation; the item is
  then overbooked exactly when the revived quantity is no longer free (`StaleThanksRevives`). An edit of
  an item is saved in the same way and puts the quantity it read back (`StaleEditOverbooksIff`). With
  these reads and saves as steps of their own, no item is overbooked exactly when no edit stores less
  than is confirmed, no save revives without room, and no commit finds its room gone
  (`NeverOverbookedIff`); a commit does exactly when saves have since revived more than was left
  (`CommitOverbooksIff`), which can happen without any other move overbooking (`RevivedBeforeCommit`).
* The list is looked up before the transaction and not again: when a reservation is committed the list
  is still open exactly when every edit, deletion or expiry that shut it since has been undone
  (`OpenAtCommitIff`, `ShutListStillReserves`).
* A window-long interval admits at most `2 * limit - 1` requests, one less than twice the limit,
  and that is reached (`RateLimiter.BoundIsTight`). Failed logins in an interval as
  long as the shorter of window and block are at most one when the limit is one and `2 * limit - 2`
  above, and that is reached too (`LoginLimiter.BoundIsTight`).
* A user's session set stays complete exactly when no login or rotation is given an expiry before
  that of another live session of the user (`CreateKeepsCompleteIff`, `RotateKeepsCompleteIff`). One
  constant lifetime, which is what the service uses, is enough (`SetsStayComplete`).
* The permission cache agrees with the tables after every operation when misses and mutations are single
  steps. When a miss reads first and writes later, and a mutation commits first and clears later, each
  entry agrees or is about to be cleared in every state if no such write is straddled by an operation
  that changes what its user holds and has already cleared; a single such operation always makes the
  entry wrong, two can cancel out (`CoherentIffNotStraddled`, `TwoMayCancel`). Which operations those are
  is read off the tables before them (`DisturbsIffKeysChange`). A revoked permission is then still let
  through (`RevokedStillAllowed`), by each such entry for less than one cache lifetime from the write
  that made it (`StaleEntriesDie`).
* Over every run without a superadmin's call the superadmins, and the grants of the system role of that
  name, stay what they were (`SuperadminsStay`, `SuperGrantsStay`). It is the system mark that guards the
  role: one that merely has the name is reassigned by anybody (`NameAloneIsNoGuard`).
* The permission middleware answers every request of a user by the permissions held exactly when each of
  those that has a key can be read back from it (`DecisionsAreRightIff`).
* Deleting a role, or a user, changes no decision of the middleware: the code reads a user's grants
  without looking at the role's row or at either deletion mark (`DeletedRoleStillGrants`,
  `DeletedRoleIsAllowed`).
* A permission key is read back as it was written exactly when its resource has no colon, or
  something before its first colon and no blank beside it (`KeySurvivesIffPlain`). It belongs to another
  permission as well exactly when it has a colon, other than the one behind its resource, with something
  on both sides and no blank beside it (`KeyIsSharedIff`).
* The call of `ResolveAccessibleMenus` ends exactly when the walk from every permitted menu does
  (`CallEndsIff`); a menu made its own parent, which `MenuService.Update` allows, hangs it
  (`OwnParentNeverEnds`). An update keeps all walks finite exactly when the menu is out of use or its new
  parent does not lead back to it (`UpdateKeepsWalksIff`). The breadth-first loop always ends.
* The tokens of a refresh call that reports success resolve to its session exactly until the session
  runs out, is destroyed, or is rotated by another call, which can happen before the answer
  (`IssuedTokensResolveIff`, `SuccessMayBeWorthless`).
* The access check never reads the session store: a token whose session was replaced or destroyed is
  accepted as before, until it expires or is itself revoked (`AcceptedWhateverSessions`,
  `EndedButAccepted`, `ReplacedTokenIsAccepted`).
* Object names are read back from their URLs under exactly the conditions of `MinioRoundTripIff` and
  `R2RoundTripIff`; the second also holds for some base URLs with several trailing slashes.

## Model

| member | source | states |
|---|---|---|
| GiftTables.SumAfterSave | internal/repositories/gift/gift.go:181-187 | saving over one reservation row moves a confirmed sum by exactly the difference of the two rows' shares |
| GiftTables.ActOnSum | internal/services/gift/service.go:182-287 | of all owner actions only an effective cancel moves a confirmed sum, downwards by exactly the cancelled quantity |
| GiftTables.CancelTwiceFreesOnce | internal/services/gift/service.go:265-287 | the first cancel of a confirmed reservation frees its quantity, a second one by anybody frees nothing |
| GiftTables.ActOverbooksIffUndercuts | internal/services/gift/service.go:182-222 | an owner action leaves some item overbooked exactly when it stores a quantity below the confirmed sum |
| GiftTables.ReserveKeepsSound | internal/repositories/gift/gift.go:172-195 | the atomic reservation keeps every item within its quantity |
| GiftReservations.EveryStateSound | internal/repositories/gift/gift.go:172-195 | in every interleaving, while a transaction holds its item's lock the row is the one it read and the true sum is at most the one it read |
| GiftReservations.CommitMeetsVerdict | internal/repositories/gift/gift.go:181-193 | the comparison made with a stale sum is still the right one at the commit |
| GiftReservations.RunsAreSequential | internal/repositories/gift/gift.go:172-195 | every interleaving is a sequential history of atomic reservations and owner actions: same tables, every answer the atomic one, finished transactions in it once with their answer, unstarted and rolled-back ones without effect |
| GiftReservations.NeverOverbookedIffNeverUndercut | README.md:241 | over every interleaving no item is promised beyond its quantity exactly when no owner edit undercuts a confirmed sum |
| GiftReservations.UndercutHappens | internal/services/gift/service.go:205-217 | a run in which an owner edit overbooks an item |
| GiftReservations.StaleThanksRevives | internal/services/gift/service.go:245-263 | saving a row read earlier overbooks exactly when the row was cancelled meanwhile and its quantity is no longer free |
| GiftReservations.StaleThanksOverbooks | internal/services/gift/service.go:245-287 | tables in which cancel, a new reservation and a stale thank-you overbook an item |
| GiftReservations.StaleEditOverbooksIff | internal/services/gift/service.go:182-222 | saving a patched item row read earlier overbooks exactly when the quantity it stores, the one read if the edit names none, is below what is confirmed by then |
| GiftReservations.StaleEditOverbooks | internal/services/gift/service.go:182-222 | tables in which a raised quantity, a reservation and a stale edit without a quantity overbook an item |
| GiftReservations.OpenChangesIff | internal/services/gift/service.go:97-148 | a step changes whether a list is open exactly when a guard on the state before it holds: an edit, deletion or expiry that shuts it, an edit that opens it |
| GiftReservations.OpenAtCommitIff | internal/services/gift/service.go:420-451 | at a commit the list looked up before is still open exactly when every shutting since the look-up has been undone |
| GiftReservations.ShutListStillReserves | internal/services/gift/service.go:420-447 | a run in which the list is deleted after the look-up and the reservation is committed |
| GiftEffects.ActTouchesOwnRows | internal/services/gift/service.go:86-95 | an owner action changes only rows under a live list of the actor's, and removes none |
| GiftEffects.ActWritesOneRow | internal/services/gift/service.go:182-287 | it writes one row and leaves every other as it was |
| GiftEffects.EditWrites | internal/services/gift/service.go:182-222 | an edit gives each named field the value given, keeps each unnamed one, the list and the deletion mark; a quantity below one changes nothing |
| GiftEffects.DropAndAddWrite | internal/services/gift/service.go:150-173 | a drop marks the row deleted; an added item is live, active, unarchived, on that list, in the given quantity |
| GiftEffects.CancelAndThankWrite | internal/services/gift/service.go:245-287 | a cancel changes status and canceller alone, a thank-you the thanks alone |
| GiftEffects.ListEditWrites | internal/services/gift/service.go:97-141 | each named part of a list edit takes effect, each unnamed one is kept, a new expiry ends never expiring and never expiring drops the expiry |
| GiftEffects.ReserveWrites | internal/repositories/gift/gift.go:172-195 | an accepted reservation adds one confirmed row for that item and quantity and changes no other; any other answer changes nothing |
| GiftEffects.ShownTellsRow | internal/services/gift/service.go:504-543 | what a page says of an item: quantity, archive mark, reserved exactly when nothing is left, reservable exactly when something is and it is not archived |
| GiftEffects.NotFoundIffOnNoPage | internal/repositories/gift/gift.go:174-178 | a reservation is answered not found exactly for an item on no public page |
| GiftEffects.ListedIsDecided | internal/repositories/gift/gift.go:181-194 | for an item on a page: accepted from one to what is left, refused above with how much that is, refused below one |
| GiftEffects.WithdrawnIsNotFound | internal/services/gift/service.go:211-216 | an item dropped, deactivated or archived by its owner is on no public page and no reservation of it is accepted |
| GiftEffects.ArchivedStaysWithOwner | internal/repositories/gift/gift.go:103-111 | archiving leaves an item on its owner's own page, deactivating hides it there too |
| GiftEffects.BroughtBackIsAsBefore | internal/services/gift/service.go:211-216 | archived and brought back, or deactivated and activated, an item is as before and every reservation is answered as before |
| GiftEffects.AddedIsShown | internal/services/gift/service.go:150-173 | a new item is on its list's page and no other, all of it free |
| GiftEffects.ShutListOpensNowhere | internal/services/gift/service.go:453-472 | a list hidden, deactivated, expired or deleted by its owner opens under no code |
| GiftEffects.OpenedListOpens | internal/services/gift/service.go:453-472 | made public and active with an expiry to come or none, it opens under its code |
| GiftEffects.TypedCodeOpens | internal/services/gift/service.go:454 | a code typed in lower case with blanks around it opens what the code opens |
| GiftEffects.LockFindsWhatStands | internal/repositories/gift/gift.go:174-178 | over every run a transaction's locking read answers not found exactly when there is no such item or its owner has dropped it, last deactivated it or last archived it |
| GiftEffects.AnswersStay | internal/repositories/gift/gift.go:172-195 | an answer given stays given |
| GiftEffects.WhoWaits | internal/repositories/gift/gift.go:174-178 | only an effective edit or drop of a locked item waits |
| GiftSaves.SavesWrite | internal/services/gift/service.go:245-287 | a save puts back the row as read but for the thanks, or for the cancellation |
| GiftSaves.NeverOverbookedIff | internal/services/gift/service.go:182-287 | with owner reads and saves as separate steps, over every interleaving no item is overbooked exactly when no edit or item save undercuts, no save revives without room and no commit finds its room gone, each a guard on the state before the move |
| GiftSaves.SumMoves | internal/services/gift/service.go:245-287 | the exact amount by which any move raises or lowers an item's confirmed sum |
| GiftSaves.CommitOverbooksIff | internal/repositories/gift/gift.go:181-193 | a commit overbooks exactly when saves have revived more since its sum than cancellations have freed and its comparison left over |
| GiftSaves.RevivedBeforeCommit | internal/services/gift/service.go:245-263 | a run in which every save has room and the commit overbooks all the same |
| GiftPublic.ShownIsReservable | internal/services/gift/service.go:504-543 | a shown item accepts any quantity up to the shown remainder and no more; `canReserve` is the case of one; archived items accept none |
| GiftPublic.ReservingLowersRemainder | internal/services/gift/service.go:504-543 | after a reservation of q the item shows q less and every other item the same |
| GiftPublic.DistinctCount | internal/services/gift/service.go:383-391 | the counting loop over responses with distinct ids gives the size of the set of free items |
| GiftPublic.GiftService.GetReservedQuantities | internal/repositories/gift/gift.go:148-170 | the grouped sums are the per-item sums, with an entry for exactly the asked items that have a confirmed reservation |
| GiftPublic.GiftService.GetItemsByList | internal/repositories/gift/gift.go:103-111 | exactly the list's active items, archived ones if asked for, each once |
| GiftPublic.GiftService.BuildItemResponses | internal/services/gift/service.go:504-543 | each selected item once, with the remainder its confirmed sum leaves, not below zero |
| GiftPublic.GiftService.GetPublicList | internal/services/gift/service.go:453-472 | opens exactly the live public active unexpired list with the normalised code; which error otherwise |
| GiftPublic.GiftService.GetPublicItems | internal/services/gift/service.go:412-418 | for every item on the page and every q >= 1, reserving q through the same code succeeds exactly when q is at most the shown remainder |
| GiftPublic.GiftService.CountPublicItems | internal/services/gift/service.go:383-394 | the available count is the number of items one of which can be reserved; both counts add up to the number of public items |
| GiftPublic.GiftService.CreateReservationWithAvailability | internal/repositories/gift/gift.go:172-195 | run alone, the transaction is the atomic reservation, answer and tables |
| GiftPublic.GiftService.CreatePublicReservation | internal/services/gift/service.go:420-451 | succeeds exactly on an open list that shows the item with enough left; failure changes nothing; which failure |
| GiftPublic.GiftService.CancelReservation | internal/services/gift/service.go:265-287 | is the owner action the lemmas speak of; refused exactly to those who do not own the list |
| GiftPublic.GiftService.MarkReservationThanked | internal/services/gift/service.go:245-263 | is the owner action the lemmas speak of; refused exactly to those who do not own the list |
| GiftPublic.GiftService.UpdateItem | internal/services/gift/service.go:182-222 | is the owner action the lemmas speak of; refused also by the table's check on the quantity |
| GiftPublic.GiftService.UpdateList | internal/services/gift/service.go:97-141 | is the owner action the lemmas speak of; a new expiry makes the list expire, and never expiring removes it |
| GiftPublic.GiftService.DeleteList | internal/services/gift/service.go:143-148 | is the owner action the lemmas speak of; refused exactly to those who do not own the list |
| GiftFriends.FriendshipsAreMutual | internal/services/gift/service.go:293-332 | over every run: one live row per unordered pair, none with oneself, and each row's history ends with the request by its requester and, once answered, the answer of its addressee |
| GiftFriends.DoTells | internal/services/gift/service.go:474-491 | one operation extends a row's history as its new status says |
| GiftFriends.RequestConnects | internal/services/gift/service.go:293-332 | a request leaves the two connected, pending from the user unless they were pending or friends before, and every other row as it was |
| GiftFriends.AnswerTakesEffect | internal/services/gift/service.go:474-491 | the addressee of a live pending row answers it, and an acceptance makes them friends; anybody else changes nothing |
| GiftFriends.RemovalTakesEffect | internal/services/gift/service.go:356-368 | either party's removal leaves the two unconnected, anybody else's changes nothing |
| GiftFriends.CreatedListOpens | internal/services/gift/service.go:51-80 | a new list is open under its code exactly if public and never expiring, as by default, or not yet expired |
| GiftFriends.GeneratedIsNormal | internal/services/gift/service.go:66 | a generated share code is unchanged by the normalisation applied when it is looked up |
| GiftFriends.FeedIsFriendsOpenLists | internal/repositories/gift/gift.go:76-91 | a list is in the feed exactly when its owner is an accepted friend and its share code opens it, and only it, at that moment; never a list of one's own |
| GiftFriends.FriendService.RequestFriend | internal/services/gift/service.go:293-332 | the new rows are those of the modelled request; the answer names a live row between the two; which error |
| GiftFriends.FriendService.UpdateFriendStatus | internal/services/gift/service.go:474-491 | only the addressee of a live pending row can answer it; the rest is unchanged; which error |
| GiftFriends.FriendService.DeleteFriend | internal/services/gift/service.go:356-368 | either party can remove a live row and nobody else; which error |
| Sessions.TokensResolveToHolders | internal/repositories/session/session_repo.go:105-131 | an access or refresh token resolves to exactly the live session that holds it |
| Sessions.SetIsUsersSessions | internal/repositories/session/session_repo.go:83-103 | a user's set less its dead ids is exactly the user's live sessions |
| Sessions.StoreRefinesMap | internal/repositories/session/session_repo.go:32-243 | over every run of create, rotate, touch, delete, prune and clock ticks the four keyspaces are one plain map of live sessions |
| Sessions.CreateKeepsCompleteIff | internal/repositories/session/session_repo.go:50-53 | for any expiry, a login leaves every user set complete exactly when no live session of the same user outlives it |
| Sessions.RotateKeepsCompleteIff | internal/repositories/session/session_repo.go:201-243 | the same for a rotation and the user's other sessions |
| Sessions.SetsStayComplete | internal/services/session/session_service.go:25-58 | over every run with one lifetime no user set expires before, or loses, a live session |
| Sessions.RotationRetiresTokens | internal/repositories/session/session_repo.go:201-243 | after a rotation the new tokens resolve to the session and each replaced one to nothing, even if the other is kept |
| Sessions.ShorterLoginHides | internal/repositories/session/session_repo.go:50-53 | a state and a shorter login that make a user set incomplete |
| SessionService.SessionRepository.GetByUserID | internal/repositories/session/session_repo.go:83-103 | returns exactly the user's live sessions, each once, and drops the dead ids from the set |
| SessionService.SessionRepository.Delete | internal/repositories/session/session_repo.go:160-184 | removes that session and no other, keeping the store coherent and the sets complete |
| SessionService.SessionRepository.DeleteByUserID | internal/repositories/session/session_repo.go:186-199 | none of the user's sessions is left, everyone else's are untouched |
| SessionService.SessionRepository.RotateTokens | internal/repositories/session/session_repo.go:201-243 | the pipeline's commands do the modelled rotation; refused without a session or with an expiry already past |
| SessionService.SessionRepository.ValidateSession | internal/services/session/session_service.go:60-78 | succeeds exactly on an access token some live session holds; its own expiry branch is never taken |
| SessionService.SessionRepository.DestroyOtherSessions | internal/services/session/session_service.go:134-149 | of the user's sessions only the current one is left, everyone else's are untouched |
| SessionService.SessionRepository.DestroySessionByToken | internal/services/session/session_service.go:106-112 | ends the session that holds the token, after which neither of its tokens resolves |
| Otp.StateTracksChallenge | internal/repositories/otp/otp_repo.go:26-52 | over every run the stored keys are the one open challenge: the guess counter is there, right, for as long as the code is |
| Otp.AnswersAreTheChallenges | internal/services/otp/otp_service.go:105-149 | every verification answers as the challenge does; the branch for a counter above the maximum is never taken |
| Otp.GuessesAreLimited | internal/services/otp/otp_service.go:116-148 | at most `MaxAttempts` guesses are compared against one stored code and at most one of them succeeds, however time passes |
| Otp.CooldownIsExact | internal/services/otp/otp_service.go:57-63 | over every run a send is told to wait exactly while the cooldown after the last delivered, unspent code runs, and told for how long |
| Otp.RateLimitIsExact | internal/services/otp/otp_service.go:65-73 | a send that need not wait is refused for its number exactly when the window has already counted the limit |
| Otp.SendsAreLimited | internal/repositories/otp/otp_repo.go:66-81 | no interval as long as the rate window sees 2 * limit codes stored for an address, without a verification or failed delivery in between |
| Otp.NoMaximumNoBound | internal/services/otp/otp_service.go:127-142 | without a positive maximum any number of guesses is compared |
| Otp.Service.SendRegisterOTP | internal/services/otp/otp_service.go:47-103 | the steps of a send, failed delivery included, are the modelled operation |
| Otp.Service.VerifyRegisterOTP | internal/services/otp/otp_service.go:105-149 | the steps of a verification are the modelled operation |
| RateLimiter.IntervalBound | middlewares/rate_limiter.go:36-64 | any half-open interval as long as the window admits at most 2 * limit - 1 requests of a key |
| RateLimiter.WindowAdmitsLimit | middlewares/rate_limiter.go:86-114 | a counting window admits exactly its first `limit` requests |
| RateLimiter.BoundIsTight | middlewares/rate_limiter.go:36-64 | for every limit and every window above one second some run admits 2 * limit - 1 in one interval |
| RateLimiter.Limiter.Allow | middlewares/rate_limiter.go:20-66 | counts the request and lets it through exactly while the count is within the limit; without a positive limit and window lets everything through |
| LoginLimiter.StateTracksWindow | pkg/security/login_limiter.go:48-107 | over every run the stored keys are the key's current counting window or block, read off the history alone |
| LoginLimiter.WindowIsExact | pkg/security/login_limiter.go:65-93 | a counting window's count is all the failures counted between its start and its end |
| LoginLimiter.WindowCountsLimit | internal/handlers/http/user/user.go:433-480 | from a window's first failure to its end, or that of the block it triggers, at most `limit` failures are counted, and then no password is checked before that end |
| LoginLimiter.IntervalBound | pkg/security/login_limiter.go:65-93 | without a login in between, an interval as long as the shorter of window and block counts at most one failure for a limit of one, and 2 * limit - 2 above |
| LoginLimiter.BoundIsTight | pkg/security/login_limiter.go:65-93 | for every limit, and windows and blocks above one second, some run counts that many |
| LoginLimiter.Limiter.IsBlocked | pkg/security/login_limiter.go:48-63 | blocked exactly while the block key lives, with the seconds it has left |
| LoginLimiter.Limiter.RegisterFailure | pkg/security/login_limiter.go:65-93 | the counting, or the block that replaces it, whether the key is blocked now, and for how long block or window still last |
| LoginLimiter.Limiter.HandleLogin | internal/handlers/http/user/user.go:433-480 | the password is looked at exactly when the key is not blocked; the new state for each outcome |
| Authscope.KeySurvivesIffPlain | internal/authscope/context.go:109-116 | a written key is read back as itself exactly when its resource is plain |
| Authscope.KeyIsCut | internal/authscope/context.go:76-84 | a written key is cut where its resource ends, into the normalised resource and action |
| Authscope.CutIsKey | internal/authscope/context.go:76-84 | the two sides of any cut of a key write that key |
| Authscope.KeyIsSharedIff | internal/authscope/context.go:76-84 | a key belongs to another permission as well exactly when it has a cut besides the end of its resource |
| Authscope.KeysAreInjective | internal/authscope/context.go:76-84 | so keys of resources without a colon tell permissions apart, whatever their actions |
| Authscope.ColonsConfuse | internal/authscope/context.go:76-84 | so `x:y` with `z` and `x` with `y:z` share one key, also for an empty `y` |
| Rbac.EveryStateCoherent | internal/services/role/service.go:147-201 | over every run of role, permission and user operations each cached list is what the tables give now |
| Rbac.MiddlewareDecidesFromTables | middlewares/auth.go:149-236 | in every reachable state the decision is the one without the cache, and if the user's permissions can be read back it is: superadmin claim, or a matching permission held at that moment |
| Rbac.DecisionsAreRightIff | middlewares/auth.go:149-236 | for an ordinary claim of a known user, in every reachable state: all requests are answered by the permissions held exactly when each of those that has a key is plain |
| Rbac.KeyTestIsRightIff | internal/authscope/context.go:25-41 | the key test agrees with the permissions held on every request exactly under that condition |
| Rbac.AssignedIsHeld | internal/repositories/role/role.go:40-66 | after an assignment a user of the role holds exactly the assigned permissions |
| Rbac.DeletedRoleStillGrants | internal/repositories/permission/permission.go:45-77 | after every run, deleting a role or a user leaves the middleware's answer to every claim and request as it was |
| Rbac.DeletedRoleIsAllowed | internal/services/role/service.go:147-162 | a run after which a deleted user of a deleted role is let through |
| RbacEffects.SuperadminsStay | internal/services/user/user_service.go:330-386 | over every run without a call by a superadmin the users with role superadmin are those there were |
| RbacEffects.SuperGrantsStay | internal/services/role/service.go:164-195 | over such runs the system role named superadmin stays live and its grants stay the same |
| RbacEffects.StepKeepsSystemRoles | internal/services/role/service.go:147-162 | no operation deletes or renames a system role |
| RbacEffects.NameAloneIsNoGuard | internal/services/role/service.go:171-182 | a role named superadmin is reassigned by somebody else exactly when it lacks the system mark |
| RbacEffects.RolesNeedEntitlement | internal/services/user/user_service.go:359-366 | without superadmin, key or held permission nobody's role is changed and none but viewers are created |
| RbacEffects.RoleChangeTakesEffect | internal/services/user/user_service.go:330-386 | an entitled change to a live role's name writes that user's role and nothing else, unless a superadmin is touched by somebody who is none |
| RbacEffects.AssignTakesEffect | internal/services/role/service.go:164-195 | an assignment of live permissions takes effect, except on a system role without the right to it |
| RbacEffects.WhoHoldsWhat | internal/repositories/permission/permission.go:45-77 | a superadmin holds every live permission, a user without a role none, any other the live ones granted to the role |
| RbacEffects.PermissionUpdateWrites | internal/services/permission/service.go:70-94 | an update writes the parts it names of that permission alone |
| RbacEffects.PermissionComesAndGoes | internal/services/permission/service.go:30-52 | a deleted permission is held by nobody, a new one by superadmins at once |
| RbacEffects.RegisteredAreMembers | internal/services/user/user_service.go:67-85 | who registers becomes a member, without a say in it |
| RbacEffects.MiddlewareRefuses | middlewares/auth.go:149-236 | which answer each claim gets that is not let through |
| RbacEffects.MiddlewareWrites | middlewares/auth.go:182-234 | the middleware writes the cache on a known user's miss alone and never the tables |
| RbacRaces.DisturbsIffKeysChange | internal/services/role/service.go:147-201 | an operation changes a user's keys exactly when a guard on the tables before it holds: one guard each for assignments, role changes, and permissions created, patched or deleted |
| RbacRaces.CoherentIffNotStraddled | middlewares/auth.go:182-234 | with misses and mutations in two steps each and anything in between, every entry agrees or is about to be cleared in every state if no fill is straddled by a disturbing operation that has cleared, and only then among runs in which none is straddled by two; in general exactly when every fill writes what the tables give, or what is still to be cleared |
| RbacRaces.CommitThenClear | internal/services/role/service.go:164-201 | committing and then clearing is the whole operation of the one-step model |
| RbacRaces.TwoMayCancel | middlewares/auth.go:182-234 | a run in which two disturbing operations cancel out and the straddled fill is right |
| RbacRaces.StaleEntriesDie | internal/cache/permission/cache.go:39-49 | a wrong entry that is not about to be cleared was filled from a disturbed read, less than one cache lifetime before |
| RbacRaces.RevokedStillAllowed | middlewares/auth.go:182-234 | a run after which a permission nobody gives the user any more is let through |
| RbacRaces.LateFillIsStale | middlewares/auth.go:182-234 | with one operation between read and write the entry is wrong exactly when its guard held before it |
| RbacService.Services.PermissionKeysFromPermissions | middlewares/auth.go:238-247 | the keys of the given permissions, in order and as often as they occur, without the empty ones |
| RbacService.Services.PermissionMiddleware | middlewares/auth.go:149-236 | one cache read and at most one write reach the modelled decision and keep the cache right |
| RbacService.Services.DeleteAllUserPermissionKeys | internal/cache/permission/cache.go:71-90 | the scan leaves nothing in the cache that could be read, tables untouched, if its pages hold every live key |
| RbacService.Services.ReplaceGrants | internal/repositories/role/role.go:40-66 | the role's grants become exactly the given ones, all or nothing; a repeated id is refused |
| RbacService.Services.AssignPermissions | internal/services/role/service.go:164-201 | succeeds exactly when the caller may and the permissions exist, and then tables and cache are the modelled ones |
| RbacService.Services.ChangeUserRole | internal/services/user/user_service.go:330-386 | succeeds exactly when the caller may and a live role has the name, takes that role's id, and clears the one user's entry |
| RbacService.Services.UpdatePermission | internal/services/permission/service.go:70-94 | patches the non-empty fields of a live permission and empties the cache |
| Revocation.AlwaysKept | internal/repositories/auth/blacklist.go:26-50 | a token is revoked at most once and its row goes only once it has expired |
| Revocation.AcceptedIffNeverRevoked | middlewares/auth.go:40-90 | at any moment a token is accepted exactly when it is signed, before its expiry, an access token and never revoked, purging notwithstanding |
| Revocation.RefreshedAtMostOnce | internal/handlers/http/user/user.go:692-896 | however refresh calls and logouts interleave, at most one refresh call per token reports success |
| Revocation.SuccessNeedsRefreshToken | internal/handlers/http/user/user.go:701-740 | only a signed refresh token that can expire ever brings a refresh call to success |
| Revocation.WorthlessTokenRevokesNothing | internal/services/user/user_service.go:207-226 | a token unsigned, expired or without expiry revokes nothing |
| Revocation.SecondLogoutIsRefused | internal/services/user/user_service.go:207-226 | any other is revoked by a first logout, accepted no more, and refused by a second |
| Revocation.BlacklistIsMinimal | internal/repositories/auth/blacklist.go:26-36 | right after a logout the table holds exactly the revoked tokens that are still valid |
| Revocation.AuthService.DeleteExpired | internal/repositories/auth/blacklist.go:46-50 | removes exactly the rows whose expiry has passed |
| Revocation.AuthService.Logout | internal/services/user/user_service.go:207-226 | the steps of a logout are the modelled revocation, refused for an invalid, non-expiring or already revoked token |
| Refresh.IssuedTokensResolveIff | internal/handlers/http/user/user.go:825-882 | at any moment of any run the tokens a refresh call issued resolve to its session exactly while the session lives and nothing has rotated it over or destroyed it since, and otherwise both resolve to nothing |
| Refresh.SuccessMayBeWorthless | internal/handlers/http/user/user.go:825-882 | a run in which a call reports success and neither of its tokens resolves |
| Refresh.SeenMatches | internal/handlers/http/user/user.go:692-896 | every run over sessions and blacklist is a run of the blacklist alone, so its theorems hold of it |
| Refresh.AcceptedWhateverSessions | middlewares/auth.go:40-90 | over such runs an access token is accepted exactly when it is valid and was never revoked, whatever happened to its session, and a refresh token brings one success at most |
| Refresh.EndedButAccepted | middlewares/auth.go:40-90 | a token whose session is destroyed or given other tokens resolves to nothing and is accepted as before |
| Refresh.ReplacedTokenIsAccepted | middlewares/auth.go:40-90 | a run after which a replaced access token is accepted |
| Refresh.WorthAfter | internal/repositories/session/session_repo.go:201-243 | one action of anybody keeps the issued tokens the session's own, or takes it from them for good |
| SyncJobs.EveryStateSound | internal/services/location/service.go:185-307 | in every reachable state at most one row is running, every active row has a goroutine or the call about to start it, and the flag is set exactly while a goroutine holds it |
| SyncJobs.TakenIffCodesAbove | internal/services/location/service.go:232-260 | a request is taken exactly for everything, or for one of the four levels with a code for each level above it |
| SyncJobs.StatusesMoveForward | internal/services/location/service.go:262-325 | every step keeps all rows, adds only queued ones, and moves a status along queued, running, completed or failed, or queued, failed |
| SyncJobs.WorkersAreIndependent | internal/services/location/service.go:262-307 | a goroutine can always take its next step, and only its own steps or a crash move it |
| SyncJobs.OwnStepAdvances | internal/services/location/service.go:262-325 | a goroutine's own step brings it closer to its end, where its row is finished |
| SyncJobs.WorkersFinish | internal/services/location/service.go:262-325 | from every reachable state a goroutine's own steps finish its row and disturb no other goroutine |
| SyncJobs.LocationService.constructor | internal/services/location/service.go:54-56 | a start fails exactly the rows left queued or running |
| SyncJobs.LocationService.StartSync | internal/services/location/service.go:185-260 | refused for a bad level or a missing code, and then exactly while some row is active; otherwise one new queued row with a goroutine of its own; what it does is a run of the machine |
| SyncJobs.LocationService.RunSyncJob | internal/services/location/service.go:262-307 | ends its row completed or failed as the sync came out, or failed if another goroutine holds the flag; flag and other rows as before; what it does is a run of the machine |
| Menus.LeastIsAccessible | internal/services/shared/menu_access.go:12-52 | the least covering set is exactly the permitted menus and their usable ancestors |
| Menus.LeastIsUnique | internal/services/shared/menu_access.go:12-52 | there is only one such set |
| Menus.LoadWithParents | internal/repositories/menu/menu.go:66-117 | ends on every table, cyclic ones included, with exactly the least covering set, each menu once |
| Menus.ResolveAccessibleMenus | internal/services/shared/menu_access.go:12-52 | with unique names and walks that end, the least covering set, in the order of the active menus and each menu as often as there |
| Menus.BothAgree | internal/services/shared/menu_access.go:12-52 | both algorithms give the same set, the accessible menus |
| Menus.CallEndsIff | internal/services/shared/menu_access.go:12-52 | the whole call ends exactly when the walk from every permitted menu does |
| MenuService.MenuService.GetActiveMenus | internal/repositories/menu/menu.go:42-47 | every usable menu once, by its order number |
| MenuService.MenuService.GetUserMenus | internal/repositories/menu/menu.go:49-127 | nothing for an unknown user, all active menus for the superadmin, none without a role, else the least covering set of the role's resources, sorted by order and display name |
| MenuService.MenuService.WalkUserMenus | internal/services/menu/service.go:38-58 | the walk over the resources of the user's permissions gives their least covering set, each menu once and by order number, for a user with a role that of the role |
| MenuService.SameMenus | internal/repositories/menu/menu.go:66-117 | a user with a role gets the same menus from both, unless a menu's name is blank |
| MenuService.MenuService.Update | internal/services/menu/service.go:60-91 | patches a live menu's display name, parent, order and activity; refused for a parent that is no menu |
| MenuService.UpdateWrites | internal/services/menu/service.go:60-91 | an update writes the parts it names of that menu and keeps all else |
| MenuService.InactiveIsHidden | internal/services/menu/service.go:82-84 | a menu put out of use is in nobody's menus |
| Sorting.LexLeqIff | internal/repositories/menu/menu.go:119-124 | the order of display names: a beginning first, and otherwise by the first difference |
| MenuService.UpdateKeepsWalksIff | internal/services/menu/service.go:60-91 | from tables in which every walk ends, an update keeps that exactly when the menu is out of use or its new parent does not lead back to it |
| MenuService.OwnParentNeverEnds | internal/services/menu/service.go:75-77 | an allowed update after which the call with that menu permitted never ends |
| Menus.WalkEndsIffNoRepetition | internal/services/shared/menu_access.go:28-40 | the parent walk ends exactly when no usable ancestor comes round again, and then within the size of the table |
| Redaction.Idempotent | utils/audit.go:66-104 | redacting again changes nothing |
| Redaction.SameRedactionIffSameOutside | utils/audit.go:66-104 | two trees redact to the same tree exactly when they differ only below sensitive keys |
| Redaction.KeptOutside | utils/audit.go:66-104 | at a path that crosses no sensitive key there is the redaction of what was there, and nothing where there was nothing |
| Redaction.HiddenInside | utils/audit.go:85-96 | at and below a sensitive key there is only the mark |
| Redaction.MarkedAt | utils/audit.go:85-96 | where a sensitive key stood there is the mark |
| Redaction.SensitiveIff | utils/audit.go:77-83 | a key is sensitive exactly when one of the four words occurs in it, in whatever case |
| Redaction.PayloadIsRedacted | utils/audit.go:61-104 | with the source's own rule: nothing but the mark at or below a key with one of the words in it, and every other path leads to what it led to, redacted |
| Redaction.RedactSensitiveValue | utils/audit.go:66-75 | the recursive methods that fill new maps and slices compute the redaction the lemmas are about |
| Redaction.RedactSensitiveMap | utils/audit.go:85-96 | the loop over fields gives the redacted object, whatever order it takes them in |
| Redaction.RedactSensitiveSlice | utils/audit.go:98-104 | the loop over items gives the redacted array |
| Lines.UnchangedIffTidy | utils/string.go:37-58 | the clean-up leaves exactly the tidy texts alone (no outer white space, no two adjacent spaces, no two adjacent blank lines), and cleaning twice is cleaning once |
| Lines.NormalIsTidy | utils/string.go:37-58 | every result is tidy |
| Lines.WordsAreKept | utils/string.go:44 | the words come out the same, in the same order |
| Lines.PairIsOneBreak | utils/string.go:38 | a carriage return and line feed are one break, whatever stands around them |
| Lines.LoneReturnIsBreak | utils/string.go:39 | a carriage return without a line feed is one break |
| Lines.EndingsDoNotMatter | utils/string.go:38-40 | the result is the same whichever of the three endings the lines have |
| Lines.NormalAcrossGap | utils/string.go:43-56 | between two words a stretch of white space becomes a space, one break or one blank line, for no break, one, or more in it, and the text on either side is cleaned on its own |
| Lines.LineStep | utils/string.go:43-56 | one turn of the loop keeps what is collected and what is still to scan equal to the whole result |
| Lines.PreserveNewlines | utils/string.go:37-58 | the loop over lines computes the one-scan form: words one space apart on a line, one break on neighbouring lines, one blank line otherwise |
| Storage.MinioRoundTripIff | pkg/storage/minio_adapter.go:120-151 | a non-empty object name is read back from its URL exactly when the bucket has no slash and no part of the base URL equals it |
| Storage.ExtractMinioName | pkg/storage/minio_adapter.go:132-151 | the search loop finds the first part equal to the bucket and returns what follows |
| Storage.R2RoundTripIff | pkg/storage/r2_adapter.go:108-132 | a non-empty object name without a leading slash is read back exactly for base URLs with at most one trailing slash, of slashes only, or of host shape |
| Storage.R2Fallback | pkg/storage/r2_adapter.go:124-130 | the fallback on the fourth part returns the name exactly when the base has three parts |
| Storage.ExtractR2Name | pkg/storage/r2_adapter.go:120-132 | the successive reassignments compute the modelled name |
| Strings.NormalizeKeyIdempotent | utils/string.go:121-123 | a normalised key is trimmed and normalising it again changes nothing |
| Strings.TrimCutsSpace | utils/string.go:121-123 | trimming cuts off white space at the two ends, all of it and nothing else |
| Strings.CasesMatch | utils/string.go:121-127 | changing case moves a letter to the same place in the other alphabet and leaves other characters alone |
| Strings.ContainsIff | utils/audit.go:79-82 | a word is contained exactly if it stands at some position |
| Strings.SplitJoin | pkg/storage/minio_adapter.go:132-151 | splitting at a separator undoes joining parts that do not contain it |
| Strings.JoinSplit | pkg/storage/minio_adapter.go:132-151 | joining undoes splitting |

## Left out

- HTTP routing, JSON binding, response bodies, audit writing, logging and display fields (names, notes, messages, times of update): plumbing.
- SQL text and PostgreSQL internals: tables are maps or sequences, a row lock is an entry of a lock table, soft deletion is a flag; a reservation, friend or job row's id is its position. Statements of one transaction see each other's commits at statement level, and an uncommitted insert is seen by nobody.
- GiftPublic.GiftService.GetItemsByList: does not state the order by priority and creation, which decides nothing about reservations; permissions are a set for the same reason.
- GiftPublic.GiftService.BuildItemResponses: does not state the order of the items, for the same reason.
- MenuService.MenuService.GetUserMenus: does not state that ties in order and display name keep their place.
- Redis errors, timeouts and fail-open branches: Redis calls succeed, each pipeline is one step, and the clock counts whole seconds.
- GiftReservations.RunsAreSequential: owner actions are single steps; a sequential history need not exist once a stale save revives a reservation, so GiftSaves states what holds then. Creating lists and splitting list edits are not steps.
- GiftSaves.NeverOverbookedIff: a save writes the whole row as read, deletion mark included.
- Sessions.StoreRefinesMap: a touch reads the remaining lifetime and writes in one step, and new ids and tokens are fresh unless a rotation keeps its own.
- Otp.AnswersAreTheChallenges: calls are sequential, addresses arrive sanitised, and codes are compared in clear because their hash is injective.
- LoginLimiter.WindowCountsLimit: attempts on a key are sequential.
- Rbac.EveryStateCoherent: each service operation and each cache miss is one step; RbacRaces says what happens when they are two.
- RbacRaces.CoherentIffNotStraddled: among runs with a fill straddled by two or more disturbing operations the straddling condition is one-way, because they can cancel out; the general exact condition is stated beside it. A clearing deletes all its keys in one step.
- RbacEffects.SuperadminsStay: of users created, public registration and creation by an administrator are modelled; other sign-ins are not.
- Rbac.AssignedIsHeld: a list with a repeated permission id is refused by the unique pair of role and permission (migrations/000002_create_rbac_tables.up.sql).
- Revocation.RefreshedAtMostOnce: whether a refresh call finds and rotates its session is left open at each step, so the claim holds whatever the session store answers (Refresh models the store); LogoutUser is one step and the token column is unique.
- Refresh.IssuedTokensResolveIff: each call of the session store is one step, and ids and tokens have never been used before.
- SyncJobs.EveryStateSound: one service instance; a goroutine ends its sync, with success or not, after any finite number of progress reports, because fetching and storing locations (`syncAll` and its counters) is not modelled.
- SyncJobs.WorkersFinish: finishing by scheduling the goroutine's own steps; fairness of the scheduler itself is not modelled.
- Menus.ResolveAccessibleMenus: asks for unique names, which the table has, and for walks that end, without which the source's call does not (CallEndsIff).
- Redaction.RedactSensitiveValue: trees are finite JSON values; the conversion of Go structures into them is not modelled.
- Lines.PreserveNewlines: starts from text whose markup has been removed; the tag expressions and HTML entities are library-bound.
- Storage.R2RoundTripIff: names that are empty or start with a slash are outside the claim, because the source strips a leading slash.
- Strings.NormalizeKeyIdempotent: lower- and upper-casing cover ASCII letters only, here and wherever keys are compared.
- Password hashing, random codes, UUIDs and token signing: signatures are a flag on the token, fresh values are parameters.
- Password reset, `SetExpiration`, friend and reservation listings with paging, location lookup and its cache, module seeding, mail, configuration, the front end: easy, near twins of what is modelled, or I/O.
