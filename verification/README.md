# Verified model of the KeenVPN backend's protocols

This Dafny project models the parts of the VPN backend whose correctness is not visible in any one function: blind RSA
signing, linked accounts and the entitlement they share, the claim / act / roll-back protocols around messages and the
one-time Stripe trial, the connection-session row and its three writers, trials, the Apple purchase ledger, Stripe
subscription webhooks, UTC calendar arithmetic, and server-location statistics.

Database tables are maps and sets whose keys are the unique keys of `prisma/schema.prisma`; a unique violation (P2002) is
a guard on the write. Every statement, or every `$transaction`, is one atomic step. Time is a parameter. Services that
change rows are classes whose methods change the tables in place and are proved against a function or a relation on
table values; what the system promises is then proved of those functions and relations, over every run. Answers of
Stripe, Apple, Firebase and Slack are parameters, or arbitrary.

`dafny verify dfyconfig.toml` checks the whole project.

| files | component |
|---|---|
| `NumberTheory.dfy`, `BlindSigning.dfy` | modular arithmetic up to the RSA identity; byte strings; sign and verify |
| `Accounts.dfy`, `AccountService.dfy` | `linkProvider`, `unlinkProvider`, mapping writers, entitlement |
| `StripeWebhook.dfy` | created/updated subscription events, on top of the account model |
| `AppleLedger.dfy`, `AppleAccounts.dfy` | capture, link, bulk link, renewal, refund; the ledger joined to the account model |
| `Lease.dfy`, `TrialSlack.dfy`, `PaidConversion.dfy`, `StripeReservation.dfy` | one lease and the three protocols that refine it |
| `Sessions.dfy` | `upsertSession`, the stale sweep, `recordSession` |
| `Trials.dfy`, `Calendar.dfy` | trial grants and their cached columns; calendar days |
| `Cluster.dfy`, `Locations.dfy` | the linked-user search; location labels and buckets |

## Results that are not what the source says

The code is modelled as it is. Where it does less than its comments or names suggest, the exact condition is
proved:

- `src/subscription/trial.service.ts:229-232` promises one message per cluster. A new grant with the smallest user id of
  the cluster allows two exactly when, before it, some request has chosen a coordinator that it has not claimed yet, and
  no grant is marked but by a claim that may still be rolled back (`TrialSlack.SmallestGrantBreaksExactlyWhenExposed`, a
  run in `TrialSlack.SmallerGrantAllowsTwoMessages`). With all other new grants there is at most one
  (`TrialSlack.AtMostOneTrialMessage`).
- `src/auth/auth.service.ts:1067-1071` says that a rejected link changes nothing. It changes the identity of the secondary
  user exactly when that user exists and is not linked, both users own an active subscription, and the identity is new
  and free (`Accounts.RefusedLinkLeavesIdentity`, states in `Accounts.RefusedLinkChangesUser`).
- An Apple link whose token has no Apple identity can join two Google users (`Accounts.AppleLinkOfTwoGoogleUsers`); the
  matching is kept exactly when the identity is known (`Accounts.LinkKeepsInv`).
- A Google link with the caller's own token, if that has no email, creates a secondary user that has nothing of the token
  but a made-up email. Once unlinked it is never found again, and linking is refused from then on
  (`Accounts.RelinkIsRefused`); every other created user is found again (`Accounts.RelinkFindsCreatedUser`).
- A partner linked while a subscription is not in force gets a row for it exactly with the first mapping, and until then
  no access through it, however long it is in force again (`Accounts.LapsedLinkStaysUnshared`). A renewal of an existing
  Apple subscription does not map, so such a partner stays without access (`Accounts.LapsedLinkWithoutAccess`).
- The Stripe retry after "no such customer" opens a session with trial days after giving the reservation back. A retry
  that succeeds leads to two sessions, now or in some run that goes on without retries, exactly when the columns are
  free, another checkout holds the reservation, or a session exists already
  (`StripeReservation.RetryAllowsTwoExactlyWhenExposed`, a run in `StripeReservation.RetryAllowsTwoTrialSessions`). With
  any number of retries there is at most one session if none of them succeeds in such a state
  (`StripeReservation.RetriesAllowOneTrialSession`).
- Captures and links take the two ids of a purchase from the client where no receipt is verified
  (`src/payment/apple/apple.service.ts:749-806`, `:925-945`). A call keeps lineages, linked users and owners exactly when
  it commits no transaction that is on record under another original (`AppleLedger.CallKeepsExactly`). One capture that
  does not agree moves a linked purchase to another lineage, and the next link replaces the owner of its subscription
  (`AppleLedger.OwnerIsReplaced`).
- The read and the write of `verifySession` are separate: a grant made between them is hidden
  (`Trials.VerifyRaceHidesGrant`). The late write is harmless exactly when the user has no unexpired grant
  (`Trials.VerifyWriteKeepsCache`), and status is right in every run without a harmful one
  (`Trials.StatusFollowsGrant`). And it leaves the tier in place (`Trials.VerifySessionLeavesTier`).
- Touching a fingerprint takes it from its owner. The guarantee of one grant per device lasts exactly until a device is
  taken from another user's grant (`Trials.TouchKeepsDevices`, `Trials.TouchAllowsSecondGrant`).
- Replaying a message of a closed session can change its disconnect reason, and nothing else (`Sessions.ReplayInAnyRun`,
  `Sessions.ReplayChangesReason`).
- A late `recordSession` heartbeat or END rewrites the event type or the end of a closed session
  (`Sessions.RecordKeepsSessionEnd` and `Sessions.LateBeatBreaksSessionEnd`, `Sessions.RecordKeepsEnd` and
  `Sessions.LateEndMovesEnd`).
- `Date.UTC` takes years 0 to 99 for 1900 to 1999, so calendar differences that involve such a year are off
  (`Calendar.CalendarDifferenceIsDayDifference`).

## Model

| member | source | states |
|---|---|---|
| NumberTheory.Euclid | src/crypto/crypto.service.ts:67-78 | a prime that divides a product divides a factor; the arithmetic that raw RSA rests on |
| NumberTheory.Fermat | src/crypto/crypto.service.ts:67-78 | Fermat's little theorem |
| NumberTheory.PowerIsIdentity | src/crypto/crypto.service.ts:67-78 | m^x = m modulo p*q for every m, coprime to p*q or not, when x = 1 modulo p-1 and q-1 |
| Bytes.NormalizeKeepsResidue | src/crypto/crypto.service.ts:48-65 | padding and truncating to k bytes keep the big-endian integer modulo 256^k |
| BlindSigning.SignMeaning | src/crypto/crypto.service.ts:33-94 | signing succeeds exactly for 32 to 4096 bytes with residue below n, and returns the k-byte residue^d mod n |
| BlindSigning.VerifyMeaning | src/crypto/crypto.service.ts:111-238 | for all lengths both branches decide one predicate: residue of the signature below n, and its e-th power modulo n is the token's residue |
| BlindSigning.OneSignaturePerToken | src/crypto/crypto.service.ts:194-233 | the accepted signatures of a token are exactly those with residue m^d mod n; a token not below n has none |
| BlindSigning.BlindSigningRoundTrip | src/crypto/crypto.service.ts:67-78 | a blinded token is signed, and of all signatures sent back exactly the unblinded one is accepted |
| Calendar.MakeDayOfRead | src/subscription/trial-helpers.ts:28-37 | making a day from a time's year, month and date gives the day of the time |
| Calendar.ReadOfMakeDay | src/subscription/trial-helpers.ts:28-37 | reading the year, month and date of a made day gives the date back |
| Calendar.MonthsHaveTheirLengths | src/subscription/trial-helpers.ts:28-37 | every month of every year has its length, February by the leap year rule, and 1970 begins with day 0 |
| Calendar.TimesLieInDays | src/subscription/trial-helpers.ts:28-37 | a day has 86400000 ms and contains its times |
| Calendar.CalendarDifferenceIsDayDifference | src/subscription/trial-helpers.ts:24-39 | the calendar difference is the difference of day numbers exactly when Date.UTC moves both dates alike, so always outside years 0 to 99 |
| Calendar.DifferenceAcrossYear100 | src/subscription/trial-helpers.ts:24-39 | the counterexample: the first day of year 100 and the day before |
| Calendar.AddDaysIsExact | src/subscription/trial-helpers.ts:7-11 | adding calendar days adds exactly that many whole days |
| Calendar.DaysRemainingAtGrant | src/subscription/trial-helpers.ts:45-55 | a trial of n days has n days remaining at its start, exactly under the condition above |
| Calendar.DaysRemainingNeverIncrease | src/subscription/trial-helpers.ts:45-55 | days remaining never increase with time, for all ends, exactly when the clock does not leave years 0 to 99 by too little |
| Calendar.VerifySessionAgrees | src/auth/auth.service.ts:786-793 | for every end not past, the ceil formula is the calendar formula, one more when the end is later in its day, exactly when Date.UTC moves both dates alike; when the two are equal, exactly |
| LinkedCluster.GetLinkedUserClusterIds | src/subscription/linked-user-cluster.util.ts:7-30 | the search terminates and returns exactly the users reachable over undirected links, each once |
| LinkedCluster.VisitNeighbours | src/subscription/linked-user-cluster.util.ts:19-26 | the unseen neighbours, and only they, join both the visited list and the queue |
| Locations.NormalizeIsIdempotent | src/connection/server-location-stats.util.ts:63-86 | normalising twice is normalising once, for every label; only null and blank labels become empty |
| Locations.PartsOfJoin | src/connection/server-location-stats.util.ts:73-82 | splitting a join of trimmed, non-empty, dot-free parts gives the parts back |
| Locations.OneCountry | src/connection/server-location-stats.util.ts:4-54 | a country label becomes "United Kingdom" or itself trimmed, and that is stable |
| Locations.PartsAreBritish | src/connection/server-location-stats.util.ts:4-50 | the labels that become "United Kingdom" |
| Locations.OtherCountriesStay | src/connection/server-location-stats.util.ts:4-54 | a label that is no exact name and mentions no part of the country stays |
| Locations.NeighboursStay | src/connection/server-location-stats.util.ts:11-16 | Ireland and New England stay |
| Locations.TrimKeepsMiddle | src/connection/server-location-stats.util.ts:5 | trimming cuts white space off both ends and nothing else |
| Locations.SpacesAreWhiteSpace | src/connection/server-location-stats.util.ts:5 | which characters are white space |
| Locations.FillBuckets | src/connection/connection.service.ts:421-431 | one bucket per non-empty normalised label, holding exactly the sessions of its rows |
| Locations.TopServerLocations | src/connection/connection.service.ts:421-445 | sessions are conserved over reported and left-out buckets, and each reported bucket is at least as large as every one left out |
| Locations.BucketCountsItsRows | src/connection/connection.service.ts:421-431 | a bucket's count is the sum of the sessions of the rows with its label |
| Locations.SortPermutes | src/connection/connection.service.ts:432-434 | sorting keeps every bucket |
| Lease.NextKeepsInv | src/subscription/trial.service.ts:233-292 | the shared shape: every step of a lease keeps one holder, at most one success, and no attempt after it |
| TrialSlack.StepRefinesLease | src/subscription/trial.service.ts:233-292 | every step of the trial-message protocol is a step of the lease |
| TrialSlack.AtMostOneTrialMessage | src/subscription/trial.service.ts:233-292 | over every interleaving of any number of requests, failed sends, roll-backs, crashes and new grants that are not the smallest in an exposed state, at most one message of a cluster succeeds and none is attempted after it |
| TrialSlack.SmallestGrantBreaksExactlyWhenExposed | src/subscription/trial.service.ts:240-264 | a new grant with the smallest user id admits a run with two messages exactly when a request has read but not claimed and no mark is there to stay |
| TrialSlack.RollBackClearsOwnClaim | src/subscription/trial.service.ts:274-282 | a roll-back clears its own request's claim, even if claim times coincide |
| TrialSlack.SmallerGrantAllowsTwoMessages | src/subscription/trial.service.ts:253-261 | a new grant with a smaller user id than all others allows two messages, for every cluster without a message |
| TrialSlack.TrialNotifier.MaybeNotifyTrialStartedSlack | src/subscription/trial.service.ts:233-292 | alone, a request attempts a message exactly if no grant of the cluster is marked, and leaves a mark exactly if it was sent |
| TrialSlack.NotificationIsRun | src/subscription/trial.service.ts:233-292 | such a call, from any state, is a run of the protocol's steps that logs the message it attempts |
| TrialSlack.TrialNotifier.ReadCoordinator | src/subscription/trial.service.ts:240-253 | the coordinator is the smallest user id among the grants, or the user itself |
| PaidConversion.StepRefinesLease | src/notification/paid-conversion-slack.service.ts:18-132 | for every dedupe key, every step of the protocol is a step of the lease |
| PaidConversion.AtMostOnePaidMessagePerKey | src/notification/paid-conversion-slack.service.ts:18-132 | over every interleaving each key has at most one successful message and none is attempted after it |
| PaidConversion.DeleteRemovesOwnRow | src/notification/paid-conversion-slack.service.ts:54-58 | a release deletes exactly the row its own request created |
| PaidConversion.PaidConversionSlackService.TryAcquireDedupeKey | src/notification/paid-conversion-slack.service.ts:114-132 | the key is acquired exactly if no row has it |
| PaidConversion.PaidConversionSlackService.MaybeNotifyStripePaidConversion | src/notification/paid-conversion-slack.service.ts:18-59 | a message goes out exactly for an active subscription with a free key, which stays taken exactly then |
| PaidConversion.PaidConversionSlackService.MaybeNotifyApplePaidConversion | src/notification/paid-conversion-slack.service.ts:65-112 | the same for Apple; an active trial sends nothing and leaves the key free |
| PaidConversion.NotificationIsRun | src/notification/paid-conversion-slack.service.ts:18-132 | such a call, from any state, is a run of the protocol's steps that logs the message it attempts |
| StripeReservation.StepRefinesLease | src/payment/stripe/stripe.service.ts:129-214 | every step of checkouts and trialing webhooks but the retry is a step of the lease |
| StripeReservation.AtMostOneTrialSession | src/payment/stripe/stripe.service.ts:129-214 | over every interleaving without the retry at most one session with trial days is created, and the two columns are null together |
| StripeReservation.ReleaseUndoesOwnReservation | src/payment/stripe/stripe.service.ts:192-200 | a release undoes only its own checkout's reservation, never a webhook's mark |
| StripeReservation.RetryAllowsTwoExactlyWhenExposed | src/payment/stripe/stripe.service.ts:190-256 | a retry that succeeds admits a run, without further retries, with two sessions with trial days exactly when the columns are free, another checkout holds the reservation, or a session exists |
| StripeReservation.FirstRetry | src/payment/stripe/stripe.service.ts:190-256 | the same for the first retry of any run |
| StripeReservation.RetriesAllowOneTrialSession | src/payment/stripe/stripe.service.ts:129-256 | over every interleaving with retries there is at most one session with trial days if no retry succeeds in such a state |
| StripeReservation.RetryAllowsTwoTrialSessions | src/payment/stripe/stripe.service.ts:221-256 | a literal run with two sessions, the second by a retry |
| StripeReservation.CheckoutIsRun | src/payment/stripe/stripe.service.ts:113-260 | one uninterrupted checkout, from any state, is a run of the protocol's steps that ends with a logged success exactly if its session has trial days |
| StripeReservation.CheckoutService.CreateCheckoutSession | src/payment/stripe/stripe.service.ts:113-260 | what one checkout returns and leaves in the two columns, for every answer of Stripe |
| Sessions.SessionStore.UpsertSession | src/vpn/vpn-session.service.ts:31-188 | the transaction, step by step, persists UpsertOutcome's row or rejects: times before the start, and every message of a user who is not the row's owner, which leaves all rows as they are |
| Sessions.OnlyTheOwnerUpserts | src/vpn/vpn-session.service.ts:58-68 | in every run with sweeps an upsert that changes the row is by its owner |
| Sessions.OnlyTheOwnerUpsertsShared | src/vpn/vpn-session.service.ts:58-68 | the same among recordSession's statements, for rows with an owner |
| Sessions.ReasonsThatCount | src/vpn/vpn-session.service.ts:85-108 | which reasons are kept, and that a late one changes nothing else but heartbeat and duration |
| Sessions.DurationIsSeconds | src/vpn/vpn-session.service.ts:119-127 | a duration is the number of whole seconds, and nothing for an open session |
| Sessions.SessionStore.CloseStaleOpenSessions | src/vpn/vpn-session.service.ts:194-224 | in columns: exactly the open extension rows last heard of before the cutoff are closed, at that time, and counted; every other row stays |
| Sessions.DuplicateReport | src/connection/connection.service.ts:115-178 | a report that arrives twice changes nothing but the heartbeat and, if it is an END without an end, the end |
| Sessions.FirstReport | src/connection/connection.service.ts:148-167 | the columns of the row that a first report creates |
| Sessions.LaterReport | src/connection/connection.service.ts:115-178 | the columns a later report changes, and those only an END does |
| Sessions.TerminationsToldApart | src/connection/connection.service.ts:93-113 | which reasons of an END are told apart |
| Sessions.UpsertsArePersisted | src/vpn/vpn-session.service.ts:53-160 | every accepted message of the owner is persisted |
| Sessions.UpsertsHaveClosedForm | src/vpn/vpn-session.service.ts:53-160 | after any list of accepted messages: start of the first, latest lastSeenAt, first end to arrive, derived duration, last reason that counts |
| Sessions.HeartbeatsCommute | src/vpn/vpn-session.service.ts:95-108 | two messages without an end commute, exactly unless the session is closed and they carry different reasons |
| Sessions.ReplayOfClosedSession | src/vpn/vpn-session.service.ts:85-94 | a replay to a session that upserts closed changes nothing but the reason |
| Sessions.ReplayInAnyRun | src/vpn/vpn-session.service.ts:85-214 | in every run with sweeps, a replay of any accepted message to a closed session changes nothing but the reason |
| Sessions.ReplayChangesReason | src/vpn/vpn-session.service.ts:85-94 | two messages after which a replay of the first changes the reason |
| Sessions.ExtensionRuns | src/vpn/vpn-session.service.ts:70-214 | over every run of upserts and sweeps: end written once, heartbeat monotone and not before start, event and termination in step with the end and who set it, duration exact or one second more |
| Sessions.InterleavedRuns | src/connection/connection.service.ts:115-178 | over every interleaving of recordSession's statements with upserts and sweeps: counters never decrease, no session reopens, no owner is replaced |
| Sessions.CountersEndAsMaxima | src/connection/connection.service.ts:169-178 | for recordSession alone the counters end as the maxima of all reported values, in any order |
| Sessions.RecordKeepsSessionEnd | src/connection/connection.service.ts:130-140 | when recordSession keeps SESSION_END in step with the end, exactly |
| Sessions.LateBeatBreaksSessionEnd | src/connection/connection.service.ts:130-140 | a late heartbeat that breaks it |
| Sessions.RecordKeepsEnd | src/connection/connection.service.ts:137-140 | when recordSession keeps the end of a closed session, exactly |
| Sessions.LateEndMovesEnd | src/connection/connection.service.ts:137-140 | a late END that moves it |
| Trials.TrialService.GrantIfEligible | src/subscription/trial.service.ts:55-227 | in columns: a trial is granted exactly if trials are enabled, the user exists without a grant and is subscribed, and the device is not another user's; it ends 2592000000 ms after the call's clock |
| Trials.EveryGrantIsEarned | src/subscription/trial.service.ts:80-156 | in every run each grant goes back to a request with trials enabled and a subscription in force |
| Trials.ReconcileShowsGrant | src/subscription/trial.service.ts:90-105 | reconciling shows the grant: active, with its tier, until its end |
| Trials.StatusReportsDays | src/subscription/trial.service.ts:324-387 | the days and the tier that status reports, with and without a grant |
| Trials.ExpiryChecks | src/subscription/trial.service.ts:393-425 | two expiry checks in any order are as good as the later one, and a check leaves a user with a grant active exactly until its end |
| Trials.TrialService.GetStatus | src/subscription/trial.service.ts:324-387 | the report and the reconciled user row |
| Trials.TrialService.VerifySessionTrial | src/auth/auth.service.ts:749-805 | whether the session shows a trial, and the user row afterwards |
| Trials.ReflectedTrialsYield | src/payment/stripe/stripe.service.ts:461-480 | a Stripe or Apple trial never shows on a user with a grant, and of several only the first shows |
| Trials.ReflectedTrialShows | src/payment/stripe/stripe.service.ts:461-480 | a reflected trial shows exactly on a user who shows none |
| Trials.StepKeepsInv | src/subscription/trial.service.ts:83-425 | every writer keeps the grants and shows their ends; the columns stay a cache without harmful late writes, and device hashes registered without takeovers |
| Trials.StatusFollowsGrant | src/subscription/trial.service.ts:320-387 | in every run under a monotone clock a user with a grant shows the grant's end and status is never active after it; without a late write that meets an unexpired grant, status is active exactly before it |
| Trials.UninterruptedVerifyIsHarmless | src/auth/auth.service.ts:772-805 | a verifySession that nothing comes between does not write late |
| Trials.OneGrantPerUserAndDevice | src/subscription/trial.service.ts:158-200 | in every run a user's grant is never replaced, and without a touch that takes over the device of another user's grant a device has at most one grant |
| Trials.VerifyWriteKeepsCache | src/auth/auth.service.ts:796-804 | the late write of verifySession keeps the cache exactly when there is no unexpired grant |
| Trials.VerifyRaceHidesGrant | src/auth/auth.service.ts:796-804 | a run in which that write hides an active grant |
| Trials.VerifySessionLeavesTier | src/auth/auth.service.ts:798-803 | an expiry seen first by verifySession leaves the tier that status would have cleared |
| Trials.TouchKeepsDevices | src/subscription/trial.service.ts:305-317 | touching a fingerprint keeps the device guarantee exactly when no other user's grant was made on the device |
| Trials.TouchAllowsSecondGrant | src/subscription/trial.service.ts:305-317 | after such a touch a second grant goes to the same device |
| AppleLedger.CaptureKeepsExactly | src/payment/apple/apple.service.ts:813-864 | a capture keeps lineages, linked users and owners exactly when it is refused or its transaction is not on record under another original |
| AppleLedger.LinkKeepsExactly | src/payment/apple/apple.service.ts:963-1102 | the same for a link, whose transaction must not be on record with a purchase or a subscription under another original |
| AppleLedger.LinkByIdsKeepsExactly | src/payment/apple/apple.service.ts:1341-1434 | the same for an entry of a bulk link, on the ids of the row that it links |
| AppleLedger.CallKeepsExactly | src/payment/apple/apple.service.ts:205-1442 | the same for any call with any ids, renewals and refunds included, and then the invariant is kept too |
| AppleLedger.LedgerRuns | src/payment/apple/apple.service.ts:813-1442 | in every serial run whose calls agree with the record: one purchase and one subscription per lineage, owned by the purchase's linked user; linked users and owners are written once |
| AppleLedger.LineageRunsAgree | src/payment/apple/apple.service.ts:813-1442 | if every transaction has one fixed original, every serial run is such a run, whatever ids the bulk links bring |
| AppleLedger.OwnerIsReplaced | src/payment/apple/apple.service.ts:819-1037 | a run in which one capture with another original leads to a change of a subscription's owner |
| AppleLedger.CaptureWrites | src/payment/apple/apple.service.ts:813-864 | the purchase row after a committed capture |
| AppleLedger.LinkWrites | src/payment/apple/apple.service.ts:986-1085 | the purchase and the subscription after a committed link: active exactly if the end that applies is after now |
| AppleLedger.LinkByIdsWrites | src/payment/apple/apple.service.ts:1341-1420 | the same for an entry of a bulk link |
| AppleLedger.RenewWrites | src/payment/apple/apple.service.ts:246-321 | the subscription after a renewal: active exactly if its new end is after now |
| AppleLedger.RefundWrites | src/payment/apple/apple.service.ts:144-167 | a refund makes the lineage's subscription inactive and leaves the rest |
| AppleLedger.CapturesAreServed | src/payment/apple/apple.service.ts:813-864 | a capture that agrees with the record is never refused |
| AppleLedger.LinksAreServed | src/payment/apple/apple.service.ts:979-989 | a link that agrees with the record is refused exactly if the purchase is somebody else's |
| AppleLedger.BulkLinksAreServed | src/payment/apple/apple.service.ts:1288-1340 | which purchase an entry means, and that it is refused exactly if that is somebody else's |
| AppleLedger.RenewalsAreServed | src/payment/apple/apple.service.ts:213-231 | a renewal that agrees with the record is carried out exactly if the purchase is linked |
| AppleLedger.AppleService.CapturePurchase | src/payment/apple/apple.service.ts:813-864 | the transaction of capturePurchase |
| AppleLedger.AppleService.LinkPurchaseToUser | src/payment/apple/apple.service.ts:963-1102 | the transaction of linkPurchase: linked, with the purchase under its ids and the user, or nothing changes |
| AppleLedger.AppleService.LinkOneById | src/payment/apple/apple.service.ts:1288-1442 | one entry of the bulk link: linked exactly as the ledger allows, else nothing changes |
| AppleLedger.AppleService.LinkWithTransactionIds | src/payment/apple/apple.service.ts:1229-1554 | every entry is tried once, in order; the purchases that were linked and the entries that were not are reported, each in order |
| AppleLedger.EveryEntryIsReported | src/payment/apple/apple.service.ts:1229-1554 | every entry is reported once, as linked exactly if its transaction committed |
| AppleLedger.AppleService.ProcessAppleReceipt | src/payment/apple/apple.service.ts:213-321 | a renewal writes the lineage's subscription of the linked user |
| AppleAccounts.WriteIsPaymentStepExactly | src/payment/apple/apple.service.ts:1037-1102 | a ledger call's write to a subscription row, the owner column included, is a payment step of the account model exactly when it changes no owner |
| AppleAccounts.LedgerStepIsPaymentStep | src/payment/apple/apple.service.ts:1037-1102 | so it is for every call that agrees with the record |
| AppleAccounts.LedgerStepWrites | src/payment/apple/apple.service.ts:205-321 | every ledger call, agreeing or not, has a write of at most one subscription row |
| AppleAccounts.LinkAndAccess | src/payment/apple/apple.service.ts:482-488 | after a link the user has access up to and including the purchase's end if that is after now; otherwise the subscription gives access to nobody |
| AppleAccounts.BulkLinkAndAccess | src/payment/apple/apple.service.ts:1338-1400 | the same for an entry of a bulk link |
| AppleAccounts.RenewalAndAccess | src/payment/apple/apple.service.ts:243-321 | the same for a renewal and the owner |
| AppleAccounts.RefundEndsAccess | src/payment/apple/apple.service.ts:144-167 | after a refund the subscription gives access to nobody |
| AppleAccounts.AppleRuns | src/payment/apple/apple.service.ts:813-1442 | in every run of ledger and accounts together whose ledger calls agree with the record, whoever owns or is mapped to an Apple subscription is the linked user of its purchase or that user's partner |
| Accounts.LinkOutcomes | src/auth/auth.service.ts:884-1176 | from a state that meets the invariant a call either links two unlinked users, sharing the one subscription there may be, or changes users only; the half-linked outcomes do not occur |
| Accounts.LinkKeepsInv | src/auth/auth.service.ts:1067-1153 | a link keeps linked_accounts a matching of a Google and an Apple user, and LINKED rows along links, exactly when the secondary's identity is known |
| Accounts.AppleLinkOfTwoGoogleUsers | src/auth/auth.service.ts:1072-1084 | the counterexample without an Apple identity |
| Accounts.RefusedLinkLeavesIdentity | src/auth/auth.service.ts:1067-1115 | a refused link changes something exactly when the secondary user exists unlinked, both users own an active subscription and the identity is new and free; then it leaves that identity |
| Accounts.RefusedLinkChangesUser | src/auth/auth.service.ts:1072-1115 | two subscribed Google users and an Apple token of the second: refused, and the second is an Apple user afterwards |
| Accounts.LinkSharesEntitlement | src/auth/auth.service.ts:1102-1153 | after a link each of the two is entitled exactly when one was, and no third user's entitlement changes at any time |
| Accounts.UnlinkSucceedsIffLinked | src/auth/auth.service.ts:1178-1251 | unlinking succeeds exactly for a linked user and the other provider |
| Accounts.UnlinkKeepsInv | src/auth/auth.service.ts:1192-1245 | unlinking keeps the invariant and leaves both users unlinked |
| Accounts.UnlinkSeparates | src/auth/auth.service.ts:1222-1237 | after unlinking each of the two is entitled exactly by an own subscription; nobody else's entitlement changes |
| Accounts.LinkThenUnlink | src/auth/auth.service.ts:1102-1237 | link then unlink, by either user, succeeds and restores links, mapping rows and every entitlement |
| Accounts.MapsKeepsInv | src/payment/stripe/stripe.service.ts:871-916 | mapping leaves exactly the owner and the owner's linked users on a subscription |
| Accounts.MappingShares | src/payment/stripe/stripe.service.ts:871-916 | after a mapping exactly the owner and the partners share the subscription, while it is in force |
| Accounts.LapsedLinkStaysUnshared | src/payment/apple/apple.service.ts:281-351 | over every run after a link made while a subscription is not in force: the partner has a row for it exactly from the first mapping on, and until then is entitled only through another subscription, while the owner is entitled by it |
| Accounts.LapsedLinkWithoutAccess | src/payment/apple/apple.service.ts:281-324 | a link during a lapse and a renewal that leave the partner without access at all times |
| Accounts.EveryRunKeepsInv | src/auth/auth.service.ts:896-1245 | in every serial run links form a matching without self-links and every LINKED row joins the owner to a linked user |
| Accounts.UnlinkedUserOwnsAll | src/subscription/subscription-lookup.util.ts:9-45 | a user without links is entitled exactly by an own subscription, and the look-up finds one of them |
| Accounts.EntitledExactly | src/subscription/subscription-lookup.util.ts:13-45 | in columns: access is an own or a mapped subscription that is active or trialing and does not end before the time asked for |
| Accounts.EntitlementOnlyEnds | src/subscription/subscription-lookup.util.ts:13-45 | while the tables stay, access at some time means access at all earlier ones |
| Accounts.SecondOfProviderIsRefused | src/auth/auth.service.ts:905-930 | a caller with a partner of the provider, by sign-in or by id, is refused and nothing changes |
| Accounts.RefusalsExplained | src/auth/auth.service.ts:884-1176 | what each refusal means, and what it leaves alone |
| Accounts.SecondaryIsFound | src/auth/auth.service.ts:939-963 | who the secondary user is: by uid, else by Apple identity, else by email |
| Accounts.FixUpKeepsRest | src/auth/auth.service.ts:1072-1100 | the identity columns a link writes on the secondary user, and all it leaves |
| Accounts.RelinkFindsCreatedUser | src/auth/auth.service.ts:939-1000 | the same token finds the user that a link has created, exactly unless it is a Google link with the caller's uid and no email |
| Accounts.RelinkIsRefused | src/auth/auth.service.ts:965-1013 | in that case the second link is refused |
| Accounts.UnlinkedIsOfProvider | src/auth/auth.service.ts:1204-1213 | only a linked user of the provider is unlinked |
| Accounts.UnlinkLeavesOtherRows | src/auth/auth.service.ts:1222-1237 | in every state, unlinking removes the LINKED rows of the pair on the pair's subscriptions, and no other row |
| AccountServices.AccountService.GetActiveSubscription | src/subscription/subscription-lookup.util.ts:9-45 | in columns: the newest own subscription that is active or trialing and not past its end, else the mapped one that ends last; none exactly if no own or mapped one is so |
| AccountServices.AccountService.FindSecondary | src/auth/auth.service.ts:939-963 | the three look-ups for the secondary user, in their order |
| AccountServices.AccountService.ResolveSecondary | src/auth/auth.service.ts:939-1026 | found, created, or found by email after a unique violation; else the refusal that applies |
| AccountServices.AccountService.LinkProvider | src/auth/auth.service.ts:884-1176 | one call is a LinkStep |
| AccountServices.AccountService.Join | src/auth/auth.service.ts:1102-1153 | the subscription check, the link and the LINKED row |
| AccountServices.AccountService.UnlinkProvider | src/auth/auth.service.ts:1178-1251 | one call is an UnlinkStep |
| AccountServices.AccountService.EnsureSubscriptionUserMapping | src/payment/stripe/stripe.service.ts:871-916 | the loop adds the owner's row and one LINKED row per partner, and leaves existing rows alone |
| StripeWebhook.ReplayChangesNothing | src/payment/stripe/stripe.service.ts:340-706 | handling an event a second time leaves every table as it is and sends no subscription email |
| StripeWebhook.HandleKeepsAccounts | src/payment/stripe/stripe.service.ts:498-618 | an event keeps the account invariant, and afterwards exactly the owner and the owner's linked users are mapped to its row |
| StripeWebhook.HandleKeepsPeriods | src/payment/stripe/stripe.service.ts:498-618 | one row per Stripe subscription and period |
| StripeWebhook.EventGivesAccess | src/payment/stripe/stripe.service.ts:498-618 | after an active or trialing event the owner and every linked user have access up to and including the end of the period |
| StripeWebhook.EventEndsAccess | src/payment/stripe/stripe.service.ts:498-618 | after a past-due or canceled event its row gives access to nobody |
| StripeWebhook.OtherEventsChangeNothing | src/payment/stripe/stripe.service.ts:340-400 | an event without a user or a period, or with a status that has no counterpart, changes nothing |
| StripeWebhook.EventColumns | src/payment/stripe/stripe.service.ts:511-618 | the columns of the event's row: period, flag, and what of the plan is taken over, stays or falls back |
| StripeWebhook.SubscriptionEmails | src/payment/stripe/stripe.service.ts:529-660 | one email for each period that becomes active or trialing: started for the first on record, renewed for every other |
| StripeWebhook.OtherEventsSendNothing | src/payment/stripe/stripe.service.ts:529-660 | other events send none |
| StripeWebhook.TrialIsShown | src/payment/stripe/stripe.service.ts:461-480 | a trialing event shows its trial, from start to end, on a user without one |
| StripeWebhook.GrantNeedsSubscription | src/payment/stripe/stripe.service.ts:662-690 | an event that adds a trial grant leaves its user with a subscription in force |
| StripeWebhook.StripeRuns | src/payment/stripe/stripe.service.ts:340-706 | both, over every serial run with links, unlinks, sign-ins and Apple writes |
| StripeWebhook.MarkedByWebhook | src/payment/stripe/stripe.service.ts:424-445 | the event's statements on the columns are the webhook's steps of the reservation protocol; afterwards they name the event's subscription, and a time of first use stays |
| StripeWebhook.StripeService.HandleSubscriptionCreatedOrUpdated | src/payment/stripe/stripe.service.ts:340-706 | one call is a HandleStep |

## Left out

- HTTP, tokens and keys: Firebase, Apple and Stripe calls, JWT, base64 and key parsing; their results are parameters. Key
  sizes are whole numbers of bytes.
- Calendar: times beyond the range of a Date, for which JavaScript returns NaN.
- Locations.OneCountry: `toLowerCase` is any function that lower-cases "United Kingdom" properly; the percentages of the
  top locations and the other aggregates of `getConnectionStats` are not modelled.
- Accounts.LinkSharesEntitlement: the two subscription look-ups of a link use one clock reading.
- Accounts: account deletion, and the `linkedEmail` fallback of `googleSignIn`, which breaks ownership by design.
- AppleLedger: receipt verification and the choice of the latest receipt item, prices and plan names, checks of empty or
  "0" transaction ids. Operations run one after another.
- TrialSlack: the links of a cluster are fixed while requests are under way; only its grants change.
- StripeWebhook.ReplayChangesNothing: the paid-conversion message is not part of it, because a failed message is tried
  again; its own protocol is in `PaidConversion`. Deleted subscriptions are left out.
- Sessions: `getConnectionSessions`, server location, network type and tier columns of a row.
- Trials.StatusFollowsGrant: the paid flag of a status report is left out.
- Lease: a crash loses a request between its statements; a message that was delivered but reported as failed counts as
  failed.
- Node health, VPN address allocation, emails, push tokens, preferences, sales contact: no deep property.
