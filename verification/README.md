# Verification of the Canton localnet tooling

A Dafny model of the parts of the repository whose correctness depends on state, interleaving or exact
arithmetic, with proofs about every input, every run and every reachable state. `dafny verify dfyconfig.toml`
checks all of it.

| file | what it models |
|---|---|
| `Lease.dfy` | one `UserRightsLease`: its disposal, confirmation by counting, cross-check by identity (class) |
| `LeaseSystem.dfy` | one participant, any number of leases and other clients, interleaved at every request boundary; requests take effect in full, in part, late or never, and replies are lost, unreadable or report only part (step relation) |
| `TokenProvider.dfy` | the Go token provider's critical sections (class), and any number of callers, followers and cancellations around them (step relation) |
| `Retry.dfy` | capped doubling, and the wallet client's budgeted retry loop |
| `Decimal.dfy` | decimal texts, amount validation, and the round-up printer, on exact rationals |
| `Funding.dfy` | the Amulet price scan, `Tap`, and the funding loop |
| `RightsPolicy.dfy`, `Prune.dfy`, `RightsGroups.dfy` | `rights prune`: policy, plan, the two reads and one write against a participant others change too, and the plan's summary |
| `Text.dfy`, `Heredoc.dfy`, `ShellQuote.dfy`, `WorkflowCommands.dfy` | the three encoders of the `env` command and the readers that undo them |
| `Allocation.dfy` | the shared C# retry policy, the DAR upload loop, party allocation (method), and the same call against a server that carries out requests at any later step, or never, beside other clients (step relation) |
| `Runs.dfy` | runs of a system of steps: what every step keeps every run keeps |
| `Common.dfy` | options, and sequences as sets |

Objects that the source updates in place are classes, loops are methods with invariants, and each such method is
proved equal to a specification function or predicate about which the lemmas speak. Where many parties
interleave, each atomic step is a constructor of a `Step` datatype, and `Apply` uses the same functions the
class methods are proved against.

## What does not hold as one might expect

Each of these is proved, with a concrete witness or as an exact condition.

- A follower of a token refresh can return an empty or stale token *and no error*, when another caller starts a
  refresh between the leader's failure and the follower's read: starting a refresh clears the recorded failure
  (`TokenSystem.DisplacedFollower`, `TokenSystem.EmptyTokenWithoutError`). It is given a token and no error if and only
  if the latest thing that happened, invalidations aside, is not a failed refresh
  (`TokenSystem.FollowerIsGivenATokenIff`). `TokenSystem.FollowerIsTold` says what it returns in general, and that it is
  its leader's own answer when nothing happened in between.
- Leases do not own rights exclusively in every run. A step leaves ownership exclusive if and only if whatever it makes
  a lease answer for again is still held and no other lease's, and, if it is a foreign or a late revoke, it takes nothing
  that a lease answers for (`LeaseSystem.ExclusiveStepIff`; over whole runs, `LeaseSystem.OwnedExclusivelyIff`). A lease
  answers again for rights that its revoke removed when the confirmation is lost, unreadable or names only part of them,
  and when a retry's confirmation names part of the rights and its listing then throws, because the lease reopens with
  all it owned. One lost confirmation is enough for a second lease to acquire a right the first still lists, and for the
  first one's retry to revoke it (`LeaseSystem.LostConfirmationSharesARight`). Revokes that remove only a part break
  nothing as long as leases are told in full what was removed (`LeaseSystem.LeasesOwnExclusively`).
- A disposal is settled by counting the confirmed rights. Whatever is confirmed, a first disposal loses an owned right
  that was not confirmed if and only if the count is reached while some owned right is missing
  (`Leasing.FirstDisposalForgetsIff`, and for retries `Leasing.UnconfirmedIsForgottenIff`; an input in
  `Leasing.CountingIsNotMatchingInGeneral`). Confirmations of distinct rights out of those requested never do that
  (`Leasing.CountingIsMatching`).
- The price scan takes the latest opened round if and only if that round has a price or no opened round is
  listed after it: an empty price makes the next opened round win, however old (`Funding.PicksLatestIff`).
- A GitHub environment entry is read back if and only if its key has no newline, no "<<" and does not end in "<"
  (`Heredoc.RoundTripIff`, `Heredoc.CleanKeyIff`); "no '<<' in the key" alone is not enough
  (`Heredoc.TrailingMarkIsMisread`).
- Consent to a prune is per kind and party, not per right document: a document that was never listed can be revoked
  under the identity of one that was (`Prune.UnseenDocumentIsRevoked`). Every document written was agreed to if and
  only if every right that is in the second listing and not in the first is preserved
  (`Prune.WriteIsConsentedDocumentsIff`).
- The help text promises to preserve act-as rights on the validator's own party; the code preserves a prefix. An
  undisturbed prune leaves act-as rights on that very party only, if and only if the user can act as no party whose id
  properly extends it (`Prune.OnlyTheNamedPartyIsKeptIff`).
- Allocating with a hint that is already taken returns somebody else's party as a success if and only if the first
  answer was inconclusive, the last one says the party exists and the lookup answers (`AllocationSystem.TakenHintIff`).
  With the hint held under another namespace it can even return that party although its own request made one: it
  returns the first one listed (`AllocationSystem.WhichPartyIsReturned`, `AllocationSystem.OtherNamespaceIsReturned`).
- Looking a party up by a hint and "::" finds no party of another hint if neither contains "::" nor ends in a colon
  (`Allocation.HintsShareNoParty`); "no '::'" alone is not enough (`Allocation.ColonSharesAParty`).
- A GitHub environment file whose last heredoc is closed only by the end of the file parses, but takes in what is
  appended next (`Heredoc.SettledIff` says exactly when it does not).
- Retrying a mint on every transient answer would not be at-most-once (`Retry.TransientRetryCanCommitTwice`); `Tap`
  does not do so.

## Model

| member | source | states |
|---|---|---|
| Leasing.IdentityIsInjective | csharp/src/Peaceful.Canton.Localnet.Testing/UserBuilder.cs:403-404 | two rights have the same identity text iff they are the same right, unrecognised kinds included |
| Leasing.Select | csharp/src/Peaceful.Canton.Localnet.Testing/UserBuilder.cs:338-344 | exactly the entries whose identity is (or is not) listed, in a list that stays free of duplicates |
| Leasing.SelectIsSetArithmetic | csharp/src/Peaceful.Canton.Localnet.Testing/UserBuilder.cs:338-344 | what is outstanding is the set difference of owned and confirmed rights, what is still held the intersection of candidates and listing |
| Leasing.UserRightsLease.constructor | csharp/src/Peaceful.Canton.Localnet.Testing/UserBuilder.cs:591-622 | a new lease owns what was granted, undisposed and never attempted |
| Leasing.UserRightsLease.DisposeAsync | csharp/src/Peaceful.Canton.Localnet.Testing/UserBuilder.cs:673-722 | the fields after a disposal, how it ends, what it asks to revoke and when it may list; it throws exactly when it can be retried |
| Leasing.DisposalOnlyNarrows | csharp/src/Peaceful.Canton.Localnet.Testing/UserBuilder.cs:683-708 | whatever the replies say, ownership only shrinks and stays free of duplicates |
| Leasing.FirstDisposalHandsBackIffAllHeld | csharp/src/Peaceful.Canton.Localnet.Testing/UserBuilder.cs:683-708 | with an honest confirmation a first disposal hands back iff everything owned was still held |
| Leasing.RetryKeepsWhatIsStillListed | csharp/src/Peaceful.Canton.Localnet.Testing/UserBuilder.cs:292-320 | a retry ends owning exactly the unconfirmed rights that the listing still shows, and hands back iff there are none |
| Leasing.LostReplyConverges | csharp/src/Peaceful.Canton.Localnet.Testing/UserBuilder.cs:673-722 | after a first disposal whose revoke committed unheard, a second owns nothing and raises nothing, and every later call sends nothing |
| Leasing.CountingIsMatching | csharp/src/Peaceful.Canton.Localnet.Testing/UserBuilder.cs:683-693 | for confirmations of distinct rights out of those requested, settling by count is settling right by right |
| Leasing.FirstDisposalHandsBackIff | csharp/src/Peaceful.Canton.Localnet.Testing/UserBuilder.cs:683-708 | whatever is confirmed, a first disposal hands back iff the count is reached or every owned right is confirmed |
| Leasing.UnconfirmedIsForgottenIff | csharp/src/Peaceful.Canton.Localnet.Testing/UserBuilder.cs:683-708 | whatever is confirmed and listed, an owned right that was not confirmed is let go iff the count is reached without it or a retry's listing does not show it |
| Leasing.FirstDisposalForgetsIff | csharp/src/Peaceful.Canton.Localnet.Testing/UserBuilder.cs:683-693 | a first disposal loses an unconfirmed right iff the count is reached and some owned right is not confirmed |
| Leasing.CountingIsNotMatchingInGeneral | csharp/src/Peaceful.Canton.Localnet.Testing/UserBuilder.cs:683-693 | a confirmation of some other right empties the lease |
| LeaseSystem.StepsComposeToDispose | csharp/src/Peaceful.Canton.Localnet.Testing/UserBuilder.cs:673-722 | taken without interruption, the steps of a disposal are the object's own disposal, whether or not it issues anything, whatever part of the revoke commits and whatever comes back |
| LeaseSystem.ShapeStep | csharp/src/Peaceful.Canton.Localnet.Testing/UserBuilder.cs:673-715 | every step keeps the shape of calls under way: marked disposed, something owned, no duplicates, a listing only from the second attempt on |
| LeaseSystem.OneRevokeInFlight | csharp/src/Peaceful.Canton.Localnet.Testing/UserBuilder.cs:673-682 | in every shaped state a disposal that goes on finds no other call of the same lease under way |
| LeaseSystem.OwnedOnlyShrinks | csharp/src/Peaceful.Canton.Localnet.Testing/UserBuilder.cs:683-722 | no step of anyone adds a right to an existing lease |
| LeaseSystem.ConservedStep | csharp/src/Peaceful.Canton.Localnet.Testing/UserBuilder.cs:213-243 | one step, with requests carried out in part and replies that report only part, keeps every held right accounted for |
| LeaseSystem.LeaseConservation | csharp/src/Peaceful.Canton.Localnet.Testing/UserBuilder.cs:213-243 | in every run, with lost, partial and late effects, every held right is initial, in the account of an operation under way or of a lease (what its revoke left; what its listing, once served, shows), stranded by a grant, or granted by others |
| LeaseSystem.PreexistingRightsAreSafe | csharp/src/Peaceful.Canton.Localnet.Testing/UserBuilder.cs:188-195 | when only leases revoke, every run, with lost and partial effects and repeated disposals, keeps initial rights held and out of every lease's and late revoke's reach |
| LeaseSystem.ParticipantIsRestored | csharp/src/Peaceful.Canton.Localnet.Testing/UserBuilder.cs:575-590 | once all leases own nothing and nothing was stranded or granted by others, the participant holds exactly what it began with |
| LeaseSystem.AccountsStep | csharp/src/Peaceful.Canton.Localnet.Testing/UserBuilder.cs:213-248 | what an operation answers for after its own step: a grant adds rights nobody held, a revoke takes what it removed, and otherwise it loses rights or regains exactly those the condition below is about |
| LeaseSystem.ExclusiveStepIff | csharp/src/Peaceful.Canton.Localnet.Testing/UserBuilder.cs:579-589 | one step of anyone leaves the accounts disjoint and held iff what it makes a lease answer for again is held and no other lease's, and a foreign or late revoke takes nothing that is answered for |
| LeaseSystem.OwnedExclusivelyIff | csharp/src/Peaceful.Canton.Localnet.Testing/UserBuilder.cs:579-589 | accounts are disjoint and held in every state of a run iff every step of it meets that condition |
| LeaseSystem.LeasesOwnExclusively | csharp/src/Peaceful.Canton.Localnet.Testing/UserBuilder.cs:579-589 | so they are in every run in which leases are told in full what their revokes removed, revokes that remove only a part included, and nothing else revokes |
| LeaseSystem.DeliveredConfirmationIsComplete | csharp/src/Peaceful.Canton.Localnet.Testing/UserBuilder.cs:683-693 | when revokes remove everything owned, a delivered confirmation settles the disposal |
| LeaseSystem.OrderlyDisposalsComplete | csharp/src/Peaceful.Canton.Localnet.Testing/UserBuilder.cs:683-693 | in every run in which revokes also remove everything held that they name, every committed revoke took all its lease owns and no disposal needs a listing |
| LeaseSystem.LostConfirmationSharesARight | csharp/src/Peaceful.Canton.Localnet.Testing/UserBuilder.cs:608-622 | a run whose only other step is one lost confirmation, in which two leases list the same right, one's retry takes it from the other, and ownership is not exclusive |
| LeaseSystem.RetryBeginsConverging | csharp/src/Peaceful.Canton.Localnet.Testing/UserBuilder.cs:673-686 | every failed disposal can be retried, from any shaped state |
| LeaseSystem.RetryConverges | csharp/src/Peaceful.Canton.Localnet.Testing/UserBuilder.cs:292-320 | from there, however others interleave without re-granting its rights, once its revoke removes everything, and although its confirmation may be partial: when idle again the lease owns nothing, is disposed, and none of the rights is held |
| LeaseSystem.StartIsSound | csharp/src/Peaceful.Canton.Localnet.Testing/UserBuilder.cs:213-243 | all the invariants hold at the start, for any initial rights |
| TokenProvider.OAuth2TokenProvider.constructor | go/fixture/oauth2_token_provider.go:72-91 | a new provider has no token, no failure and no refresh under way |
| TokenProvider.OAuth2TokenProvider.Enter | go/fixture/oauth2_token_provider.go:94-125 | hit, follow or lead, and the whole state after it; a hit is a non-empty token more than the skew from expiry, a lead opens a new channel |
| TokenProvider.OAuth2TokenProvider.Publish | go/fixture/oauth2_token_provider.go:129-143 | a leader stores its token or failure, ends the refresh and closes a channel that was open |
| TokenProvider.OAuth2TokenProvider.Read | go/fixture/oauth2_token_provider.go:109-121 | a follower reads the recorded failure first, and tries again exactly on a context error that is not its own |
| TokenProvider.OAuth2TokenProvider.Invalidate | go/fixture/oauth2_token_provider.go:161-166 | drops the token and nothing else |
| TokenSystem.SingleFlightStep | go/fixture/oauth2_token_provider.go:93-144 | one step of any caller keeps single flight |
| TokenSystem.SingleFlightAlways | go/fixture/oauth2_token_provider.go:93-144 | so does every run of any number of callers |
| TokenSystem.OneLeader | go/fixture/oauth2_token_provider.go:93-144 | a refresh is marked as under way iff a caller is fetching, and at most one is |
| TokenSystem.NoDoubleClose | go/fixture/oauth2_token_provider.go:122-138 | a leader always closes the current channel, which is open |
| TokenSystem.NoLostWakeup | go/fixture/oauth2_token_provider.go:101-108 | a waiting follower can go on, or there is a leader whose publication lets it go on |
| TokenSystem.LogAgreesAlways | go/fixture/oauth2_token_provider.go:93-166 | in every run the stored token, its expiry and the failure are what the history of starts, finishes and invalidations says |
| TokenSystem.ServedFromCacheIff | go/fixture/oauth2_token_provider.go:94-100 | in every run a caller is served from the cache, without a fetch, iff that token was stored, was neither replaced nor dropped since, and its own expiry is more than thirty seconds away |
| TokenSystem.FetchedTokenIsServed | go/fixture/oauth2_token_provider.go:133-139 | directly after a fetch every caller is served its token until thirty seconds before its expiry |
| TokenSystem.HowCallsEnd | go/fixture/oauth2_token_provider.go:93-144 | a call ends with the cached token, its own fetch, its own cancellation, or what it reads as a follower, in no other way |
| TokenSystem.StopsWaitingIff | go/fixture/oauth2_token_provider.go:101-108 | a waiting follower can stop exactly when its channel is closed or it is cancelled, and cancelling touches no shared state |
| TokenSystem.FollowerIsTold | go/fixture/oauth2_token_provider.go:101-121 | a follower's answer is decided by that history; directly after its leader's finish it is the leader's own token or error, or another try |
| TokenSystem.FollowerIsGivenATokenIff | go/fixture/oauth2_token_provider.go:109-121 | in every run a woken follower is given a token and no error iff the latest event, invalidations aside, is not a failed refresh, and it is the token stored last |
| TokenSystem.DisplacedFollower | go/fixture/oauth2_token_provider.go:109-125 | after a failure, a new leader in the window makes the follower return the stale cached text without error |
| TokenSystem.EmptyTokenWithoutError | go/fixture/oauth2_token_provider.go:109-125 | a reachable run in which a caller returns an empty token and no error although its refresh failed |
| TokenSystem.EmptyTokenOnlyByFollowing | go/fixture/oauth2_token_provider.go:93-144 | a caller returns an empty token iff it follows, no failure is on record and nothing is stored |
| TokenSystem.PassesEarnedStep | go/fixture/oauth2_token_provider.go:109-121 | each pass of a caller's loop has its own failed leader, in increasing order |
| TokenSystem.LoopIsBounded | go/fixture/oauth2_token_provider.go:94-144 | a call goes round its loop at most as often as other calls have failed with a context error |
| Backoff.DoubledIsCappedPower | cli/internal/wallet/retry.go:48-70 | doubling and capping at each step is the capped power of two |
| Backoff.DelayForAttemptIsDoubled | csharp/src/Peaceful.Canton.Localnet.Testing/DarUploader.cs:333-341 | the uploader's closed form is the same iterated doubling, between base and cap |
| Retry.BackoffIsCappedPower | cli/internal/wallet/retry.go:17-22 | the k-th delay without Retry-After is min(2^k, 8) seconds |
| Retry.PauseIs | cli/internal/wallet/retry.go:102-110 | the pause after a send is what a positive Retry-After asks for in seconds, or else 1, 2, 4 and then always 8 seconds |
| Retry.Run | cli/internal/wallet/retry.go:42-71 | sends are sleeps plus one, each delay slept is the prescribed one, the total stays within the budget, and the loop stops for a reason that holds at its last reply and at none before |
| Retry.RunIsUnique | cli/internal/wallet/retry.go:42-71 | replies, budget and sleeps determine the run |
| Retry.RunIsPrescribed | cli/internal/wallet/retry.go:42-71 | every run is the one that exists for its replies: it always ends, with one number of sends and one reason |
| Retry.StopsBecause | cli/internal/wallet/retry.go:42-71 | each reason to stop says exactly what the last reply, the budget (60 seconds for zero) and the last pause were |
| Retry.SendsAreBounded | cli/internal/wallet/retry.go:24-34 | at most one send more than the budget has seconds; 61 with the default budget |
| Retry.TenSendsWithoutRetryAfter | cli/internal/wallet/retry.go:24-34 | with the default budget and no Retry-After a persistent failure is sent exactly ten times |
| Retry.OnlyUnprocessedIsRetried | cli/internal/wallet/retry.go:84-89 | a run that must not repeat an effect repeats only refused connections and answers 429, and ends as not retryable exactly at any other |
| Retry.OnlyTransientIsRetried | cli/internal/wallet/retry.go:73-82 | one that may also repeats 502, 503 and 504, and nothing else |
| Retry.AtMostOneCommit | cli/internal/wallet/retry.go:84-89 | if a refused connection or a 429 has no effect, only the last send of such a run can have one |
| Retry.TransientRetryCanCommitTwice | cli/internal/wallet/retry.go:73-82 | with the wider predicate two sends can take effect |
| Decimal.AcceptedIff | cli/internal/wallet/wallet.go:39-54 | an amount is accepted iff it is a decimal text worth more than zero with at most ten fractional digits; the other verdicts exactly too |
| Decimal.IsDecimalIff | cli/internal/wallet/wallet.go:27 | a decimal is one or more digits, or two such texts around a dot |
| Decimal.ValueIsScaledDigits | cli/internal/wallet/fund.go:165-171 | it is worth its digits read as one number, over ten to the number of digits after the dot |
| Decimal.NatText | cli/internal/wallet/fund.go:173-184 | printed digits read back as the number printed |
| Decimal.QuotientAndRemainder | cli/internal/wallet/fund.go:173-180 | quotient and remainder decide the round-up as floor and rest of the exact quotient do |
| Decimal.UnitsTextValue | cli/internal/wallet/fund.go:180-184 | padding, cutting and both trims print a decimal text, in shortest form, worth exactly the units |
| Decimal.RoundUpUSDIsExact | cli/internal/wallet/fund.go:165-184 | for every positive rational the printed text is accepted, reads back as the rounded-up amount, and exceeds the rational by less than 10^-10 |
| Decimal.RoundUpUSDIsLeast | cli/internal/wallet/fund.go:173-184 | no accepted amount that covers the rational is smaller |
| Funding.AmuletPrice | cli/internal/wallet/fund.go:47-87 | the scan returns the price of the round it holds last; a price returned is a positive decimal |
| Funding.PicksLatestIff | cli/internal/wallet/fund.go:69-80 | it holds the latest opened round iff that has a price or no opened round is listed after it |
| Funding.PriceOfLatest | cli/internal/wallet/fund.go:69-86 | a non-empty price text on the latest opened round is the price returned, or an error if it is no positive decimal |
| Funding.NoPrice | cli/internal/wallet/fund.go:69-83 | an unreadable timestamp on any round is an error, and with no round opened there is no price |
| Funding.EmptyPriceRevivesAnOldRound | cli/internal/wallet/fund.go:69-80 | otherwise an older round's price wins |
| Funding.Tap | cli/internal/wallet/wallet.go:115-171 | a tap validates its amount before sending, and its outcome and number of sends are those of one retried run |
| Funding.MintedIff | cli/internal/wallet/wallet.go:133-171 | a tap reports a mint iff its amount is valid and its last answer is a 2xx with a contract id, which is what it reports |
| Funding.TapMintsAtMostOnce | cli/internal/wallet/wallet.go:115-160 | however often it is resent, one tap commits at most one mint, and one that reports success committed only in its last send |
| Funding.ReadPrice | cli/internal/wallet/fund.go:118-122 | a quote is read iff the rounds arrive and have a price, with its text and its exact value |
| Funding.ReadBalance | cli/internal/wallet/fund.go:27-42 | a balance is read iff it arrives and is a decimal, with its text and its value |
| Funding.ObservedReads | cli/internal/wallet/fund.go:105-129 | the k-th turn sees the k-th balance reply, and the price of the k-th rounds at the time of that read |
| Funding.Fund | cli/internal/wallet/fund.go:97-130 | success only with a balance that reaches the target; falling short only after three taps; the balance returned is the last one read |
| Funding.TapAtLeast | cli/internal/wallet/fund.go:97-130 | a target that is no amount stops it before any request; otherwise the loop ends as specified, with at most three taps |
| Funding.FundEndsIff | cli/internal/wallet/fund.go:108-130 | for every wallet the loop ends in the one turn in which a read fails, the balance reaches the target, a tap is refused or three taps are made, having tapped in each turn that turn's own gap at its own price |
| Funding.EnoughIff | cli/internal/wallet/fund.go:109-113 | it succeeds iff some balance it gets to reaches the target, and at once, with no tap, when the first one does |
| Funding.EnoughIsInTheText | cli/internal/wallet/fund.go:97-130 | over the raw replies, the text returned is the last one read, and its own decimal value reaches the target on success and misses it when falling short |
| Funding.FundingMintsAtMostThrice | cli/internal/wallet/fund.go:109-129 | whatever servers answer and however often requests are resent, one funding run commits at most three mints |
| Funding.TapAmountIsAccepted | cli/internal/wallet/fund.go:117-123 | every amount the loop taps is a valid amount |
| Funding.CreditClosesTheGap | cli/internal/wallet/fund.go:117-126 | a credit of the tapped amount at the price read reaches the target and overshoots by less than 10^-10/price |
| Funding.OneTapSuffices | cli/internal/wallet/fund.go:97-130 | with a wallet that credits in full and loses nothing, the loop never falls short and taps exactly once when the first balance is short |
| Funding.ExactCreditBarelyOvershoots | cli/internal/wallet/fund.go:97-130 | with an exact credit it returns a balance from the target up to less than 10^-10/price above it |
| RightsPolicy.PrefixRuleIsExact | cli/internal/rights/rights.go:136-141 | a policy is made iff the prefix is empty or can match parties of one hint only, and is made of what was given |
| RightsPolicy.IdentityIff | cli/internal/rights/rights.go:203-210 | two rights have one identity iff kind and party agree |
| RightsPolicy.Classify | cli/internal/rights/rights.go:164-174 | the plan keeps and revokes what the policy says, in the listed order |
| RightsPolicy.ClassifyPartitions | cli/internal/rights/rights.go:164-174 | every right keeps all its occurrences on the one side the policy says |
| RightsPolicy.ValidateIff | cli/internal/rights/rights.go:180-201 | a plan passes iff the user holds the admin right, acts as the preserved party, and the sweep is within its bound |
| RightsPolicy.RefusedBecause | cli/internal/rights/rights.go:180-191 | a plan without an admin right, or with one but without an act-as right, is refused as such |
| RightsPolicy.NewSince | cli/internal/rights/rights.go:216-228 | exactly the rights whose identity was not consented to; none iff the live identities are within the consented ones |
| Prune.Confirmed | cli/internal/rights/client.go:87-99 | the count of confirmed rights is full iff every requested identity was reported revoked |
| Prune.Run | cli/cmd/canton-localnet/rights.go:94-247 | its exit status and write; a write was agreed to by flag or by typing "revoke" and is no dry run, non-empty, from the fresh read, within consented identities and the bound, and disjoint from what is preserved; the participant loses to it only the part carried out, and without one nobody's rights change by it |
| Prune.WritesIff | cli/cmd/canton-localnet/rights.go:94-247 | a run writes iff it is agreed to and no dry run, both reads gave a plan that passes with something to revoke, and the second would revoke no identity the first did not; it writes all of the second |
| Prune.UnauthorisedIff | cli/cmd/canton-localnet/rights.go:301-319 | the exit is "not authorised" iff a passing plan meets no dry run, no flag, and no terminal or an answer other than "revoke" |
| Prune.SuccessIff | cli/cmd/canton-localnet/rights.go:93-121 | exactly when a run succeeds: nothing to revoke, a dry run that passes, nothing left at the second read, or a write confirmed identity by identity and read back |
| Prune.PreservedRightsSurvive | cli/cmd/canton-localnet/rights.go:217-247 | however others interleave, and whatever part of the write is carried out, a right that is preserved or was not in the agreed plan survives it |
| Prune.UndisturbedPruneIsComplete | cli/cmd/canton-localnet/rights.go:217-247 | undisturbed, exactly the preserved rights remain and the next prune writes nothing |
| Prune.LeftIff | cli/internal/rights/rights.go:143-154 | an undisturbed prune leaves the admin right, act-as rights on the preserved prefix, read-as rights on it when told to, and of every other kind none |
| Prune.OnlyTheNamedPartyIsKeptIff | cli/internal/rights/rights.go:143-154 | of the act-as rights an undisturbed prune leaves those on the preserved party alone iff the user can act as no party whose id properly extends it |
| Prune.ExitStatusTells | cli/cmd/canton-localnet/rights.go:93-121 | the unauthorised status means nothing was written; success after a write means it was confirmed right by right |
| Prune.DryRunForetells | cli/cmd/canton-localnet/rights.go:94-121 | a dry run passes iff an undisturbed authorised run would write exactly the plan |
| Prune.WriteIsConsentedDocumentsIff | cli/internal/rights/rights.go:203-228 | every document written was in the agreed plan iff every right only the second listing shows is preserved by the policy |
| Prune.WriteIsConsentedDocuments | cli/internal/rights/rights.go:203-228 | in particular, with one document per identity every document revoked was in the agreed plan |
| Prune.UnseenDocumentIsRevoked | cli/internal/rights/rights.go:203-228 | without that, a document that was never listed can be |
| RightsGroups.SuiteIsOneFamily | cli/internal/rights/rights.go:262-281 | all the parties a suite allocates under one hint with random suffixes have the hint's family |
| RightsGroups.FamilyIff | cli/internal/rights/rights.go:262-281 | the family is the shortest stem before a random suffix and "-*", or without any such suffix the part before the first "::" |
| RightsGroups.SortGroups | cli/internal/rights/rights.go:250-258 | the groups, in the order count descending, kind, family |
| RightsGroups.CountKeys | cli/internal/rights/rights.go:240-246 | every kind and family present is counted exactly |
| RightsGroups.ListGroups | cli/internal/rights/rights.go:246-250 | one group per key, in whatever order the map is walked |
| RightsGroups.RevokeGroups | cli/internal/rights/rights.go:240-260 | each kind and family once, with its exact count, in order |
| RightsGroups.KeyIff | cli/internal/rights/rights.go:242-244 | two rights are counted together iff they have the same kind and family |
| RightsGroups.LessIff | cli/internal/rights/rights.go:254-258 | texts are ordered by the first place where they differ, a proper prefix first |
| RightsGroups.SummaryIsRanked | cli/internal/rights/rights.go:250-258 | no count is below a later one, equal counts are ordered by kind and equal kinds by family |
| RightsGroups.SummaryIsUnique | cli/internal/rights/rights.go:240-260 | there is only one such summary, so neither map order nor sort stability can show |
| RightsGroups.CountsAddUp | cli/internal/rights/rights.go:240-260 | its counts add up to the number of rights to revoke |
| Heredoc.GithubEnvDelimiter | cli/cmd/canton-localnet/env.go:619-642 | the search stops at the first draw that fails or occurs in no value, or after eight: none in the first and last case, and otherwise that draw, one line that occurs in no value |
| Heredoc.StopsOnce | cli/cmd/canton-localnet/env.go:619-642 | the draws and the values decide where it stops |
| Heredoc.EnvFile.constructor | cli/cmd/canton-localnet/env.go:601-605 | the file holds what other steps wrote |
| Heredoc.EnvFile.Append | cli/cmd/canton-localnet/env.go:597-617 | everything written before stays, followed by one entry per variable; after settled content the file reads as the old variables followed by those written iff every key is clean, and is settled again; without a delimiter nothing is written |
| Heredoc.ParseOfEntry | cli/cmd/canton-localnet/env_test.go:510-537 | one entry is read as its variable, and what follows it as if it stood alone |
| Heredoc.AppendedIsReadBack | cli/cmd/canton-localnet/env_test.go:510-537 | so are all the variables of one append, values with newlines included |
| Heredoc.ParsedKeysAreClean | cli/cmd/canton-localnet/env_test.go:510-537 | no key that is read contains a newline or "<<", or ends in "<" |
| Heredoc.CleanKeyIff | cli/cmd/canton-localnet/env.go:606-617 | the condition on keys, on the key alone |
| Heredoc.RoundTripIff | cli/cmd/canton-localnet/env.go:597-642 | what is written is read back, in order and in full, iff every key meets that condition |
| Heredoc.AppendedIsReadBackIff | cli/cmd/canton-localnet/env.go:597-642 | the same after any settled content, which then stays in front |
| Heredoc.SettledIff | cli/cmd/canton-localnet/env_test.go:510-537 | a file that parses and ends in a newline is settled iff whatever is appended to it reads as if it stood alone |
| Heredoc.EndsItsLineIff | cli/cmd/canton-localnet/env_test.go:510-537 | the files that end their lines are the empty one and those ending in a newline |
| Heredoc.TwoAppendsAreReadBack | cli/cmd/canton-localnet/env.go:597-617 | two appends to one file under different delimiters are both read back |
| Heredoc.TrailingMarkIsMisread | cli/cmd/canton-localnet/env.go:606-617 | a key that ends in "<" is misread, whatever its value |
| ShellQuote.WriteEnvSh | cli/cmd/canton-localnet/env.go:517-524 | the script is one export line per variable, in order |
| ShellQuote.ShQuoteRoundTrip | cli/cmd/canton-localnet/env.go:526-528 | by sections 2.2.1 and 2.2.2 of the POSIX Shell Command Language a quoted text is read as itself, and nothing after it is affected |
| ShellQuote.ScriptRoundTripIff | cli/cmd/canton-localnet/env.go:517-528 | a shell that reads the script sees those exports and no other command iff every key is a shell name |
| WorkflowCommands.EscapeIsOnePass | cli/cmd/canton-localnet/env.go:587-595 | the three replacements equal one pass that never escapes an escape |
| WorkflowCommands.EscapeRoundTrip | cli/cmd/canton-localnet/env.go:587-595 | decoding line breaks first and the percent sign last gives back every text |
| WorkflowCommands.EscapedIsOneLine | cli/cmd/canton-localnet/env.go:587-595 | escaped data contains no line break |
| SecretMasks.SplitSecretLines | cli/cmd/canton-localnet/env.go:566-585 | the lines are the maximal runs of the secret without CR and LF |
| SecretMasks.RunsAreTheSecret | cli/cmd/canton-localnet/env.go:566-585 | together they are the secret minus its CR and LF |
| SecretMasks.MaskSecret | cli/cmd/canton-localnet/env.go:540-564 | one command per line of the secret is printed |
| SecretMasks.SecretIsMaskedLineByLine | cli/cmd/canton-localnet/env.go:540-595 | the runner, reading what is printed line by line and decoding it, registers exactly the secret's lines |
| RetryPolicy.TotalIsBounded | csharp/src/Peaceful.Canton.Localnet.Testing/DarUploader.cs:300-341 | n pauses last between n base delays and n maximal delays |
| RetryPolicy.NewOptions | csharp/src/Peaceful.Canton.Localnet.Testing/DarUploader.cs:313-323 | options are made iff they allow an attempt and the delays are ordered and not negative |
| RetryPolicy.ValidatedIff | csharp/src/Peaceful.Canton.Localnet.Testing/DarUploader.cs:313-323 | the options the loops require are exactly those that can be made |
| RetryPolicy.DefaultPausesTakeHalfAMinute | csharp/src/Peaceful.Canton.Localnet.Testing/DarUploader.cs:325-341 | the default pauses are 1, 2, 4, 8 and 16 seconds, 2^n - 1 seconds after n of them |
| DarUpload.SendWithRetry | csharp/src/Peaceful.Canton.Localnet.Testing/DarUploader.cs:211-241 | all answers but the last were 503 and slept on, a 503 is returned only from the last attempt allowed, a failed send or a cancelled pause ends it, and the pauses are the policy's |
| Allocation.FindPartyByHint | csharp/src/Peaceful.Canton.Localnet.Testing/PartyAllocator.cs:339-365 | the first listed party with the hint's prefix, or none iff none is listed |
| Allocation.FoundHasTheHint | csharp/src/Peaceful.Canton.Localnet.Testing/PartyAllocator.cs:344-364 | what is found starts with the hint and "::", and the part before its first "::" is the hint iff the hint is clean |
| Allocation.CleanHintIff | csharp/src/Peaceful.Canton.Localnet.Testing/PartyAllocator.cs:344-364 | a hint is clean iff it contains no "::" and does not end in a colon |
| Allocation.HintsShareNoParty | csharp/src/Peaceful.Canton.Localnet.Testing/PartyAllocator.cs:344-364 | no party is found for two clean hints |
| Allocation.ColonSharesAParty | csharp/src/Peaceful.Canton.Localnet.Testing/PartyAllocator.cs:344-364 | a hint ending in a colon shares one with another hint |
| Allocation.PostWithRetry | csharp/src/Peaceful.Canton.Localnet.Testing/PartyAllocator.cs:203-274 | at most the allowed number of requests, all but the last inconclusive and slept on, and the outcome that the last one's answer calls for |
| Allocation.CallIsUnique | csharp/src/Peaceful.Canton.Localnet.Testing/PartyAllocator.cs:203-274 | answers, pauses and lookups determine the call |
| Allocation.RetriesIff | csharp/src/Peaceful.Canton.Localnet.Testing/PartyAllocator.cs:309-311 | what is retried is exactly a time-out, a 503, a 504, or a 409 that says the request is in flight |
| Allocation.AllocatedIff | csharp/src/Peaceful.Canton.Localnet.Testing/PartyAllocator.cs:236-271 | a call returns a party iff its last answer is a 2xx that names it, or a 400 that says it exists, not the first answer, and a lookup lists one with the hint and "::" |
| Allocation.FailsBecause | csharp/src/Peaceful.Canton.Localnet.Testing/PartyAllocator.cs:221-273 | what a failed call is told, for each kind of last answer |
| AllocationSystem.ShapeAlways | csharp/src/Peaceful.Canton.Localnet.Testing/PartyAllocator.cs:203-274 | in every run the call sends no more than allowed, retries only inconclusive answers, and ends with the outcome its last answer and lookup call for |
| AllocationSystem.EndsAsTheLoop | csharp/src/Peaceful.Canton.Localnet.Testing/PartyAllocator.cs:203-274 | a call that has ended in the system is exactly the allocator's own loop on the same answers |
| AllocationSystem.SoundAlways | csharp/src/Peaceful.Canton.Localnet.Testing/PartyAllocator.cs:203-274 | in every run at most one request made the party, whoever found or made it left it there, and what the caller was told is true |
| AllocationSystem.AloneAlways | csharp/src/Peaceful.Canton.Localnet.Testing/PartyAllocator.cs:203-274 | in every run with the hint to itself, the only party with the hint is the call's own, there exactly when a request made it |
| AllocationSystem.WhichPartyIsReturned | csharp/src/Peaceful.Canton.Localnet.Testing/PartyAllocator.cs:339-365 | the party returned is the one the last request made, or the first one listed with the hint's prefix |
| AllocationSystem.AtMostOneRequestMakesTheParty | csharp/src/Peaceful.Canton.Localnet.Testing/PartyAllocator.cs:203-242 | however many requests are sent, whoever else uses the hint and whenever they are carried out, at most one makes the party, only that one is told so, and no more are sent than allowed |
| AllocationSystem.ExactlyOnce | csharp/src/Peaceful.Canton.Localnet.Testing/PartyAllocator.cs:203-274 | in every run in which nobody else uses the hint, a normal return means exactly one request made a party, no other party has the hint then or later, and it is the one returned |
| AllocationSystem.ReturnsIff | csharp/src/Peaceful.Canton.Localnet.Testing/PartyAllocator.cs:256-271 | such a call returns normally iff its last answer is a readable success, or says the party exists and the lookup answers |
| AllocationSystem.TakenHintIff | csharp/src/Peaceful.Canton.Localnet.Testing/PartyAllocator.cs:256-271 | with a taken hint no request makes the party, a conclusive first answer fails the call, and it returns normally iff the first answer was inconclusive, the last says the party exists, and the lookup answers |
| AllocationSystem.TakenHintIsReturned | csharp/src/Peaceful.Canton.Localnet.Testing/PartyAllocator.cs:256-271 | one lost answer makes the call return a party it did not make |
| AllocationSystem.OtherNamespaceIsReturned | csharp/src/Peaceful.Canton.Localnet.Testing/PartyAllocator.cs:339-365 | with the hint held under another namespace the call can return that party although its own request made one |
| AllocationSystem.FailureMayLeaveAParty | csharp/src/Peaceful.Canton.Localnet.Testing/PartyAllocator.cs:226-239 | a call that times out on every attempt may leave its party behind |
| AllocationSystem.LeavesAPartyIff | csharp/src/Peaceful.Canton.Localnet.Testing/PartyAllocator.cs:203-274 | with the hint to itself, a call leaves its party behind, however it ended, iff one of its requests was carried out |

## Left out

- HTTP, JSON, URLs, bearer headers, flag parsing, logging and the wording of errors: requests and replies are steps or parameters with decoded values.
- Clocks, randomness and the replies of servers are parameters: every theorem holds for all of them.
- Durations and timestamps are unbounded integers and the C# backoff's `Math.Pow` is an integer power; overflow of 64-bit durations is not modelled.
- `big.Rat` values are Dafny reals, which are exact here; `Decimal.QuotientAndRemainder` relates the source's quotient and remainder to them.
- Texts are sequences of characters; encoding and invalid UTF-8 are not modelled, nor is the NUL character, which a shell variable cannot hold.
- Trimming of the answer typed at the prompt: it is taken as already trimmed.
- The GET retries of `Balance` and `AmuletPrice`, which are `Retry.Run` with the narrow predicate, and the token fetch of `MintToken`, the one caller of the wider one: reads arrive already decoded.
- TokenProvider.OAuth2TokenProvider.Enter: models one critical section; the loop of `Token` around it is the step relation of `TokenSystem`, since other callers run between the sections.
- Funding.TapAtLeast: takes decoded reads from a `Wallet`; `Funding.Observed` builds that wallet from raw replies and the price scan.
- Heredoc.RoundTripIff: keeps repeated keys apart and in order, where the reader in the tests keeps the last value of each key in a map.
- ShellQuote.ScriptRoundTripIff: the reader knows exports, backslashes and single quotes; double quotes, expansions and every other command count as not read.
- AllocationSystem.ExactlyOnce: assumes that no party is removed, that a request which is carried out makes its party iff there is none, and that a success, an "already exists" and a listing are true; nothing is assumed of any other answer.
- Heredoc.AppendedIsReadBackIff: says nothing of a file whose last line has no newline, to which the first entry is glued.
- RightsGroups.SortGroups: sorts by insertion instead of calling the library's sort, whose algorithm is not part of this model; the result is unique.
- The DAR upload itself (vetting targets, outcomes, verification), the C# `OAuth2TokenProvider`, user creation and plain revokes: they would add only easy members.
- Slots, compose files, tunnels, endpoint discovery, health and watermark polling, fixtures and signing.
