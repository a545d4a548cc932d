# Verified models of Khepri's core

Dafny models of the parts of Khepri whose correctness rests on arguments no single function shows: the
identity store and its locks, artifact publication, the governance validator, comparison aggregation, row
admission keys and exact-size benchmark documents. Each part follows the source's own form. Stores,
accumulators, the cycle finder and the validator are classes updated in place, each method proved against a
specification; records, planners and calendars are values and functions; protocols with concurrency are step
relations over which safety is proved for every run. `dafny verify dfyconfig.toml` checks everything.

## The parts

- **Identity** (`Records`, `IdentityState`, `IdentityHistory`, `IdentityTheorems`, `IdentityStore`). One store of
  accounts, owner and member rows, external-identity links, invitations, sessions and an event log. A run is a
  sequence of whole transactions whose arguments were built from rows of *any* earlier state, so every theorem
  holds with stale snapshots. `SqlIdentityStore` has one method per transaction, proved to commit exactly what
  `Apply` says.
- **Owner locks** (`OwnerLocks`, `LockOrder`). The owner-reducing transactions taken apart into plan, lock row by
  row, count and commit, under any interleaving; exactly which commits cost an organization its last owner; why
  ordered locking cannot deadlock, and exactly when unordered locking can.
- **Publication** (`Publication`, `PublicationTheorems`, `PublicationLimits`, `Publisher`). Any number of attempts
  putting objects, committing under a lease fence, reconciling lost replies and rolling back, with a failure
  possible at every call. A commit may raise while it is still in flight: its transaction keeps the rows it
  locked, unseen, until it lands or vanishes. The publisher class makes its calls with any steps of everybody
  else in between.
- **Governance** (`CycleFinder`, `Registry`, `Validator`, `RegistryTheorems`). The depth-first cycle search, the
  passes that collect problems, and the proof that an empty list means exactly a registry in good order.
- **Comparison** (`Collections`, `Texts`, `Labels`, `Summaries`, `Curve`, `Aggregates`, `Periods`,
  `Comparisons`). Labels, accumulators, ranking, truncation, time series, conservation, the concentration curve, and
  what the order of rows can change.
- **Admission and benchmark rows** (`Admission`, `BenchmarkRows`). Composite keys and their parser, repeated event
  keys, exact-size planning and rendering.
- **Retention** (`Calendar`, `Retention`). Horizons in calendar months, accounts staying due over runs, and what the
  retained events are.

## What turned out not to hold

Each of these is stated with a concrete case and, where there is one, the exact condition.

- `_months_before` is documented as keeping the horizon monotonic; it does not, because a clamped day keeps its
  time of day (`Calendar.HorizonCanStepBack`). It is monotone exactly outside `ClampedApart`
  (`Calendar.HorizonAdvancesExactlyWhen`), and twenty-four month eligibility lapses exactly within a leap day
  (`Calendar.EligibilityLapsesExactlyOnLeapDays`).
- An account due for purge can stop being due without being re-enabled: a second disablement built from one held
  record re-dates the first (`IdentityTheorems.StaleDisableMovesTheHorizon`). It stays due exactly until a write
  lands that re-enables it, re-dates it past the horizon or purges it
  (`IdentityTheorems.EligibilityPersistsExactlyWhen`).
- The reconciling read takes no lock, so it can be answered "not committed" while the commit is still in flight:
  the objects are deleted and the rows then name none that exist (`PublicationLimits.LateLandingCanDangle`). Rows
  name existing objects exactly when their commit did not land so
  (`PublicationTheorems.RowsNameObjectsExactlyWhen`), and a failed attempt commits later exactly when its commit
  was still in flight (`PublicationTheorems.FailureCanCommitExactlyWhen`).
- A lease is judged at the instant read before the committing transaction opens, so a commit can land after the
  lease has run out if nobody claimed the job meanwhile (`PublicationLimits.ExpiredLeaseCanStillCommit`). It lands
  inside its lease exactly when the clock did not pass the expiry in between
  (`PublicationLimits.LandsInsideItsLeaseExactlyWhen`). A superseded lease never commits.
- Interleaved owner safety of an organization needs one thing of the surroundings: no open reduction comes to touch
  one more owner of it. That can happen in two ways only, and each is shown to break the claim: an owner row there for
  the account an open reduction is about, or for whoever holds the link one deletes
  (`OwnerLocks.LateOwnerRowCanStrand`), and a link made again for a subject that an open unlinking is about to delete
  (`OwnerLocks.RelinkingCanStrand`). Owner rows of anybody else, in that organization or elsewhere, with or without
  reductions open, do no harm (`OwnerLocks.InterleavedOwnersNeverRunOut`). With neither condition an organization
  keeps an owner exactly as long as no commit takes its last one (`OwnerLocks.StrandedExactlyByCommits`).
- An unlinking whose link somebody else deleted under it can decide where the guard would refuse: it judges only the
  organizations whose rows it locked, and an owner row may have come in since. Its commit then changes nothing
  (`OwnerLocks.GoneLinkIsNotJudged`, and exactly when: `OwnerLocks.UnlinkDecidesExactlyWhen`).
- The one-organization lock fixes no order, so two downgrades in one organization can deadlock
  (`LockOrder.UnorderedLockingCanDeadlock`), and so can a disablement, whose own lock is ordered, with a downgrade
  (`LockOrder.MixedLockingCanDeadlock`). Any two reductions can deadlock exactly when each comes to their common rows
  through a different one (`LockOrder.DeadlockExactlyWhenEnteredApart`). For two changes of one organization that means
  their locking statements return different first rows (`LockOrder.TwoChangesDeadlockExactlyWhen`); for an ordered lock
  against an unordered one, that the account owns the organization and the unordered statement does not return its
  least row first (`LockOrder.OrderedMeetsUnorderedExactlyWhen`). A pair of rows in opposite orders is needed and is
  not enough (`LockOrder.CrossedRowsAreNotEnough`).
- A comparison's labels can depend on the order of its rows, exactly when two values still show one text after
  their digests (`Labels.OrderMattersExactlyWhenTextsMeet`).
- A filler row index coincides with a natural one exactly when a document has more than 20,300,007 rows
  (`BenchmarkRows.FillersAvoidNaturalRows`).

## Model

| member | source | states |
|---|---|---|
| IdentityTheorems.OwnersNeverRunOut | src/khepri/rca/persistence.py:821-1427 | over every run with stale snapshots, an organization with an effective owner still has one after every later step |
| IdentityTheorems.DisableGuardIsExact | src/khepri/rca/persistence.py:927-948 | disabling is refused as final owner exactly when it would leave an organization the account owns with no effective owner |
| IdentityTheorems.MembershipGuardIsExact | src/khepri/rca/persistence.py:1371-1427 | removal and downgrade are refused as final owner exactly when they would empty that organization of effective owners |
| IdentityTheorems.DisableKeepsOwners | src/khepri/rca/persistence.py:1235-1261 | a disablement that lands, whatever record it writes, leaves every owned organization an effective owner |
| IdentityTheorems.MembershipChangeKeepsOwners | src/khepri/rca/persistence.py:1263-1369 | a removal or downgrade that lands keeps every organization's effective owner |
| IdentityTheorems.UnlinkKeepsOwners | src/khepri/rca/session_persistence.py:271-300 | removing a link, even the last one, keeps every organization's effective owner when it lands |
| IdentityTheorems.OtherStepsKeepEachOwner | src/khepri/rca/persistence.py:955-1078 | no other transaction, stale re-enablement and purge included, costs any organization any effective owner |
| IdentityTheorems.LogRefinesRoles | src/khepri/rca/persistence.py:955-1427 | folding the full event history gives exactly the current role of every organization and account, and each event's prior role is the role just before it |
| IdentityTheorems.InvitationPermanence | src/khepri/rca/invitation_persistence.py:116-325 | between two moments of a run an offer's terms, terminal timestamps and destroyed verifier are permanent, it is never both redeemed and revoked, either one leaves it no verifier, and a deleted one never returns |
| IdentityTheorems.OneMembershipPerInvitation | src/khepri/rca/invitation_persistence.py:327-434 | no invitation makes two memberships |
| IdentityTheorems.MembershipsComeFromOpenInvitations | src/khepri/rca/invitation_service.py:159-244 | every membership made by an invitation was made while it was open at the redemption instant, in its organization and role, by its addressee, who could act |
| IdentityTheorems.FindRedemption | src/khepri/rca/invitation_persistence.py:394-434 | the step that turned an invitation into a log entry can be found, and it is a redemption |
| IdentityTheorems.NoReEntry | src/khepri/rca/persistence.py:1297-1334 | with a monotone clock, no invitation in the store at a revocation makes that account a member there again, and none it issued there makes anyone one |
| IdentityTheorems.RevokeTakesExactly | src/khepri/rca/persistence.py:490-548 | a removal takes exactly the open, unexpired offers of that organization addressed to the account or issued by it, and leaves every other offer of any organization as it was |
| IdentityTheorems.PurgeTakesExactly | src/khepri/rca/persistence.py:490-548 | a purge takes exactly the offers to that address that were neither redeemed nor revoked, in every organization, expired or not, and leaves the rest as they were |
| IdentityTheorems.SessionPermanence | src/khepri/rca/session_persistence.py:113-196 | a revocation instant is never moved or cleared and a revoked session is never re-pointed |
| IdentityTheorems.AccountPermanence | src/khepri/rca/persistence.py:658-804 | a purged account never regains an address or verifier, and no account regains a destroyed verifier |
| IdentityTheorems.AddressesStayUnique | src/khepri/rca/persistence.py:623-656 | one address never belongs to two accounts |
| IdentityTheorems.ScopesAreStableAndSeparate | src/khepri/rca/persistence.py:361-374 | an organization has one isolation key for its lifetime, and no two organizations share one |
| IdentityTheorems.EligibilityEndsExactlyWhen | src/khepri/rca/accounts.py:97-111 | one transaction leaves an account due for purge unless it lands and re-enables it, re-dates its disablement past the horizon, or purges it; refused, harmless and other accounts' writes do not |
| IdentityTheorems.EligibilityPersistsExactlyWhen | src/khepri/rca/lifecycle.py:198-223 | over any run an account due for purge stays due exactly as long as no such transaction lands |
| IdentityTheorems.StaleDisableMovesTheHorizon | src/khepri/rca/lifecycle.py:105-125 | two disablements from one held record: the second re-dates the first and ends eligibility |
| IdentityHistory.RunsSettle | src/khepri/rca/persistence.py:821-1427 | in every run each state is sound and every earlier state evolves into it |
| IdentityStore.SqlIdentityStore.AddAccount | src/khepri/rca/persistence.py:623-656 | commits the specified insert, refusing a taken identifier or address |
| IdentityStore.SqlIdentityStore.AddAccountWithExternalIdentity | src/khepri/rca/persistence.py:623-656 | inserts account and link together or neither |
| IdentityStore.SqlIdentityStore.SaveAccount | src/khepri/rca/persistence.py:707-718 | writes a live row and never a purged one |
| IdentityStore.SqlIdentityStore.ApplyAccount | src/khepri/rca/persistence.py:777-804 | the conditional write: a purged row is terminal |
| IdentityStore.SqlIdentityStore.PurgeIfStillEligible | src/khepri/rca/persistence.py:658-705 | re-checks eligibility on the current row and closes the account's offers with it |
| IdentityStore.SqlIdentityStore.SweepAccounts | src/khepri/rca/lifecycle.py:198-222 | one pass purges exactly the accounts due at the horizon, counts them, and changes no other account |
| IdentityStore.SqlIdentityStore.OwnerReductionOutcome | src/khepri/rca/persistence.py:927-948 | locks exactly the owner rows of the organizations the account owns, and judging them organization by organization decides exactly whether its loss would strand one |
| IdentityStore.SqlIdentityStore.ApplyOwnerReducingChange | src/khepri/rca/persistence.py:1235-1261 | guard and write in one transaction |
| IdentityStore.SqlIdentityStore.CreateOrganization | src/khepri/rca/persistence.py:955-1016 | organization, first row, isolation scope and event together, refused on mismatched records or a key already used |
| IdentityStore.SqlIdentityStore.PromoteMembership | src/khepri/rca/persistence.py:1018-1078 | promotes only from the role the event says was current |
| IdentityStore.SqlIdentityStore.MembershipChangeOutcome | src/khepri/rca/persistence.py:1371-1427 | locks exactly the owner rows of that organization; the shared guard of removal and downgrade |
| IdentityStore.SqlIdentityStore.RevokeMembership | src/khepri/rca/persistence.py:1263-1334 | removes the row, cascades over open offers and logs the true prior role, or changes nothing |
| IdentityStore.SqlIdentityStore.DemoteMembership | src/khepri/rca/persistence.py:1336-1369 | downgrades and logs the true prior role, or changes nothing |
| IdentityStore.SqlIdentityStore.PurgeExpiredEvents | src/khepri/rca/persistence.py:1080-1100 | drops exactly the events past the horizon, in order, and counts them |
| IdentityStore.SqlIdentityStore.LinkExternalIdentity | src/khepri/rca/session_persistence.py:230-255 | links an unlinked subject to an existing account |
| IdentityStore.SqlIdentityStore.UnlinkExternalIdentityOutcome | src/khepri/rca/session_persistence.py:271-300 | refuses only when the login would be lost and an organization stranded |
| IdentityStore.SqlIdentityStore.AddInvitation | src/khepri/rca/invitation_persistence.py:165-215 | inserts a fresh offer of an existing organization |
| IdentityStore.SqlIdentityStore.ReadDestroyingExpired | src/khepri/rca/invitation_persistence.py:217-247 | an expired offer is never returned with a verifier |
| IdentityStore.SqlIdentityStore.InvitationsForOrganization | src/khepri/rca/invitation_persistence.py:436-462 | lists exactly the organization's offers, once each and in issuance order, none with an expired verifier |
| IdentityStore.SqlIdentityStore.SaveInvitation | src/khepri/rca/invitation_persistence.py:268-325 | the monotone merge, refused on a conflicting terminal state |
| IdentityStore.SqlIdentityStore.RedeemIntoMembership | src/khepri/rca/invitation_persistence.py:327-434 | consumes an open offer, adds the row and logs it, or changes nothing |
| IdentityStore.SqlIdentityStore.DeleteOpenInvitation | src/khepri/rca/invitation_persistence.py:464-517 | deletes only an open offer of that organization |
| IdentityStore.SqlIdentityStore.PurgeSpentInvitations | src/khepri/rca/invitation_persistence.py:519-555 | what is still open, or was redeemed within the horizon, stays as it was; every other row goes, and the count is of the rows gone |
| IdentityStore.SqlIdentityStore.AddSession | src/khepri/rca/session_persistence.py:71-100 | mints a session; a taken identifier is refused, and an absent account is the store's error |
| IdentityStore.SqlIdentityStore.PointSessionAtOrganization | src/khepri/rca/session_persistence.py:113-128 | re-points a live session only |
| IdentityStore.SqlIdentityStore.RevokeSession | src/khepri/rca/session_persistence.py:130-149 | writes a revocation instant once |
| IdentityStore.SqlIdentityStore.RevokeAllForAccount | src/khepri/rca/session_persistence.py:151-174 | the account has no live session left at any moment; other accounts' rows and earlier revocations are untouched; the count is of the rows changed |
| IdentityStore.SqlIdentityStore.RevokeAllForProvider | src/khepri/rca/session_persistence.py:176-196 | no account linked to the provider has a live session left; only live sessions of such accounts changed; the count is of the rows changed |
| IdentityStore.SqlIdentityStore.PurgeSessionsDeadBefore | src/khepri/rca/session_persistence.py:198-223 | a row goes exactly when its own death is at or before the horizon, so no session live at or after the horizon does; the count is of the rows gone |
| OwnerLocks.HoldersMiss | src/khepri/rca/persistence.py:850-924 | two transactions that both hold their locks cannot both touch one contended owner |
| OwnerLocks.DecisionOutlivesCommit | src/khepri/rca/persistence.py:927-948 | another transaction's commit never invalidates a decision already taken |
| OwnerLocks.TracesAreSafe | src/khepri/rca/persistence.py:850-948 | over every run in which no open reduction comes to touch one more owner of an organization, its lock invariant holds: rows have one holder, whoever judges it holds or wants its own row there, of two that judge it one covers the other's row, and a taken decision still stands |
| OwnerLocks.CommitStrandsExactlyWhen | src/khepri/rca/persistence.py:821-948 | a committing reduction leaves an organization no effective owner exactly when whoever it takes out was the last one, whatever the locks |
| OwnerLocks.StrandedExactlyByCommits | src/khepri/rca/persistence.py:850-1427 | over any interleaving, late owner rows and re-created links included, an organization keeps an effective owner exactly as long as no commit takes its last one |
| OwnerLocks.SafeCommitTakesNoLast | src/khepri/rca/persistence.py:850-948 | while the lock invariant holds, no commit takes a last owner |
| OwnerLocks.DecidesExactlyWhenGuardAccepts | src/khepri/rca/persistence.py:927-948 | holding every lock it planned, a reduction can decide exactly when the whole transaction's guard accepts on the same tables |
| OwnerLocks.UnlinkDecidesExactlyWhen | src/khepri/rca/session_persistence.py:271-300 | its link there or gone, an unlinking decides when the guard accepts, and past a guard that refuses exactly when it locked no row of an organization it would strand |
| OwnerLocks.GoneLinkIsNotJudged | src/khepri/rca/session_persistence.py:271-300 | a reachable run in which an unlinking whose link somebody else deleted decides where the guard would refuse; its commit then changes nothing |
| OwnerLocks.InterleavedOwnersNeverRunOut | src/khepri/rca/persistence.py:850-1427 | under every interleaving of disablements, removals, downgrades and unlinkings, an organization with an effective owner never comes to have none, as long as no open reduction comes to touch one more owner of it; owner rows of anybody else may be added at any time |
| OwnerLocks.OwnersNeverRunOutUndisturbed | src/khepri/rca/persistence.py:850-1427 | for that it is enough that no open reduction's own account, or holder of the link it deletes, gains an owner row in the organization, and that no open unlinking's link is made again |
| OwnerLocks.OtherTransactionsAreBenign | src/khepri/rca/persistence.py:955-1100 | every whole transaction that does not reduce owners is one the interleaving allows, and only creation, promotion and redemption as owner add an owner row |
| OwnerLocks.CommitIsWholeTransactionExactlyWhen | src/khepri/rca/persistence.py:1235-1427 | taken apart or whole, a reduction that commits has the same effect exactly when the membership row its event describes is still there and unchanged |
| OwnerLocks.LateOwnerRowCanStrand | src/khepri/rca/persistence.py:902-923 | a promotion under an open disablement can leave an organization without an owner |
| OwnerLocks.RelinkingCanStrand | src/khepri/rca/session_persistence.py:271-300 | two open unlinkings of one subject with a fresh link between them can strand an organization |
| LockOrder.HolderCanMove | src/khepri/rca/persistence.py:902-923 | whoever holds the last wanted row waits for nothing |
| LockOrder.SomethingCanMove | src/khepri/rca/persistence.py:902-923 | while anything is open under ordered locking, something can move |
| LockOrder.OrderedLockingNeverDeadlocks | src/khepri/rca/persistence.py:902-923 | transactions that all lock in one strict order, whichever it is, never wait in a circle of any length, and while any is open something can move |
| LockOrder.AccountWideLockingNeverDeadlocks | src/khepri/rca/persistence.py:902-923 | the organization-then-account order of the account-wide lock is such an order |
| LockOrder.DeadlockExactlyWhenEnteredApart | src/khepri/rca/persistence.py:850-923 | any two reductions, taking their rows in any orders, can come to wait for each other exactly when they share rows and the first shared row of one is not the first shared row of the other |
| LockOrder.OrderedMeetsUnorderedExactlyWhen | src/khepri/rca/persistence.py:850-923 | a disablement or unlinking, locking in order, and a removal or downgrade, locking in none, can exactly when the account owns the organization and the latter does not start with its least owner row |
| LockOrder.MixedLockingCanDeadlock | src/khepri/rca/persistence.py:850-923 | a disablement and a downgrade of another owner that do |
| LockOrder.TwoChangesDeadlockExactlyWhen | src/khepri/rca/persistence.py:850-871 | two membership changes of one organization can come to wait for each other exactly when their plans start with different rows |
| LockOrder.DeadlockNeedsCrossedRows | src/khepri/rca/persistence.py:850-871 | a waiting cycle of two, whatever they reduce, needs a pair of rows taken in opposite orders |
| LockOrder.CrossedRowsAreNotEnough | src/khepri/rca/persistence.py:850-871 | such a pair behind a common first row never leads to one |
| LockOrder.UnorderedLockingCanDeadlock | src/khepri/rca/persistence.py:850-871 | two downgrades through the unordered one-organization lock can wait for each other forever |
| LockOrder.WholeTransactionIsARun | src/khepri/rca/persistence.py:850-1427 | alone, in whatever order it takes its rows, a reduction whose guard accepts runs to its end, releases every row and leaves what its whole transaction leaves |
| Publication.TraceIsSound | src/khepri/rra/artifact_publication.py:122-197 | the protocol invariant holds after every interleaving of calls and failures |
| Publication.OnlyTheFirstCommitWrites | src/khepri/rra/artifact_persistence.py:191-198 | a commit that passes every check finds no rows of its job |
| PublicationTheorems.CommittedRowsAreOneSet | src/khepri/rra/artifact_persistence.py:158-198 | a job's committed rows are one attempt's whole seven-kind set in order, delivered under its bundle: row k has kind k, the digest of payload k, the scope, bundle and expiry of the boundary, the attempt's first instant and a key naming all of these; an object is missing exactly when that attempt's rollback deleted it |
| PublicationTheorems.RowsNameObjectsExactlyWhen | src/khepri/rra/artifact_publication.py:166-183 | committed rows name existing objects exactly when their commit did not land after its own reconciliation was answered "not committed", or landed so before any delete took effect |
| PublicationTheorems.RowsAreInTheJobsScope | src/khepri/rra/artifact_persistence.py:200-219 | committed rows and the keys they name are in the job's own scope |
| PublicationTheorems.DeniedExactlyWhenLate | src/khepri/rra/artifact_publication.py:174-183 | a job's writer has begun to withdraw exactly when its commit landed after it was told there was none |
| PublicationTheorems.ObjectsAreNeverShared | src/khepri/rra/artifact_publication.py:276-283 | no two committed rows name one object |
| PublicationTheorems.OneSetPerJob | src/khepri/rra/artifact_persistence.py:191-198 | committed rows never change, so at most one attempt's set is ever committed for a job |
| PublicationTheorems.OneDeliveryPerJob | src/khepri/rra/delivery_persistence.py:235-274 | what was delivered for a job never changes, whoever delivered it |
| PublicationTheorems.CommitsExactlyWhenWelcome | src/khepri/rra/artifact_persistence.py:147-198 | a commit can be answered exactly when the job runs under the boundary's own lease, owner and claim, unexpired at the sampled instant, over live content that expires as the boundary said and after the artifacts were created, nothing is in flight, and nothing else was delivered; the stored set itself can never be what is wrong |
| PublicationTheorems.OnlyTheLeaseHolderCommits | src/khepri/rra/artifact_persistence.py:286-315 | rows appear only through the attempt whose boundary is the job's current lease, unexpired at the commit instant, in its own scope and over live content that expires as the boundary said |
| PublicationTheorems.SupersededNeverCommits | src/khepri/rra/artifact_persistence.py:286-315 | once the job was claimed again, the earlier attempt never commits |
| PublicationLimits.LandsInsideItsLeaseExactlyWhen | src/khepri/rra/artifact_publication.py:167-173 | every landing was sampled by an earlier clock read, and is inside its lease exactly when the clock did not pass the expiry in between |
| PublicationLimits.LandsOverUnexpiredContentExactlyWhen | src/khepri/rra/artifact_persistence.py:166-182 | a landing is over unexpired content exactly when the content was unexpired as the boundary was resolved and the clock did not pass its expiry since |
| PublicationLimits.ExpiredLeaseCanStillCommit | src/khepri/rra/artifact_publication.py:167-173 | a reachable run in which a commit lands after its lease has run out |
| PublicationLimits.LateLandingCanDangle | src/khepri/rra/artifact_publication.py:173-183 | a reachable run in which a commit in flight is answered "not committed", every object is deleted cleanly, and the rows appear afterwards |
| PublicationTheorems.CleanFailureLeavesNothing | src/khepri/rra/artifact_publication.py:174-183 | an attempt that failed with every delete answered leaves none of its recorded objects, then or ever, and commits afterwards only if its commit was still in flight |
| PublicationTheorems.FailureCanCommitExactlyWhen | src/khepri/rra/artifact_publication.py:174-183 | a failed attempt's rows are there or can be in one step more exactly when they are there already or its commit is in flight |
| PublicationTheorems.PublishedStaysPublished | src/khepri/rra/artifact_publication.py:122-183 | an attempt reported published holds its job's rows and their objects from then on |
| PublicationTheorems.StartedUnderItsLease | src/khepri/rra/artifact_persistence.py:200-219 | every attempt of a run began under a lease of its job and over live content of the job's scope, both unexpired at its first instant, while nothing of that job was in flight |
| PublicationTheorems.AttemptsEndureAlong | src/khepri/rra/artifact_publication.py:136-156 | an attempt's job, bundle, payloads and boundary are fixed, and one that ended is never resumed |
| Publisher.BoundaryOf | src/khepri/rra/artifact_persistence.py:200-219 | a boundary is resolved exactly when a running lease over live content exists, both unexpired at the attempt's first instant |
| Publisher.OutcomesAreTrue | src/khepri/rra/artifact_publication.py:122-183 | what an outcome says of rows and objects is true of the world after any interleaving: delivered means all there, rolled back means committed only by a late landing, a clean rollback leaves no object, unknown leaves every object |
| Publisher.DeliveredRowsTell | src/khepri/rra/artifact_publication.py:296-319 | what each of a delivered report's seven rows says, field by field |
| Publisher.ReportArtifactPublisher.StoreAll | src/khepri/rra/artifact_publication.py:185-197 | the storing loop ends with the whole set described and stored, or with a rollback begun, whatever others do meanwhile |
| Publisher.ReportArtifactPublisher.PutNext | src/khepri/rra/artifact_publication.py:199-217 | one call is one put of the protocol: it stores the next artifact and records its key when it created it, or raises with or without having written |
| Publisher.PutIsOneOfThese | src/khepri/rra/artifact_publication.py:199-217 | every put of the protocol is one this call can make: answered, or raised with or without having written |
| Publisher.ReportArtifactPublisher.DeleteNext | src/khepri/rra/artifact_publication.py:268-273 | one call is one delete of the protocol: the last recorded key left, answered, or raised with or without effect, which ends the rollback |
| Publisher.DeleteIsOneOfThese | src/khepri/rra/artifact_publication.py:268-273 | every delete of the protocol is one this call can make: answered, or raised with or without effect |
| Publisher.ReportArtifactPublisher.Rollback | src/khepri/rra/artifact_publication.py:268-273 | deletes recorded keys last first until one raises; when every delete answers none is left |
| Publisher.ReportArtifactPublisher.CommitNext | src/khepri/rra/artifact_persistence.py:158-198 | answered, the rows are this attempt's; unanswered, none were written yet; without the fence nothing is committed or left in flight |
| Publisher.ReportArtifactPublisher.ReconcileNext | src/khepri/rra/artifact_persistence.py:232-245 | an answer is true of this attempt at the instant it is given |
| Publisher.ReportArtifactPublisher.CommitOrReconcile | src/khepri/rra/artifact_publication.py:158-183 | settles every outcome truthfully, a commit landing later included |
| Publisher.ReportArtifactPublisher.ReconcileAndRollback | src/khepri/rra/artifact_publication.py:174-183 | rolls back only on a clear answer that nothing was committed, and settles truthfully even when that answer is overtaken |
| Publisher.ReportArtifactPublisher.StartAttempt | src/khepri/rra/artifact_publication.py:136-148 | starts an attempt exactly when a boundary can be resolved once the job's row is free, and otherwise begins none |
| Publisher.ReportArtifactPublisher.Publish | src/khepri/rra/artifact_publication.py:122-156 | with any interleaving of others: an already delivered job is answered or refused without a step, no boundary means no attempt, and otherwise the outcome is true of the caller's own inputs; a new delivery holds seven rows, each with its own payload's digest and the resolved boundary's scope |
| CycleFinder.WalksDescend | src/khepri_gov/validator.py:311-326 | a walk through a finishing order only goes further down it |
| CycleFinder.OrderedGraphsAreAcyclic | src/khepri_gov/validator.py:304-326 | a graph all of whose nodes were left behind in order has no closed walk |
| CycleFinder.StackTailClosesACycle | src/khepri_gov/validator.py:312-314 | the stack from the first occurrence, closed, is a real cycle that passes no node twice |
| CycleFinder.Finder.Visit | src/khepri_gov/validator.py:311-326 | returns a closed path without repeats, the tail of the stack closed by the first way on from its end, or leaves the node and all it leads to behind with stack and active restored |
| CycleFinder.Finder.Find | src/khepri_gov/validator.py:304-309 | the empty list exactly when the graph is acyclic, otherwise the first cycle met: without repeats, reached from the first node that leads to one by first ways on |
| Validator.RegistryValidator.ValidateArtifacts | src/khepri_gov/validator.py:151-221 | reports exactly the field, value, identity and document problems, and indexes the first artifact of each identifier |
| Validator.RegistryValidator.ValidateAllDependencies | src/khepri_gov/validator.py:224-273 | reports exactly the duplicate, self, unknown and retired dependencies |
| Validator.RegistryValidator.ValidateCycles | src/khepri_gov/validator.py:276-290 | reports one cycle that passes no node twice, exactly when the known dependencies are cyclic |
| Validator.RegistryValidator.ValidateFamilyLinks | src/khepri_gov/validator.py:329-343 | reports exactly the specifications without exactly one family |
| Validator.RegistryValidator.ValidateSupersession | src/khepri_gov/validator.py:346-382 | reports exactly the broken supersessions |
| Validator.RegistryValidator.Validate | src/khepri_gov/validator.py:29-39 | nothing is reported exactly when nothing is wrong; every report is real and no problem other than a cycle goes unreported |
| RegistryTheorems.CleanIsWellFormed | src/khepri_gov/validator.py:29-39 | an empty list means distinct well-shaped artifacts, each with its own existing Markdown document, sound acyclic dependencies, one family per specification and one-hop supersession |
| RegistryTheorems.WellFormedIsClean | src/khepri_gov/validator.py:29-39 | a registry in good order gets no report |
| RegistryTheorems.FaultlessIsAcyclic | src/khepri_gov/validator.py:276-326 | no chain of the registry's dependencies returns to where it began |
| RegistryTheorems.FaultlessHasOneFamily | src/khepri_gov/validator.py:329-343 | exactly one of a specification's dependencies is a family |
| RegistryTheorems.FaultlessIsWellSuperseded | src/khepri_gov/validator.py:357-382 | a superseded artifact is retired and names an active artifact of its type that names no other |
| RegistryTheorems.ActiveReachesOnlyActive | src/khepri_gov/validator.py:268-273 | however long the chain, an active artifact reaches only active artifacts |
| Texts.DecimalReadsBack | src/khepri/rra/aggregates.py:544-550 | a printed ordinal reads back as itself, so ordinals never repeat |
| Texts.SpacesAre | src/khepri_gov/validator.py:389-390 | the twenty-nine characters a strip removes, and no others |
| Labels.Claim | src/khepri/rra/aggregates.py:544-551 | the ordinal search ends with the label itself if it is free, and otherwise with its first numbered form that is |
| Labels.NumberedFormReads | src/khepri/rra/aggregates.py:544-551 | a numbered form is the text, a space, `#` and a number of two or more |
| Labels.Disambiguate | src/khepri/rra/aggregates.py:516-553 | all labels are pairwise distinct, grow only by suffixes, and a protected or unshared one is never displaced |
| Labels.LabelAll | src/khepri/rra/aggregates.py:477-513 | labels are distinct and never `other`; values shown as redacted keep exactly their numbered label; no other source value takes a reserved or generated one |
| Labels.PlacesDiffer | src/khepri/rra/aggregates.py:481-492 | two redacted values never share a number |
| Labels.PlacesCountUp | src/khepri/rra/aggregates.py:481-492 | redacted values are numbered from one without gaps |
| Labels.PlacesFollow | src/khepri/rra/aggregates.py:481-492 | in the order of their source texts |
| Labels.DecoratedIsUnclaimed | src/khepri/rra/aggregates.py:506-510 | no suffixed text is a reserved or generated label |
| Labels.TurnsAreStable | src/khepri/rra/aggregates.py:537-542 | redacted values claim first, and otherwise values in the order they were met |
| Labels.LabelsAreMadeOf | src/khepri/rra/aggregates.py:494-553 | an ordinary label is its text, with its digest when that text is reserved or generated, once more when another value shows the same, and a number when that is taken |
| Labels.GeneratedRedactionsAre | src/khepri/rra/aggregates.py:30 | the generated forms are `redacted` alone or followed by a space and digits |
| Labels.OrderMattersExactlyWhenTextsMeet | src/khepri/rra/aggregates.py:516-553 | the labels depend on the order values were met in exactly when two of them still show one text after their digests |
| Labels.SettledLabels | src/khepri/rra/aggregates.py:532-553 | redacted values, and texts shown once without a suffix of their own, keep their label whatever the order |
| Summaries.FoldAdds | src/khepri/rra/aggregates.py:195-217 | a fold's amounts are the sums over its rows |
| Summaries.FoldMarks | src/khepri/rra/aggregates.py:195-217 | a fold's marks and members say exactly which rows there were |
| Summaries.MergeOfFolds | src/khepri/rra/aggregates.py:219-231 | merging two folds is folding the combined rows |
| Summaries.FoldIgnoresOrder | src/khepri/rra/aggregates.py:318-322 | rows in any order fold to the same summary |
| Summaries.GroupsMerge | src/khepri/rra/aggregates.py:346-353 | the fold of two groups' interleaved rows is the merge of their folds, members united |
| Aggregates.Accumulator.Add | src/khepri/rra/aggregates.py:195-217 | one more row, over both populations |
| Aggregates.Accumulator.Merge | src/khepri/rra/aggregates.py:219-231 | everything another accumulator saw, its members united and not summed |
| Aggregates.OrderingSorts | src/khepri/rra/aggregates.py:328-334 | ranking is by falling total, ties by label, and loses no key |
| Comparisons.Group | src/khepri/rra/aggregates.py:318-325 | distinct accumulators hold exactly the fold of each source value's rows |
| Comparisons.MergeDropped | src/khepri/rra/aggregates.py:348-352 | the remainder is the fold of the dropped groups' rows |
| Comparisons.MembersAreAllMembers | src/khepri/rra/aggregates.py:380-386 | uniting the groups' members counts every transaction of the rows once |
| Comparisons.ComparisonsReconcile | src/khepri/rra/aggregates.py:438-474 | for every order, labelling and limit, published buckets account for every row, for the whole amount when complete and for none when unmapped |
| Comparisons.ReconciliationCatches | src/khepri/rra/aggregates.py:438-474 | a reconciled list with one bucket changed reconciles exactly when its rows and its amount did not change |
| Comparisons.BuildComparison | src/khepri/rra/aggregates.py:289-377 | each kept value's bucket, and `other` for the dropped ones, tells its rows, their sum exactly when all are valued, their distinct transactions and whether one is a posted sale; a limit keeps that many as a slice does; names are distinct, largest first, counts true of the rows, and the result reconciles |
| Comparisons.RowOrderMattersOnlyWhereTextsMeet | src/khepri/rra/aggregates.py:289-377 | the same rows in another order give every value the same summary and every count the same number, and the same whole comparison unless two labels meet after their digests |
| Comparisons.BuildSeries | src/khepri/rra/aggregates.py:269-286 | one bucket per printed day or month of the dated rows, in strict label order, each the fold of its rows |
| Comparisons.SeriesReconcile | src/khepri/rra/facts.py:2226-2235 | the check a series is put to passes for every input: dated rows all valued, none valued, or only some |
| Comparisons.EveryDateHasItsBucket | src/khepri/rra/aggregates.py:276-280 | every dated row has a bucket, named by its own period |
| Comparisons.SeriesIsChronological | src/khepri/rra/aggregates.py:281-286 | bucket order is order in time, and one bucket is one day or one month |
| Comparisons.BucketsCountDays | src/khepri/rra/aggregates.py:238-244 | a bucket's day count is the number of distinct calendar days among its rows |
| Comparisons.SeriesTells | src/khepri/rra/aggregates.py:269-286 | a bucket of a series is the count, the days and, when none is missing, the sum of the values dated in its period |
| Comparisons.SeriesOf | src/khepri/rra/facts.py:2212-2236 | months exactly when two of the dates are more than 92 days apart; every bucket tells its period, the series of that granularity reconciles, and a daily bucket counts one day |
| Periods.DaysFollowDates | src/khepri/rra/aggregates.py:256-260 | dates are ordered as the days are counted, and two have one number only when they are one day |
| Periods.GranularityFor | src/khepri/rra/aggregates.py:256-260 | monthly exactly when two of the dates are more than 92 days apart |
| Periods.LabelsFollowPeriods | src/khepri/rra/aggregates.py:263-266 | text order of period labels is order in time, and one label is one period |
| Periods.LabelReadsBack | src/khepri/rra/aggregates.py:263-266 | a label is the year in four digits, the month in two and, by days, the day in two, with dashes |
| Comparisons.DrawCurve | src/khepri/rra/aggregates.py:336-344 | a curve is drawn exactly when statable, over every value a posted sale landed on |
| Curve.CurveOf | src/khepri/rra/aggregates.py:389-435 | refuses incomplete, non-positive or negative sale revenue and otherwise publishes each cumulative share |
| Curve.PublishedIsMonotone | src/khepri/rra/aggregates.py:430 | divided to sixty digits and then quantized, a larger share is never published as less |
| Curve.RoundsTwiceAsOnce | src/khepri/rra/aggregates.py:430 | for every total below ten to the fifty-fifth those two roundings give what one rounding would |
| Curve.RoundingIsNearest | src/khepri/rra/aggregates.py:430 | rounding is to the nearest unit, and to the even one when halfway |
| Curve.RoundingIsMonotone | src/khepri/rra/aggregates.py:430 | a larger fraction never rounds to less |
| Curve.SharesRise | src/khepri/rra/aggregates.py:421-430 | rounded shares never fall, stay in [0, 1] and end at exactly 1 |
| Curve.SharesDominate | src/khepri/rra/aggregates.py:421-430 | the first k of n ranked values hold at least k/n, rounded as a share is |
| Curve.CurvesAreShaped | src/khepri/rra/aggregates.py:389-435 | a published curve has all of that shape, and as many ranked as distinct values |
| Admission.KeyReadsBack | src/khepri/rra/admission.py:604-654 | a parser undoes escape-then-join on every tuple of components |
| Admission.KeysAreInjective | src/khepri/rra/admission.py:637-654 | two tuples, of any lengths, share a key only when equal |
| Admission.JoinedKey | src/khepri/rra/admission.py:604-634 | a key exists exactly when no component is blank |
| Admission.TransactionKeys | src/khepri/rra/admission.py:538-601 | bare identifiers, none, or the composites of kept rows, as the contract proves |
| Admission.CompositeCountsTuples | src/khepri/rra/admission.py:186-198 | the transaction count is the number of distinct complete component tuples among kept rows |
| Admission.CollisionKinds | src/khepri/rra/admission.py:513-535 | one pass finds the kinds of exactly those kept rows whose key is missing or repeated |
| BenchmarkRows.PlanIsExact | src/khepri/rra/benchmark_rows.py:146-169 | a planned count fits the budget, and a refusal means no positive count does |
| BenchmarkRows.RefusalsMean | src/khepri/rra/benchmark_rows.py:162-168 | a budget below one shortest line is refused as too small, and any other refusal is for want of a count |
| BenchmarkRows.PlanIsNearest | src/khepri/rra/benchmark_rows.py:160-169 | of the counts that fit, the planned one is nearest to the average |
| BenchmarkRows.LargeBudgetsArePlanned | src/khepri/rra/benchmark_rows.py:160-169 | no budget of at least s·⌈(s−1)/(l−s)⌉ is refused |
| BenchmarkRows.ThresholdsAreSharp | src/khepri/rra/benchmark_rows.py:88-91 | those thresholds are 2346 and 2856, and one byte less is refused |
| BenchmarkRows.Choose | src/khepri/rra/benchmark_rows.py:215-223 | the line chosen is the first attempt's that leaves a budget the rest can fill; a refusal means every attempt misfits, or all do up to the last index |
| BenchmarkRows.IndicesFitTheOrdinal | src/khepri/rra/benchmark_rows.py:226-233 | every index offered leaves the transaction ordinal eight digits, and no such index is held back |
| BenchmarkRows.ExactDocument | src/khepri/rra/benchmark_rows.py:172-195 | a document returned is exactly the target size, whatever the rows draw, each line the first that fits what was left; a refusal is the plan's, or of the first position where nothing fits |
| BenchmarkRows.DocumentReadsBack | src/khepri/rra/benchmark_rows.py:194-195 | split at newlines, a document is its lines in order |
| BenchmarkRows.RowReadsBack | src/khepri/rra/benchmark_rows.py:210-212 | split at commas, a rendered row is its eight or twelve cells in order |
| BenchmarkRows.AmountsMean | src/khepri/rra/benchmark_rows.py:236-291 | revenue is price times units, cost a share of it from 45 percent, a discount falls on three rows in ten and a refund on one in twenty |
| BenchmarkRows.CodesSay | src/khepri/rra/benchmark_rows.py:246-255 | the coded cells read back as the transaction, product, category, store and channel drawn |
| BenchmarkRows.MeasuresSay | src/khepri/rra/benchmark_rows.py:246-278 | the units, the amounts and the address read back as those of the row |
| BenchmarkRows.FillersAvoidNaturalRows | src/khepri/rra/benchmark_rows.py:226-233 | a filler index is natural for some row exactly past 20,300,007 rows |
| BenchmarkRows.LinesStayInRange | src/khepri/rra/benchmark_rows.py:70-73 | for any bounded draws a rendered line stays within the stated byte range |
| Calendar.MonthsBefore | src/khepri/rca/lifecycle.py:66-77 | exactly that many calendar months earlier, same time, the day kept or clamped to the month's last |
| Calendar.HorizonAdvancesExactlyWhen | src/khepri/rca/lifecycle.py:66-77 | a later moment has a later horizon except between two days clamped onto one |
| Calendar.HorizonCanStepBack | src/khepri/rca/lifecycle.py:66-77 | two moments whose horizons are in the opposite order |
| Calendar.TwoStepsAreNeverLater | src/khepri/rca/lifecycle.py:66-77 | going back a then b months is never later than a+b, and equal exactly when the middle month is long enough |
| Calendar.LongerHorizonsAreEarlier | src/khepri/rca/lifecycle.py:33-63 | a longer retention has a strictly earlier horizon |
| Calendar.InstantsFollowDates | src/khepri/rca/lifecycle.py:66-77 | instants are ordered as the dates they stand for |
| Calendar.InstantsAreGregorian | src/khepri/rca/lifecycle.py:66-77 | the days behind an instant are the proleptic Gregorian ordinal in closed form |
| Calendar.EveryInstantIsADate | src/khepri/rca/lifecycle.py:66-77 | every instant is some date, so dates and instants correspond one to one in order |
| Calendar.EligibleFromTheAnniversary | src/khepri/rca/accounts.py:97-111 | eligibility starts at the exact calendar anniversary, held back only by the earlier hours of a clamped day |
| Calendar.EligibilityLapsesExactlyOnLeapDays | src/khepri/rca/lifecycle.py:198-222 | at twenty-four months eligibility has lapsed exactly when it is 29 February, two years after a disablement on the 28th and before its hour |
| Calendar.EligibilityCanLapse | src/khepri/rca/lifecycle.py:198-222 | a case in which it does |
| Retention.DueExactlyWhenEligible | src/khepri/rca/lifecycle.py:198-223 | the sweep's comparison of instants is the calendar's rule of eligibility |
| Retention.EligibilityOverTime | src/khepri/rca/lifecycle.py:198-223 | over a run in which nothing ends it, eligibility at one date holds at a later one exactly unless that is within such a leap day |
| Retention.EventsNeverOutliveTheirAccount | src/khepri/rca/lifecycle.py:46-63 | when an account is due at twenty-four months, a twelve-month sweep at that moment leaves none of its events up to its disablement |
| Retention.EventsAreTheUnsweptLog | src/khepri/rca/persistence.py:1080-1100 | over every run the event table is the full log less exactly the entries a sweep reached while they were there, in order |
| Retention.RetainedEventsTellTheRole | src/khepri/rca/persistence.py:1080-1100 | folding the retained events gives the role of the last event about a membership that no sweep took, the current role whenever the last of all is still there |

## Left out

- Tables are maps and each statement is its predicate: migrations, row-level security, dialects and primary-key clashes of event identifiers are not modelled.
- Identifiers, addresses, verifiers, digests and moments are opaque values: `canonical_email`, scrypt, tokens, advisory locks and timing uniformity are not modelled.
- The sealed-record rule of `records.py` is a property of Python objects and is not modelled.
- Routes, cookies, schedulers, the worker loop and infrastructure are plumbing; single-branch checks such as sizing and gate authorization would only add easy members.
- OwnerLocks.InterleavedOwnersNeverRunOut: runs in which an open reduction comes to touch one more owner of the organization, by an owner row for that account or a link to it made meanwhile, are excluded, because each way is shown to break the claim; `OwnerLocks.StrandedExactlyByCommits` covers those runs.
- LockOrder.DeadlockExactlyWhenEnteredApart: speaks of two reductions over tables nobody else writes meanwhile; for three or more waiters there is no exact condition, only `LockOrder.OrderedLockingNeverDeadlocks`: a waiting cycle of any length needs plans that fit no common order.
- PublicationTheorems.CommittedRowsAreOneSet: the deletion of expired session content is not modelled.
- PublicationTheorems.CleanFailureLeavesNothing: speaks of recorded keys only; an object whose put raised after writing was never recorded.
- PublicationTheorems.OnlyTheLeaseHolderCommits: the lease is judged at the sampled commit instant, as in the source.
- Publisher.ReportArtifactPublisher.Publish: the attempt identity is one no other attempt draws meanwhile, and the store is assumed to prove what it wrote; the step relation lets an attempt start whether or not its job was delivered.
- IdentityStore.SqlIdentityStore.SweepAccounts: the selection and the purges are one uninterrupted pass, because interruption is covered by the theorems over runs.
- Validator.RegistryValidator.ValidateArtifacts: reading YAML and its root checks are left out; how a document's path is parsed, normalized and looked up are arbitrary functions.
- Validator.RegistryValidator.Validate: problems are reported as a set; their wording and order are not modelled beyond the order of the passes.
- Labels.LabelAll: digests are an arbitrary function, and which characters besides the ASCII digits count as digits is a parameter that excludes `)` and `#`.
- Curve.CurveOf: amounts are exact scaled integers; a sum too long for the sixty digits of the governed precision, which the source would round, is not modelled.
- Comparisons.BuildComparison: also returns the ranking and labels its buckets stand for.
- Comparisons.BuildSeries: dates have years of at most four digits, as the source's do; whether a fact is published at all is decided by its caller.
- BenchmarkRows.ExactDocument: characters are bytes because every rendered field is ASCII; the float average of the planner is an arbitrary integer, and the header and calendar text are parameters.
- Admission.TransactionKeys: cells are given as already stripped columns; reading the frame, currencies, statuses and totals are left out.
