# Verified core of the cafe ERP

A Dafny 4.11 model of the parts of this repository whose correctness depends on
many steps taken together, with proofs of what those parts promise.
`dafny verify dfyconfig.toml` checks everything.

## What is modelled

**Approvals.** A document that needs approval gets a request on the most
specific active workflow its amount clears. The request walks through the
workflow's applicable steps; every accepted decision either rejects it, leaves
it waiting, moves it to the next step, or approves it.
`Approvals` holds the rules for one request, `ApprovalProgress` the invariant
every decision keeps, `ApprovalStore` the tables and all runs over them
(including workflow edits and removals mid-flight), `ApprovalLaws` what each call
on the tables does, said by its inputs alone, `ApprovalGate` the
block-and-retry gate with its two database calls interleaved with everything
else, `ApprovalService` the service as an object whose methods refine those
steps, and `ApprovalNotifications` the at-least-once event handlers.

**Sessions.** `Sessions` models refresh-token rotation, revocation and password
change on the server, `Lockout` the failed-login counter and its timed lock,
`AuthService` the service object, `ApiClient` the browser's interceptors
(idempotency key, single-flight refresh, one retry), and `SessionProtocol` runs
client and server together with lost answers, page reloads and activity
elsewhere.

**Idempotency keys.** `IdempotentRequest` runs the client's key slots against a
server that executes a key once and replays it afterwards, with lost and late
answers, page reloads and storage failures.

**Data repair.** `CoaBackfill` (chart-of-accounts backfill with its gates),
`OpeningLedger` (missing opening balances in the stock ledger), `GlGaps`
(catch-up journals for unposted stock value) and `Fingerprint` (comparing two
database snapshots).

**Exports.** `Csv` (the text of an export, and a reader for it) and `PageWalk`
(collecting a paginated list).

## Conventions

- A row's id is its position in its table, so new ids are fresh. A removed
  workflow leaves an empty slot behind.
- A database transaction is one step. The gate's lookup and insertion are not in
  a transaction and are two steps, and so are the read and the write of a login
  attempt. Outside a transaction too, but one step here, are the workflow query
  and the insertion of `requestApproval`, and the counter and token writes of a
  successful login.
- Amounts are reals. Times are integers in milliseconds.
- Some rows carry a field the program does not store, so that properties can
  refer to it: a request's `origin` (also that it was forced), a decision's `held` permissions, a token's
  `family`. No operation reads them to decide anything.
- Token values and idempotency keys are fresh and unguessable; a storage slot
  stands for the payload it is computed from.

## Findings

- A step always takes at least one decision: its effective head-count is
  max(1, requiredCount) (`ApprovalProgress.Need`).
- Clearing holds for requests while the steps and the distinctness rule of their
  workflow stay as they are. Replacing the steps mid-flight can let the creator's
  own approval complete a request of whose new steps none was decided
  (`ApprovalStore.ReplacingStepsCanSkipThemAll`); a request approved after an
  update meets the updated workflow exactly when it already stood on one of its
  applicable steps at the update (`ApprovalStore.UpdateIsHonouredIffOnTrack`).
- Removing a workflow sets the reference of its pending requests to null, and the
  next decisions can then complete them without the remaining steps or their
  permissions (`ApprovalStore.RemovalDropsTheRemainingSteps`). A request approved
  after that meets the removed workflow exactly when it stood at the last step at
  the removal and the workflow would have admitted every later decision
  (`ApprovalStore.RemovalIsHonouredIff`); that the last decision was admissible is
  not enough (`ApprovalStore.CreatorAndOneMoreComplete`).
- Posting a vendor bill with override approves its pending request with no
  decision and no event. On a workflow left alone, an approved request opened by
  requestApproval is cleared exactly when it was not forced in this way
  (`ApprovalStore.ApprovedRequestsAreCleared`).
- The gate keeps one live request per document as long as its calls for that
  document do not overlap; two overlapping lookups open two requests
  (`ApprovalGate.OverlappingCallsOpenTwoRequests`). The exact condition is that
  every insertion still comes while nothing is live
  (`ApprovalGate.OneLiveIffInsertionsAreTimely`).
- The gate can let an action through while a request for the same document is
  pending: a second, overlapping call whose amount needs no approval finds
  nothing, inserts nothing and proceeds (`ApprovalGate.OverlapLetsAnActionThrough`,
  with amounts in `ApprovalGate.AnAmountThatDropsSlipsThrough`). That happens
  exactly when a lookup repeated at the insertion would find a pending request
  and nothing applies (`ApprovalGate.ProceedsPastPendingIff`); all answers are
  right, and no document has two live requests, exactly when each repeated lookup
  would still find nothing (`ApprovalGate.AnswersAreRightIffLookupsStillHold`).
- A page reload between a token rotation and its answer leaves a spent token in
  the store, so the next refresh is refused and the user signed out
  (`SessionProtocol.ReloadLeavesASpentToken`). With no refresh in flight the
  stored token is the end of its chain exactly when no call abandoned by a reload
  was granted for it (`SessionProtocol.StoredTokenIsTheLiveTip`), and otherwise
  calm runs refuse no refresh exactly when each is handled while its token is
  unspent (`SessionProtocol.NeverRefusedIffUndisputed`).
- The failed-login counter is written from the row read before the password is
  compared, so parallel wrong passwords are counted once and never lock the
  account (`Lockout.ParallelGuessesAreCountedOnce`). The counter is the length of
  the chain of failures that each read the previous one's row
  (`Lockout.CounterIsTheChain`), and the number of failures exactly when each was
  recorded over the row it had read (`Lockout.AllAreCountedIffReadsAreCurrent`).
- The header of `idempotent-request.ts` promises that a key stays the same until
  a definitive answer. That holds for a payload whose sends do not overlap and
  whose slot can be read and written. A release removes whatever key the slot holds, so the late answer of an
  overlapping send can drop the key of a later one; a key survives another
  send's definitive answer exactly when it is that send's own key
  (`IdempotentRequest.ReleaseIsRightOnlyForItsOwnKey`), and a run reaching the
  other case is given (`IdempotentRequest.OverlapReachesAWrongRelease`). Over
  whole runs, with every storage fault, the promise holds exactly when each new
  key could be stored without displacing an unanswered one and each release hit
  the answered key (`IdempotentRequest.KeptIffEveryStepIsRightful`).
- The catch-up script's summary counts adjustment groups it skipped for want of
  an account mapping as entries (`GlGaps.SummaryCountsUnmappedGroups`). A group
  whose counter-account is the stock account is posted without closing any of the
  gap (`GlGaps.RemainingGapIsExact`).
- A money section that vanishes between two snapshots goes unreported exactly
  when it was empty (`Fingerprint.EmptySectionMayVanish`), and such snapshots pass
  (`Fingerprint.ASectionVanishesUnreported`).
- A parent not wired by the run that set an account's category is not wired by a
  later one either: with a template in which only rows with a category have a
  parent, as the shipped one, a run without force after a commit changes no value
  whatever its flags (`CoaBackfill.SecondRunIsIdle`, with an example in
  `CoaBackfill.LateWiringComesTooLate`). A header below a header, which the
  shipped template does not have, would be wired late
  (`CoaBackfill.NestedHeaderIsWiredLate`).
- A catch-up entry hides every movement of its source up to its own creation,
  memo rows that were not capitalised and rows beyond `--before` included
  (`GlGaps.MemoRowIsHiddenByItsNeighbour`). A run hides only what it posted exactly
  when no unposted movement shares its source with a posted group without
  belonging to one (`GlGaps.OnlyCoveredAreHiddenIff`).
- The CSV text determines the guarded table, rows without cells included, but a
  reader that wants a field in every line refuses a file with an empty one, and
  one by the grammar in section 2 of RFC 4180 reads it as one empty field
  (`Csv.ExportRoundTrips`, `Csv.StrictReaderRefusesEmptyLines`,
  `Csv.GrammarReaderPadsEmptyLines`). Two cells are
  written alike when one is the other with the guard typed by hand
  (`Csv.GuardCollisions`).

## Model

| member | source | states |
|---|---|---|
| Approvals.ApplicableSteps | apps/api/src/kernel/approvals/approvals.service.ts:64-71 | the result contains exactly the steps whose half-open band contains the amount |
| Approvals.ApplicableStepsOrdered | apps/api/src/kernel/approvals/approvals.service.ts:64-71 | filtering keeps the step order strict, so steps clear low to high |
| Approvals.StepsAfterIsTail | apps/api/src/kernel/approvals/approvals.service.ts:203-209 | filtering on later orders leaves exactly the steps behind the current one, so the next step is never skipped |
| Approvals.ByThresholdIsDescending | apps/api/src/kernel/approvals/approvals.service.ts:56-58 | the listing has the highest threshold first and rows without one last |
| Approvals.FirstClearingIsGreatest | apps/api/src/kernel/approvals/approvals.service.ts:60 | the first clearing row has the greatest threshold among all rows the amount clears |
| Approvals.AnySortedAnswerSelectsTheSameThreshold | apps/api/src/kernel/approvals/approvals.service.ts:53-60 | any correctly sorted database answer selects the same threshold, whatever the order of ties |
| Approvals.RaisingTheAmountNeverLowersTheThreshold | apps/api/src/kernel/approvals/approvals.service.ts:51-62 | a larger amount never selects a lower threshold |
| Approvals.ExactlyOneBandApplies | apps/api/src/kernel/approvals/approvals.service.ts:25-31 | contiguous bands covering the amount route it to exactly one step |
| ApprovalProgress.AcceptedIff | apps/api/src/kernel/approvals/approvals.service.ts:137-173 | a decision is accepted exactly when the request is pending and the user is eligible and new to the step (to the request, where approvers must be distinct) |
| ApprovalProgress.DecisionKeepsProgress | apps/api/src/kernel/approvals/approvals.service.ts:175-224 | every accepted decision keeps: earlier steps have exactly their head-count, the current one is open, later ones are untouched, nobody decided twice |
| ApprovalProgress.TallyCountsPeople | apps/api/src/kernel/approvals/approvals.service.ts:186-191 | the number of approval rows of a step is the number of distinct people who approved it |
| ApprovalProgress.DecisionsArePartitioned | apps/api/src/kernel/approvals/approvals.service.ts:186-191 | the per-step tallies together account for every decision of the request |
| ApprovalProgress.OutstandingMeasuresProgress | apps/api/src/kernel/approvals/approvals.service.ts:193-214 | a pending request still has decisions outstanding, an approved one has none, no request has had too many |
| ApprovalProgress.DecisionLowersOutstanding | apps/api/src/kernel/approvals/approvals.service.ts:175-214 | each accepted decision lowers the outstanding count by exactly one, never below zero, to zero when it approves and not while the request stays pending |
| ApprovalProgress.ApprovedIsCleared | apps/api/src/kernel/approvals/approvals.service.ts:22-31 | an approved request has, for each applicable step, exactly its head-count of distinct eligible approvers, nothing else, and distinct people throughout when the workflow demands it |
| ApprovalProgress.ApprovalKeepsOnTrackIff | apps/api/src/kernel/approvals/approvals.service.ts:142-214 | under any workflow and from any row, an approval keeps a pending request on track exactly if it was, and one that completes it leaves it cleared exactly if it was on track |
| ApprovalStore.SelectionIsMostSpecific | apps/api/src/kernel/approvals/approvals.service.ts:51-62 | the selected workflow is active, of the organisation and type, with the greatest threshold cleared; none is selected exactly when none clears |
| ApprovalStore.InOrderIsOrdered | apps/api/src/kernel/approvals/approval-workflow.controller.ts:159-164 | step lists that pass the duplicate check are read back strictly ordered |
| ApprovalStore.WorkflowsStayOrdered | apps/api/src/kernel/approvals/approval-workflow.controller.ts:62-145 | every stored workflow stays strictly ordered through creates, updates and removals |
| ApprovalStore.ApprovedRequestsAreCleared | apps/api/src/kernel/approvals/approvals.service.ts:82-252 | in every run that leaves the workflow's steps and distinctness rule alone, an approved request opened on it by requestApproval was cleared by exactly the right people if and only if it was not forced, and none took more decisions than its steps ask for |
| ApprovalStore.FindPending | apps/api/src/modules/invoicing/vendor-bill/vendor-bill.service.ts:244-246 | finds a pending request of the document exactly when there is one |
| ApprovalStore.UpdateIsHonouredIffOnTrack | apps/api/src/kernel/approvals/approval-workflow.controller.ts:98-145 | after any run from empty tables, a request pending at an update of its workflow and approved by decisions later meets the updated workflow exactly when it stood on one of its applicable steps at the update |
| ApprovalStore.MissingStepAsksNobody | apps/api/src/kernel/approvals/approvals.service.ts:144-152 | when the current step is gone from the list, anyone new to it may decide, the creator included, and the request is on no step |
| ApprovalStore.ReplacingStepsCanSkipThemAll | apps/api/src/kernel/approvals/approval-workflow.controller.ts:119-132 | a concrete replacement after which the creator's own approval, refused before, completes the request with the new step never decided |
| ApprovalStore.OverrideSitsOnTheLastStep | apps/api/src/kernel/approvals/approvals.service.ts:293-328 | an override is one approval by the given manager, on the last applicable step of the selected workflow, or on step 1 when none applies |
| ApprovalStore.RequestsOnlyMoveForward | apps/api/src/kernel/approvals/approvals.service.ts:137-224 | whatever calls and workflow edits follow, the cursor never moves back, a resolved request never changes, decisions are only appended, nobody decides a step twice |
| ApprovalStore.RemovalDropsTheRemainingSteps | apps/api/src/kernel/approvals/approvals.service.ts:142-152 | after its workflow is removed, an approval completes a pending request exactly when its author is new to the step and the row's head-count is reached, whatever steps and permissions were still to come |
| ApprovalStore.RemovedWorkflowIsClearedIff | apps/api/src/kernel/approvals/approvals.service.ts:142-214 | for a request still standing on its removed workflow, one approval that completes it clears it exactly at the last step and if the removed rules admit it |
| ApprovalStore.RemovalIsHonouredIff | apps/api/src/kernel/approvals/approval-workflow.controller.ts:147-157 | over every run after a removal, a request approved by decisions in the end is cleared exactly when it stood at the last step and every later decision would have been admitted |
| ApprovalStore.CreatorAndOneMoreComplete | apps/api/src/kernel/approvals/approvals.service.ts:142-214 | a concrete request whose last decision is admissible at the last step and which is nevertheless not cleared |
| ApprovalStore.OutcomesAnnouncedOnce | apps/api/src/kernel/approvals/approvals.service.ts:226-243 | in every run from empty tables the decided events of a request are exactly the outcome its decisions reached, once, and none while it is pending, forced or an override |
| ApprovalLaws.RequestApprovalAddsWhatIsAsked | apps/api/src/kernel/approvals/approvals.service.ts:82-121 | one fresh pending row for the caller's document, at the lowest step of the band on a most specific workflow serving it, with that step's head-count and one event naming it; or nothing is to be asked and nothing changes |
| ApprovalLaws.OpenedThenApprovedIsCleared | apps/api/src/kernel/approvals/approvals.service.ts:82-252 | after any run, a request just opened and approved by decisions while its workflow keeps its rules has been cleared for that workflow |
| ApprovalLaws.DecideAcceptsExactly | apps/api/src/kernel/approvals/approvals.service.ts:124-173 | a decision is accepted exactly from a caller who is authenticated, finds the row pending in their organisation, presents a permission the step asks for, is not the creator of a request that asks for one, and is new to the step, and to earlier ones where people must differ |
| ApprovalLaws.DecideRefusesExactly | apps/api/src/kernel/approvals/approvals.service.ts:126-173 | each refusal is given exactly under its own condition, in the order of the checks, and changes nothing |
| ApprovalLaws.DecideDoes | apps/api/src/kernel/approvals/approvals.service.ts:175-243 | the vote is appended; opposition rejects, too few distinct supporters wait, else the next step of the band or approval; the events owed follow; no other row, field or workflow changes |
| ApprovalLaws.OverrideAddsAnApprovedRow | apps/api/src/kernel/approvals/approvals.service.ts:293-338 | one approved row for the caller's document with the manager's decision on the highest step of the band, on a most specific workflow or none, and no event |
| ApprovalLaws.ForcingApprovesThePendingBill | apps/api/src/modules/invoicing/vendor-bill/vendor-bill.service.ts:243-260 | a holder of the permission approves one pending request of the bill outright; otherwise nothing changes |
| ApprovalLaws.CreateWorkflowStoresIt | apps/api/src/kernel/approvals/approval-workflow.controller.ts:62-96 | a well-formed workflow is stored with the given fields and the same steps in order; another changes nothing |
| ApprovalLaws.UpdateWorkflowReplacesWhatIsGiven | apps/api/src/kernel/approvals/approval-workflow.controller.ts:98-145 | exactly the given fields of the organisation's own workflow are replaced, the step list whole; otherwise nothing changes |
| ApprovalLaws.RemoveWorkflowClearsReferences | apps/api/src/kernel/approvals/approval-workflow.controller.ts:147-157 | the workflow and every reference to it go, and nothing else |
| ApprovalGate.AtMostOneLiveRequest | apps/api/src/kernel/approvals/approvals.service.ts:263-284 | while gate calls for one document do not overlap, it has at most one pending or approved request |
| ApprovalGate.OverlappingCallsOpenTwoRequests | apps/api/src/kernel/approvals/approvals.service.ts:269-282 | two overlapping lookups always open two live requests when approval is needed |
| ApprovalGate.OneLiveIffInsertionsAreTimely | apps/api/src/kernel/approvals/approvals.service.ts:269-282 | over every interleaving, no document ever has two live requests exactly when each insertion comes while the lookup would still find nothing, or inserts nothing |
| ApprovalGate.CheckIsReadThenCreate | apps/api/src/kernel/approvals/approvals.service.ts:263-284 | the gate's back-to-back form is its two steps with nothing in between |
| ApprovalGate.GateAnswersAreRight | apps/api/src/kernel/approvals/approvals.service.ts:254-284 | when the gate's two calls run back to back, the action proceeds exactly on an approved request, or when nothing is live and nothing applies, never while one is pending; a block names a pending request |
| ApprovalGate.SerialAnswersAreRight | apps/api/src/kernel/approvals/approvals.service.ts:254-284 | the same of every answer of the two-step gate, in every run whose calls for one document do not overlap |
| ApprovalGate.AnswersAreRightIffLookupsStillHold | apps/api/src/kernel/approvals/approvals.service.ts:263-284 | over every interleaving, all answers are right and no document has two live requests exactly when, at each insertion, the lookup would still find nothing |
| ApprovalGate.ProceedsPastPendingIff | apps/api/src/kernel/approvals/approvals.service.ts:281-283 | in any state, an insertion lets the action through past a pending request exactly when the lookup repeated then finds a pending one and nothing applies to the call |
| ApprovalGate.OverlapLetsAnActionThrough | apps/api/src/kernel/approvals/approvals.service.ts:269-283 | two overlapping calls, the second needing no approval, reach a state in which it proceeds while the first one's request is pending |
| ApprovalGate.AnAmountThatDropsSlipsThrough | apps/api/src/kernel/approvals/approvals.service.ts:269-283 | concrete tables and amounts for which that happens |
| ApprovalGate.OpenGateStaysOpen | apps/api/src/kernel/approvals/approvals.service.ts:277-280 | once the gate answers from an approved request it does so through every interleaving with timely insertions, and the approved request stays through any interleaving |
| ApprovalService.ApprovalsService.RequestApproval | apps/api/src/kernel/approvals/approvals.service.ts:82-121 | refines the request step of the tables, whose laws are in ApprovalLaws, and returns the created row's id |
| ApprovalService.ApprovalsService.Decide | apps/api/src/kernel/approvals/approvals.service.ts:124-252 | refines the decision step of the tables, whose acceptance, refusals and effects are exactly those of ApprovalLaws |
| ApprovalService.ApprovalsService.Conclude | apps/api/src/kernel/approvals/approvals.service.ts:186-243 | tallies the step, settles the row and publishes exactly the events the change calls for |
| ApprovalService.ApprovalsService.CheckOrRequestApproval | apps/api/src/kernel/approvals/approvals.service.ts:263-284 | refines the gate |
| ApprovalService.ApprovalsService.RecordSynchronousOverride | apps/api/src/kernel/approvals/approvals.service.ts:293-338 | adds an already approved request with the manager's decision at the last applicable step and publishes nothing |
| ApprovalService.ApprovalsService.UpdateWorkflow | apps/api/src/kernel/approvals/approval-workflow.controller.ts:98-145 | refines the update: given fields replaced, the step list replaced whole, refusals change nothing |
| ApprovalNotifications.Holders | apps/api/src/kernel/approvals/approvals-notifications.subscriber.ts:61-67 | the approvers are exactly the users of the organisation with a role carrying one of the permissions |
| ApprovalNotifications.Subscriber.HandlePending | apps/api/src/kernel/approvals/approvals-notifications.subscriber.ts:50-86 | the handler loop refines one delivery, also when sending fails part-way |
| ApprovalNotifications.Subscriber.HandleDecided | apps/api/src/kernel/approvals/approvals-notifications.subscriber.ts:89-110 | refines one delivery to the requester, also when sending fails |
| ApprovalNotifications.PendingDeliveryAsksExactlyTheEligible | apps/api/src/kernel/approvals/approvals-notifications.subscriber.ts:50-82 | a delivery asks nobody but eligible approvers, and one that does not fail leaves every eligible approver asked |
| ApprovalNotifications.DecidedDeliveryTellsTheRequester | apps/api/src/kernel/approvals/approvals-notifications.subscriber.ts:89-110 | a delivery of an outcome tells the requester if they were not told, unless sending fails, and nobody else |
| ApprovalNotifications.NotifiedAtMostOnceAndRightly | apps/api/src/kernel/approvals/approvals-notifications.subscriber.ts:6-17 | under redelivered, reordered, partly failing events, each approver hears once per request and step and was eligible, the creator is never asked, the requester hears each outcome at most once |
| Sessions.PasswordChangeSignsOutEverywhere | apps/api/src/kernel/auth/auth.service.ts:374-389 | after a password change no session of the user is listed, none of their token values is ever exchanged again and their logins are over for good, while other users' sessions are listed as before |
| Sessions.RefreshAnswersExactly | apps/api/src/kernel/auth/auth.service.ts:294-303 | a refresh succeeds exactly for an unrevoked, unexpired token of an active user; each refusal has its own condition |
| Sessions.RefreshRotates | apps/api/src/kernel/auth/auth.service.ts:305-320 | the presented token is spent on one fresh seven-day token of the same login, and nothing else changes |
| Sessions.IssueStartsALogin | apps/api/src/kernel/auth/auth.service.ts:478-495 | a login adds one fresh seven-day token of its own |
| Sessions.RevokeIsForTheOwner | apps/api/src/kernel/auth/auth.service.ts:365-370 | a session is revoked exactly for its owner in their organisation, and nothing else is marked |
| Sessions.ListedIsLive | apps/api/src/kernel/auth/auth.service.ts:357-363 | the sessions listed are the user's own, unrevoked and unexpired, and each could still be refreshed |
| Sessions.ExpiredIsNeverExchanged | apps/api/src/kernel/auth/auth.service.ts:298 | over every run a token presented only after its expiry is never exchanged |
| Sessions.DisabledNeverExchange | apps/api/src/kernel/auth/auth.service.ts:301-303 | over every run no token of a user is exchanged while the user is disabled |
| Sessions.RunKeepsLinked | apps/api/src/kernel/auth/auth.service.ts:305-320 | in every run replacements point forward inside one login, each later token replaced exactly one, and a login has one end |
| Sessions.EveryLoginIsOnePath | apps/api/src/kernel/auth/auth.service.ts:280-342 | the tokens of one login are exactly one acyclic, unbranching path of one user and organisation whose earlier tokens are all revoked |
| Sessions.OneRowPerLogin | apps/api/src/kernel/auth/auth.service.ts:357-363 | the session list never shows two rows of one login |
| Sessions.ExchangedAtMostOnce | apps/api/src/kernel/auth/auth.service.ts:298-320 | in every run each token value is exchanged successfully at most once |
| Sessions.EndedForGood | apps/api/src/kernel/auth/auth.service.ts:298-300 | a login whose tokens are all revoked never gets another one |
| Sessions.EndedIffTipRevoked | apps/api/src/kernel/auth/auth.service.ts:365-370 | a login is over exactly when its last token is revoked |
| Sessions.RevocationEndsTheLogin | apps/api/src/kernel/auth/auth.service.ts:365-389 | revoking the last session, or changing the password, ends the login whatever follows |
| Lockout.LockAlwaysMatchesCount | apps/api/src/kernel/auth/auth.service.ts:437-467 | in every reachable state, however attempts overlap, the lock is set exactly when the counter is at least ten |
| Lockout.CounterIsTheChain | apps/api/src/kernel/auth/auth.service.ts:85-101 | in every run the counter is the number of failures of which each read the row the previous one wrote, and not before its lock was over |
| Lockout.CountingIsSlow | apps/api/src/kernel/auth/auth.service.ts:49-51 | in every run a counter at n, n at least ten, was reached (n - 10) times fifteen minutes after the chain's first lock or later |
| Lockout.AllAreCountedIffReadsAreCurrent | apps/api/src/kernel/auth/auth.service.ts:437-447 | over every interleaving of wrong passwords the counter equals the failures exactly when each was recorded over the row it had read, and never exceeds them |
| Lockout.FailuresAreSpaced | apps/api/src/kernel/auth/auth.service.ts:90-101 | when attempts do not overlap, the counter counts the failures, and those from the tenth on are a lock apart |
| Lockout.GuessingIsSlow | apps/api/src/kernel/auth/auth.service.ts:49-51 | when attempts do not overlap, n checked wrong passwords, n at least ten, span at least (n - 10) times fifteen minutes |
| Lockout.ParallelGuessesAreCountedOnce | apps/api/src/kernel/auth/auth.service.ts:85-101 | any number of wrong passwords tried at once leave the counter at one and set no lock |
| Lockout.FastestRunMeetsTheBound | apps/api/src/kernel/auth/auth.service.ts:90-101 | the bound for attempts in turn is met exactly by retrying the moment each lock ends |
| Lockout.RecordedRow | apps/api/src/kernel/auth/auth.service.ts:436-467 | a wrong password writes the count read plus one and a fifteen-minute lock from the tenth on, a right one clears both |
| Lockout.LockedAttemptIsRefused | apps/api/src/kernel/auth/auth.service.ts:90-94 | an attempt is refused exactly while the lock lies in the future, and changes nothing |
| Lockout.ResetAndRecord | apps/api/src/kernel/auth/auth.service.ts:374-389 | a reset clears the row whatever is under way; a finished attempt writes what its own read calls for, once |
| AuthService.AuthService.BeginLogin | apps/api/src/kernel/auth/auth.service.ts:84-94 | reads the account, refuses while it is locked, and changes nothing |
| AuthService.AuthService.FinishLogin | apps/api/src/kernel/auth/auth.service.ts:96-135 | writes counter and lock from the row read at the start, and issues a token when the password is right |
| AuthService.AuthService.Login | apps/api/src/kernel/auth/auth.service.ts:73-135 | the two halves with nothing in between: a locked attempt changes nothing, any other updates counter, lock and tokens accordingly |
| AuthService.AuthService.RecordFailedLogin | apps/api/src/kernel/auth/auth.service.ts:436-460 | adds one to the count read at the start and sets or clears the lock; nothing for an unknown user |
| AuthService.AuthService.Refresh | apps/api/src/kernel/auth/auth.service.ts:280-342 | refines rotation, whose answers are Sessions.RefreshAnswersExactly and whose effect is Sessions.RefreshRotates |
| AuthService.AuthService.ListSessions | apps/api/src/kernel/auth/auth.service.ts:357-363 | lists exactly the user's unrevoked, unexpired tokens, newest first |
| AuthService.AuthService.RevokeSession | apps/api/src/kernel/auth/auth.service.ts:365-370 | revokes the caller's own token, refuses any other |
| AuthService.AuthService.ChangePassword | apps/api/src/kernel/auth/auth.service.ts:374-389 | clears counter and lock and revokes exactly the user's live tokens, or changes nothing |
| ApiClient.Api.OnRequest | apps/web/src/lib/api.ts:77-86 | keeps a caller's key, gives any other write a fresh one |
| ApiClient.Api.OnUnauthorized | apps/web/src/lib/api.ts:124-126 | refines the first half of the retry: mark, then join or start the refresh |
| ApiClient.Api.OnRefreshEnded | apps/web/src/lib/api.ts:93-134 | refines the end of a refresh: store or clear, and resume every waiting request |
| ApiClient.SendKeepsTheCallersKey | apps/web/src/lib/api.ts:77-86 | the caller's key goes out unchanged, a write without one gets the next fresh key, a read none |
| ApiClient.UnauthorizedWaitsOrEnds | apps/web/src/lib/api.ts:124-128 | a 401 is final after a retry, for an auth route or without a token; any other waits, and a refresh is started exactly when none is in flight |
| ApiClient.RefreshEndResumesTheWaiting | apps/web/src/lib/api.ts:93-134 | the token is stored or the store cleared, and every waiting request goes out again under its own key or ends |
| ApiClient.ReloadKeepsOnlyTheStore | apps/web/src/stores/auth.store.ts:45-79 | a reload keeps what is persisted, abandons the refresh in flight and ends the old page's requests |
| SessionProtocol.StepKeepsCoherent | apps/web/src/lib/api.ts:90-134 | every step of client and server, reloads included, keeps the joint invariant |
| SessionProtocol.StoredTokenIsTheLiveTip | apps/web/src/lib/api.ts:72-134 | whatever is lost or reloaded, with no refresh in flight the stored token is absent, or the end of its login's chain (without revocation, the login's only live token) exactly when no call abandoned by a reload was granted for it; one refresh at most; each request sent at most twice under one key |
| SessionProtocol.ReloadsAtRestKeepTheTip | apps/web/src/lib/api.ts:91-92 | when the page is reloaded only while no refresh is in flight, the stored token is always the end of its chain |
| SessionProtocol.ReloadLeavesASpentToken | apps/web/src/stores/auth.store.ts:45-79 | a reload between rotation and answer leaves a spent, revoked token in the store |
| SessionProtocol.RefusedIffDisputed | apps/api/src/kernel/auth/auth.service.ts:298-300 | where nothing is revoked, expired or disabled, a refresh is refused exactly when another call has spent its token |
| SessionProtocol.NeverRefusedIffUndisputed | apps/web/src/lib/api.ts:90-107 | in calm runs with any reloads, no refresh is refused exactly when each is handled while its token is unspent, and then a signed-in client stays signed in |
| SessionProtocol.CalmRunsNeverSignOut | apps/web/src/lib/api.ts:90-107 | when nothing is lost, revoked, expired or disabled and no reload interrupts a refresh, no refresh is refused and a signed-in client stays signed in |
| SessionProtocol.WhatTheStoreHolds | apps/web/src/lib/api.ts:93-107 | the stored token after each event: the login's fresh one, none after signing out or a lost or refusing answer, the answer's, or the one before |
| IdempotentRequest.Client.OperationKeyFor | apps/web/src/lib/idempotent-request.ts:38-48 | the slot's key if it can be read, else a fresh one, stored if that works |
| IdempotentRequest.Client.StartSend | apps/web/src/lib/idempotent-request.ts:57-58 | refines starting a send |
| IdempotentRequest.Client.OnReply | apps/web/src/lib/idempotent-request.ts:47-67 | refines an answer; which answers release the slot is said by code in OpenAnswersKeepTheKey and FinalAnswersReleaseTheKey |
| IdempotentRequest.OpenAnswersKeepTheKey | apps/web/src/lib/idempotent-request.ts:50-64 | after no answer, a code outside 400 to 499, or 409 still pending, the slot keeps its key and a retry sends it again |
| IdempotentRequest.FinalAnswersReleaseTheKey | apps/web/src/lib/idempotent-request.ts:50-64 | after success or any other code from 400 to 499 the slot is empty and a new submission gets a fresh key |
| IdempotentRequest.RetriesShareOneKey | apps/web/src/lib/idempotent-request.ts:4-10 | over every run without a final answer to a payload, with a working slot, it uses one key and takes at most one effect |
| IdempotentRequest.ReloadKeepsTheSlots | apps/web/src/lib/idempotent-request.ts:12-13 | a reload ends the old page's sends and a retry after it reuses the key |
| IdempotentRequest.EffectsAreBounded | apps/web/src/lib/idempotent-request.ts:4-14 | over any interleaving, keys and hence effects of a payload are at most one plus its definitive answers plus storage failures |
| IdempotentRequest.SuccessMeansExactlyOnce | apps/web/src/lib/idempotent-request.ts:4-14 | for a payload whose sends do not overlap and whose slot works, whatever others do, a key is held until its own definitive answer, and each operation that ends in success took effect exactly once |
| IdempotentRequest.ReleaseIsRightOnlyForItsOwnKey | apps/web/src/lib/idempotent-request.ts:47-64 | a held key survives a definitive answer to a send of its payload exactly when the answer is to that key |
| IdempotentRequest.KeptIffEveryStepIsRightful | apps/web/src/lib/idempotent-request.ts:38-67 | over every interleaving and storage fault, a payload's unanswered key is held throughout exactly when each new key is stored and displaces no unanswered one, and each release hits the answered key or none |
| IdempotentRequest.OverlapReachesAWrongRelease | apps/web/src/lib/idempotent-request.ts:57-67 | overlapping sends reach a state whose next answer releases another send's key |
| CoaBackfill.Database.DecideRow | deployment/2026-09-r2/bridge-20-backfill.ts:244-309 | refines the decision for one account; what it leaves in the row is CommittedRowsFollowTheCatalog |
| CoaBackfill.Database.WriteAll | deployment/2026-09-r2/bridge-20-backfill.ts:407-419 | writes each decision to its own row and leaves rows already set alone |
| CoaBackfill.Database.WireAll | deployment/2026-09-r2/bridge-20-backfill.ts:421-437 | fills a missing parent from the template within the organisation, and only then |
| CoaBackfill.Database.Backfill | deployment/2026-09-r2/bridge-20-backfill.ts:240-477 | refines the whole run: blocked, dry, rolled back unchanged, or committed |
| CoaBackfill.RunIsAllOrConsistent | deployment/2026-09-r2/bridge-20-backfill.ts:18-36 | a run changes no account unless it commits, and then every account is postable exactly when it has a category, identities are untouched, parents were only filled in |
| CoaBackfill.CommittedRowsFollowTheCatalog | deployment/2026-09-r2/bridge-20-backfill.ts:244-309 | a committed run leaves set rows alone, files a template row under its template's category and another under its type's, with that category's normal balance, Debit without one, and takes control type and sort order where the template gives them |
| CoaBackfill.MissingParentsAreWired | deployment/2026-09-r2/bridge-20-backfill.ts:421-437 | with wiring on, a missing parent the template names is filled in whenever the organisation has it |
| CoaBackfill.OutcomesExactly | deployment/2026-09-r2/bridge-20-backfill.ts:330-470 | blocked, dry and committed each under their exact condition on the data before the run and the clash of defaults |
| CoaBackfill.LabelsSayWhy | deployment/2026-09-r2/bridge-20-backfill.ts:255-309 | the label of a decision and its confidence say what it rests on |
| CoaBackfill.CategoryGatesPassIffReady | deployment/2026-09-r2/bridge-20-backfill.ts:439-456 | with everything mapped, the two category gates pass exactly when every account is ready, a condition on the data before the run |
| CoaBackfill.ShippedTemplatePassesTheGates | deployment/2026-09-r2/bridge-20-backfill.ts:24-30 | they cannot fire when the template obeys its invariant and rows already set are postable |
| CoaBackfill.SecondRunIsIdle | deployment/2026-09-r2/bridge-20-backfill.ts:244-253 | with a template in which only rows with a category have a parent, after a commit a run without force changes no value, whatever its flags |
| CoaBackfill.LateWiringComesTooLate | deployment/2026-09-r2/bridge-20-backfill.ts:421-437 | an account whose parent is set when the first run wires, and stays empty when only the second one does |
| CoaBackfill.SecondRunOnlyWires | deployment/2026-09-r2/bridge-20-backfill.ts:421-437 | with any template, after a commit a second run without force commits again and changes at most a missing parent of a row without a category, when it wires parents |
| CoaBackfill.NestedHeaderIsWiredLate | deployment/2026-09-r2/bridge-20-backfill.ts:421-437 | a template with a header below a header, where that happens |
| CoaBackfill.SecondRunChangesNothing | deployment/2026-09-r2/bridge-20-backfill.ts:245-253 | with any template, it changes no value exactly when it does not wire parents or no such row can be wired, in particular when the first run wired them |
| OpeningLedger.Ledger.VisitCell | apps/api/src/scripts/backfill-opening-ledger.ts:54-97 | refines the treatment of one stock cell |
| OpeningLedger.Ledger.Backfill | apps/api/src/scripts/backfill-opening-ledger.ts:52-98 | refines the loop and its two counters |
| OpeningLedger.JudgementIsByTheGap | apps/api/src/scripts/backfill-opening-ledger.ts:57-97 | repaired, in balance, unexplained or opened, each exactly by the gap, cells without movements included, and every value of the opening row |
| OpeningLedger.CardIsTheRowsInOrder | apps/api/src/scripts/backfill-opening-ledger.ts:60 | the stock card holds exactly the cell's rows, by time and then id |
| OpeningLedger.RunCountsWhatItInserts | apps/api/src/scripts/backfill-opening-ledger.ts:52-98 | a writing run appends one row per cell counted as fixed, a reporting run none |
| OpeningLedger.DryRunCounts | apps/api/src/scripts/backfill-opening-ledger.ts:52-98 | a reporting run counts the cells to open and those unexplained exactly |
| OpeningLedger.FirstIsTopOfCard | apps/api/src/scripts/backfill-opening-ledger.ts:60 | the earliest row found is the top of the time-ordered card |
| OpeningLedger.InsertionRepairsTheCell | apps/api/src/scripts/backfill-opening-ledger.ts:82-97 | an inserted row heads the card, starts it at zero, makes the ledger sum equal the cached quantity, fits the next row within EPS, and leaves other cells alone |
| OpeningLedger.ChainTelescopes | apps/api/src/scripts/backfill-opening-ledger.ts:11-15 | the changes of a chained card telescope between its ends |
| OpeningLedger.ChainedCellIsCompleted | apps/api/src/scripts/backfill-opening-ledger.ts:11-15 | for a chained card ending at the cached quantity the gap is the first quantity before; a row is inserted exactly when that is not zero, and the card then chains from zero |
| OpeningLedger.SecondRunInsertsNothing | apps/api/src/scripts/backfill-opening-ledger.ts:25-26 | a second run inserts nothing |
| GlGaps.Books.Collect | apps/api/src/scripts/backfill-inventory-gl-gaps.ts:85-104 | refines the grouping loop |
| GlGaps.Books.PostOpening | apps/api/src/scripts/backfill-inventory-gl-gaps.ts:106-148 | refines the posting of opening groups |
| GlGaps.Books.PostAdjustments | apps/api/src/scripts/backfill-inventory-gl-gaps.ts:150-195 | refines the posting of adjustment groups |
| GlGaps.GroupsAreTheRowsBySource | apps/api/src/scripts/backfill-inventory-gl-gaps.ts:85-104 | each group is exactly the rows of its kind and source, added up directly |
| GlGaps.OneGroupPerSource | apps/api/src/scripts/backfill-inventory-gl-gaps.ts:9-10 | there is one group, hence at most one entry, per source |
| GlGaps.GroupsCountTheirRows | apps/api/src/scripts/backfill-inventory-gl-gaps.ts:87-104 | a group counts its rows, adds up their values and lists their codes in order |
| GlGaps.MemoRowsAreCounted | apps/api/src/scripts/backfill-inventory-gl-gaps.ts:88-90 | the memo counter is the number of memo rows |
| GlGaps.MemoRowsAreOpenings | apps/api/src/scripts/backfill-inventory-gl-gaps.ts:51-52 | memo rows are those of opening type or source, and rows without a source share one group |
| GlGaps.GroupingConservesValue | apps/api/src/scripts/backfill-inventory-gl-gaps.ts:87-104 | memo totals plus group totals are all the signed value |
| GlGaps.EntryMovesStockByItsValue | apps/api/src/scripts/backfill-inventory-gl-gaps.ts:129-137 | an entry balances with positive sides, and moves stock by the group's value, or not at all when the counter-account is the stock account |
| GlGaps.PostedExactly | apps/api/src/scripts/backfill-inventory-gl-gaps.ts:106-195 | a group is posted exactly when writing is on, its value is not zero, its counter-account is mapped, and memo groups are asked for |
| GlGaps.JournalsBookTheirRows | apps/api/src/scripts/backfill-inventory-gl-gaps.ts:129-190 | every journal books one source's whole value on the right side of stock and against opening equity, adjustment income for a gain or expense for a loss |
| GlGaps.NothingWithoutLeave | apps/api/src/scripts/backfill-inventory-gl-gaps.ts:76-84 | without rows, a stock account or leave to write, nothing is posted |
| GlGaps.RemainingGapIsExact | apps/api/src/scripts/backfill-inventory-gl-gaps.ts:106-195 | all journals balance, and for any mapping the gap left between sub-ledger and ledger is exactly the skipped groups plus those posted against the stock account itself |
| GlGaps.RemainingGapIsTheSkippedGroups | apps/api/src/scripts/backfill-inventory-gl-gaps.ts:106-195 | when no counter-account is the stock account, the gap left is exactly the skipped groups |
| GlGaps.SummaryCountsUnmappedGroups | apps/api/src/scripts/backfill-inventory-gl-gaps.ts:155-166 | the announced entries exceed the journals by the adjustment groups without a mapped account |
| GlGaps.SummaryIsOfTheGroups | apps/api/src/scripts/backfill-inventory-gl-gaps.ts:111-160 | writing or not, the summary counts the groups worth an entry and adds up their sizes |
| GlGaps.EntriesAreBySource | apps/api/src/scripts/backfill-inventory-gl-gaps.ts:106-195 | a source gets an entry exactly when the direct sum of its memo rows, or of its other rows, is posted |
| GlGaps.StillUnpostedIff | apps/api/src/modules/accounting/reporting/inventory-valuation.service.ts:24-34 | after a run a movement is still unposted exactly when it was before and no entry was written for its source since it was created |
| GlGaps.CoveredIsHidden | apps/api/src/scripts/backfill-inventory-gl-gaps.ts:24-25 | rows covered by an entry are not seen by the next run |
| GlGaps.SecondRunPostsNothing | apps/api/src/scripts/backfill-inventory-gl-gaps.ts:24-25 | a second run with the same settings over the same movements writes no entry |
| GlGaps.OnlyCoveredAreHiddenIff | apps/api/src/modules/accounting/reporting/inventory-valuation.service.ts:24-34 | a run hides only what it posted exactly when no unposted movement shares its source with a posted group without belonging to one |
| GlGaps.MemoRowIsHiddenByItsNeighbour | apps/api/src/modules/accounting/reporting/inventory-valuation.service.ts:24-34 | a memo row hidden by the posted adjustments of its source, so that a later capitalising run finds nothing |
| Fingerprint.DiffMaps | deployment/2026-09-r2/fingerprint.ts:286-298 | adds exactly the notes the two maps deserve |
| Fingerprint.DiffHashes | deployment/2026-09-r2/fingerprint.ts:324-347 | adds exactly the notes the column hashes deserve under the allowlist |
| Fingerprint.CompareSnapshots | deployment/2026-09-r2/fingerprint.ts:300-350 | the findings are exactly the deserved notes, none is unexpected exactly when the comparison passes, and there is none at all between equal snapshots |
| Fingerprint.PassesIffNothingLost | deployment/2026-09-r2/fingerprint.ts:300-350 | a comparison passes exactly when no table is lost or shrank, money, stock and sequences are there unchanged, identifiers and dates are the same, and only columns the allowlist owns were dropped or rewritten |
| Fingerprint.ExpectedChangesAreStillReported | deployment/2026-09-r2/fingerprint.ts:306-347 | growth, new entries and owned columns are reported, as allowed or as information |
| Fingerprint.PassingIsTransitive | deployment/2026-09-r2/fingerprint.ts:300-350 | if two consecutive comparisons pass, so does the direct one |
| Fingerprint.EmptySectionMayVanish | deployment/2026-09-r2/fingerprint.ts:313-315 | a money section that disappears goes unreported exactly when it was empty |
| Fingerprint.ASectionVanishesUnreported | deployment/2026-09-r2/fingerprint.ts:313-315 | two snapshots that pass although a section is gone |
| Fingerprint.RowLevelCompare | deployment/2026-09-r2/fingerprint.ts:371-378 | computes exactly the rows missing, changed and added |
| Csv.FieldRoundTrip | apps/web/src/lib/export-csv.ts:10 | a field with doubled quotes reads back as itself, wherever it stands |
| Csv.ExportRoundTrips | apps/web/src/lib/export-csv.ts:13-19 | reading the file gives back exactly the guarded headers and rows, for every table, rows without cells included |
| Csv.StrictReaderRefusesEmptyLines | apps/web/src/lib/export-csv.ts:13-19 | a reader that wants a field in every line reads the same where every line has a cell, and refuses the file otherwise |
| Csv.GrammarReaderPadsEmptyLines | apps/web/src/lib/export-csv.ts:13-19 | a reader by the RFC 4180 grammar gives back the table with rows without cells padded by one empty cell, which is the table exactly when there are none |
| Csv.GuardDisarms | apps/web/src/lib/export-csv.ts:1-9 | no guarded cell starts with = + - @ tab or carriage return; a cell that did gets a quote in front, others are unchanged |
| Csv.GuardCollisions | apps/web/src/lib/export-csv.ts:9 | two cells are written alike exactly when equal or when one is the other with the guard typed by hand |
| PageWalk.CeilDivBounds | apps/api/src/kernel/audit/audit-log.controller.ts:42 | the page count covers all rows with less than a page to spare |
| PageWalk.ServedSize | apps/api/src/kernel/audit/audit-log.controller.ts:26 | a size from 1 to 200 is served as asked, none as 50, a larger one as 200 |
| PageWalk.FetchAllPages | apps/web/src/lib/export-list.ts:48-62 | over a fixed list the walk ends with exactly the first maxRows rows in order and reports truncation exactly when there are more, for any page size |

## Left out

- Concurrency inside a transaction: each one is a single atomic step, as under serializable isolation; two decisions or refreshes racing on one row are not modelled.
- ApprovalService.ApprovalsService.CheckOrRequestApproval: the object's method runs its two database calls back to back; interleavings are in ApprovalGate.
- ApprovalGate.AtMostOneLiveRequest: direct approval requests and synchronous overrides are outside these runs, because they bypass the gate's lookup.
- ApprovalStore.ApprovedRequestsAreCleared: is about requests opened on the workflow by requestApproval; a synchronous override is approved at birth without clearing steps.
- Amounts that are not numbers, and the decimal-to-float conversion of thresholds.
- Multi-factor login, enrolment and reset tokens, inactive organisations, and the failed-PIN counter of the point of sale, which shares the account row.
- Nightly deletion of refresh tokens revoked for more than thirty days.
- The workflow query and the insertion of `requestApproval` as separate calls, and an update of the workflow in between.
- Several browser tabs sharing one local storage; the client modelled is one tab.
- The revoked-cashier answer of the response interceptor counts as any other final answer.
- IdempotentRequest.EffectsAreBounded: assumes the server executes a key at most once and reports success only for an executed key; the interceptor that does so is not part of this model. Collisions of the slot fingerprint are not modelled.
- The static template, type map and category rows of the chart of accounts: any catalogue is allowed, and what is needed of it is a stated condition. Column values `name`, `bankName` and the like, which the backfill never writes, are not represented, nor is `updatedAt`.
- Reports, console output, write-target safety checks, audit rows, event-bus plumbing, permission guards and HTTP.
- The captured SQL of the fingerprint script; its comparison is modelled on arbitrary captured maps.
- PageWalk.FetchAllPages: the served list is fixed while it is walked, and page numbers and sizes are non-negative.
- GlGaps.SecondRunPostsNothing: a run is one instant, a source name is never a document id or ledger code, and the replay of an entry with a known posting key, as well as drafts and reversals, are not modelled.
- The one-time script that links old requests to workflows, a writer of request rows outside the engine.
- Capping of ledger codes in audit rows and the per-organisation outer loop of the catch-up script, whose turns are independent.
