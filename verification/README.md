# Verified model of the Telegram agent's broker, planner and runners

A Dafny model of the parts of the repository whose correctness depends on more than one function, and
proofs of what they promise, without axioms. `dafny verify dfyconfig.toml` covers the whole project.

**The broker's ledgers.** A request is claimed, an external call is awaited, and the request is settled
under exactly one receipt, while installations are revoked, fences move on, bindings change generation and
processes crash. `BrokerDatabase` holds the tables as mutable maps; `BrokerStore`, `OperationService`,
`ConnectorStore` and `AuthorityService` are the classes that work on them in place, each method proved to
do exactly what its ledger function says. `execute` is split at its one await into two halves. `FoundationRuns`
and `ConnectorRuns` are the state machines over those halves, with anything allowed in between, and hold the
theorems over all runs; `ConnectorFailures` and `FoundationOutcomes` have those about requests that are
denied or whose answer is not what it should be. A label of a run is one transaction, a crash forgets every
call in flight (one label is a crash between a claim and what follows it), and a restart runs the constructor's
recovery. `Registry` has installations and executor fences, which both generations share, and `RegistryHistory` what
a run of it remembers. `ConnectorStanding` and `FoundationStanding` say what becomes of a request or an answer by its
cause, read off the columns of the tables and without the functions that decide it; `ConnectorLaws` and
`FoundationOutcomes` carry that over to whole runs. `ConnectorTransactions` and `FoundationTransactions` do the same for
each transaction of the two stores. Time, the clock, the identifiers drawn and the
answers of the adapter or executor are inputs of each step, so the theorems hold for all of them. Digests are
injective constructors, and AES-GCM is a sealed term that opens only under the data it was sealed with.

**Printers and parsers.** `VerificationTable`, `VerificationRoundTrip` and `VerificationPlan` (plan tables with
escaped bars and back-referenced backtick fences), `VerificationCauses` (which plans are accepted at all, and what each
other one is refused for), `Shell` and `Automation` (single quoting against the token
rules of the Shell Command Language of IEEE Std 1003.1-2017, sections 2.2 and 2.3, and the automation commands
built with it), `JsonSpan` (the span scanner against the JSON grammar of RFC 8259) and `JsonBrackets` (the scanner on any text), `Flags` and
`FlagsRoundTrip` (the command-line flags).

**Planners.** `Scheduler` (job admission from a truncated list of candidates), `Reclaim` and `BranchLanding`
(what a workspace sweep plans), over the shared `StableSort`, and `WorkspaceSweep` (the sweep around the plan: probes
that may throw before it, commands that may fail after it). `Finite` has what the ledgers need of counting and ordering.

**The terminal runner.** `Terminal` is a run as the events it waits for, in any order; `TerminalRunner` is the
object that takes those events one by one and updates its fields.

**Bounded traversals.** `BundleWalk` and `BundleIntegrity` (the skill-bundle walk with its stack and budgets, and
the comparison with the lock), `BundleStanding` (what an accepted bundle is), `Pagination` (a filtered list read through pages of an unfiltered one).

## What turned out otherwise

- A validation command of three characters or more that begins and ends with a backtick does not survive its own
  table: the greedy fence group of the parser eats into it. One and two backticks do survive. The plan theorem is an
  equivalence with exactly this condition, over all policies.
- The scheduler's window loses nothing without pauses. With them it can: a paused project takes a place in the window,
  so one at the head of the queue starves the others for as long as it is paused (`Scheduler.TickIsExact` has the exact
  condition).
- In the reclaim planner a verdict is looked up in a plain object, so a branch called `constructor` without a verdict of
  its own passes every test. The sweep gives every branch a verdict, even one whose probe throws, which closes the gap
  (`WorkspaceSweep.DeletedIsProvedLanded`). The flag parser looks its specifications up the same way and accepts
  `--constructor=x`: an undeclared name is refused exactly when it is not one of the twelve every plain object answers to
  (`FlagsRoundTrip.UndeclaredNameIsRefused`).
- A held-back worktree is looked up by path, so with two observations of one path the plan can delete a branch that is
  still checked out. `Reclaim.BranchesAreSafeExactly` has the exact condition, over all branches and verdicts;
  `Reclaim.DuplicatePathLosesBranch` is an instance. `git worktree list` names each path once; two observations
  of one path need paths that differ in the blanks at their ends only, which the parser of that list trims away
  (`src/bb/worktree-inventory.ts:45,53`). With distinct paths the condition always holds.
- A terminal whose id is the empty string is never closed. A run that throws closes its terminal only when the command had
  exited before its input could be sent; after an observer that throws or a refused call the terminal stays open
  (`Terminal.ThrowIsExact`). Closing exactly once is a promise of runs that return a result.
- The foreign key on connector claims makes the denial for a missing binding unreachable.
- An executor failure whose retry advice does not fit its failure class is not a valid response: the caller is told the
  result is ambiguous without a receipt, and the row waits for the next restart (`ConnectorFailures.ExecutorFailureIsSettled`).
  `ConnectorFailures.FinishSettlesOrWaits` has the exact condition under which a call that comes back goes on record.
- A compromised binding can never be revoked, because its reference no longer opens.
- Certificates are not unique in the schema; the lookup takes the first row in insertion order, and only that row's state counts
  (`Registry.LookupIsExact`).
- The target check casts, so an identity of a Convex project matches a Vercel target with the same team and project ids.
  Nothing comes of it: no response can carry such an identity, and the call ends as ambiguous
  (`ConnectorStanding.OfTargetExactly`, `ConnectorStanding.FinishMeetsEnd`).

## Model

| member | source | states |
|---|---|---|
| ConnectorLaws.SuccessStandsTwice | broker/src/connector-authority-service.ts:347-393 | In every run, for every succeeded receipt on file, one step began its request and a later one finished it, and at both, over the columns of the tables: the certificate's installation is enabled with a live topology receipt, the project's policy has the named digest and lists the operation, the fence has the named owner and generation and has not expired, the binding has the named generation, operation, capability, a state that may run and no expiry behind it, and seals the same target; the identity on the receipt is of that target, field by field, seen no later than the completion and that no later than the deadline |
| ConnectorLaws.ChangedStandingIsRefused | broker/src/connector-authority-service.ts:353-365 | In every run, a call that comes back after any one of these has changed is never a success: it is on record as reconciliation_required in every later state whenever a receipt can be written |
| ConnectorLaws.DispatchedExactly | broker/src/connector-authority-service.ts:178-260 | In every run the executor is asked exactly for the well-made new requests for which all of this stands and the audit can be written; a binding that has expired or is in no state to run is never used |
| ConnectorLaws.BegunByCause | broker/src/connector-authority-service.ts:178-260 | In every run each request meets the fate its cause calls for, in reply, call and tables: the reasons are tried in the order of the source, each with its own failure class |
| ConnectorLaws.DeniedByCause | broker/src/connector-authority-service.ts:233-318 | In every run a denied request is on record in every later state with the class of its cause, and with the digest of its binding exactly where the binding was found |
| ConnectorLaws.FinishedByCause | broker/src/connector-authority-service.ts:347-434 | In every run each call that comes back ends as its cause requires: class, retry advice, version, receipt and binding |
| ConnectorStanding.AuthorityExactly | broker/src/connector-authority-service.ts:381-393 | The check of a returning call holds exactly when everything it rests on stands, column by column |
| ConnectorStanding.BeginMeetsFate | broker/src/connector-authority-service.ts:178-318 | The half before the await meets the fate of every request in every well-formed state, of a request that is malformed, replayed, late or unauthorized too |
| ConnectorStanding.FinishMeetsEnd | broker/src/connector-authority-service.ts:347-434 | The half after the await ends every call as its cause requires in every well-formed state |
| ConnectorStanding.DecidedByCause | broker/src/connector-authority-service.ts:262-318 | What the named binding decides by its cause in tables of any shape, the classes the ledger invariant makes unreachable included |
| ConnectorStanding.OfTargetExactly | src/credentials/connector-policy.ts:394-417 | An identity matches a target exactly when it is of its project and team, case by case, a Convex identity against a Vercel target included |
| ConnectorRuns.SuccessNeedsAuthorityTwice | broker/src/connector-authority-service.ts:178-201 | In every run of the connector, for every succeeded receipt on file: an earlier step dispatched its request and a later step finished it no later than the deadline with the standing authority checked again and a proof of the target (ConnectorLaws.SuccessStandsTwice spells the authority out) |
| ConnectorRuns.DispatchedAtMostOnce | broker/src/connector-authority-service.ts:190-194 | Over any interleaving with any number of crashes and restarts, two dispatches to the executor never share an idempotency key, a request id or a nonce of one installation |
| ConnectorRuns.ReceiptedReplyIsFinal | broker/src/connector-store.ts:564-599 | A reply that names a receipt, replays included, is from then on the response on file, and its receipt carries its digest |
| ConnectorRuns.ActiveBindingsAreProved | broker/src/connector-store.ts:643-668 | In any reachable state a binding is active only if a succeeded receipt for it at its generation is on file, and its columns agree with its projection |
| ConnectorRuns.EveryRowIsSettledOnce | broker/src/migrations.ts:165-234 | In any reachable state a row is waiting with no response and no receipt, or settled under exactly one receipt that its response names, and ambiguous exactly when that response says so |
| ConnectorRuns.EveryRowAccountedFor | broker/src/migrations.ts:202-234 | In any reachable state receipts and waiting rows add up to the rows |
| ConnectorRuns.InflightWasDispatched | broker/src/connector-authority-service.ts:190-200 | A call in flight was dispatched earlier in the same run |
| ConnectorRuns.RunKeepsReachable | broker/src/migrations.ts:165-234 | Every state of every run keeps the ledger invariant, and between any two moments rows, receipts and bindings only grow |
| ConnectorRuns.BindingMissingNeverDenied | broker/src/connector-authority-service.ts:262-271 | After a claim that was accepted, authorization never denies for a missing binding: the foreign key of the claim excludes it |
| ConnectorAuthority.GrantRestsOnAuthority | broker/src/connector-authority-service.ts:262-318 | A granted call carries the target whose digest the binding carries, of the request's operation, and a credential exactly when the operation needs one, under the full standing authority |
| ConnectorAuthority.GrantIsExact | broker/src/connector-authority-service.ts:233-318 | A call is granted exactly when the standing authority that completion checks again holds for the target the named binding has, and the audit can be written |
| ConnectorAuthority.BeginEffect | broker/src/connector-authority-service.ts:178-260 | The half before the await keeps the ledger invariant. Any new request it does not dispatch is settled by its denial, under the receipt drawn for it, whenever one can be written, and waits otherwise; a request that gets no row changes nothing. No old row moves and no success is written |
| ConnectorAuthority.FinishEffect | broker/src/connector-authority-service.ts:347-393 | The half after the await keeps the ledger invariant and moves at most its own row: settled when its outcome fits and a receipt can be written, and otherwise nothing changes; only a success moves a binding |
| ConnectorAuthority.FailureEffect | broker/src/connector-authority-service.ts:507-543 | A failure settles its row exactly when its retry advice fits its class, the audit is writable, the version can be stored and the receipt id is new; otherwise nothing changes and the reply, without a receipt, says which of the two it was |
| ConnectorAuthority.PersistEffect | broker/src/connector-authority-service.ts:412-434 | A success is persisted exactly when operation, observation time, connector version and receipt id are acceptable; a proof no response can carry is settled as ambiguous, and one the tables refuse changes nothing |
| ConnectorFailures.FinishSettlesOrWaits | broker/src/connector-authority-service.ts:347-379 | In every run, whatever changed while a call was away: when it comes back, its outcome is on record in every later state under exactly one receipt, or its row waits, with no call behind it, until recovery takes up that very row. A guard on the state and the answer decides which |
| ConnectorFailures.LostAuthorityIsSettled | broker/src/connector-authority-service.ts:353-365 | In every run, a call that comes back to lost authority ends as reconciliation_required, under the receipt drawn, with the call's target digest and the authority's own version, in every later state; only an audit that cannot be written or a repeated receipt id leaves it unrecorded, and then nothing changes |
| ConnectorFailures.ExecutorFailureIsSettled | broker/src/connector-authority-service.ts:395-410 | In every run, a failure of the executor is on record as it was reported exactly when its retry advice fits its class; misfitting advice is replied as ambiguous without a receipt, and the row waits until recovery takes it up |
| ConnectorFailures.DeniedRequestIsSettled | broker/src/connector-authority-service.ts:233-260 | In every run, a new request without the whole authority is not dispatched: it is on record as a failure in every later state when a receipt can be written, and otherwise its row waits until recovery |
| ConnectorFailures.FinishSettlesExactly | broker/src/connector-authority-service.ts:347-379 | One finished call settles its row exactly when its outcome can go on record, and otherwise changes nothing and replies a failure without a receipt |
| ConnectorFailures.WaitsUntilReconciled | broker/src/connector-store.ts:601-622 | A row left waiting stays as it is over any steps but its own recovery: repeats of the request, other calls, crashes and restarts included |
| ConnectorInvariant.CompletionKeepsInv | broker/src/connector-store.ts:512-599 | Completion keeps the ledger invariant, changes only its own row, and a row already answered is answered as before |
| ConnectorInvariant.ClaimKeepsInv | broker/src/connector-store.ts:440-489 | A claim keeps the invariant and inserts exactly one waiting row, or nothing |
| ConnectorInvariant.PolicyKeepsInv | broker/src/connector-store.ts:196-237 | Setting a policy keeps the invariant and touches neither bindings nor requests |
| ConnectorInvariant.EnrolmentKeepsInv | broker/src/connector-store.ts:246-318 | Enrolment keeps the invariant and never creates an active binding |
| ConnectorInvariant.ProtectedEnrolmentKeepsInv | broker/src/connector-store.ts:320-391 | So does enrolment together with a policy |
| ConnectorInvariant.ActivationKeepsBindings | broker/src/connector-store.ts:643-668 | Activation keeps every binding well formed and leaves a proof for it on file |
| ConnectorInvariant.TargetAlwaysResolves | broker/src/connector-store.ts:398-438 | The private target of a stored binding always opens, matches its digest and its operation, and has a credential exactly when the operation needs one |
| ConnectorRecovery.RecoveryIsTotal | broker/src/connector-store.ts:601-622 | Restart recovery never fails: every waiting row is settled, each under one new receipt, and nothing else moves |
| ConnectorRecovery.RecoveryLeavesNothingWaiting | broker/src/connector-store.ts:601-622 | Afterwards no row waits, so a second pass selects nothing and changes nothing |
| ConnectorRecovery.CrashInRecoveryIsHarmless | broker/src/connector-store.ts:607-621 | A crash after any number of iterations and a second pass settle the same rows with the same outcomes as an uninterrupted pass |
| ConnectorRecovery.RowRecovers | broker/src/connector-store.ts:607-620 | One iteration passes every check of completion, because the rebuilt envelope has the stored digest and the foreign key keeps the binding |
| ConnectorRecovery.AfterIsExact | broker/src/connector-store.ts:607-621 | A pass makes every listed row ambiguous under one of the drawn receipts, and leaves the others alone |
| ConnectorRecovery.SelectionExists | broker/src/connector-store.ts:602-604 | There is always a selection of the waiting rows ordered by start time |
| ConnectorTransactions.PolicySetByCause | broker/src/connector-store.ts:196-237 | A policy is set exactly when its digest is well formed, it lists distinct operations and its installation is enabled; then the table has that policy and no other row has moved |
| ConnectorTransactions.EnrolledByCause | broker/src/connector-store.ts:246-318 | A binding is enrolled exactly when it is not active, of its target, supplied with a credential exactly when it needs one, on an enabled installation and new; each refusal has its own cause, and the new row seals target and credential for this binding at this generation |
| ConnectorTransactions.ProtectedRefusedByCause | broker/src/connector-store.ts:320-391 | The joint enrolment is refused for its causes in their order, the policy that does not list the operation included |
| ConnectorTransactions.ProtectedIsWritten | broker/src/connector-store.ts:320-391 | Otherwise policy and binding are written, and no other row moves |
| ConnectorTransactions.ClaimedByCause | broker/src/connector-store.ts:440-489 | A claim is fresh, replayed, in flight or a mismatch by its cause; a fresh one inserts a waiting row that repeats the request column by column |
| ConnectorTransactions.CompletedByCause | broker/src/connector-store.ts:512-599 | A completion is refused for the first of six causes, repeats the answer of an answered row, and otherwise stores its response |
| ConnectorTransactions.PassByCause | broker/src/connector-store.ts:601-622 | A recovery pass never fails and leaves each waiting row ambiguous under the identifier drawn for it, with a receipt that names the target its binding seals |
| ConnectorTransactions.TargetIsSealed | broker/src/connector-store.ts:398-420 | A target is resolved exactly when it is sealed for this binding at this generation, under its own digest |
| ConnectorTransactions.LawfulExactly | src/credentials/connector-protocol.ts:390-440 | A response is valid exactly when it is a receipted success with an identity of its operation seen by then, or a failure that is retried in exactly three classes after one second to five minutes |
| ConnectorStore.BrokerProtectedConnectorStore.SetPolicy | broker/src/connector-store.ts:196-237 | The policy table after the call is the specified one, or unchanged with the specified error |
| ConnectorStore.BrokerProtectedConnectorStore.EnrollBinding | broker/src/connector-store.ts:246-318 | The binding table after the call is the specified one, or unchanged with the specified error |
| ConnectorStore.BrokerProtectedConnectorStore.EnrollProtectedBinding | broker/src/connector-store.ts:320-391 | Policy and binding change together or not at all |
| ConnectorStore.BrokerProtectedConnectorStore.ClaimRequest | broker/src/connector-store.ts:440-489 | Replay, in flight, mismatch or fresh, with exactly the specified row inserted in the last case |
| ConnectorStore.BrokerProtectedConnectorStore.CompleteRequest | broker/src/connector-store.ts:512-599 | Receipt, binding and row change together as specified, or nothing changes and the specified error is returned |
| ConnectorStore.BrokerProtectedConnectorStore.ProjectBindingActive | broker/src/connector-store.ts:643-668 | Only the binding named by the row, at its generation and not withdrawn, becomes active |
| ConnectorStore.BrokerProtectedConnectorStore.ReconcileInterruptedRequests | broker/src/connector-store.ts:601-622 | The loop is the specified pass and counts the rows that have a binding; an exception leaves exactly a pass over a prefix |
| ConnectorStore.PassExtends | broker/src/connector-store.ts:607-621 | A pass over one more row is the pass so far followed by that row |
| AuthorityService.ProtectedConnectorAuthorityService.Execute | broker/src/connector-authority-service.ts:178-194 | Up to the await: reply or call, and the connector tables, exactly as specified |
| AuthorityService.ProtectedConnectorAuthorityService.Resume | broker/src/connector-authority-service.ts:347-379 | From the await on: reply and tables exactly as specified |
| AuthorityService.ProtectedConnectorAuthorityService.CompleteFailure | broker/src/connector-authority-service.ts:507-543 | A failure that cannot be encoded, audited or stored is replied without a receipt; otherwise it is settled |
| AuthorityService.ProtectedConnectorAuthorityService.PersistSuccess | broker/src/connector-authority-service.ts:412-434 | A success is stored, or denied as ambiguous, or reported as not persisted |
| AuthorityService.ProtectedConnectorAuthorityService.Open | broker/src/connector-authority-service.ts:169-176 | The service exists once recovery has gone through |
| Registry.OneOwnerPerGeneration | broker/src/store.ts:309-349 | Over any run, two accepted attestations of one fence name the same owner if they name the same generation, and the later generation is not smaller |
| Registry.SupersededFenceNeverReturns | broker/src/store.ts:330-374 | Once another pair has become current, the pair it displaced is never current again |
| Registry.RunKeepsRegistry | broker/src/store.ts:584-664 | Over any run no installation row disappears or is enabled again, and no fence goes back |
| Registry.CertificateNamesEnabledInstallation | broker/src/store.ts:294-298 | A certificate only ever speaks for the enabled installation filed under its own id |
| Registry.LookupIsExact | broker/src/store.ts:294-298 | The lookup yields an installation exactly when that is the first in order of enrolment whose row carries the certificate, and it is enabled; a revoked row in front hides every later one |
| RegistryHistory.RowIsRemembered | broker/src/store.ts:584-664 | After any run an installation has a row exactly when a sound enrolment of it came before, and each column is what the history leaves: the first sound enrolment, the last topology attestation since, revoked exactly when revoked since |
| RegistryHistory.FenceIsRemembered | broker/src/store.ts:309-352 | After any run a fence is the last attestation that took it: well formed, of an enrolled installation, and superseding every earlier taker |
| RegistryHistory.VerdictByCause | broker/src/store.ts:309-352 | An attestation is accepted exactly when it takes the fence in this sense, fails on the foreign key exactly when it is well formed and its installation unknown, and is refused otherwise |
| RegistryHistory.RefusedByCause | broker/src/store.ts:584-650 | After any run each administrative step is refused exactly for its cause |
| RegistryHistory.OrderIsRemembered | broker/src/store.ts:294-298 | The order the lookup scans is the order in which the installations came on file |
| Registry.UniqueCertificateIsFound | broker/src/store.ts:294-298 | With one row per certificate the lookup finds the enabled holder |
| Registry.ScanFindsRow | broker/src/store.ts:294-298 | The lookup takes the first row in insertion order, and finds none only when there is none |
| FoundationRuns.DispatchedAtMostOnce | broker/src/operation-service.ts:211-221 | Over any interleaving with crashes and restarts the vault adapter is asked at most once per idempotency key, per request id and per nonce |
| FoundationRuns.DispatchIsAuthorized | broker/src/operation-service.ts:191-221 | A dispatch is of a new request by the certificate of its enabled installation under the pinned policy; a verification hands over the reference of a binding that stands at the named generation |
| FoundationRuns.BindingLifecycle | broker/src/store.ts:680-744 | Over any run a binding's generation never decreases, a withdrawn one never returns whatever completes in between, a compromised one stays so, and within a generation the sealed reference is the same |
| FoundationRuns.ReferenceFollowsCompromise | broker/src/store.ts:410-417 | In any reachable state a binding is compromised exactly when its installation is no longer enabled, its reference is one generation behind exactly then, and opens exactly otherwise |
| FoundationRuns.VerifiedBindingsAreProved | broker/src/store.ts:793-806 | A binding shows as verified or degraded only with a valid verification at its present generation on file |
| FoundationRuns.ReceiptedReplyIsFinal | broker/src/store.ts:424-582 | A reply that names a receipt, replays and rejections included, is the response on file from then on |
| FoundationOutcomes.AnswerIsSettled | broker/src/operation-service.ts:235-338 | In every run, an answer that comes back, health read or verification, is on record in every later state exactly when nobody answered the row meanwhile, the protocol has a response for it and the receipt id is new |
| FoundationOutcomes.DeniedByCause | broker/src/operation-service.ts:191-315 | In every run, a request denied before the adapter is asked is on record in every later state with the verdict its cause calls for: rejected when untimely or of an unknown kind, missing when the key is absent, inactive when revoked or compromised whatever the generation, stale when the generation differs, unavailable with a retry after 30 seconds when vault or reference does not open; if its receipt is taken the caller is told so and the row waits |
| FoundationOutcomes.BegunByCause | broker/src/operation-service.ts:191-305 | In every run each request meets the fate its cause calls for, in reply, call and tables |
| FoundationOutcomes.FinishedByCause | broker/src/operation-service.ts:235-338 | In every run each answer ends as what it says requires, in the reply, the row, the receipt and the binding it was about |
| FoundationStanding.BeginMeetsFate | broker/src/operation-service.ts:191-305 | The half before the await meets the fate of every request in every well-formed state, read off the columns |
| FoundationStanding.FinishMeetsEnd | broker/src/operation-service.ts:235-338 | So does the half after the await, for every answer |
| FoundationRuns.EveryRowIsSettledOnce | broker/src/migrations.ts:45-95 | In any reachable state a row is waiting with no response and no receipt, or settled under exactly one receipt that its response names, and ambiguous exactly when that response says so |
| FoundationRuns.EveryRowAccountedFor | broker/src/migrations.ts:45-95 | Receipts and waiting rows add up to the rows |
| FoundationRuns.RestartLeavesNothingWaiting | broker/src/store.ts:470-496 | A restart with new identifiers always goes through: interrupted rows become ambiguous, all others stay as they were |
| FoundationRuns.RunKeepsReachable | broker/src/migrations.ts:45-121 | Every state of every run keeps the ledger and binding invariants, and tables only grow |
| FoundationRuns.BindingsStayWithinLimit | broker/src/store.ts:688-691 | No installation ever has more bindings than a health response may list |
| FoundationRuns.HealthIsRecorded | broker/src/operation-service.ts:235-263 | A health read the adapter answers is always recorded as a success that lists every binding once, whatever was enrolled meanwhile, given a new receipt id and a row nobody has answered |
| FoundationRuns.SelectionExists | broker/src/store.ts:471-473 | There is always a selection of the waiting rows ordered by start time |
| FoundationService.BeginEffect | broker/src/operation-service.ts:191-222 | The half before the await keeps the invariants and the rows that were there, and dispatches only what it has just claimed |
| FoundationService.FinishSettlesExactly | broker/src/operation-service.ts:235-338 | The half after the await keeps the invariants and touches at most its own row: an answer settles a waiting row, with the verdict's effect on its binding, exactly when the protocol has a response for it and the receipt id is new; a row already answered keeps its answer; otherwise nothing changes and the caller is told so |
| FoundationService.VerificationMovesBinding | broker/src/store.ts:793-806 | An answered verification verifies a pending or degraded binding, degrades a verified one, and does neither once the generation has moved on |
| FoundationInvariant.CompletionKeepsInv | broker/src/store.ts:547-582 | Completion keeps the invariants and changes only its own row; an answered row is answered as before |
| FoundationInvariant.RejectKeepsInv | broker/src/store.ts:498-545 | A rejection keeps the invariants and its reply is on file |
| FoundationInvariant.ClaimKeepsInv | broker/src/store.ts:419-468 | A claim keeps the invariants and inserts one waiting row or nothing |
| FoundationInvariant.AddKeepsInv | broker/src/store.ts:680-714 | A new binding is sealed under its first generation |
| FoundationInvariant.RevokeKeepsInv | broker/src/store.ts:716-744 | Revocation succeeds exactly on a binding that is there and not compromised, and keeps its reference sealed under the new generation |
| FoundationInvariant.CompromiseKeepsInv | broker/src/store.ts:643-664 | Revoking an installation compromises all of its bindings and no others |
| FoundationInvariant.ReferenceOpensUnlessCompromised | broker/src/store.ts:410-417 | A reference opens exactly when its binding is not compromised |
| FoundationInvariant.RecoveryIsTotal | broker/src/store.ts:470-496 | The recovery transaction never fails and settles exactly the listed rows as ambiguous |
| FoundationTransactions.AddedByCause | broker/src/store.ts:680-714 | A binding is added exactly when it fits, its installation is enabled with fewer than a hundred bindings, and it is new; each refusal has its own cause, and the new row is pending in its first generation with its reference sealed for it |
| FoundationTransactions.RevokedByCause | broker/src/store.ts:716-744 | A binding is revoked exactly when it is there and its reference can be read; the row is then revoked under the next generation with the same secret sealed for it |
| FoundationTransactions.CompromisedByCause | broker/src/store.ts:643-664 | Revoking an installation compromises each of its bindings under its next generation, seals nothing anew and moves no other |
| FoundationTransactions.ClaimedByCause | broker/src/store.ts:419-468 | A claim is fresh, replayed, in flight or a mismatch by its cause; a fresh one inserts a waiting row that repeats the request column by column |
| FoundationTransactions.CompletedByCause | broker/src/store.ts:547-582 | A completion is refused for want of its row, for what it says or for its receipt, in this order; an answered row repeats its answer |
| FoundationTransactions.RejectedByCause | broker/src/store.ts:498-545 | A rejection repeats what is on file, or is refused for a repeated identifier or receipt, or is on record as a plain rejection |
| FoundationTransactions.PassByCause | broker/src/store.ts:470-496 | A recovery pass never fails and leaves each waiting row ambiguous under the identifier drawn for it, row and receipt column by column |
| FoundationTransactions.LawfulExactly | src/credentials/protocol.ts:332-380 | The twelve rules of the response matrix allow exactly the successes of the two operations and the failures of each class, read row by row |
| BrokerStore.BrokerStore.GetInstallationByCertificate | broker/src/store.ts:294-298 | The scan is the specified lookup |
| BrokerStore.BrokerStore.AddInstallation | broker/src/store.ts:584-617 | A row with a sealed vault id is appended, or nothing changes |
| BrokerStore.BrokerStore.AttestInstallation | broker/src/store.ts:619-641 | Only the topology receipt of the row changes |
| BrokerStore.BrokerStore.RevokeInstallation | broker/src/store.ts:643-664 | Installation and bindings change together |
| BrokerStore.BrokerStore.AttestExecutorFence | broker/src/store.ts:309-349 | The fence table after the call is the specified one |
| BrokerStore.BrokerStore.ClaimRequest | broker/src/store.ts:419-468 | Replay, in flight, mismatch or fresh, with exactly the specified row |
| BrokerStore.BrokerStore.InsertReceipt | broker/src/store.ts:767-791 | One receipt per id and per request |
| BrokerStore.BrokerStore.CompleteRequest | broker/src/store.ts:547-582 | Receipt, binding and row change together, or nothing does |
| BrokerStore.BrokerStore.ApplyBindingTransition | broker/src/store.ts:793-806 | Only a binding at the row's generation moves, and only as the verdict says |
| BrokerStore.BrokerStore.RejectRequest | broker/src/store.ts:498-545 | A refused receipt takes the inserted row away again |
| BrokerStore.BrokerStore.ReconcileInterruptedRequests | broker/src/store.ts:470-496 | The loop is the specified pass, counted, and undone whole when a receipt is refused |
| BrokerStore.BrokerStore.AddBinding | broker/src/store.ts:680-714 | The binding table after the call is the specified one |
| BrokerStore.BrokerStore.RevokeBinding | broker/src/store.ts:716-744 | Re-seals under the next generation, or changes nothing |
| OperationService.BrokerOperationService.Execute | broker/src/operation-service.ts:191-222 | Up to the await: reply or call, and the tables, exactly as specified |
| OperationService.BrokerOperationService.ExecuteHealth | broker/src/operation-service.ts:235-279 | A call when the expected vault opens, a recorded failure otherwise |
| OperationService.BrokerOperationService.ExecuteVerification | broker/src/operation-service.ts:281-305 | Missing, inactive, stale, unreadable or a call, in the order of the source |
| OperationService.BrokerOperationService.Resume | broker/src/operation-service.ts:131-161 | Each answer of the adapter becomes its own completion |
| OperationService.BrokerOperationService.Complete | broker/src/operation-service.ts:317-338 | What the store refuses is reported as not persisted |
| OperationService.BrokerOperationService.Open | broker/src/operation-service.ts:181-189 | The service exists once recovery has gone through |
| VerificationPlan.PlanRoundTrip | src/bb/pipeline-handoffs.ts:129-163 | For every policy and every plan that carries its printed table under the first Verification heading: the plan is accepted with the policy's checks in order exactly when every name is trimmed and on one line and every command is non-empty, on one line, and not a command of three characters or more with a backtick at both ends |
| VerificationCauses.AcceptedExactly | src/bb/pipeline-handoffs.ts:117-163 | Any plan at all is accepted exactly when its first Verification section, up to the next heading of the first two levels, is the empty policy's line or a table of a title row, a rule and one row per check of the policy in order, said over lines, cells and code spans as they are written |
| VerificationCauses.RefusedByCause | src/bb/pipeline-handoffs.ts:117-161 | Every other plan is refused for the first thing that is wrong with it: no section, no explicit skip, too short, an unbarred row, a wrong title, rule, cell count, span or exit code, or other checks than the policy's |
| VerificationCauses.RowExactly | src/bb/pipeline-handoffs.ts:94-115 | A row is split into exactly the cells it holds, bars inside them escaped and bars between them not, and only a row without a bar at both ends is refused |
| VerificationCauses.SpanExactly | src/bb/pipeline-handoffs.ts:150-151 | The expression reads a code span between the longest equal fences that leave anything on one line, and finds none exactly when there are no such fences |
| VerificationCauses.SectionExactly | src/bb/pipeline-handoffs.ts:117-127 | The section found is what stands between the first heading and the line that closes it |
| VerificationCauses.LinesExactly | src/bb/pipeline-handoffs.ts:118 | A plan is cut at its line feeds, each with the carriage return before it |
| VerificationPlan.AcceptedPolicyIsPlain | src/bb/pipeline-handoffs.ts:143-161 | No plan at all is accepted for a policy with other names or commands than a table can hold |
| VerificationPlan.EmptyPolicyRoundTrip | src/bb/pipeline-handoffs.ts:131-136 | The line printed for an empty policy is accepted as a skipped verification |
| VerificationPlan.CodeSpanCommandIsLost | src/bb/pipeline-handoffs.ts:150-152 | A concrete policy whose own table is refused |
| VerificationPlan.JoinedPlanEmbeds | src/bb/pipeline-handoffs.ts:117-127 | Plans that carry the table exist for every plain policy and every surrounding text |
| VerificationPlan.LinesRoundTrip | src/bb/pipeline-handoffs.ts:118 | Splitting into lines undoes joining them |
| VerificationRoundTrip.RowRoundTrip | src/bb/pipeline-handoffs.ts:94-115 | A printed row of trimmed cells is split into those cells, whatever bars and backslashes they hold |
| VerificationRoundTrip.SpanRoundTrip | src/bb/pipeline-handoffs.ts:150-151 | The greedy back-referencing expression recovers a fenced command exactly when the command is fenceable |
| VerificationRoundTrip.FenceIsTight | src/bb/pipeline-handoffs.ts:28-32 | The fence is longer than any run of backticks in the command, and no longer than needed |
| VerificationTable.SplitRow | src/bb/pipeline-handoffs.ts:94-115 | The loop computes the specified cells or the error |
| VerificationTable.FindVerificationSection | src/bb/pipeline-handoffs.ts:117-127 | The two loops compute the specified section |
| JsonSpan.SpanIsExact | src/bb/terminal-command.ts:76-102 | Behind any array or object of RFC 8259, whatever follows, the scanner stops precisely at the value's end |
| JsonSpan.PrefixHasNoSpan | src/bb/terminal-command.ts:76-102 | On every proper prefix of the value it finds no end |
| JsonBrackets.EndIsExact | src/bb/terminal-command.ts:76-102 | In any text, JSON or not, the scanner behind an opening bracket ends after n characters exactly when they are that bracket's whole group: nested groups closed in order, strings taken whole with their escapes |
| JsonBrackets.PayloadIsFirst | src/bb/terminal-command.ts:109-123 | The payload found is the value of the first such group that parses, and none is found exactly when no group parses |
| JsonSpan.PayloadIsRecovered | src/bb/terminal-command.ts:109-123 | Behind noise without opening brackets the payload is found and parsed whole |
| JsonSpan.ValueFeed | src/bb/terminal-command.ts:81-100 | Inside brackets a whole value leaves the scanner as it found it |
| JsonSpan.FindValueEnd | src/bb/terminal-command.ts:76-102 | The loop over the closer stack computes the specified end |
| JsonSpan.ParseCommandJson | src/bb/terminal-command.ts:109-123 | The loop returns the first span that parses |
| Shell.QuoteRoundTrip | src/bb/terminal-command.ts:142-144 | The shell reads a quoted value back as one word, the value itself, exactly when the value has no NUL |
| Shell.QuoteNests | src/bb/terminal-command.ts:142-144 | A value quoted twice is read back through two shells |
| Shell.EnvelopeCarriesCommand | src/bb/terminal-command.ts:146-152 | The assignment of the envelope is one word that holds the command exactly |
| Shell.CommandRoundTrip | src/bb/automation.ts:221-223 | A command line printed argument by argument is read back as those arguments, exactly when none has a NUL |
| Automation.CreateRoundTrip | src/bb/automation.ts:225-227 | The create command exists exactly for definitions within the limits, and its words are exactly the definition's options, for arbitrary texts without NUL |
| Automation.UpdateRoundTrip | src/bb/automation.ts:229-234 | The same for the update command with its id |
| Automation.ShowAndListRoundTrip | src/bb/automation.ts:236-242 | The words of the show and list commands are exactly the intended ones |
| Automation.ActionRoundTrip | src/bb/automation.ts:244-254 | So are those of pause, resume and delete, the confirmation of the last included |
| Automation.RunAndRunsRoundTrip | src/bb/automation.ts:256-275 | So are those of run and runs, and runs exists exactly for limits from 1 to 200 |
| Automation.CreateThroughEnvelope | src/bb/automation.ts:225-227 | A built command survives the envelope's quoting whole |
| Automation.DecimalExactly | src/bb/automation.ts:209 | A number is printed as its own numeral, without leading zeros and with a sign exactly when it is negative |
| Automation.DefinitionRenders | src/bb/automation.ts:181-212 | Every argument of a definition is printed bare or quoted |
| FlagsRoundTrip.FlagsRoundTrip | src/cli.ts:284-327 | A command line of known, unspent names is read back item by item in any interleaving, exactly when no value in two-token form looks like a flag |
| FlagsRoundTrip.ParsedIsWritten | src/cli.ts:284-327 | Positionals come out in order, each name with exactly its values in order, and the flags that were given |
| FlagsRoundTrip.UndeclaredNameIsRefused | src/cli.ts:299-325 | In every state of the parser and in both spellings, a name the command does not declare is refused as unknown exactly when no plain object has it; an inherited name is parsed as a flag with one value, inline or in the next token, that may be given once |
| FlagsRoundTrip.TokenByCause | src/cli.ts:291-327 | Every token in every state of the parser, by what is written: the separator is refused, text that does not begin with two dashes is a positional, and a name is refused as unknown, spent, valued or without a value, in this order, or kept with its value |
| FlagsRoundTrip.UnknownHasNoSpec | src/cli.ts:301-302 | The parser never complains of an unknown name that is declared or inherited, wherever on the line it stands |
| Flags.ParseFlags | src/cli.ts:284-327 | The loop computes the specified result or error |
| Scheduler.TruncationLosesNothing | src/autonomy/scheduler.ts:107-129 | With at most one project claim per occupied slot and no pause, selecting from the oldest few candidates gives what the whole queue gives |
| Scheduler.TickIsExact | src/autonomy/scheduler.ts:107-129 | With pauses it does exactly when the paused and held projects in the window are no more than the occupied slots, or nothing eligible waits beyond it |
| Scheduler.PausedHeadStarves | src/autonomy/scheduler.ts:114-126 | A concrete queue in which a paused project at the head keeps another one waiting |
| Scheduler.EligibleIsExact | src/autonomy/scheduler.ts:52-63 | Exactly the oldest candidates of projects neither paused nor held are eligible |
| Scheduler.SelectionIgnoresOrder | src/autonomy/scheduler.ts:52-64 | The selection does not depend on the order of its input |
| Scheduler.WindowIsExact | src/autonomy/scheduler.ts:114-125 | A window selects what the list selects exactly when it leaves room or nothing lies beyond |
| Scheduler.ResourceKeyIsInjective | src/autonomy/models.ts:59-61 | Different projects have different resource keys |
| Scheduler.Select | src/autonomy/scheduler.ts:41-64 | The loop selects the specified candidates or refuses the slot count |
| Scheduler.TickByCause | src/autonomy/scheduler.ts:88-129 | A tick refuses a limit outside 1 to 8, admits nothing while no slot is free or the pause list is unreadable, and otherwise admits, within the free slots and one per project, queued candidates that are the oldest of projects neither paused nor held, oldest first |
| Scheduler.SelectionIsBounded | src/autonomy/scheduler.ts:36-64 | The selection is refused exactly outside 0 to 8 slots, and otherwise is as many of the eligible candidates as there are slots |
| Scheduler.RunTick | src/autonomy/scheduler.ts:107-129 | The method that reads the two limits and the pause list computes the tick |
| Reclaim.DeletedIsCheckedOutNowhere | src/autonomy/workspace-reclaim.ts:155-179 | With distinct paths no deleted branch is checked out in any worktree left standing, those the cap held back included |
| Reclaim.BranchesAreSafeExactly | src/autonomy/workspace-reclaim.ts:155-179 | For given worktrees and limits, no choice of branches and verdicts deletes the branch of a worktree left standing, exactly when the cap is zero or every held-back worktree's branch is protected, or is that of a blocked worktree or of the first by age on some held-back path |
| Reclaim.HoldsExactly | src/autonomy/workspace-reclaim.ts:155-169 | The branches the planner holds back are exactly those of blocked worktrees and of the first worktree by age on each held-back path |
| Reclaim.DeletableExactly | src/autonomy/workspace-reclaim.ts:104-119 | When exactly a branch may be deleted |
| Reclaim.DeletedIsLanded | src/autonomy/workspace-reclaim.ts:104-119 | A deleted branch is unprotected, and landed unless it has an inherited name and no verdict |
| Reclaim.InheritedNameIsDeleted | src/autonomy/workspace-reclaim.ts:114-118 | A concrete branch name that is deleted without a verdict |
| BranchLanding.VerdictIsExact | src/autonomy/branch-landing.ts:65-101 | A branch counts as landed exactly on a positive proof, outstanding exactly on a negative one, and otherwise is left open for the doubt that stands in the way |
| BranchLanding.ObjectIdExactly | src/autonomy/branch-landing.ts:56-63 | An object id is read exactly from a successful command that shows seven to sixty-four hexadecimal digits alone on the first line of its trimmed output |
| WorkspaceSweep.DeletedIsProvedLanded | src/services/workspace-housekeeping-service.ts:183-210 | Every branch a sweep deletes is unprotected and was probed to the end with a positive proof of landing, by reachability or tree equality; a probe that throws keeps its branch |
| WorkspaceSweep.DeletedBranchIsCheckedOutNowhere | src/services/workspace-housekeeping-service.ts:212-256 | Whichever commands fail while the plan is carried out, each worktree that had a deleted branch checked out is gone, with its uncommitted work saved first |
| WorkspaceSweep.RemovedIsSaved | src/services/workspace-housekeeping-service.ts:221-241 | A worktree a sweep removes was planned and free to go, and its uncommitted work, if any, is saved |
| WorkspaceSweep.SweptIsUnguarded | src/services/workspace-housekeeping-service.ts:183-256 | Nothing a sweep removes is a protected root or lies below one: not the project's own checkout, nor anything in it |
| WorkspaceSweep.SweepTakesExactly | src/services/workspace-housekeeping-service.ts:183-210 | A sweep plans for at most twenty worktrees, and when no more are free to go for each of them: unguarded, stopped, and idle for a day |
| WorkspaceSweep.ThrownProbeIsReported | src/services/workspace-housekeeping-service.ts:183-210 | A branch whose probe threw stays, and the report gives the probe as the reason unless a worktree holds it |
| WorkspaceSweep.PlanFor | src/services/workspace-housekeeping-service.ts:183-210 | The loop that probes branch by branch makes the specified plan |
| WorkspaceSweep.Apply | src/services/workspace-housekeeping-service.ts:212-256 | The two loops remove and delete exactly as specified, past any command that fails |
| Reclaim.PreservedByCause | src/autonomy/workspace-reclaim.ts:87-189 | The plan preserves exactly the worktrees and branches that have a reason, each for that reason, in the order the reasons are tried |
| Reclaim.RemovedIsUnguarded | src/autonomy/workspace-reclaim.ts:87-100 | No path the plan removes is a protected root or lies below one, and each was observed, stopped and idle long enough |
| Reclaim.BlockedByCause | src/autonomy/workspace-reclaim.ts:91-102 | A worktree is free to go exactly when its path is neither a protected root nor below one, its thread has stopped or never was, and it has been idle long enough; a path that merely begins like a root is not protected |
| Reclaim.UncappedRemovesExactly | src/autonomy/workspace-reclaim.ts:142-156 | With no cap in the way the plan removes exactly the unguarded, stopped and idle worktrees |
| Reclaim.RemovedAreOldest | src/autonomy/workspace-reclaim.ts:138-161 | Nothing removed is younger than anything the cap held back |
| Reclaim.EveryWorktreeAccountedFor | src/autonomy/workspace-reclaim.ts:140-165 | Every observed worktree is removed or preserved with a reason, exactly once |
| Reclaim.EveryBranchAccountedFor | src/autonomy/workspace-reclaim.ts:171-184 | Every branch is deleted or preserved with a reason, exactly once |
| Reclaim.CapIsHonest | src/autonomy/workspace-reclaim.ts:158-189 | Both lists are within the cap, and the plan says truncated exactly when the cap held something back |
| Reclaim.RunsDrain | src/autonomy/workspace-reclaim.ts:158-161 | Repeated runs with cap k over frozen observations take k removable worktrees each until none is left |
| Reclaim.PlanWorkspaceReclaim | src/autonomy/workspace-reclaim.ts:121-189 | The loops make the specified plan |
| Terminal.ReturnedMeansClosed | src/bb/terminal-command.ts:485-557 | In every ordering of events, once a result has been returned the session that was opened has been closed exactly once, exactly when its id is not empty |
| Terminal.ClosedAtMostOnce | src/bb/terminal-command.ts:505-511 | At most one session is opened, and it is closed at most once |
| Terminal.LateSessionIsClosed | src/bb/terminal-command.ts:512-520 | A session that arrives after the caller was told is closed on arrival and changes nothing else |
| Terminal.ResultIsFinal | src/bb/terminal-command.ts:253-295 | A returned result never changes |
| Terminal.ResultHasCause | src/bb/terminal-command.ts:297-403 | A result says timed out, aborted or exited only for a cause of that kind: the clock, the signal, the exit marker in the run's own output as it then stands, or a status read as exited with that output; and it reports the truncation of that output |
| Terminal.OutputIsSuffix | src/bb/terminal-command.ts:174-186 | The output kept is always the last bytes of what was streamed, and says when something was cut |
| Terminal.ThrowIsExact | src/bb/terminal-command.ts:485-557 | Every run that throws does so at one event and stays as that left it: its session is closed exactly when the command had exited before its input was sent and the id is not empty, open after an observer throw or a refused call, and absent after a refused creation |
| Terminal.StepFollowsScript | src/bb/terminal-command.ts:297-557 | Every event takes a waiting run where its script leads, wait by wait and reply by reply, and the output kept is what its chunks bring |
| Terminal.StartByCause | src/bb/terminal-command.ts:485-500 | Before anything is opened only the signal and the deadline decide |
| Terminal.AppendKeepsSuffix | src/bb/terminal-command.ts:174-186 | Appending in bounded steps is bounding once |
| TerminalRunner.TerminalRun.Resolve | src/bb/terminal-command.ts:338-402 | A reply takes the specified step, in place |
| TerminalRunner.TerminalRun.SessionCreated | src/bb/terminal-command.ts:512-525 | The session of a run that has already returned is closed as soon as it is there |
| TerminalRunner.TerminalRun.CloseOnce | src/bb/terminal-command.ts:507-511 | Closes once, and only a session with an id |
| TerminalRunner.TerminalRun.constructor | src/bb/terminal-command.ts:485-521 | The checks before the first wait |
| BundleIntegrity.CollectFiles | src/agent-skills/bundle-integrity.js:200-221 | Ends on every file system, even an infinite one; succeeds exactly when the tree fits every limit, and then returns every regular file under the roots exactly once, sorted; every refusal names something under the roots that is in the way, or too many of them |
| BundleIntegrity.VerifyFiles | src/agent-skills/bundle-integrity.js:223-249 | Accepts exactly when every record holds, the records strictly increase, and they name the actual files and no others; a refusal is for the first record that does not hold |
| BundleIntegrity.VerifyBundle | src/agent-skills/bundle-integrity.js:538-543 | Accepts exactly when the tree fits and the lock names every regular file under the roots, each with its digest |
| BundleStanding.AcceptedExactly | src/agent-skills/bundle-integrity.js:178-249 | What is accepted is exactly a bundle with at most 640 entries no deeper than 32 levels and 512 files of at most 256 KiB, whose lock names each file once and in order by a relative path of plain names below a root, with the digest of what it holds |
| BundleStanding.FaultByCause | src/agent-skills/bundle-integrity.js:223-240 | Behind records that hold a record is refused for the first of its faults: malformed, not relative, outside, unsupported, no digest, repeated, out of order, unreadable or changed |
| BundleIntegrity.Traversal.AddTreeEntry | src/agent-skills/bundle-integrity.js:178-183 | Depth and budget are checked before the stack grows |
| BundleIntegrity.Traversal.AddDirectoryChildren | src/agent-skills/bundle-integrity.js:185-198 | An endless directory ends with the budget; twice the budget left plus the stack never goes up |
| BundleWalk.WalkIsComplete | src/agent-skills/bundle-integrity.js:207-219 | When the stack is empty everything under the roots has been read |
| BundleWalk.NextIsNew | src/agent-skills/bundle-integrity.js:188-194 | No path is added twice |
| BundleWalk.TooManyEntries | src/agent-skills/bundle-integrity.js:181 | Running out of budget means the tree does not fit |
| Pagination.ListWatchable | src/plugin.ts:1590-1628 | Ends for every list, and returns exactly the requested slice of the filtered list |
| Pagination.RowsAreListed | src/plugin.ts:1603-1619 | The filtered list has a row for exactly the threads that are still there and visible or titled like a worker's, in their order, each with its own columns |
| Pagination.PagesTile | src/plugin.ts:1591-1594 | Consecutive pages tile the filtered list: nothing is lost and nothing comes twice |
| Pagination.EnoughPagesAreAll | src/plugin.ts:1591-1594 | Enough pages are the whole filtered list |

## Left out

- TLS, HTTP and socket servers, the 1Password and provider adapters, systemd credentials: I/O. The answer of an adapter or executor is an input of the step that receives it.
- SQLite itself: tables are maps, a transaction is one step, and the key, UNIQUE, foreign-key and CHECK constraints that can fail are written out. The rows a SELECT returns and the identifiers drawn are parameters of the recovery methods; `SelectionExists` shows there always are such rows.
- Administration event tables, `created_at` and `updated_at` columns, the descriptive columns of bindings (provider, risk, approval and MFA modes), and file modes: nothing modelled reads them.
- Real AES-GCM, SHA-256, HMAC and UUIDs: ideal sealed terms, injective digests, identifiers as inputs. Keys are present; a missing data key is not modelled.
- Length and character rules of identifiers, labels and digests in the protocol parsers, except where they decide something modelled. A stored response that no longer parses is not modelled: the invariants keep every stored response valid.
- Numbers are unbounded integers; fractional and unsafe numbers, and a negative cap in the reclaim planner, are not modelled.
- FoundationRuns.HealthIsRecorded: does not model the order of the listing by binding id; any order of the installation's bindings is allowed.
- The Unicode beyond what decides a comparison with an ASCII constant: lower-casing maps the ASCII letters and the Kelvin sign. Text is single-byte where the terminal runner counts bytes; a UTF-8 sequence cut at the byte cap is not modelled.
- JSON.parse: a parameter of `JsonSpan.ParseCommandJson`, None being its exception. Literals of the grammar are digits, points, exponents and signs in any order after the first digit, a superset of RFC 8259. ANSI stripping comes before the model starts.
- The shell beyond literal words: expansions, operators, globs, comments and line breaks make the lexer stuck. Of the command envelope only the assignment is modelled.
- Terminal.ResultHasCause: does not model the searches for the result and ready markers; they are functions of the output handed to the run.
- The argument checks at the start of a terminal run (timeout, output and stdin limits), which throw before anything is opened.
- `tryAdmit` and the job state machine behind it: a tick is modelled up to the candidates it goes on to admit. Pause records are a set or unreadable.
- `localeCompare`: an abstract order the lock is checked against. Symbolic links and escapes from the plugin root are what the status of a path says.
- The rest of the workspace sweep (arming, several projects, the notification, how worktrees are observed), thread status classification, stall, disk and crash-revert deciders: short branches that would only add easy members. Branch probes answer by branch name, once each.
- A branch called `__proto__`: writing its verdict sets the prototype of the verdict table, which the model keeps as an ordinary entry.
- The rest of `src/plugin.ts` and `src/cli.ts`, prompts, handoff prose, Telegram, capability catalogues: configuration and strings.
