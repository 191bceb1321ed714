# Mandate: a verified model of the authorization control plane

Mandate lets a principal delegate bounded authority to agents: an action is authorized against a principal's ledger,
its worst case is reserved on every limit above it, and only then may an adapter be given something it can execute.
These Dafny modules model the deterministic parts of that path and prove what each step keeps, what holds over every
run, and which transformations preserve meaning.

| part | modules |
|---|---|
| shared values, amounts | `Common`, `Core`, `Decimals`, `FixedPoint` |
| the authority ledger and its reducer | `Ledger`, `Charges`, `Movement`, `LedgerInvariant`, `LedgerAccounting`, `LedgerReserve`, `LedgerSafety` |
| exactly when each event is accepted, and what revocation ends | `Lineages`, `Revocations`, `Acceptance`, `Charging` |
| state requirements, needs, bindings | `StateAdmission`, `StateNeeds`, `NeedOrder`, `StateBindings`, `Admissibility` |
| decisions, records, revalidation, pre-execution checks | `Decisions`, `DecisionMeaning`, `PreExecution` |
| the control engine and its concurrent callers | `Engine`, `Concurrency` |
| the cross-module aggregate and the pending set | `Aggregate`, `AggregateMeaning`, `AggregateSafety`, `AggregateOrder`, `AggregateCodec`, `AggregateLayout`, `AggregateExact`, `Pending` |
| Core Canonical Encoding, and its bytes written out | `Canonical`, `Codec`, `CodecSets`, `Reader`, `Wire`, `Objects`, `Layout`, `WireRules` |
| calldata and transactions | `Abi`, `AbiWriter`, `Rlp` |
| the gate: prices, artifacts, custody, issuance, recovery | `Market`, `Gate`, `GateMeaning`, `Issuance`, `IssuanceSafety`, `IssuanceHistory`, `IssuanceRun` |

Digests are modelled by their preimages, so a digest determines what it was computed from. Concurrency is modelled as
state machines whose steps interleave freely: `Concurrency` for engine calls over a compare-and-swap ledger,
`IssuanceSafety` for issuing calls, other ledger writers, crashes and recoveries over one ledger and one journal.
Code that changes state step by step is a class or a method with loops, proved against a function; the laws are lemmas
about that function. Modules of the decision pipeline that are plugged in (domain modules, adapters, catalogs, the
semantic rules of the reducer) are functions in `Decisions.Env` and `Ledger.Rules` about which nothing is assumed.

## What the proofs found

- **Re-encoding fails on a byte-order mark.** The encoding promises that re-encoding an accepted input gives the input
  back (packages/core/src/encoding.ts:22-24). The text decoder drops one leading byte-order mark per string
  (packages/kernel/src/encoding/reader.ts:13, 84-97), so every grant has a further accepted spelling
  (`Objects.SecondSpelling`). `Objects.EncodeDecode` gives the exact condition: the law holds exactly when no mark was
  dropped, and the input is always three bytes longer per dropped mark. The adapter's ABI string reader has the same
  decoder and the same exception (`Abi.StringRecovered`).
- **Aggregate parameters can name a contributor twice.** Parameters are documented as duplicate-free
  (packages/control/src/aggregate.ts:124), but the decoded list is not made canonical again, so a marked spelling of a
  contributor passes beside the plain one: up to order, every list that names each contributor at most twice has
  accepted bytes (`AggregateCodec.TwiceNamedDecodes`). Two promises then need a condition, and both are exact over all
  bytes the decoder accepts, all assets and all participants the pipeline can pass:
  - the comparator's "no weaker" implies the semantic order exactly for parents with distinct contributors, or of a kind
    and unit no quantity of which names a canonical asset, or unsigned with a zero limit
    (`AggregateExact.ComparatorSoundExactlyWhenOrderable`); the failing child has plain bytes and no repetition;
  - a holding aggregate bounds the exact total of all matching facts, each once, exactly when the kind is unsigned, or
    again never names a canonical asset, or every contributor is named equally often
    (`AggregateExact.ClosedExactlyWhenCounted`). A contributor named twice beside one named once has accepted bytes
    (`AggregateExact.UnevenListDecodes`), and for such parameters no set of pending reservations helps
    (`Pending.ConsultingEveryoneIsNotEnough`).
- **Tightening is idempotent only for declared levels.** Combining a requirement with itself is refused when its
  finality level is on no ladder; `StateAdmission.TightenIdempotent` is the exact condition.
- **A submission does not look at the journal's answer.** If recovery settles an attempt between its call's first record
  and its hand-over to the chain, the call still broadcasts, and the record says for good that the outcome is unknown
  (`IssuanceSafety.RecoveryInFlight`). `IssuanceSafety.SafeToRecoverExactly` is the exact condition: recovering an
  attempt is safe, however the run goes on, when it changes nothing or no live call is in that stretch, and only then.
  `IssuanceRun.SomeRunSendsUnknown` is a run from the empty ledger that gets there.
- **The artifact check does not read the name and version of the signing domain.** `Gate.CheckIsExact` says that this
  is all it leaves open, and `Issuance.CustodySignsOne` that it is all two signatures over one attempt could differ in,
  whoever asked for them. The issuing calls never ask twice (`IssuanceSafety.OneMandatePerGeneration`).
- **The length bound of a lineage is never the reason a delegation is refused** (`LedgerSafety.LengthBoundUnreachable`):
  the depth that delegation rights allow runs out first.

## Model

| member | source | states |
|---|---|---|
| LedgerSafety.ReplayKeeps | packages/ledger/src/reducer.ts:496-534 | Every accepted history, under any reducer rules, leaves a ledger satisfying the whole invariant (nodes, targets, sums, epochs, limits, actions, attempts) |
| LedgerSafety.CapacityIsConserved | packages/ledger/src/charging.ts:147-178 | In every reachable state each balance is the sum of the reservations' own records and no granted limit is exceeded, whatever its restoration rule |
| LedgerSafety.DemandsAreConserved | packages/ledger/src/reducer.ts:385-455 | On every demand of every reservation ever made, reserved = consumed + released + outstanding, all non-negative |
| LedgerSafety.ReservationFitsEveryTarget | packages/ledger/src/reducer.ts:304-350 | At its commit a reservation fits what was available on every target it charges, the principal policy's included |
| LedgerSafety.PathIsExact | packages/ledger/src/charging.ts:104-136 | In every reachable ledger a contribution can be charged exactly when every dimension it falls under, of every grant on its lineage and of the policy, is unsigned, states its amount exactly and has begun its window, and, if required, some grant bounds it; its legs are then one for each such dimension, grant by grant from the leaf and the policy last, with the exact amount in the right window, no target twice |
| LedgerReserve.DemandMapSums | packages/ledger/src/charging.ts:147-178 | What is checked for availability at a target is the sum of every leg of the plan there |
| LedgerReserve.NewReservationWithin | packages/ledger/src/state.ts:250-282 | A demand within what is available keeps the target within its limit for all four restoration rules, past and future epochs included |
| LedgerAccounting.MovesShrink | packages/ledger/src/reducer.ts:385-455 | No accounting event increases what a target is charged for, nor lowers what was restored to it |
| LedgerSafety.CloseNeverRefuses | packages/ledger/src/reducer.ts:413-432 | Whatever was consumed, an active reservation can be closed by exactly its remainder |
| LedgerSafety.CloseReleases | packages/ledger/src/reducer.ts:413-432 | A close leaves the reservation closed and everything not consumed released, and changes nothing else |
| LedgerSafety.CloseUndoesReserve | packages/ledger/src/reducer.ts:304-432 | Reserving and then closing without consumption leaves every balance as it was |
| LedgerSafety.LengthBoundUnreachable | packages/ledger/src/graph.ts:27-65 | A lineage that may still delegate is shorter than the absolute length bound |
| Lineages.UsableExactly | packages/ledger/src/graph.ts:59-88 | A path to the root is valid at a time exactly when every grant on it names the principal, is not revoked, has begun and is not over, each child names its parent and that parent's holder as issuer, the root's issuer is the principal, and every delegation right above reaches that far down |
| Lineages.AuthorityExactly | packages/ledger/src/graph.ts:27-88 | A grant may be acted under exactly when a policy is registered and its path to the root is such a path |
| Revocations.RevokedForGood | packages/ledger/src/reducer.ts:215-222 | Over every accepted history: after a revocation, no later reservation, delegation or attempt is accepted under the revoked grant or any grant below it |
| Revocations.NoAttemptUnderRevoked | packages/ledger/src/attempt.ts:243-280 | The same for an attempt, traced to the event that made its reservation, whether it came before or after the revocation |
| Revocations.DescendantsAreWithin | packages/ledger/src/graph.ts:98-126 | In every reachable ledger a grant's window lies within that of every grant it descends from, all of them registered |
| Acceptance.PolicyExactly | packages/ledger/src/reducer.ts:117-182 | Exactly when a policy is accepted, a new one after any reservation bringing no unknown dimension; it changes the policy and the principal-wide targets alone, retiring, keeping or creating each |
| Acceptance.GrantExactly | packages/ledger/src/graph.ts:90-126 | Exactly when a grant is accepted: new, the principal's, not over, and if delegated within a usable parent's window and depth and issued by its holder; it adds one node and its targets |
| Acceptance.RevokeExactly | packages/ledger/src/graph.ts:128-147 | Exactly when a revocation is accepted: effective now, nothing on the path revoked, and by whoever issued the grant or one above it; it changes that node alone |
| Charging.AvailableIs | packages/ledger/src/state.ts:250-282 | What is available at a target, as its limit less the sums of the reservations' own records: held, used, given back, or used in the current window |
| Charging.ReserveExactly | packages/ledger/src/reducer.ts:304-350 | A reservation is accepted exactly when its plan may be charged along a usable path, it states exactly the legs of that path and every target has room; it opens that generation, writes that record and holds those amounts, and changes nothing else |
| Charging.AccountExactly | packages/ledger/src/reducer.ts:352-455 | An accounting entry is accepted exactly when its amounts may be taken from what is held (the whole rest for a close) or given back to what was used; it moves those amounts in the record and at every target, and nothing else |
| Charging.AttemptExactly | packages/ledger/src/attempt.ts:214-280 | Exactly when an attempt is accepted: the first of an open reservation whose terms it restates, a new artifact and slot, not over, under a path that is usable now; it writes that attempt alone |
| LedgerSafety.AttemptsAreUnique | packages/ledger/src/attempt.ts:243-280 | Over a principal's whole history there is one attempt per reservation, per artifact and per venue slot |
| LedgerSafety.OneOpenGeneration | packages/ledger/src/reducer.ts:240-263 | At most one generation of an action is open, and it is the latest |
| LedgerSafety.HeadDeterminesHistory | packages/ledger/src/events.ts:284-298 | Two accepted histories with one head are the same history |
| Engine.LedgerStore.CompareAndAppend | packages/ledger/src/memory-store.ts:88-114 | Appends one batch atomically when version and head are the caller's and the reducer accepts; otherwise changes nothing and says which |
| Engine.SameHeadSameState | packages/ledger/src/memory-store.ts:88-114 | A compare-and-swap that is not a conflict meets exactly the state that was read, because heads never recur |
| Engine.ControlEngine.Retry | packages/control/src/engine.ts:231-261 | Over any schedule of other callers, an appended event was computed from the very state it was applied to; a conflict wrote nothing |
| Engine.ControlEngine.AuthorizeAndReserve | packages/control/src/engine.ts:231-261 | AUTHORIZED wrote exactly the RESERVE decided from the state before it, everything the decision needs held there, and the record says field by field what was decided; undisturbed, it is authorized whenever all that holds; every other outcome wrote nothing |
| Engine.AuthorizesExactly | packages/control/src/engine.ts:231-261 | A reservation is proposed exactly when the decision's conditions hold and its adapter is usable |
| Engine.ControlEngine.CloseNeverIssued | packages/control/src/engine.ts:278-342 | CLOSED released everything held by a reservation never attempted and never consumed whose revalidation failed at that very state; AUTHORIZATION_STILL_VALID says that it passed there and wrote nothing; undisturbed, a passing revalidation is always refused so and a failing one always closes when the ledger's clock and version allow |
| Engine.ClosesExactly | packages/control/src/engine.ts:278-342 | The close of one snapshot, as an equivalence: proposed exactly for a reservation never used whose revalidation fails, refused as still valid exactly when it passes |
| Engine.ControlEngine.AdmitAttempt | packages/control/src/engine.ts:346-402 | ADMITTED wrote the reservation's first and only attempt, with the record's terms, the request's artifact and slot and the digest of exactly the findings it rests on, revalidated at that very state; undisturbed, an attempt that may be admitted is; otherwise nothing was written |
| Engine.AdmitsExactly | packages/control/src/engine.ts:346-402 | An attempt is proposed exactly when none exists, the adapter is the authorization's and usable, the module may issue, the revalidation passes, the artifact ends within it, every requirement is met, and the ledger accepts it |
| Engine.ControlEngine.Register | packages/control/src/engine.ts:436-472 | REGISTERED wrote exactly the registration derived from the state it was applied to |
| Engine.RecordExists | packages/control/src/engine.ts:246-251 | After the decision's own commit the record can always be built, over every reachable ledger |
| Concurrency.RunsAreSerial | packages/control/src/engine.ts:231-402 | In every interleaving of any number of calls, the log is that of the committed calls run atomically in commit order, each once, each event computed from the state immediately before it |
| Concurrency.NeverBoth | packages/control/src/engine.ts:278-402 | No reservation generation has both a NEVER_ISSUED close and an admitted attempt, and none has two attempts |
| Concurrency.ConcurrentNeverBoth | packages/control/src/engine.ts:278-402 | The same in every state of every interleaving of engine calls |
| Concurrency.CommittedCloseIsFinal | packages/control/src/engine.ts:278-342 | In every interleaving of engine calls, once a close has committed, repeating it with any request at any later time writes nothing |
| Concurrency.CloseIsIdempotent | packages/control/src/engine.ts:278-342 | In any state that satisfies the ledger's invariant, right after its own commit a close has nothing left to write |
| Concurrency.ClosedForGood | packages/control/src/engine.ts:278-342 | Over every guarded history with a never-issued close, whatever came after it, closing that reservation again is already done |
| Concurrency.EngineCallsAreGuarded | packages/control/src/engine.ts:231-472 | Authorizing, closing, admitting and registering, under any configuration, only write never-issued closes of active, unconsumed reservations without an attempt |
| Concurrency.AttemptWithinAuthorization | packages/control/src/engine.ts:363-395 | attempt end <= revalidated end <= record end, the attempt is not over when admitted, and it names this record's reservation, artifact and slot |
| Concurrency.AttemptWithinDecision | packages/control/src/pipeline.ts:447-466 | No attempt outlives its action, any grant of its lineage, or any bounded state binding of its decision |
| Decisions.DecisionEvent | packages/control/src/pipeline.ts:506-616 | A decision's event is the RESERVE derived from its own snapshot, and the reducer accepts it there |
| DecisionMeaning.DecidesExactly | packages/control/src/pipeline.ts:506-616 | A decision is reached exactly when the request is in time and the action's own, the actor holds a usable grant, every need is met by its one snapshot, every invariant holds and the reservation is acceptable; it says exactly that, until the first of its ends |
| DecisionMeaning.StatesMeet | packages/control/src/admission.ts:324-369 | Every admitted snapshot is the one answer to its need, of the trust class configured for its source, and meets the need now |
| DecisionMeaning.RecordIs | packages/control/src/authorization.ts:140-193 | Every field of an authorization record, from the decision and its commit |
| Decisions.DecisionLifetime | packages/control/src/pipeline.ts:447-466 | A decision ends after now and not after its action, any grant on its lineage, or any binding's end |
| Decisions.AdmissionsWellFormed | packages/control/src/authorization.ts:140-193 | Admitted snapshots are pairwise different and within the binding bound, which the record requires |
| Decisions.RecordFollowsCommit | packages/control/src/authorization.ts:140-193 | After the decision's commit its authorization record always exists, so a refusal means an unchanged ledger |
| Decisions.RevalidationBounds | packages/control/src/revalidation.ts:115-186 | Revalidation never extends a lifetime, refreshes whenever a recheck is due, and a passed one rests on an active reservation and a valid lineage |
| Decisions.RevalidationFails | packages/control/src/revalidation.ts:115-186 | An ended record or an invalid lineage can only fail |
| DecisionMeaning.RevalidatesExactly | packages/control/src/revalidation.ts:101-187 | A revalidation passes exactly when the authorization still stands and either no binding asks for a recheck and every one re-admits now under its own module, or fresh state is admitted and the invariants hold; it says which, with the bindings and end that follow |
| StateAdmission.TightenAgrees | packages/control/src/admission.ts:121-155 | An observation passes the combined requirement and the common sources exactly when it passes each alone |
| StateAdmission.TightenStaysValid | packages/control/src/admission.ts:121-155 | On valid inputs the closing re-validation never fails |
| StateAdmission.TightenCommutes | packages/control/src/admission.ts:121-155 | Commutative as a partial operation, in success and in result |
| StateAdmission.TightenAssociates | packages/control/src/admission.ts:121-155 | Associative as a partial operation |
| StateAdmission.TightenIdempotent | packages/control/src/admission.ts:121-155 | Idempotent exactly on valid requirements whose level is declared |
| Admissibility.TightenExactly | packages/control/src/admission.ts:121-155 | The combination of two valid requirements, part by part, and exactly when there is one |
| Admissibility.AssessExactly | packages/control/src/admission.ts:257-307 | An observation is admissible exactly when its source is configured for it and of the class it claims, admitted and trusted enough, not from the future nor over, fresh, and final enough on its ladder |
| Admissibility.AdmitsExactly | packages/control/src/admission.ts:324-347 | A need is admitted exactly on the one supplied snapshot of its module, kind and subject, whose payload is the one digested, when that snapshot meets it |
| StateAdmission.FoldNeedsDeclaredLevels | packages/control/src/admission.ts:161-184 | A fold over at least one requirement succeeds only when every level is declared, and all on one ladder |
| StateAdmission.FoldAgrees | packages/control/src/admission.ts:161-184 | A folded requirement admits exactly what each of its parts admits |
| StateAdmission.FoldIgnoresOrder | packages/control/src/admission.ts:161-184 | Folding requirements in any order succeeds or fails alike, with one result |
| StateNeeds.ApplyPolicies | packages/control/src/admission.ts:162-184 | The loop over policies computes the effective need |
| StateNeeds.EffectiveNeedAgrees | packages/control/src/admission.ts:162-184 | An observation passes the effective need exactly when it passes the need and every applicable policy |
| StateNeeds.MergeAll | packages/control/src/admission.ts:186-200 | The loop over needs computes the merged list, and stops at the first refusal |
| StateNeeds.MergeAgrees | packages/control/src/admission.ts:186-200 | An observation passes a merged need exactly when it passes every need of its key |
| NeedOrder.MergeIgnoresOrder | packages/control/src/admission.ts:186-200 | Every ordering of the needs merges to the same list, or none merges |
| StateBindings.AdmitNeeds | packages/control/src/admission.ts:349-369 | Every need is asked even after one failed, and the first failure is the refusal |
| StateBindings.AdmissionsDiffer | packages/control/src/admission.ts:324-369 | Needs with different subjects are met by different snapshots |
| StateBindings.BindingLifetime | packages/control/src/pipeline.ts:454-466 | The loop computes the earliest end of its bounded bindings |
| StateBindings.AuthorizationLifetimeIsGlb | packages/control/src/pipeline.ts:447-466 | The lifetime is the greatest lower bound of all its dependencies |
| StateBindings.ReadmitsExactly | packages/control/src/admission.ts:371-391 | With an unchanged source a bounded binding re-admits exactly up to its age, inclusive, and its declared validity, exclusive |
| StateBindings.LifetimeReadmits | packages/control/src/admission.ts:371-391 | Within the computed lifetime every bounded binding re-admits |
| PreExecution.CheckPreExecution | packages/control/src/preexecution.ts:126-163 | The three passes succeed exactly when supplied results are well-formed, adapter-evaluated and distinct, required keys are distinct and equal control plus supplied, and all pass |
| PreExecution.CheckedIsSorted | packages/control/src/preexecution.ts:86-92 | The output is strictly sorted and holds exactly the findings |
| PreExecution.CheckedInOrder | packages/control/src/preexecution.ts:36-92 | Accepted findings come out by kind in the order of the vocabulary, and by subject within one kind |
| PreExecution.FindingsTell | packages/control/src/preexecution.ts:80-100 | The digest an attempt commits to fixes every finding: kind, subject, outcome, reason and evidence |
| PreExecution.CheckedIgnoresOrder | packages/control/src/preexecution.ts:86-163 | Every permutation of requirements and results gives the same output |
| Aggregate.ScanValuations | packages/control/src/aggregate.ts:298-319 | The nested loops find the first valuation fault, or none: one context for all marked facts, no mixture of bases |
| AggregateMeaning.ScopeExactly | packages/control/src/aggregate.ts:257-272 | The scope check passes exactly when no consulted module outside the contributors has a matching fact and every contributor and active module was consulted; its codes name which fails |
| AggregateMeaning.ValuationsExactly | packages/control/src/aggregate.ts:286-319 | The valuation check passes exactly when every marked matching fact of a contributor cites an admitted snapshot of the aggregate's own asset taken at the valuation's time, any two share source, sequence, time and price, and all or none are marked |
| AggregateMeaning.EvaluatesExactly | packages/control/src/aggregate.ts:321-368 | An aggregate is UNKNOWN exactly when one of these checks fails, and otherwise HOLDS exactly when the contributors' exact total is within the limit, which it states |
| Aggregate.SumContributors | packages/control/src/aggregate.ts:321-343 | The loops compute the sum at the finest scale and its verdict |
| Aggregate.VerdictIsExact | packages/control/src/aggregate.ts:321-343 | The verdict compares exact rational totals, whatever scale the sum was carried at |
| Aggregate.CompareReflexive | packages/control/src/aggregate.ts:370-382 | A term is no weaker than itself |
| Aggregate.CompareTransitive | packages/control/src/aggregate.ts:370-382 | No weaker than no weaker is no weaker, along a delegation chain |
| Aggregate.ParentTotalBounded | packages/control/src/aggregate.ts:370-382 | When the comparator accepts and the child's exact total is within its limit, so is the parent's |
| AggregateMeaning.ComparesExactly | packages/control/src/aggregate.ts:370-382 | Each of the comparator's three answers, exactly: the measure, the contributors counted, how many a signed kind names, and the exact limits |
| AggregateExact.ComparatorSoundExactlyWhenOrderable | packages/control/src/aggregate.ts:151-382 | Over all parameter bytes, for every asset: for all accepted children and all proper participants the parent of a holding child holds or is UNKNOWN for an undeclared contributor, never VIOLATED, exactly when the parent's contributors are distinct, its kind and unit name no canonical asset, or it is unsigned with limit zero |
| AggregateExact.UnsignedRepeatBreaks | packages/control/src/aggregate.ts:151-180 | A repeated contributor of an unsigned parent with a positive limit: plain bytes of a child and proper participants for which the child holds and the parent is violated |
| AggregateExact.SignedRepeatBreaks | packages/control/src/aggregate.ts:151-180 | The same for every signed parent with a repeated contributor |
| AggregateSafety.HoldsBoundsEverything | packages/control/src/aggregate.ts:245-361 | A holding aggregate consulted every active module, and, for unsigned kinds, kinds without canonical assets and evenly named contributors, the exact total of all matching facts of all consulted modules, each once, is within the limit |
| AggregateExact.ClosedExactlyWhenCounted | packages/control/src/aggregate.ts:151-361 | Over all accepted parameter bytes that bound holds for all proper participants exactly under this condition |
| AggregateExact.UnevenBreaks | packages/control/src/aggregate.ts:321-343 | Otherwise: whatever modules are active, proper participants that hold while their exact total is over the limit |
| AggregateExact.UnevenListDecodes | packages/control/src/aggregate.ts:151-180 | For every two contributors there are accepted bytes of a signed aggregate that meet no part of the condition |
| AggregateOrder.EvaluateIgnoresPresentation | packages/control/src/aggregate.ts:245-361 | Participants, the facts within each of them, contributors and active modules in any order, and every fact at any decimals: the same verdict and the same exact rational sum |
| AggregateOrder.EvaluateIgnoresOrder | packages/control/src/aggregate.ts:245-361 | With the facts as they are, even the same reason, scale and sum |
| AggregateOrder.RewrittenTotal | packages/control/src/aggregate.ts:321-343 | Facts in another order and with other decimals have the same exact total |
| AggregateCodec.ParamsRoundTrip | packages/control/src/aggregate.ts:136-180 | Parameters with distinct contributors survive encoding, in canonical order |
| AggregateLayout.ParamsAre | packages/control/src/aggregate.ts:136-149 | The bytes of parameters, written out: tag, version, kind, unit, decimals, limit and the counted contributors, those with lesser bytes first |
| AggregateCodec.PlainParamsAreSound | packages/control/src/aggregate.ts:151-180 | Parameters decoded without a byte-order mark have distinct contributors |
| AggregateCodec.DecodedAreValid | packages/control/src/aggregate.ts:151-180 | Whatever the decoder accepts has a valid unit, decimals and limit in range and one to twelve valid references |
| AggregateCodec.TwiceNamedDecodes | packages/control/src/aggregate.ts:151-180 | Up to order, every list of valid references that names each at most twice has accepted bytes |
| AggregateCodec.RepeatedContributorDecodes | packages/control/src/aggregate.ts:151-180 | For every contributor there are accepted parameter bytes that name it twice |
| Pending.ReservationFacts | packages/control/src/facts.ts:52-61 | One pass returns the facts of all open reservations, or refuses when there are more than the bound |
| Pending.FactsAreOpen | packages/control/src/facts.ts:37-61 | Exactly the open reservations of the listing are facts |
| Pending.FactsState | packages/control/src/facts.ts:37-61 | Each says of its reservation its identity and, demand by demand, the whole contribution and what was consumed |
| Pending.FactsFor | packages/control/src/facts.ts:64-72 | The loop splits facts into a module's own and the foreign ones of its domain |
| Pending.DomainIsAccountedFor | packages/control/src/facts.ts:64-72 | A module sees exactly its own facts and is told of every other open reservation of its domain |
| Pending.JoinParticipants | packages/control/src/pipeline.ts:243-302 | The acting module, every invariant's definition and, for each aggregate, its contributors and all active modules that resolve are asked, each once |
| Pending.ParticipantsDiffer | packages/control/src/pipeline.ts:243-364 | The views of joined modules are views of pairwise different modules |
| Pending.HoldingCoversEveryOpenReservation | packages/control/src/pipeline.ts:281-300 | When an aggregate holds, the module of every open reservation of the ledger was consulted, and, for parameters that count evenly, the total over all of them is within the limit |
| Pending.ConsultingEveryoneIsNotEnough | packages/control/src/pipeline.ts:281-300 | For parameters that do not, over any ledger there are proper participants, those of every open reservation included, that hold and are over the limit |
| Canonical.CompareBytes | packages/core/src/encoding.ts:127-134 | The loop computes lexicographic order: the first differing byte decides, and a proper prefix comes first |
| Canonical.SortInto | packages/core/src/encoding.ts:145-158 | Sorting and the pass over neighbours compute the canonical set |
| Canonical.CanonicalSetIgnoresOrder | packages/core/src/encoding.ts:145-158 | Every permutation gives the same list, or none does |
| Canonical.CanonicalSetRefusesDuplicates | packages/core/src/encoding.ts:145-158 | Refused exactly when two members have one encoding |
| Canonical.AscendingUnique | packages/core/src/encoding.ts:138-158 | A set of encodings has exactly one ascending listing |
| Canonical.TermListIgnoresOrder | packages/core/src/terms.ts:1016-1040 | A validated term list depends only on which terms it has |
| Codec.UIntGood | packages/kernel/src/encoding/reader.ts:54-76 | Fixed-width big-endian integers round-trip in both directions |
| Codec.SIntGood | packages/kernel/src/encoding/reader.ts:78-82 | Two's complement integers round-trip in both directions |
| Codec.TextGood | packages/kernel/src/encoding/reader.ts:84-97 | Length-prefixed text round-trips, and re-encodes but for dropped marks |
| Codec.EnumeratedGood | packages/core/src/encoding.ts:263-278 | Frozen wire codes round-trip, and unknown codes are refused |
| Codec.NullableGood | packages/core/src/encoding.ts:233-238 | A presence flag of exactly 0 or 1 makes absence have one encoding |
| Codec.PairGood | packages/core/src/encoding.ts:171-261 | Sequencing two codecs keeps both laws |
| Codec.ChoiceGood | packages/core/src/terms.ts:913-958 | A variant chosen by wire code keeps both laws |
| Codec.PrefixFree | packages/core/src/encoding.ts:9-14 | No encoding of a codec is a proper prefix of another of the same codec |
| CodecSets.SetOfGood | packages/core/src/encoding.ts:240-256 | Sets read as strictly ascending spans and made canonical again keep both laws |
| Reader.CoreReader.UInt | packages/kernel/src/encoding/reader.ts:54-60 | The shifting loop reads the integer and moves past it, or fails |
| Reader.CoreReader.Elements | packages/core/src/encoding.ts:240-256 | The loop over elements, comparing each span with the one before, reads exactly the ascending list |
| Reader.CoreReader.List | packages/core/src/encoding.ts:240-256 | A bounded count, then the elements |
| Reader.ByteWriter.UInt | packages/kernel/src/encoding/writer.ts:32-43 | Filling the buffer from its low end writes the big-endian integer; out of range writes nothing |
| Reader.ByteWriter.Items | packages/core/src/encoding.ts:116-119 | The loop appends every element's encoding in order |
| Reader.ByteWriter.Str | packages/kernel/src/encoding/writer.ts:74-83 | Text is written behind its length, and more than 1024 bytes write nothing |
| Reader.ByteWriter.Finish | packages/kernel/src/encoding/writer.ts:85-93 | Joining the chunks gives what was written |
| Wire.MembersGood | packages/core/src/terms.ts:237-311 | All seven set vocabularies keep both laws |
| Wire.RequirementGood | packages/core/src/state.ts:294-346 | State requirements keep both laws |
| Layout.RequirementIs | packages/core/src/state.ts:327-346 | The bytes of every valid state requirement, written out |
| WireRules.RequirementRule | packages/core/src/state.ts:294-325 | Exactly which requirements there are |
| Wire.DimensionGood | packages/core/src/terms.ts:624-714 | Ledger dimensions, nullable epoch and scope included, keep both laws |
| Layout.DimensionIs | packages/core/src/terms.ts:689-700 | The bytes of every valid ledger dimension, written out |
| Wire.TermGood | packages/core/src/terms.ts:913-958 | All seven kinds of term keep both laws |
| Layout.TermIs | packages/core/src/terms.ts:913-938 | The bytes of every valid term, written out: its kind's code and its fields in order, every vocabulary code by number |
| WireRules.TermRule | packages/core/src/terms.ts:891-911 | Exactly which terms there are, in plain conditions on every field |
| Objects.DecodeEncode | packages/core/src/encoding.ts:288-313 | decode(encode(x)) = x for every valid object of every type |
| Objects.EncodeDecode | packages/core/src/encoding.ts:22-24 | encode(decode(b)) = b for an accepted b exactly when no byte-order mark was dropped; always when the bytes of one occur nowhere in b |
| Objects.SecondSpelling | packages/core/src/encoding.ts:22-24 | Every valid object of every type has a further accepted spelling, with a mark before its tag |
| Objects.NoPrefixWithinType | packages/core/src/encoding.ts:9-14 | No encoding of an object is the start of another object's of its type |
| Objects.NoPrefixAcrossTypes | packages/core/src/encoding.ts:9-14 | Nor of another type's: different tags never share a hash preimage |
| Objects.GrantRoundTrips | packages/core/src/authority.ts:179-203 | Every valid grant decodes from its encoding |
| Layout.GrantIs | packages/core/src/authority.ts:166-203 | The bytes of every valid grant, written out: tag, version, lineage code, parent if delegated, issuer, principal, holder, the two times, counted terms, nonce; and they decode to that grant |
| WireRules.GrantRule | packages/core/src/authority.ts:118-164 | Exactly which grants there are, in plain conditions on every field |
| WireRules.AcceptedGrant | packages/core/src/authority.ts:190-203 | Whatever is accepted is such a grant, and, unless a mark was dropped, its bytes are its layout |
| Objects.GrantReencodes | packages/core/src/authority.ts:190-203 | An accepted grant is valid and re-encodes to its input exactly when no mark was dropped |
| Objects.GrantHasSecondSpelling | packages/core/src/authority.ts:201-207 | Every valid grant is decoded from some bytes other than its encoding |
| Objects.PolicyRoundTrips | packages/core/src/authority.ts:285-305 | Every valid principal policy decodes from its encoding |
| Layout.PolicyIs | packages/core/src/authority.ts:285-305 | The bytes of every valid principal policy, written out, and they decode to that policy |
| WireRules.PolicyRule | packages/core/src/authority.ts:252-283 | Exactly which policies there are |
| Objects.GrantIsNeverAPolicy | packages/core/src/encoding.ts:35-51 | A grant's and a policy's encodings are never one the start of the other |
| Objects.GrantIgnoresListing | packages/core/src/authority.ts:136-164 | The grant built from a listing of terms depends only on which terms it lists |
| Objects.BuiltTermsAreASet | packages/core/src/terms.ts:1020-1040 | Building succeeds exactly for distinct keys and gives the listed terms, each once, in the order the reader demands |
| Abi.EncodingSize | packages/evm-robinhood/src/abi.ts:87-152 | Every encoding is whole words, and a static one has exactly its declared head size |
| Abi.Decodes | packages/evm-robinhood/src/abi.ts:87-152 | A decoder after the ABI specification recovers every well-typed nested value from its encoding, whatever follows it |
| Abi.OctetsAre | packages/evm-robinhood/src/abi.ts:81-115 | A text or byte string is its length in one word, its bytes, and zeros up to the next whole word |
| Abi.ArgumentsDecode | packages/evm-robinhood/src/abi.ts:154-157 | It recovers every argument list |
| Abi.EncodingInjective | packages/evm-robinhood/src/abi.ts:154-157 | Two argument lists of one type never share calldata |
| Abi.StringRecovered | packages/adapter-robinhood/src/onchain.ts:67-86 | The adapter's reader recovers an encoded string exactly when it has at most 128 bytes and no leading byte-order mark |
| AbiWriter.WriteWord | packages/evm-robinhood/src/abi.ts:47-56 | Filling 32 bytes from the low end writes the word; out of range fails |
| AbiWriter.WriteValue | packages/evm-robinhood/src/abi.ts:87-132 | The recursive encoder writes the specified encoding of exactly the well-typed values |
| AbiWriter.WriteSequence | packages/evm-robinhood/src/abi.ts:139-152 | One pass moving a tail offset writes all heads, then all tails |
| Rlp.QuantityIsMinimal | packages/evm-robinhood/src/transaction.ts:46-52 | Through hexadecimal text, the unique minimal big-endian form |
| Rlp.BuildLengthPrefix | packages/evm-robinhood/src/transaction.ts:30-35 | The loop builds the length prefix |
| Rlp.DecodesItem | packages/evm-robinhood/src/transaction.ts:37-44 | A strict decoder recovers any nested item from its encoding followed by anything |
| Rlp.ReencodesItem | packages/evm-robinhood/src/transaction.ts:37-44 | Everything the strict decoder accepts is the encoding of what it returns |
| Rlp.SelfDelimiting | packages/evm-robinhood/src/transaction.ts:37-44 | No encoding is a proper prefix of another |
| Rlp.PreimageTellsApart | packages/evm-robinhood/src/transaction.ts:54-71 | Distinct typed transactions have distinct signing preimages |
| Rlp.PreimageReads | packages/evm-robinhood/src/transaction.ts:54-71 | After the type byte a strict decoder finds one list and nothing after it, with the nine fields of the transaction in their places |
| FixedPoint.ParseOfFormat | packages/core/src/quantity.ts:733-749 | Every amount in int256 or uint256 range, at any of the 39 scales, survives being written and read |
| FixedPoint.FormatOfParse | packages/core/src/quantity.ts:733-749 | Every text the parser accepts is the one the formatter writes |
| FixedPoint.TextMeans | packages/core/src/quantity.ts:744-749 | How an amount is written: a sign if negative, its whole part without leading zeros, a point, and exactly its decimals of fraction |
| Market.VenuePriceIsExact | packages/evm-robinhood/src/market.ts:65-71 | The venue price is the typed price exactly, and is missing only when no integer is |
| Market.CostWithinThreeAtoms | packages/evm-robinhood/src/market.ts:73-87 | The cost is never below the exact rational cost with fee and less than three atoms above it |
| Market.CostMonotone | packages/evm-robinhood/src/market.ts:73-87 | A larger quantity never costs less |
| Market.CostSubadditive | packages/evm-robinhood/src/market.ts:73-87 | Splitting an order never makes it cheaper, through both ceilings |
| Market.CostPositive | packages/evm-robinhood/src/market.ts:73-87 | Any positive quantity costs at least one atom |
| Gate.CheckIsExact | packages/evm-robinhood/src/gate.ts:157-177 | An artifact passes exactly when it is the one built, its deadline is before the ceiling, and at most its domain's name and version differ |
| GateMeaning.PassesExactly | packages/evm-robinhood/src/gate.ts:157-177 | The check passes exactly when the deadline is before the ceiling and every field of mandate, candidate and terms is the one stated from market, record and request; gross cost and fee are the least amounts that cover price and fee |
| GateMeaning.BuildsExactly | packages/evm-robinhood/src/gate.ts:100-155 | Every field of what is built, the signing domain included |
| GateMeaning.RefusalsBlame | packages/evm-robinhood/src/gate.ts:162-177 | What each refusal of the check says is wrong |
| GateMeaning.MarketTells | packages/evm-robinhood/src/gate.ts:96-98 | The digest a candidate cites fixes the whole reviewed market and the gate it trades through |
| GateMeaning.TermsExactly | packages/evm-robinhood/src/issuance.ts:196-202 | There are terms exactly when a second is left before the authorization's end; the deadline is the last second within the configured distance and before that end |
| Gate.CommitmentNamesMandate | packages/evm-robinhood/src/gate.ts:157-177 | Two passing artifacts with one commitment have one mandate, candidate and terms |
| Gate.MandateIdTells | packages/evm-robinhood/src/gate.ts:77-89 | A mandate id names one execution, reservation, generation and adapter |
| Gate.TermsForBuild | packages/evm-robinhood/src/issuance.ts:196-213 | What these terms build passes the check; both debit limits are the exact quote, paid to the principal, with a deadline from now up to before the authorization's end |
| Issuance.IssuanceJournal.Open | packages/ledger-sqlite/src/journal.ts:122-144 | A first record, only for an attempt in the committed ledger and only once |
| Issuance.IssuanceJournal.Transition | packages/ledger-sqlite/src/journal.ts:147-168 | A record moves only along the closed table |
| Issuance.NextSlot | packages/evm-robinhood/src/issuance.ts:164-169 | The loop finds one past the highest admitted slot of the scope, so a slot no attempt has |
| Issuance.CustodySignsOne | packages/evm-robinhood/src/custody.ts:98-126 | Over one attempt custody agrees to sign one mandate, candidate and terms, on one chain and gate, whoever asks, whatever it shows and whenever |
| Issuance.SignsExactly | packages/evm-robinhood/src/custody.ts:98-126 | Custody signs exactly for a committed attempt of the module and adapter it serves, restated by the claim, of its own principal, for the exact artifact and slot admitted, neither over, with an open reservation, no record and everything in service |
| Issuance.GateSigner.Submit | packages/evm-robinhood/src/issuance.ts:266-294 | From an unrecorded admitted attempt the record and the report are ACKNOWLEDGED exactly when the receipt is a mined success, REJECTED exactly when it is a mined revert, and OUTCOME_UNKNOWN otherwise; an attempt already recorded is neither touched nor sent |
| Issuance.GateSigner.Recover | packages/evm-robinhood/src/signer.ts:40-55 | The loop settles and counts exactly this adapter's unrecorded and in-flight attempts |
| Issuance.RecoveredIs | packages/evm-robinhood/src/signer.ts:40-55 | Record by record: unsettled attempts of this adapter become OUTCOME_UNKNOWN, and nothing else changes |
| Issuance.NothingUnsettled | packages/evm-robinhood/src/signer.ts:40-55 | After recovery no attempt of this adapter is unrecorded or in flight |
| Issuance.RecoverTwice | packages/evm-robinhood/src/signer.ts:40-55 | A second recovery finds nothing and changes nothing |
| Issuance.RecoveryIgnoresOrder | packages/evm-robinhood/src/signer.ts:40-55 | The order in which attempts are listed makes no difference to what recovery leaves |
| IssuanceSafety.EveryWorldOk | packages/evm-robinhood/src/issuance.ts:297-329 | The invariant over every run with interleaved calls, ledger writers, crashes and recoveries |
| IssuanceSafety.RecordsAreTrue | packages/evm-robinhood/src/issuance.ts:286-293 | In every state of every run, crashes and recoveries included, an acknowledged attempt's call was mined with success and a rejected one's was mined and reverted |
| IssuanceSafety.AnswerSettles | packages/evm-robinhood/src/issuance.ts:286-293 | The chain's answer settles a record that says the call was sent as what it says, and touches no other |
| IssuanceSafety.SignedIsAdmitted | packages/evm-robinhood/src/custody.ts:98-126 | In every reachable state a principal signature exists only for an artifact whose commitment, name, slot and deadline a durable admitted attempt holds |
| IssuanceSafety.OneMandatePerGeneration | packages/evm-robinhood/src/gate.ts:28-31 | In every reachable state at most one artifact, its signing domain included, was ever signed per reservation generation, or under one mandate name |
| IssuanceSafety.NextSlotIsFree | packages/evm-robinhood/src/issuance.ts:164-169 | The next slot is one the ledger has never admitted |
| IssuanceSafety.RunsGoForward | packages/ledger-sqlite/src/journal.ts:41-47 | Over any stretch of any run attempts and signatures persist, records never go back, and a recorded attempt is never signed again |
| IssuanceSafety.PassIsSteps | packages/evm-robinhood/src/signer.ts:40-55 | A whole recovery pass is a sequence of steps of the machine |
| IssuanceSafety.SettledForGood | packages/evm-robinhood/src/signer.ts:40-55 | From the end of an undisturbed pass on, in every run, no attempt it covered is unrecorded or in flight again, no such record changes, and none of them is signed |
| IssuanceSafety.RecoveredForGood | packages/evm-robinhood/src/signer.ts:40-55 | The same record by record, with anything happening in between: an attempt stays settled from its own recovery step on |
| IssuanceSafety.TerminalStays | packages/ledger-sqlite/src/journal.ts:41-47 | A record with no way out keeps its state for the rest of the run |
| IssuanceSafety.BroadcastIsRecorded | packages/evm-robinhood/src/issuance.ts:266-294 | When recovery only settles attempts that no live call is about to hand over, every broadcast attempt is recorded as sent |
| IssuanceSafety.SendsInStepExactly | packages/evm-robinhood/src/issuance.ts:277 | A call sends in step with the journal exactly when its record was still in flight |
| IssuanceSafety.SafeToRecoverExactly | packages/evm-robinhood/src/issuance.ts:266-294 | At the end of any rested run, recovering an attempt leaves every continuation recording what it hands over, exactly when it changes nothing or no live call is between the attempt's record and its hand-over |
| IssuanceSafety.RecoveryInFlight | packages/evm-robinhood/src/issuance.ts:266-294 | Any run that recovers such an attempt goes on to broadcast it under an unknown outcome |
| IssuanceSafety.UnknownForGood | packages/ledger-sqlite/src/journal.ts:41-47 | In every continuation of a run an unknown outcome stays unknown |
| IssuanceHistory.NeverSignedAndClosed | packages/evm-robinhood/src/issuance.ts:22-26 | In every run over guarded ledger writers, no generation with a principal signature was, is or will be closed as never issued |
| IssuanceHistory.RunHasLogs | packages/evm-robinhood/src/issuance.ts:297-329 | Every run over guarded ledger writers has a log of what was written, world by world; issuing calls and recovery need no such assumption |
| IssuanceHistory.LogReplays | packages/ledger/src/memory-store.ts:88-114 | The ledger of every world is what its log replays to, and every event of the log keeps the rule |
| IssuanceRun.SomeRunRecords | packages/evm-robinhood/src/issuance.ts:297-329 | For every signer with addresses and every reviewed market, a run from the empty ledger reserves, admits, signs and records |
| IssuanceRun.SomeRunSendsUnknown | packages/evm-robinhood/src/issuance.ts:266-294 | And a run in which recovery overtakes it: the attempt is broadcast under a record that stays unknown in every continuation |

## Left out

- Concurrency.RunsAreSerial: refusals other than those the reducer and the engine's own steps give are oracles, because domain modules, catalogs and adapters are functions about which nothing is assumed.
- Ledger.ApplyBatch: the reducer's semantic rules (bindings, narrowing proofs, the per-term delegation subset) are oracles in `Ledger.Rules`, because they call domain comparators that are not part of this model; every ledger theorem holds for any of them.
- Decisions.Decide: the meet of a lineage's terms is an oracle of the decision environment, because only the time, sources and lifetimes it yields are used here.
- Objects.EncodeDecode: object types other than grants, policies and aggregate parameters (actions, envelopes, records, receipts) are not spelled out, because they repeat the same combinators.
- Gate.CheckIsExact: digests are injective by construction, because hashing and the byte widths of the gate's own structs are foreign to this model.
- DecisionMeaning.RecordIs: the identities of executions, records and revalidations are digests of some of the fields the source hashes, because projections, invariant results and charge-plan digests come from the plugged-in modules.
- Rlp.PreimageTellsApart: signature bytes and addresses derived from keys are left out, because elliptic-curve signing is foreign to this model.
- Pending.JoinParticipants: modules are listed in first-seen rather than digest order, because no verdict depends on it (`AggregateOrder.EvaluateIgnoresPresentation`).
- AggregateExact.ClosedExactlyWhenCounted: the component, states and reservations a fact names, and the account filter of a query, are left out of facts, because the aggregate never reads them.
- Which refusal code is reported where several checks fail is followed for the modelled checks only; messages, paths and details are left out.
- Shapes of untyped inputs (missing and unknown fields, wrong JavaScript types, hexadecimal and integer text of inputs) are left out: values are typed.
- Bounds on the number of participants and of facts per module constrain the participants of the counterexamples in `AggregateExact`; elsewhere they are left out.
- The SQLite ledger store, its file locking and its schema are left out; the in-memory store's contract stands for both.
- Chain access, receipts, gas and fees of the network are inputs of the signer's steps.
- Deep freezing, structured cloning and clocks are left out; evaluation time is a parameter.
- The Lighter adapter, the kernel's mandate objects, the capture and deployment scripts and the website are left out.
