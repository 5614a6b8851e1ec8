# A verified model of the fail-closed fuzzing control plane

The repository is a control plane around an io_uring fuzzer. A planner proposes typed programs; a
validator checks them, a compiler lowers them to bytes, and a C harness gives the bytes their
meaning. Around that stand a budget ledger, a notification relay, an approval and promotion chain,
a scheduler, and the canonical JSON that every digest is taken of. This project models those parts
and proves what each of them promises.

- **Native chain** (`Bits`, `HarnessCodec`, `Repro`, `NativeHarness`, `ThreeParsers`, `Contract`,
  `Proposal`, `Compiler`, `CompilerMeaning`, `Validator`, `ValidatorMeaning`, `FlagControl`,
  `NativeChain`, `StreamSafety`, `NativeExample`, `BufferExample`). The strict codec, the triage
  parser and the C loop over the same bytes; the production contract tables; the compiler and the
  validator as imperative methods proved against specification functions, and what these accept and
  emit in terms of the lists they are given; and the theorem that a validated program compiles, runs
  as one submission entry per step, and keeps its static checks in the dispatched stream.
- **Budget** (`Pricing`, `Instants`, `Calendar`, `Ledger`, `LedgerAccounts`, `LedgerRuns`, `LedgerFacts`,
  `LedgerMeaning`, `Pipeline`). An append-only event log whose spend is recomputed by a LEFT JOIN
  aggregate, caps and quotas over every interleaving of reserving, closing and reconciling processes,
  exact prices and grants, and the accounting of planner failover.
- **Relay** (`Relay`, `RelaySafety`, `RelayMeaning`, `RelayExample`). A state machine over database
  statements: any number of requests, every interleaving, a fault before or after any statement, and
  a stop at any point; and what one request comes to when nothing disturbs it.
- **Polling** (`Polling`, `PollingRuns`, `PollingMeaning`). Cursor-based polling of the relay's
  decision sequence with concurrent polls and crashes, also inside a write.
- **Approval and promotion** (`Authority`, `Approval`, `ApprovalRuns`, `ApprovalMeaning`, `Promotion`,
  `PromotionChain`, `PromotionMeaning`, `PromotionRuns`, `PromotionExample`). Content-addressed
  documents, challenges and their decisions, the promoter's reconstruction of the chain, and
  publication under crashes.
- **Schemas** (`Schemas`, `SchemaInlining`, `SchemaRelaxation`, `SchemaExactness`). Inlining of local
  references with a cycle guard, and its meaning in terms of accepted instances.
- **Triggers** (`Triggers`, `TriggerPacing`). The scheduling state and how often it lets work run.
- **Canonical JSON** (`JsonNumbers`, `CanonicalJson`, `JsonParser`, `JsonRoundTrip`, `JsonGrammar`,
  `JsonTexts`, `CanonicalLaws`, `CanonicalAgreement`, `CanonicalReader`). The host's and the Worker's
  serialisers, a parser proved equal to the grammar of sections 2 to 7 of RFC 8259, the round trip
  between them, and the reader that parses, dumps again and compares, over arbitrary texts.

`Wrappers` holds the shared `Option` and `Result` and a fact about finite sets. Code that updates state step by step is modelled
by methods and classes; code that only computes, by functions; protocols between concurrent parties,
by state machines whose steps are single statements.

Modelling assumptions: SHA-256 is injective (a digest stands for its content), a signature verifies
under exactly the key that made it, each database statement and each batch is atomic, and locks
exclude. Reservation identifiers are fresh, as random UUIDs are.

## What the proofs found

- `harness/io_uring_harness_native.c:313` overwrites `buf_group`, which preparing provide_buffers
  had set to its group operand, by `control >> 4`. So at the level of that field a BUFFER_SELECT
  entry matches an earlier provider exactly when that provider itself carried BUFFER_SELECT with the
  same ASYNC flag (`StreamSafety.ProviderFieldExactly`), and in an accepted program every selection
  is provided for exactly when nothing selects (`StreamSafety.AcceptedProvisionExactly`, which has the
  condition for remove_buffers too). A program that provides group 2 and selects from it is accepted
  and its selection finds no provider (`BufferExample.SelectionWithoutProvision`). The validator's
  rule survives only as a rule on names: the selected group occurs as an operand of an earlier
  provider (`StreamSafety.NativeRulesAreStreamRules`).
- A truncated final poll_update leaves its first operand in the control variable, so it alone among
  truncated operations is dispatched with flags (`ThreeParsers.TruncatedOperation`).
- `src/iou_ai/repro.py` reports trailing bytes, but `decode_executed` always consumes everything
  (`Repro.DecodeExecuted`).
- Splitting reported input into cached and uncached tokens can cost one microdollar more than the
  reservation, and the monthly limit can be exceeded by exactly that (`LedgerFacts.LimitCanBeExceededByOne`).
  The overrun is at most one exactly when the cached rate does not exceed the input rate, and
  otherwise it has no bound at all (`Pricing.OverrunBoundedExactly`).
- A delivery report that overtakes the storing of its message id is lost for good
  (`RelayExample.ReportIsLost`, a run from the empty database). In every reachable state a report
  changes an event exactly when its webhook is new and the row holds its message id and not yet its
  outcome (`RelaySafety.ReportTakesEffectExactly`).
- A crash inside the write of an inbox item stops the cursor at that decision for the rest of time
  (`PollingRuns.TornItemStopsTheCursor`); one inside the write of a receipt blocks every later
  promotion (`PromotionRuns.TornReceiptBlocksEverything`). Both happen in runs from the start
  (`PollingRuns.TearingStopsPolling`, `PromotionExample.TearingStopsPromotion`).
- `src/iou_ai/promoter.py:336` says that promotion re-runs expiry verification. It imports a decision
  that it has just read from the archive, which is always settled by the archive alone, so nothing in
  a promotion depends on the time (`PromotionChain.ClearingIgnoresTheClock`).
- The projector does not look at decisions: an answered candidate is challenged again once its
  challenge has expired, and the second challenge can be answered as well
  (`ApprovalRuns.AnsweredChallengeIsReissued`); a candidate answered twice
  can no longer be promoted (`PromotionChain.TwoAnswersBlockPromotion`). A concrete run shows an
  approved candidate losing its approval to a second approval (`PromotionExample.ApprovingTwiceBlocks`).
- `anthropic_portable_schema` inlines constants as if they were schemas, so a constant object loses
  keys. The result still accepts what `{"const": v}` accepts exactly when every key in v is itself a
  portable keyword (`SchemaRelaxation.ConstantsKeptExactly`). oneOf can become ambiguous
  (`SchemaRelaxation.OneOfCanBecomeAmbiguous`), but not when its branches are portable; and a keyword
  beside a reference replaces the definition's, where the schema demands both
  (`SchemaRelaxation.SiblingReplacesDefinition`). With portable constants and branches and only
  annotations beside references the portable view is a relaxation (`SchemaRelaxation.Relaxation`).
- Host and Worker take the same digest of a document exactly when its strings hold only ASCII
  without the delete character, and unpaired surrogates (`CanonicalAgreement.SerialisersAgreeExactly`).
- Trigger pacing is per material: material that alternates is attempted at every assessment
  (`TriggerPacing.AlternatingMaterialIsNotPaced`).

## Model

| member | source | states |
|---|---|---|
| HarnessCodec.TablesAgree | src/iou_ai/harness_codec.py:51-127 | the encoder's operand names and the decoder's operand counts agree for every selector |
| HarnessCodec.DecodeProgram | src/iou_ai/harness_codec.py:180-219 | the decoding loop with its cursor returns what the recursive specification returns, error for error |
| HarnessCodec.AuditedCodecAlwaysVerifies | src/iou_ai/harness_codec.py:222-258 | the start-up self check of the codec over one vector per selector can never fail |
| HarnessCodec.EncoderAcceptsExactlyCanonical | src/iou_ai/harness_codec.py:149-177 | encoding succeeds exactly on canonical programs, in at most 481 bytes, so the byte maximum never fires |
| HarnessCodec.DecodeAfterEncode | src/iou_ai/harness_codec.py:149-219 | decoding an encoded canonical program gives the program back |
| HarnessCodec.EncodeAfterDecode | src/iou_ai/harness_codec.py:149-219 | every accepted payload re-encodes to itself and is at most 481 bytes long |
| HarnessCodec.DecoderAcceptsExactlyEncoderRange | src/iou_ai/harness_codec.py:162-219 | the decoder accepts exactly the byte strings the encoder can produce |
| HarnessCodec.DecoderStopsAtFirstFault | src/iou_ai/harness_codec.py:180-219 | every payload is canonical operations, at most 96, and a rest; the decoder accepts exactly when nothing is left and otherwise reports what the rest is: too many operations, no selector, or cut short |
| Repro.DecodeExecuted | src/iou_ai/repro.py:71-111 | the triage parser's loop lists exactly the complete operations, and consumes every byte |
| NativeHarness.Harness.Rd8 | harness/io_uring_harness_native.c:86-86 | the byte reader advances the cursor, and leaves its target alone at the end |
| NativeHarness.Harness.PrepareOperation | harness/io_uring_harness_native.c:224-318 | the switch reads operands and control in the audited order and fills the entry's fields |
| NativeHarness.Harness.RunIteration | harness/io_uring_harness_native.c:204-319 | one persistent iteration submits exactly the batches of 64 of the entries its input denotes, the last one partial |
| NativeHarness.BatchesExactly | harness/io_uring_harness_native.c:204-319 | every submitted batch but the last has exactly 64 entries, the last has fewer, and together they are the stream in order |
| ThreeParsers.HarnessExtendsTriage | harness/io_uring_harness_native.c:207-318 | on every input up to the cap the C loop dispatches the triage parser's first 96 operations, or all of them and at most one truncated operation |
| ThreeParsers.TruncatedOperation | harness/io_uring_harness_native.c:218-318 | what a truncated final operation is dispatched with: zeros past the end, and flags only for poll_update |
| ThreeParsers.StrictAcceptance | src/iou_ai/harness_codec.py:180-219 | strict decoding succeeds exactly when the triage parse leaves nothing over, wraps no selector and lists at most 96 operations; then both list the same operations |
| ThreeParsers.HarnessRunsStrictPayload | harness/io_uring_harness_native.c:207-318 | a strictly decodable payload is dispatched as exactly its decoded operations |
| Contract.OperationLookup | src/iou_ai/contract.py:111-173 | the operation table of the production contract holds exactly the 61 audited symbols, each under its selector |
| Contract.FlagLookup | src/iou_ai/contract.py:102-109 | the flag table holds exactly the six flags with their bits |
| Contract.ProfileLookup | src/iou_ai/contract.py:49-100 | the ring profiles are found by their identifiers, each with its own selector |
| Contract.RingSetups | src/iou_ai/contract.py:49-100 | the profile table holds exactly the eight audited ring setups by their numbers, for both lanes; polling by a kernel thread is not in it |
| Compiler.ControlByte | src/iou_ai/compiler.py:168-173 | the loop that ORs flag values computes the fold over the flags, or blocks at the first unknown one |
| Compiler.CompileNative | src/iou_ai/compiler.py:118-186 | the lowering loop returns the specified native program or the first block reason |
| CompilerMeaning.LoweredExactly | src/iou_ai/compiler.py:118-186 | under any contract a step compiles exactly when the last entry of its operation takes byte operands in the parser's order, the step gives exactly these and its flags have six-bit values; the operation then has these bytes and exactly these bits |
| CompilerMeaning.CompiledExactly | src/iou_ai/compiler.py:188-225 | for every program and contract: there is a payload exactly under a verified production contract of this compiler and harness whose byte limit it keeps, and it is the encoding of the lowered steps on the last listed ring; the round-trip checks never fail |
| Validator.ValidateProposal | src/iou_ai/validator.py:153-495 | the validator's loops and accumulated issues decide exactly the declarative acceptance; a valid result means that packet, target hashes, mode and verification fit and that every reference the hypothesis or a priority cites is in the packet |
| Validator.ResourceTotals | src/iou_ai/validator.py:281-298 | the totals accumulated over the bindings are the per-resource sums |
| Validator.CheckNativeRules | src/iou_ai/validator.py:387-493 | the production native rules, checked step by step against the sets of prior producers, decide the declarative rules |
| Validator.PriorSets | src/iou_ai/validator.py:425-433 | the loop over prior steps collects exactly the operations and the selectors that occur in them |
| ValidatorMeaning.StepAcceptedExactly | src/iou_ai/validator.py:299-385 | a step is accepted exactly when the last entries of its operation, arguments, resources and flags in the lists fit it, with no look-up table in the statement |
| ValidatorMeaning.ProposalAcceptedExactly | src/iou_ai/validator.py:153-495 | a proposal is accepted exactly when bindings, cited evidence, mode, compiler, priorities, resource totals, steps and variants are as stated over the lists of proposal, packet and contract |
| ValidatorMeaning.MoreEvidenceNeverInvalidates | src/iou_ai/validator.py:188-196 | adding evidence to the packet keeps every accepted proposal accepted |
| FlagControl.FoldSetsBits | src/iou_ai/compiler.py:168-173 | a bit is set in the OR of the flags exactly when it was set before or its flag is present |
| FlagControl.OrIsSum | src/iou_ai/validator.py:402-481 | for distinct flags the compiler's OR equals the validator's sum |
| FlagControl.ControlByteOfFlags | src/iou_ai/compiler.py:168-178 | the control byte is below 64, equals the sum, has exactly the flags' bits, and survives the harness's mask |
| NativeChain.AcceptedStepCompiles | src/iou_ai/compiler.py:118-186 | a step the validator accepts compiles to a canonical operation with its selector, operands and control |
| NativeChain.ValidatedProgramRuns | src/iou_ai/compiler.py:118-225 | a program accepted by the typed rules compiles without being blocked, and the harness dispatches one entry per step, in order, on the profile's ring, with the step's selector, operands, flags, user data and group |
| StreamSafety.NativeRulesAreStreamRules | src/iou_ai/validator.py:402-493 | for a typed program, the native rules hold exactly when the dispatched stream obeys them: references name earlier user data, selected groups are named by an operand of an earlier provider, placement and enabling rules hold |
| StreamSafety.LinkedSuccessorsShareTheBatch | harness/io_uring_harness_native.c:218-319 | in the stream of an accepted program every linked entry has its successor in the same submission batch |
| StreamSafety.AcceptedProposalRuns | src/iou_ai/validator.py:153-495 | every program of a proposal the validator accepts under the production contract compiles to at most 481 bytes, and the harness dispatches one matching entry per step in a stream that obeys the rules, with links inside a batch |
| StreamSafety.ProviderFieldExactly | harness/io_uring_harness_native.c:310-315 | an entry's buf_group field is that of an earlier provider exactly when some earlier provider carries the same BUFFER_SELECT and ASYNC flags, whatever group either names |
| StreamSafety.FirstSelectionUnresolved | harness/io_uring_harness_native.c:310-315 | the first buffer-selecting entry of a stream never matches a provider's field |
| StreamSafety.AcceptedProvisionExactly | harness/io_uring_harness_native.c:310-315 | in an accepted program every selecting entry finds an earlier provider's field exactly when no step selects; the same question for all entries and for remove_buffers has its exact condition on the steps |
| BufferExample.SelectionWithoutProvision | src/iou_ai/validator.py:447-470 | a program that provides a group and then selects from it is accepted, and its selection finds no provider's field |
| NativeExample.PairRuns | src/iou_ai/compiler.py:188-225 | a linked pair is accepted and runs in one batch, so the chain's conditions can all hold at once |
| Pricing.OverrunAtMostOne | src/iou_ai/budget.py:106-192 | usage within the reserved maxima quotes at most one microdollar more than the reservation, and none without cached tokens |
| Pricing.OverrunOfOneHappens | src/iou_ai/budget.py:169-192 | the one microdollar is attained |
| Pricing.DearCacheOverrunsWithoutBound | src/iou_ai/budget.py:157-192 | under every policy with a cached rate above the input rate the overrun exceeds every bound |
| Pricing.OverrunBoundedExactly | src/iou_ai/budget.py:106-192 | over all usage within all maxima the overrun is at most one, or bounded at all, exactly when the cached rate is at most the input rate |
| Pricing.QuoteExact | src/iou_ai/budget.py:106-192 | a quote covers the exact price of uncached, cached and output tokens, each at its own rate, by less than three microdollars |
| Instants.TextOrderIsTimeOrder | src/iou_ai/budget.py:914-950 | the text order of ISO instants, with or without fractions, is the order of time |
| Instants.TextReadsBack | src/iou_ai/budget.py:632-648 | the stored text of an instant is its numbers in fixed places between fixed marks, the fraction only when it is not zero, and the offset of universal time |
| Instants.DayKeyIsPrefix | src/iou_ai/budget.py:487-503 | the first ten characters of an instant are its day key, years taken as four digits |
| Instants.PaddedYearExactly | src/iou_ai/budget.py:422-428 | the year of a day key needs padding exactly below the year 1000 |
| Instants.MonthKeyExact | src/iou_ai/budget.py:422-428 | month keys are equal exactly for equal years and months |
| Calendar.MicrosOrder | src/iou_ai/budget.py:914-925 | the order of calendar fields is the order of microseconds since year one |
| Calendar.EarlierExact | src/iou_ai/budget.py:914-925 | subtracting an age from an instant gives the calendar instant exactly that many microseconds before |
| Calendar.YearsCounted | src/iou_ai/budget.py:914-925 | the days before a year are 365 a year, one more for every fourth year but not for centuries that are no multiple of four |
| Calendar.MonthsCounted | src/iou_ai/budget.py:914-925 | the days before a month are the calendar's, one more after the second month of a year of 366 days |
| Ledger.BudgetLedger.ReserveCost | src/iou_ai/budget.py:534-675 | a reserve appends one row exactly when no check refuses it, and otherwise fails with the first refusal and changes nothing |
| Ledger.BudgetLedger.Close | src/iou_ai/budget.py:816-912 | closing appends one terminal row for an open reservation in its own month, and otherwise fails and changes nothing |
| Ledger.BudgetLedger.ReconcileAbandoned | src/iou_ai/budget.py:914-1008 | reconciliation refuses a negative age and a cutoff outside the calendar, and otherwise appends one abandoning row for each open reservation of at least that age |
| LedgerAccounts.AtMostOneTerminal | src/iou_ai/budget.py:387-409 | in a valid log a reservation has at most one terminal event |
| LedgerAccounts.AggregatesAreAccountTotals | src/iou_ai/budget.py:463-503 | the LEFT JOIN sums equal the totals of per-reservation accounts, by month and by day |
| LedgerRuns.EveryRunKeepsInvariant | src/iou_ai/budget.py:534-1008 | every interleaving keeps the log valid, the monthly and daily caps up to settlement overruns, and the call quotas |
| LedgerRuns.SpendStaysCapped | src/iou_ai/budget.py:601-675 | in every reachable ledger effective spend is at most the limit plus the overruns of its settlements |
| LedgerFacts.SlackIsOnePerCachedSettlement | src/iou_ai/budget.py:601-705 | with the usage of one month, or one day, within its maxima, the slack of that period is one microdollar per settlement with cached tokens |
| LedgerFacts.LimitCanBeExceededByOne | src/iou_ai/budget.py:601-705 | a run in which effective spend is the limit plus one |
| LedgerFacts.StepExtendsAccounts | src/iou_ai/budget.py:574-912 | no operation reorders accounts, reopens one, or moves one to another period |
| LedgerFacts.ReconcileClosesExactlyTheOld | src/iou_ai/budget.py:914-1008 | reconciliation closes exactly the open reservations whose age in microseconds is at least the given one, each at its full reserve |
| LedgerMeaning.EveryTerminalIsPriced | src/iou_ai/budget.py:816-912 | in every run each terminal row belongs to an earlier reservation and repeats its month and request; it charges the tokens it records at the three rates, each rounded up, and without recorded tokens the full reserve |
| LedgerMeaning.ClosingAppends | src/iou_ai/budget.py:816-912 | in every run closing an open reservation appends exactly one row so priced, with the reported tokens when they are usable |
| LedgerMeaning.OnlyOpenReservationsClose | src/iou_ai/budget.py:816-912 | in every run closing anything else changes nothing |
| LedgerMeaning.GrantedExactly | src/iou_ai/budget.py:534-675 | in every run a reservation is granted exactly when the request matches its policy, the policy is in effect on its day, the kill switch is off, the call is new in its month, its quota is not used up and neither month nor day would cost more than its limit; its row is stated |
| LedgerMeaning.NoRequestTwice | src/iou_ai/budget.py:574-600 | no two reservations of a run share an identifier, or a request key of the same model and month |
| Pipeline.Call | src/iou_ai/pipeline.py:258-337 | one provider call with other processes in between has the specified effect on the ledger |
| Pipeline.CallPlanner | src/iou_ai/pipeline.py:393-444 | the failover loop has the specified effect and result |
| Pipeline.CallClosesItsReservation | src/iou_ai/pipeline.py:258-337 | a granted call leaves its reservation closed once, at zero, the full reserve or the usage quote |
| Pipeline.PlannerClosesEveryReservation | src/iou_ai/pipeline.py:393-444 | however the planner call ends, every reservation it opened is closed once with the right charge |
| Pipeline.OnlyProviderFailuresFailOver | src/iou_ai/pipeline.py:393-444 | the planner's effect and result are those of one attempt; every earlier one moved on, and this one did not or was the last |
| Pipeline.FailsOverExactly | src/iou_ai/pipeline.py:393-444 | an attempt's error makes the planner try the next provider exactly when the provider's quota was used up, or its call was reserved, failed by the provider's fault and was still open to be closed |
| RelaySafety.CommittedBatchChangesAllRows | relay/cloudflare/src/index.js:715-722 | a decision batch that commits always changes its event row, so the exactly-once check never rejects a committed one |
| RelaySafety.StepSafe | relay/cloudflare/src/index.js:423-599 | every statement of every request, with any fault, keeps the relay's invariant |
| RelaySafety.SentAtMostOnce | relay/cloudflare/src/index.js:505-599 | over every run an event is sent to the provider at most once |
| RelaySafety.MonthlyLimits | relay/cloudflare/src/index.js:537-568 | sends are at most the counted attempts, which are at most 200 a month and 180 for ordinary events |
| RelaySafety.RefusalsKeepTheReserve | relay/cloudflare/src/index.js:556-568 | a priority event is refused only at 200 attempts, at least 20 of them for priority events; any other only from 180 on |
| RelaySafety.AcknowledgementsAreTrue | relay/cloudflare/src/index.js:467-599 | every acknowledgement is backed by a host registration or the provider's answer to the one send |
| RelaySafety.DecisionsMatchEvents | relay/cloudflare/src/index.js:668-735 | an event is decided exactly when it has its one decision, which was timely and fits its kind |
| RelaySafety.CodeNamesOneEvent | relay/cloudflare/schema.sql:1-12 | a human code finds at most one event |
| RelaySafety.EarlyReportIsLost | relay/cloudflare/src/index.js:941-963 | a delivery report before its message id is stored has no effect, however often it is repeated |
| RelaySafety.ReportTakesEffectExactly | relay/cloudflare/src/index.js:941-963 | in every reachable state a report changes an event exactly when its webhook is unseen and the row stores its message id and not yet this outcome; it changes nothing but the delivery |
| RelayMeaning.ReserveIsForUrgentEvents | relay/cloudflare/src/index.js:537-568 | in every run a month has at most 200 attempts, and at most 180 for informational, low-value crash and non-critical budget events |
| RelayMeaning.RefusedOnlyAtTheLimit | relay/cloudflare/src/index.js:556-568 | in every run approvals, high-value crashes and critical budget events are refused only at 200 attempts, all others only from 180 on |
| RelayMeaning.CountsExactlyBelowTheLimit | relay/cloudflare/src/index.js:537-568 | in every run a healthy counting statement lets the event through to its send exactly below its limit, named by kind |
| RelayMeaning.UndisturbedDelivery | relay/cloudflare/src/index.js:423-599 | in every run a submission that nothing disturbs comes to one stated transition: known and answered as before, refused at the limit, or counted, sent once and recorded by the provider's answer |
| RelayMeaning.UndisturbedRegistration | relay/cloudflare/src/index.js:423-535 | with the host as the channel it is registered, never counted and never sent |
| RelayMeaning.UndisturbedDecision | relay/cloudflare/src/index.js:668-735 | in every run an undisturbed command records its decision exactly when the code names an undecided event in time that takes the command; other new webhooks are marked and ignored, known ones are duplicates |
| RelayMeaning.DecisionsUseUpWebhooks | relay/cloudflare/src/index.js:715-722 | in every run there are at least as many marked webhooks as decisions |
| RelayMeaning.FailedStatements | relay/cloudflare/src/index.js:423-599 | a statement that throws never lets its request go on to an acknowledgement, and leaves the database as it was, or as if it had not thrown when it took effect |
| RelayExample.ReportIsLost | relay/cloudflare/src/index.js:941-963 | a run from the empty database in which a report overtakes its message id and never takes effect |
| Polling.CheckedPagesAreGapless | src/iou_ai/notifier.py:149-165 | the client accepts exactly well-formed pages whose cursor moves by their length, and every page of an honest relay |
| Polling.NotifierStore.Put | src/iou_ai/notifier.py:922-953 | an item is stored once, reported as new once, and a torn file is an error |
| Polling.NotifierStore.Current | src/iou_ai/notifier.py:962-992 | the cursor is the largest readable checkpoint, or zero |
| Polling.NotifierStore.Advance | src/iou_ai/notifier.py:994-1028 | the cursor moves to the given position, never back |
| Polling.NotifierStore.PollDecisions | src/iou_ai/notifier.py:1082-1096 | exactly when a poll succeeds; then the page is stored and the cursor is at its end, and a failed poll never moves the cursor |
| PollingRuns.PollingLosesNothing | src/iou_ai/notifier.py:1082-1096 | over every run the decisions below the cursor are in the inbox and the cursor is within the sequence |
| PollingRuns.EachFileIsCreatedOnce | src/iou_ai/notifier.py:922-953 | the files that all polls report as new are exactly the inbox |
| PollingRuns.StepsOnlyAdd | src/iou_ai/notifier.py:956-1028 | no step moves the cursor back or loses a file |
| PollingRuns.CompletedPollsProgress | src/iou_ai/notifier.py:608-632 | a completed poll of a non-empty page leaves strictly fewer decisions |
| PollingRuns.TornItemStopsTheCursor | src/iou_ai/notifier.py:930-953 | a torn inbox item bounds the cursor by its position forever |
| PollingRuns.TearingStopsPolling | src/iou_ai/notifier.py:930-953 | a run from the start tears an item, and the cursor is zero in all its continuations |
| PollingMeaning.UndisturbedPoll | src/iou_ai/notifier.py:1082-1096 | in every run a poll that nothing disturbs is one stated transition: it stops at a torn checkpoint, else stores the next decisions in order up to the first torn file, and without one completes with the cursor at their end |
| Authority.CodecCheckExact | src/iou_ai/execution.py:264-278 | the codec checks accept exactly strictly decodable payloads of the audited harness with the manifest's count; the re-encoding check never fails |
| Authority.ReportFailsExactlyOnTooManyChecks | src/iou_ai/execution.py:280-313 | with all bindings right, building the report fails exactly when it would list more than 128 checks |
| Approval.EventOutbox.Project | src/iou_ai/events.py:551-683 | the projection loop extends the outbox as specified, with the events it returns, or refuses the lifetime |
| Approval.ANewChallengeIsNew | src/iou_ai/events.py:537-548 | an issued challenge differs from every event on record |
| Approval.DecisionArchive.ImportSigned | src/iou_ai/decisions.py:238-344 | an import appends the decision, leaves the archive alone, or fails, exactly as specified |
| ApprovalRuns.AtMostOneReissue | src/iou_ai/events.py:574-683 | an envelope or candidate has at most two challenges, the second no earlier than the first expires |
| ApprovalRuns.OneBackedDecisionPerEvent | src/iou_ai/decisions.py:238-344 | each archived decision is its event's only one and carries its bindings, within its window |
| ApprovalRuns.ReimportSettled | src/iou_ai/decisions.py:256-268 | importing an archived decision again succeeds at every time, any other decision of the event is refused |
| ApprovalRuns.AnsweredChallengeIsReissued | src/iou_ai/events.py:648-683 | after any run in which a subject's lone challenge has an archived decision and has expired, the next projection challenges it again, and a valid second decision is archived |
| ApprovalMeaning.ImportedExactly | src/iou_ai/decisions.py:238-344 | in every run an import archives a decision exactly when it is signed with the key and answers, in time, an event on record without a decision; otherwise it changes nothing |
| ApprovalMeaning.ArchiveGrowsOnlyInTime | src/iou_ai/decisions.py:303-344 | in every run a step that makes the archive longer is an import at a time no later than the challenge's expiry and no earlier than five minutes before the decision was issued |
| ApprovalMeaning.UndecidedAtExpiryStaysUndecided | src/iou_ai/decisions.py:303-344 | an event undecided when it expires stays undecided under every later import |
| ApprovalMeaning.AnswerableExactly | src/iou_ai/decisions.py:262-309 | within its window an envelope's event can be answered by an offline approval or a denial and by nothing else, a candidate's by a live approval or a denial |
| ApprovalMeaning.ChallengedExactly | src/iou_ai/events.py:537-683 | in every run a subject is challenged exactly when the lifetime is between five minutes and two days and its one earlier challenge, if any, is over; the new one is created now and expires after that lifetime |
| ApprovalMeaning.ProjectsOneByOne | src/iou_ai/events.py:551-683 | projecting several subjects is projecting them one after another |
| Promotion.PromotionFiles.Publish | src/iou_ai/promoter.py:261-322 | publication makes the bytes visible, or finds them there, and never replaces other bytes |
| Promotion.PromotionFiles.Locked | src/iou_ai/promoter.py:412-462 | the locked part, with a death at any point, has the specified effect on seeds and receipts |
| PromotionChain.ClearingIsSound | src/iou_ai/promoter.py:324-411 | for arbitrary store contents a cleared candidate has the whole chain behind it |
| PromotionChain.ClearingIsComplete | src/iou_ai/promoter.py:324-411 | every candidate with that chain is cleared |
| PromotionChain.WhatPromotionGuarantees | src/iou_ai/promoter.py:324-411 | the published bytes are canonical, canaried, accepted in review and approved by exactly one decision on the current targets |
| PromotionMeaning.ValidationBuildsExactly | src/iou_ai/execution.py:207-315 | from any documents under any digests a report is built exactly when the digests are theirs, no record failed, and envelope, manifest and payload belong together; the report then repeats them and lists all checks |
| PromotionMeaning.ClearedExactly | src/iou_ai/promoter.py:324-411 | a candidate is cleared with its payload and decision exactly when stated documents stand behind it: every limit, every binding between them, a passed canary of an allowed runner, and the single approving decision of an event on record |
| PromotionChain.ClearingIgnoresTheClock | src/iou_ai/promoter.py:330-342 | nothing before the lock depends on the time of the promotion |
| PromotionChain.HonestBuildsAreEvidence | src/iou_ai/execution.py:207-374 | documents built by the two build functions are evidence |
| PromotionChain.HonestRunIsCleared | src/iou_ai/execution.py:207-374 | a candidate built honestly and approved once in any run of projector and importer is cleared at every later time without drift |
| PromotionChain.TwoAnswersBlockPromotion | src/iou_ai/promoter.py:232-244 | a candidate with two execution decisions is never cleared |
| PromotionExample.AnHonestPromotionExists | src/iou_ai/promoter.py:324-462 | one complete honest run publishes its bytes at every later time |
| PromotionExample.ApprovingTwiceBlocks | src/iou_ai/events.py:648-683 | a run in which a reissued challenge is approved as well and the candidate is refused |
| PromotionRuns.PublicationIsUnique | src/iou_ai/promoter.py:412-462 | over every run with deaths anywhere there is one receipt per candidate and per destination and artifact |
| PromotionRuns.ReceiptsPointAtTheirBytes | src/iou_ai/promoter.py:261-322 | every receipt's seed is visible and hashes to its name |
| PromotionRuns.PromotionSucceedsExactly | src/iou_ai/promoter.py:412-462 | exactly when the promotion of a cleared candidate succeeds |
| PromotionRuns.HonestCandidateIsPublished | src/iou_ai/promoter.py:324-462 | after any run of promotions and at any time, an honestly built candidate approved exactly once is published with its receipt, unless a receipt is torn, its artifact has one already or its targets have drifted |
| PromotionRuns.RepeatCompletesTheDeadOne | src/iou_ai/promoter.py:412-462 | after a death between link and receipt the next promotion completes with the same bytes |
| PromotionRuns.TornReceiptBlocksEverything | src/iou_ai/promoter.py:211-229 | a torn receipt leaves every later promotion without effect |
| PromotionExample.TearingStopsPromotion | src/iou_ai/promoter.py:211-229 | a run from the start tears a receipt, and no continuation changes a file |
| SchemaInlining.StepsGoDown | src/iou_ai/schemas.py:141-160 | the traversal's measure: unvisited definitions, then the node |
| SchemaInlining.InliningFailsExactly | src/iou_ai/schemas.py:141-185 | inlining fails exactly when a walk from the root reaches a bad reference or a misplaced keyword |
| SchemaRelaxation.InlinedIsPortable | src/iou_ai/schemas.py:165-185 | the result has only portable keywords, and so no reference, at every schema position |
| SchemaRelaxation.InliningIsIdempotent | src/iou_ai/schemas.py:125-200 | inlining an inlined schema changes nothing |
| SchemaRelaxation.Relaxation | src/iou_ai/schemas.py:125-200 | on the supported fragment, with portable constants and portable branches of oneOf, every instance of the source is an instance of the result, whatever the dropped keywords mean |
| SchemaRelaxation.ConstantsKeptExactly | src/iou_ai/schemas.py:163-185 | inlining keeps what a constant accepts exactly when the constant is portable |
| SchemaRelaxation.ObjectConstantsAreRejected | src/iou_ai/schemas.py:163-166 | a constant object with one key that is no keyword is accepted by the source and rejected by the result |
| SchemaRelaxation.OneOfCanBecomeAmbiguous | src/iou_ai/schemas.py:181-184 | oneOf with branches told apart by a dropped keyword rejects what the source accepts |
| SchemaRelaxation.SiblingReplacesDefinition | src/iou_ai/schemas.py:141-160 | a keyword beside a reference replaces the definition's, so a definition closed over one property and referenced beside another rejects what the source accepts |
| SchemaExactness.OnlySentIsInlinedToItself | src/iou_ai/schemas.py:45-185 | a schema of nothing but the ten keywords, named one by one, is inlined to itself, and every result is such a schema |
| SchemaExactness.PortableViewIsExact | src/iou_ai/schemas.py:45-185 | on the covered fragment the result accepts exactly what the source accepts once every keyword but references, constants and the ten is left out |
| SchemaExactness.NullReferenceIsNone | src/iou_ai/schemas.py:141-160 | an object whose reference is null is inlined as if it had none |
| Triggers.TriggerStateStore.RunOnce | src/iou_ai/cli.py:204-238 | one scheduled run, with a death right after the mark, changes the state as specified |
| TriggerPacing.DueBetweenTheIntervals | src/iou_ai/triggers.py:361-395 | on unchanged material a run is due no sooner than the shorter and no later than the longer interval |
| TriggerPacing.SameMaterialDueExactly | src/iou_ai/triggers.py:361-395 | after any run, the same material is due exactly from the refresh interval after its completion on, or from the retry interval after its failure or the attempt of a process that died |
| TriggerPacing.OtherMaterialDueExactly | src/iou_ai/triggers.py:361-395 | after any run, other material is due exactly unless it is the material last completed and the refresh interval has not passed |
| TriggerPacing.AttemptsArePaced | src/iou_ai/triggers.py:361-431 | over every run two consecutive attempts on the same material are at least the shorter interval apart, whatever is assessed between them |
| TriggerPacing.AttemptsInASpan | src/iou_ai/triggers.py:361-431 | a stretch of attempts on one material within w seconds has at most 1 + w / shorter attempts |
| TriggerPacing.ConstantMaterialIsPaced | src/iou_ai/triggers.py:361-431 | while the material never changes, any span of length w holds at most 1 + w / shorter attempts |
| TriggerPacing.NeverStarves | src/iou_ai/triggers.py:361-431 | any material is due once the longer interval has passed since the last attempt |
| TriggerPacing.AlternatingMaterialIsNotPaced | src/iou_ai/triggers.py:374-382 | two alternating digests are attempted at every assessment |
| JsonRoundTrip.ParseAfterPrint | relay/cloudflare/src/index.js:26-36 | the text of either serialiser parses back to the document it was printed from |
| JsonRoundTrip.PrintIsInjective | relay/cloudflare/src/index.js:26-36 | no two documents print alike, on the host or in the Worker |
| JsonGrammar.ParsesExactly | src/iou_ai/quarantine.py:96-104 | a text is read as a document exactly when the grammar of RFC 8259, given character by character, with the three extra constants, derives that document from it |
| JsonGrammar.GrammarIsUnambiguous | src/iou_ai/quarantine.py:96-104 | no text is derived as two documents |
| JsonTexts.PrintsShortest | relay/cloudflare/src/index.js:26-36 | either serialiser's text is in the grammar and in its own characters, printable ASCII on the host and well-formed UTF-16 in the Worker, and no text of the document in these characters is shorter |
| JsonTexts.UnitsAreShortest | src/iou_ai/quarantine.py:18-21 | every unit of a string is written in the shortest way its side allows, numeric escapes in small letters |
| JsonTexts.CodePointsAreDecoded | src/iou_ai/quarantine.py:18-21 | the code points by which the host orders keys are those that UTF-16 encodes |
| CanonicalAgreement.SerialisersAgreeExactly | src/iou_ai/quarantine.py:18-21 | on documents with safe integers, host and Worker text agree exactly when the units of every string in the document are at most 126 or unpaired surrogates |
| CanonicalLaws.CanonicalTextDetermines | src/iou_ai/quarantine.py:18-21 | canonical texts are equal exactly for trees that are equal up to key order |
| CanonicalLaws.InsertionOrderIsIrrelevant | relay/cloudflare/src/index.js:32-34 | the sorted members do not depend on insertion order, in either side's key order |
| CanonicalReader.ReaderAcceptsExactlyCanonical | src/iou_ai/quarantine.py:96-104 | of all texts the reader accepts exactly the canonical texts of objects with distinct keys |
| CanonicalReader.AcceptedTextExactly | src/iou_ai/quarantine.py:96-104 | a text is accepted exactly when it parses to an object with sorted, distinct keys and shortest floats and is that object's compact host text; then the object parsed is the object returned |
| CanonicalReader.UnsortedTextIsRefused | src/iou_ai/quarantine.py:102-103 | any text that parses to a document with unsorted or repeated keys somewhere in it is refused |
| CanonicalReader.WrittenIsRead | src/iou_ai/quarantine.py:34-104 | the canonical text of an object is accepted and read back as that object, its keys sorted |

## Left out

- Instants.DayKeyIsPrefix: keys are modelled with padded years; `strftime` leaves years below 1000 unpadded on some platforms, and what the ledger does for those years there is not modelled.
- Kernel and liburing semantics: the native model stops at the prepared entry fields and the submission batches; how each prepare call derives kernel arguments from the operands is not modelled, and every ring is taken as initialised.
- Concrete AFL input handling, hypercalls, ring setup and the descriptor pool of the C harness.
- Error messages and text identifiers: failures are datatype constructors; several messages of one exception class may share a constructor.
- Pydantic parsing, regular expressions on identifiers and digests, and JSON Schema of the models: the invariants of parsed documents are predicates.
- Providers, fetch calls and transports: only the outcome class of each call appears; the relay's authorisation, readiness, signature and message-format checks come before the first modelled statement.
- The relay's callback answers, pairing and webhook setup endpoints, and the host delivery loop with its receipts.
- The Worker's database is modelled as values changed by steps, not as objects; the month of a refusal and the list of sends are kept for the proofs only.
- File-system detail: modes, links, fsync, temporary names and stale-lock takeover; a crash inside a write is modelled as a torn file.
- The budget ledger's kill-switch file is a parameter of a reserve; details columns, status reports and event listings are not modelled, and instants are in years 1 to 9999.
- Clock offsets: instants are in UTC.
- Receipt, report and candidate identifiers that are cut from digests are not fields of the modelled documents.
- Promotion.PromotionFiles.Locked: the checks before the lock only read immutable stores, so they are one function, `Promotion.Clear`, instead of method statements.
- SchemaExactness.PortableViewIsExact: covers schemas with only annotations beside a reference and with constants that are portable and have no enumeration beside them, because beside an enumeration the code drops the constant; type and required may mean anything.
- SchemaRelaxation.Relaxation: excludes constants and branches of oneOf that are not portable and non-annotation siblings of a reference, for which there are counterexamples; prefixItems and patternProperties, which change what items and additionalProperties apply to, are not covered; the constraint sentences appended to descriptions are annotations and are not modelled.
- Closing of object schemas for strict output (`_close_object_schemas`), which only sets three keywords on objects with properties.
- JsonParser.Parse: texts and strings are UTF-16 units, so byte encodings and byte order marks, raw unpaired surrogates next to each other, the recursion limit and the limit on the digits of an integer are not modelled.
- JsonTexts.PrintsShortest: the text of a float is that of the document, its shortest form being a parameter of the reader.
- CanonicalReader.ReaderAcceptsExactlyCanonical: the shortest text of a float is a parameter, any function that maps its results to themselves.
- CanonicalAgreement.SerialisersAgreeExactly: assumes integers that JavaScript holds exactly and no floats, which the two languages write differently.
- Telemetry, mailing-list scraping, corpus profiles, prompts, configuration loading and command-line parsing.
