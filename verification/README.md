# Morpheus: a Dafny model of the kernel, the codecs and the crash protocols

This project models the parts of Morpheus whose correctness spans many calls, many steps or many bytes, and proves
what they promise. Every main result is about all inputs, all runs or all interleavings. `dafny verify
dfyconfig.toml` checks everything.

| files | what they model |
|---|---|
| `Prelude`, `Bytes`, `Decimals` | what several models share: optional values, division, octets and big-endian numbers, decimal text |
| `KernelSums`, `KernelState`, `KernelInvariant`, `KernelTheorems`, `KernelEffects`, `KernelContract` | the MiniApp OS kernel (`contracts/MorpheusOracle`): fee ledgers, requests, sponsorship, callback index |
| `Ber`, `Cms`, `CmsContent` | the BER to DER transcoder and the CMS content helpers of `deploy/nitro/nsm-attest/cms.go` |
| `Cbor`, `CborRead`, `CborDecoder`, `CborAgreement`, `Cose` | the two CBOR decoders and how they agree, the COSE Sig_structure and the ES384 converter |
| `Scheduler`, `SchedulerRuns` | the automation scheduler of the relayer, with crashes between any two awaits |
| `WorkerPool` | `mapWithConcurrency`, under every interleaving |
| `Words` | uint256 words, network magic and the fulfilment digest's layout, on chain and off chain |
| `Registry`, `Feed`, `RateLimiter`, `RateBounds` | the NeoDID registry, the data feed, and the fixed-window rate limiter with its exact bound |

## How the models are built

**Kernel.** `KernelState` gives each committed public call as a transition on storage values, *without* the clamps
and defensive branches of the contract: a fee release just subtracts. `KernelInvariant` proves an invariant over
unbounded maps for every transition, and `KernelContract.MorpheusOracle` is the contract itself, storage fields
overwritten step by step with all its clamps, whose methods are proved to do exactly what the clamp-free transition
says. So no clamp ever bites. `KernelEffects` says of each accepted call, in stored fields, what it leaves behind and
exactly when it is accepted, so that transitions and contract cannot agree on something else. A fulfilment's callback may make any finite sequence of public calls, each of which may
fulfil again and call back again, or may revert; the rich callback is tried before the legacy one. A call that the
source aborts returns false and changes nothing. Witnesses, caller, transaction sender and time are inputs.

**Codecs.** Each format is a grammar of *framed* trees (a tree plus how each length was written), an encoder for
framed trees and a function that forgets the framing. The decoders are the source's loops and recursion over buffers
and positions, proved equal to recursive readers. The BER reader is proved sound and complete for its grammar: it
accepts exactly the encodings. The CBOR readers are proved complete for theirs: they read every encoding. Both accept
more than that (repeated or non-text keys, chunks that are tagged or themselves in chunks, and in the web decoder
floats), and the shared one more than the web one. So for arbitrary octets the two decoders are compared with each
other, and what the shared decoder accepts on top is stated exactly, as the guards it leaves out.

**Protocols.** The scheduler stops at every await; the pending write may land or not, and the await may return, throw
or never come back. Only the row and what was broadcast survive. `Scheduler.Relayer` is the loop body as code, proved
to be a run of that machine. The worker pool takes one step of one worker at a time in any order.

## What turned out to be different from the documentation

- A price-threshold job with a cooldown never executes. The evaluation's own patch moves `next_run_at` past the
  claim's time filter before the claim is made (`workers/morpheus-relayer/src/automation.js:754-757`, then 787-790, against
  `workers/morpheus-relayer/src/persistence.js:518-533`). `Scheduler.CooldownStarves` proves it for every run and
  `Scheduler.PriceJobFiresExactlyWhen` that the cooldown is exactly the reason.
- An interrupted execution of a price-threshold job is never retried with its id: the same patch refreshes
  `updated_at`, so the row is too fresh to be reclaimed in that tick (`Scheduler.PriceJobsNeverRetry`). Nor is the last
  execution of a limited job, because the limit is checked before the reclaim. `Scheduler.ReclaimedExactlyWhen` is the
  exact condition.
- The rate limiter's bound of twice the maximum per window length does not hold of every limiter, because an idle
  record is cleaned up while its window may still be open. `RateBounds.BoundExact` gives the exact condition for every
  window, maximum and clock gap. With a clock that stands still during a request the bound holds if and only if the
  window is at most 600001 ms, or the maximum is one and the window is below 1200002 ms; with a clock that may jump by
  any amount, if and only if the window is at most 600000 ms (`RateBounds.BoundByClock`). The clean-up changes no
  decision if and only if window and clock gap together are at most 600000 ms (`RateLimiter.CleanupExact`).
- The two CBOR decoders do not accept the same octets. The shared one leaves out guards of the web one: that a
  string's octets are there, that a stop code stands only where an open container may end, that chunks are of their
  string's kind, that an eight-octet argument is below 2^53 and an array length below 2^32, and that a simple value is
  a known one. On text keys these guards are the whole difference (`CborAgreement.ItemAgrees`); `SharedIsLenient`,
  `ChunkKindsDiffer` and `StringsExact` show inputs.
- The feed message is unambiguous for every pair, also for those that contain the separator the write path refuses:
  the three numbers can be split off from the right (`Feed.FeedMessageInjective`).

## Model

| member | source | states |
|---|---|---|
| KernelTheorems.Conservation | contracts/MorpheusOracle/MorpheusOracle.cs:118-123 | In every reachable state the GAS held is the sum of all credits plus the accrued pool; all fees ever paid are reserved, earned or refunded; accrued less reserved is earned less withdrawn, and never negative |
| KernelTheorems.FullRefund | contracts/MorpheusOracle/MorpheusOracle.cs:802-840 | An expiry credits the payer of the submission with exactly the fee debited then, whatever calls, fee changes and withdrawals came between, and nobody else |
| KernelTheorems.Accounting | contracts/MorpheusOracle/MorpheusOracle.Storage.cs:326-361 | Requests are pending, fulfilled or expired and the counters count them, globally, app by app, and summed over apps |
| KernelTheorems.ReachableInv | contracts/MorpheusOracle/MorpheusOracle.cs:290-306 | The invariant holds in every state reachable from a deployment: ids are exactly 1 to the counter, inbox items exist exactly for closed requests and carry their outcome, reserved is the sum of pending fees, spend is exact, the callback index is exact |
| KernelTheorems.InboxIsFinal | contracts/MorpheusOracle/MorpheusOracle.cs:1150-1185 | A delivered inbox item stays, unchanged and equal to its request's outcome, in every later state |
| KernelTheorems.RunGrows | contracts/MorpheusOracle/MorpheusOracle.cs:1108-1135 | No run loses or re-prices a request, and a closed request never changes again |
| KernelTheorems.BudgetHolds | contracts/MorpheusOracle/MorpheusOracle.Requests.cs:82-98 | Recorded spend is exactly the non-expired sponsored fees; as long as no accepted call allowlists the requester, changes the cap or registers an ungated app under the key, it never passes the cap or what it was at the start |
| KernelTheorems.StepStaysBounded | contracts/MorpheusOracle/MorpheusOracle.Storage.cs:207-231 | Each single call, nested callbacks included, keeps that bound |
| KernelTheorems.IndexAgreesWithScan | contracts/MorpheusOracle/MorpheusOracle.Storage.cs:366-386 | The reverse index finds what a linear scan over all apps would find, also for null and unknown callbacks |
| KernelTheorems.BackfillFirstWins | contracts/MorpheusOracle/MorpheusOracle.Requests.cs:153-183 | Any series of backfill slices, each starting inside what is covered, maps each covered callback to its earliest-registered app, also with duplicate callbacks |
| KernelTheorems.BackfillFromEmpty | contracts/MorpheusOracle/MorpheusOracle.Storage.cs:366-386 | After such a backfill of an empty index, lookups agree with the scan of the covered part |
| KernelTheorems.BackfillEnrols | contracts/MorpheusOracle/MorpheusOracle.Requests.cs:153-183 | After such a series the account membership is what it was and exactly the proper, non-zero admins and fee payers of the covered records |
| KernelTheorems.WithdrawalIsFunded | contracts/MorpheusOracle/MorpheusOracle.cs:718-739 | An allowed withdrawal can always be paid |
| KernelEffects.SubmissionChargesAndRecords | contracts/MorpheusOracle/MorpheusOracle.Requests.cs:15-80 | An accepted submission debits the app's fee payer exactly if it is a proper account other than the requester, has the credit, and the app is ungated, the requester allowlisted, or the cap not exhausted, and else the requester; every other balance stays; the new request records what was asked, for an authorised requester |
| KernelEffects.FulfilmentDelivers | contracts/MorpheusOracle/MorpheusOracle.cs:1108-1166 | The inbox item and the request of an accepted fulfilment carry the call's success, result and error and the submitted module, operation and requester, whatever nested calls the callback makes; it was signed over exactly that answer |
| KernelEffects.ExpiryDelivers | contracts/MorpheusOracle/MorpheusOracle.cs:766-874 | An accepted expiry comes after the TTL, delivers a failure with no result and the expiry text, and refunds the fee to who paid it |
| KernelEffects.AnswerReachesRequester | contracts/MorpheusOracle/MorpheusOracle.cs:1108-1166 | From a submission over any run to its fulfilment: the item pairs what was asked with what was answered |
| KernelEffects.ClosedStays | contracts/MorpheusOracle/MorpheusOracle.cs:1150-1166 | No run changes a closed request or its item |
| KernelEffects.DepositCredits | contracts/MorpheusOracle/MorpheusOracle.Requests.cs:100-150 | A deposit credits the account it names, or its sender, and no stranger without that account's witness |
| KernelEffects.WithdrawalTakesSurplus | contracts/MorpheusOracle/MorpheusOracle.cs:718-742 | A withdrawal is the admin's, takes only unreserved fees, and touches no other balance |
| KernelEffects.SettingsTakeHold | contracts/MorpheusOracle/MorpheusOracle.cs:653-716 | Settings are the admin's, become what the call says, and change nothing else |
| KernelEffects.AppIsStored | contracts/MorpheusOracle/MorpheusOracle.cs:898-930 | The record left by a registration or configuration, field by field, and the accounts it enrols; nothing else changes |
| KernelEffects.ControlsTakeHold | contracts/MorpheusOracle/MorpheusOracle.cs:932-977 | The sponsorship controls: who may set them, what they set, and that the first one gates the app |
| KernelEffects.SubmissionAcceptedExactlyWhen | contracts/MorpheusOracle/MorpheusOracle.cs:1036-1084 | The exact condition for each modern route, in stored fields |
| KernelEffects.AliasIsItsModernCall | contracts/MorpheusOracle/MorpheusOracle.cs:1057-1094 | A legacy alias is the modern call for the app its callback belongs to, with the module its request type stands for, or is refused |
| KernelEffects.ClosingAcceptedExactlyWhen | contracts/MorpheusOracle/MorpheusOracle.cs:766-785 | The exact conditions for a fulfilment and for an expiry |
| KernelEffects.PaymentAcceptedExactlyWhen | contracts/MorpheusOracle/MorpheusOracle.cs:718-732 | The exact conditions for a deposit and for a withdrawal |
| KernelEffects.AdministrationAcceptedExactlyWhen | contracts/MorpheusOracle/MorpheusOracle.Storage.cs:82-109 | The exact conditions for a registration and for the sponsorship controls |
| KernelInvariant.StepKeepsInv | contracts/MorpheusOracle/MorpheusOracle.cs:1108-1224 | Every call keeps the invariant, a fulfilment with re-entrant callbacks included |
| KernelInvariant.SubmittedKeepsInv | contracts/MorpheusOracle/MorpheusOracle.Requests.cs:15-58 | A submission keeps the invariant: fee from credit to reserve, new id, counters, recorded spend |
| KernelInvariant.ExpiredKeepsInv | contracts/MorpheusOracle/MorpheusOracle.cs:766-874 | An expiry keeps it |
| KernelInvariant.FulfilledKeepsInv | contracts/MorpheusOracle/MorpheusOracle.cs:1108-1185 | A fulfilment keeps it |
| KernelInvariant.PendingFeeIsReserved | contracts/MorpheusOracle/MorpheusOracle.cs:418-424 | A pending request's fee is covered by reserved and accrued, so the release and refund clamps are never reached |
| KernelInvariant.SponsoredFeeIsRecorded | contracts/MorpheusOracle/MorpheusOracle.Storage.cs:222-231 | A pending sponsored fee is covered by the recorded spend, so the clamp at zero is never reached |
| KernelInvariant.WithMiniAppKeepsInv | contracts/MorpheusOracle/MorpheusOracle.Storage.cs:241-296 | Storing an app record keeps the callback index the exact inverse of the records' callbacks |
| KernelInvariant.RebuildIsNoOp | contracts/MorpheusOracle/MorpheusOracle.Requests.cs:153-183 | On an intact registry, rebuilding any slice changes nothing |
| KernelContract.MorpheusOracle.SubmitMiniAppRequestInternal | contracts/MorpheusOracle/MorpheusOracle.Requests.cs:15-58 | Commits exactly when allowed, with exactly the clamp-free transition's state |
| KernelContract.MorpheusOracle.Submit | contracts/MorpheusOracle/MorpheusOracle.cs:1036-1094 | All six submission entry points, the legacy aliases included, do the same for the requester and app they resolve |
| KernelContract.MorpheusOracle.ConsumeRequestFeeFromPayer | contracts/MorpheusOracle/MorpheusOracle.Requests.cs:187-202 | The payer is debited and the accrued and reserved pools credited, or nothing happens |
| KernelContract.MorpheusOracle.ExpireStaleRequest | contracts/MorpheusOracle/MorpheusOracle.cs:766-874 | Commits exactly when allowed; with its clamps it does what the clamp-free refund does |
| KernelContract.MorpheusOracle.FulfillRequest | contracts/MorpheusOracle/MorpheusOracle.cs:1108-1224 | Writes first, then runs the callback's calls, or none if it reverts; the outcome is the transition's and the invariant holds after |
| KernelContract.MorpheusOracle.CheckFulfilment | contracts/MorpheusOracle/MorpheusOracle.cs:1108-1134 | A fulfilment passes exactly if the updater signs, the request is pending, lengths fit, and the 64-octet signature verifies over this request's id, app, module, operation and outcome |
| KernelContract.MorpheusOracle.ReleaseReservedFee | contracts/MorpheusOracle/MorpheusOracle.cs:418-424 | Subtracts a positive amount from the reserve, clamped at zero, and touches nothing else |
| KernelContract.MorpheusOracle.RecordSponsoredSpend | contracts/MorpheusOracle/MorpheusOracle.Storage.cs:207-220 | Adds a positive fee to a valid requester's spend for the app, and otherwise changes nothing |
| KernelContract.MorpheusOracle.ReleaseSponsoredSpend | contracts/MorpheusOracle/MorpheusOracle.Storage.cs:222-231 | Subtracts a positive amount from a valid requester's spend, clamped at zero, and otherwise changes nothing |
| KernelContract.MorpheusOracle.WithdrawAccruedFees | contracts/MorpheusOracle/MorpheusOracle.cs:718-742 | Pays out of the unreserved surplus only |
| KernelContract.MorpheusOracle.OnNep17Payment | contracts/MorpheusOracle/MorpheusOracle.cs:1096-1106 | Credits the resolved beneficiary with the GAS received, or rejects the payment |
| KernelContract.MorpheusOracle.PutMiniApp | contracts/MorpheusOracle/MorpheusOracle.Storage.cs:241-296 | Stores the record and moves the callback index with it |
| KernelContract.MorpheusOracle.RegisterMiniApp | contracts/MorpheusOracle/MorpheusOracle.cs:898-909 | Commits exactly when allowed, the metadata lengths included, storing an active record and its callback; sponsorship is not touched, so registration gates nothing |
| KernelContract.MorpheusOracle.ConfigureMiniApp | contracts/MorpheusOracle/MorpheusOracle.cs:911-930 | Commits exactly when allowed, the metadata lengths included, and keeps admin and creation time |
| KernelContract.MorpheusOracle.RebuildIndexes | contracts/MorpheusOracle/MorpheusOracle.Requests.cs:153-183 | The slice loop is the fold over the slice |
| KernelContract.MorpheusOracle.Execute | contracts/MorpheusOracle/MorpheusOracle.cs:653-1224 | Any modelled call behaves as the transition system and keeps the invariant |
| Cms.TranscodeMeaning | deploy/nitro/nsm-attest/cms.go:103-117 | The transcoder outputs a string exactly if the input is some BER encoding of some tree plus zero padding and the output is the DER of that tree (X.690, sections 8.1.3 and 10.1) |
| Cms.ConvertTlv | deploy/nitro/nsm-attest/cms.go:119-209 | On success appends the DER of the element at the front and returns what follows; fails exactly when the BER parser does, with its error |
| Cms.BerToDer | deploy/nitro/nsm-attest/cms.go:103-117 | One element and zero padding; anything else is an error |
| Cms.WriteTagLen | deploy/nitro/nsm-attest/cms.go:212-229 | Writes the tag and the DER length |
| Cms.TrailingDataIsRefused | deploy/nitro/nsm-attest/cms.go:103-117 | After one element exactly zero octets are tolerated |
| BerGrammar.DerLengthMinimal | deploy/nitro/nsm-attest/cms.go:212-229 | No legal writing of a length is shorter than the one written |
| BerParser.ParseSound | deploy/nitro/nsm-attest/cms.go:119-209 | What the parser reads is a well-formed element whose encoding is the consumed prefix |
| BerParser.ParseComplete | deploy/nitro/nsm-attest/cms.go:119-209 | It reads every well-formed element back, whatever follows |
| Cms.BerUnambiguous | deploy/nitro/nsm-attest/cms.go:119-209 | A prefix has one reading, and bytes after the element only reappear in the remainder |
| Cms.DerFixedPoint | deploy/nitro/nsm-attest/cms.go:103-209 | DER of trees whose contents stay below 2^32 octets comes out unchanged |
| Cms.DerInjective | deploy/nitro/nsm-attest/cms.go:212-229 | Distinct trees have distinct DER |
| Cms.TranscodeIdempotent | deploy/nitro/nsm-attest/cms.go:103-117 | Transcoding an output shorter than 2^32 octets again changes nothing |
| CmsContent.ConcatOctetSegments | deploy/nitro/nsm-attest/cms.go:231-265 | The loop joins the segments' contents, or fails as the specification does |
| CmsContent.JoinSegmentsSound | deploy/nitro/nsm-attest/cms.go:231-265 | What is joined was a sequence of primitive OCTET STRING elements |
| CmsContent.SegmentedRecovery | deploy/nitro/nsm-attest/cms.go:119-265 | Octets split into segments, in definite or indefinite form and with any legal lengths, are recovered by transcoding and joining (X.690, section 8.7.3) |
| CmsContent.Pkcs7Inverse | deploy/nitro/nsm-attest/cms.go:437-456 | Unpadding accepts exactly the padded strings and undoes section 6.3 of RFC 5652, for block sizes 1 to 255 |
| Cose.DecodersAgree | packages/shared/src/cbor.js:25-140 | Both decoders read the same value from every encoding of an item, and the shared one stops right behind it, whatever follows (RFC 8949, section 3.2) |
| CborAgreement.ItemAgrees | apps/web/lib/nitro-attestation.ts:232-376 | At every position of every buffer: what the web decoder reads the shared one reads too, floats as null, stopping where it stops, or refuses exactly if a map key on the way is not text; and with text keys the web decoder reads if and only if the shared one does and the guards it leaves out hold |
| CborAgreement.AcceptedMeansTheSame | packages/shared/src/cbor.js:25-140 | The same for whole buffers, as an if-and-only-if; without floats the values are equal |
| CborAgreement.StringsExact | packages/shared/src/cbor.js:74-77 | For every definite string: the shared decoder reads what octets there are and steps over the whole length, the web decoder reads the same if all are there and else reports truncation |
| CborAgreement.SharedIsLenient | packages/shared/src/cbor.js:25-140 | Inputs the shared decoder reads and the web decoder refuses: a truncated string, a bare stop code, an unknown simple value, a stop code for a pair |
| CborAgreement.ChunkKindsDiffer | packages/shared/src/cbor.js:62-72 | And a byte string with a text chunk |
| CborRead.ReadComplete | packages/shared/src/cbor.js:25-140 | The shared decoder's reader returns the tree of any framing, at any position |
| CborRead.CborRead | packages/shared/src/cbor.js:25-140 | The position-advancing decoder computes that reader, errors included |
| CborDecoding.DecodeComplete | apps/web/lib/nitro-attestation.ts:176-376 | The web decoder's reader returns the tree of any framing |
| CborDecoding.CborDecoder.ReadValue | apps/web/lib/nitro-attestation.ts:232-376 | The decoder object computes that reader and leaves its position behind the item |
| CborDecoding.CborDecoder.DecodeFirst | apps/web/lib/nitro-attestation.ts:184-191 | Decodes the whole buffer, trailing octets being an error |
| Cose.CborEncodeSigStructure | packages/shared/src/cose-verify.js:24-45 | Writes the array of texts and byte strings with the narrowest heads, for lengths below 2^32 |
| Cose.SigStructureRoundTrip | packages/shared/src/cose-verify.js:24-45 | The shared decoder undoes the encoder, across all length classes |
| Cose.HeadsAreNarrowest | packages/shared/src/cose-verify.js:25-33 | No head that fits a length is shorter than the one written |
| Cose.BuildCoseSign1SigStructure | packages/shared/src/cose-verify.js:58-65 | For header and payload below 2^32 octets, and only then, writes what reads as the array of "Signature1", header, nothing and payload |
| Cose.Sign1StructureReads | packages/shared/src/cose-verify.js:58-65 | The encoded structure reads as those four values in that order, whatever follows |
| Cose.Sign1Sound | packages/shared/src/cbor.js:148-168 | What is taken for a message is an array of four whose third is a byte string that holds the payload returned |
| Cose.SigStructureInjective | packages/shared/src/cose-verify.js:24-45 | Distinct item lists never share an encoding |
| Cose.Sign1StructureInjective | packages/shared/src/cose-verify.js:58-65 | The signed structure determines protected header and payload (RFC 8152, section 4.4) |
| Cose.Sign1Recovered | packages/shared/src/cbor.js:148-168 | A COSE_Sign1 message in any framing yields its header, payload octets, payload map and signature |
| Cose.Es384Exact | packages/shared/src/cose-verify.js:79-92 | Every 96-octet signature becomes a well-formed SEQUENCE of two minimal non-negative INTEGERs with the halves' values, in at most 104 octets, injectively (X.690, sections 8.3.2 and 10.1) |
| Cose.CoseEs384SignatureToDer | packages/shared/src/cose-verify.js:79-92 | Converts exactly the 96-octet inputs, to the DER of that SEQUENCE |
| Cose.IntegerContentExact | packages/shared/src/cose-verify.js:81-87 | Trimming zeros and adding a sign octet gives the minimal two's complement of the same unsigned value |
| Scheduler.BroadcastsAreCounted | workers/morpheus-relayer/src/automation.js:740-847 | Whatever crashes and fails, every broadcast id is that of an execution the durable count covers; at most max_executions distinct ids |
| Scheduler.StepKeepsInv | workers/morpheus-relayer/src/automation.js:740-847 | Each event keeps the invariant; the count rises, by one, exactly when a fresh claim lands on a row that passes its filter, and broadcasts are only added |
| Scheduler.PinnedBeforeBroadcast | workers/morpheus-relayer/src/automation.js:765-805 | At a broadcast the durable row already counts and pins that id and is mid-flight |
| Scheduler.FreshClaimMintsNewId | workers/morpheus-relayer/src/automation.js:638-654 | A fresh claim's id was never broadcast before |
| Scheduler.ReclaimReDerives | workers/morpheus-relayer/src/automation.js:630-654 | A row left mid-flight re-derives the id it has pinned and is not advanced again |
| Scheduler.InterruptedRowIsReclaimable | workers/morpheus-relayer/src/automation.js:522-562 | A crash or non-terminal error between claim and finalising write leaves the row reclaimable for the same execution |
| Scheduler.ReclaimedExactlyWhen | workers/morpheus-relayer/src/automation.js:461-513 | When a reclaimable row's id is broadcast again: if and only if it went stale, has executions left and runs on a clock |
| Scheduler.CooldownStarves | workers/morpheus-relayer/src/automation.js:420-459 | A price job with a cooldown broadcasts nothing in any run |
| Scheduler.PriceJobFiresExactlyWhen | workers/morpheus-relayer/src/automation.js:420-459 | A fetched price job whose awaits succeed is broadcast if and only if its comparator fires against the threshold and the price before, and it has no cooldown; the price is then the one before |
| Scheduler.PriceJobsNeverRetry | workers/morpheus-relayer/src/automation.js:740-800 | A price job never broadcasts an id twice |
| SchedulerRuns.OneShotIsOver | workers/morpheus-relayer/src/automation.js:564-583 | Once a one-shot job's finalising write has landed, no continuation broadcasts anything |
| SchedulerRuns.OneShotFiresOnce | workers/morpheus-relayer/src/automation.js:564-583 | An uninterrupted one-shot job broadcasts exactly one id, however the run goes on |
| SchedulerRuns.ClockJobExecutes | workers/morpheus-relayer/src/automation.js:515-593 | A due clock job's uninterrupted execution broadcasts the next id once and leaves the row completed, or active for its interval after the evaluation |
| SchedulerRuns.IntervalWaits | workers/morpheus-relayer/src/automation.js:515-520 | After a finalised execution of an interval job nothing is broadcast before its evaluation time plus the interval |
| SchedulerRuns.IntervalFiresExactlyWhen | workers/morpheus-relayer/src/automation.js:515-520 | The next tick broadcasts the next id if and only if that time has come |
| SchedulerRuns.LimitedJobIsOver | workers/morpheus-relayer/src/automation.js:574-581 | After the last allowed execution is finalised, no continuation broadcasts anything |
| SchedulerRuns.UnpaidFeeStops | workers/morpheus-relayer/src/automation.js:522-538 | An unpaid fee ends the job wherever it is reported |
| SchedulerRuns.EarlyErrorReactivates | workers/morpheus-relayer/src/automation.js:555-562 | An error before the claim lands leaves the row active at the same count |
| Scheduler.RequestIdInjective | packages/shared/src/automation-supervisor.js:32-68 | Two executions of a job never share a request id |
| Scheduler.Relayer.ProcessJob | workers/morpheus-relayer/src/automation.js:740-864 | One pass of the loop body, its in-flight flag and error handler included, is a run of the machine |
| Scheduler.Relayer.ClaimJob | workers/morpheus-relayer/src/persistence.js:512-588 | The conditional claim changes the row exactly when its filter holds and the write lands |
| WorkerPool.EveryRun | packages/shared/src/utils.js:96-118 | Under every interleaving never more than the limit is in flight (or one item, if the limit is less) nor more than there are items, the run is bounded accordingly, and what was pulled is a prefix in order |
| WorkerPool.FirstTurns | packages/shared/src/utils.js:115-116 | No pool is narrower than it need be: as many items as the limit and their number allow, and at least one, can be pulled before any settles |
| WorkerPool.RefinesSequentialMap | packages/shared/src/utils.js:96-118 | A settled pool fails exactly if some item fails, with the error of an item that was pulled, and else holds every value in order |
| WorkerPool.NothingPulledAfterFailure | packages/shared/src/utils.js:101-113 | After a failure no index is pulled and the error stays the first |
| WorkerPool.NoDeadlock | packages/shared/src/utils.js:101-117 | A pool that cannot step has settled |
| WorkerPool.MapWithConcurrency | packages/shared/src/utils.js:96-118 | The loop, under any choice of worker, is a run of the pool and returns its outcome: the sequential map or some item's error |
| Words.ToUInt256Bytes | contracts/MorpheusOracle/MorpheusOracle.Fulfillment.cs:25-43 | Accepts exactly 0 to 2^256 - 1 and fills the 32-octet big-endian word |
| Words.WordsAgree | packages/shared/src/neo-encoding.js:28-40 | The hexadecimal encoder accepts the same values, fails with the same error and gives the same word |
| Words.WordIsBigEndian | packages/shared/src/neo-encoding.js:28-40 | The word has 32 octets and the value as its big-endian number |
| Words.ByteArrayLength | contracts/MorpheusOracle/MorpheusOracle.Fulfillment.cs:28-34 | A value fits exactly if its two's complement octets number at most 32, or 33 with a zero sign octet |
| Words.MagicsAgree | packages/shared/src/neo-encoding.js:18-22 | The two network-magic encoders agree, and their octets are the low 32 bits |
| Words.PreimageInjective | contracts/MorpheusOracle/MorpheusOracle.Fulfillment.cs:45-60 | Equal digest preimages force equal id, flag, script hash, magic and component hashes |
| Words.SignerMatchesContract | workers/morpheus-relayer/src/router.js:345-360 | The off-chain signer hashes the same octets as the contract, for every request, outcome and deployment |
| Decimals.DecimalParses | packages/shared/src/automation-supervisor.js:60-62 | Decimal text denotes its number, most significant digit first and without a leading zero |
| Registry.NullifiersAreSingleUse | contracts/NeoDIDRegistry/NeoDIDRegistry.cs:125-237 | In every run from deployment a master nullifier is consumed by at most one registration and an action nullifier by at most one ticket |
| Registry.BindingsAreDistinct | contracts/NeoDIDRegistry/NeoDIDRegistry.cs:183-203 | A binding found under a key has that key's fields, and no two bindings share a master nullifier |
| Registry.BindingKeyInjective | contracts/NeoDIDRegistry/NeoDIDRegistry.cs:276-282 | Vault, provider and claim type can be read off the storage key |
| Registry.BindingPreimageInjective | contracts/NeoDIDRegistry/NeoDIDRegistry.cs:284-297 | A binding preimage determines all signed fields |
| Registry.ActionPreimageInjective | contracts/NeoDIDRegistry/NeoDIDRegistry.cs:299-308 | An action preimage determines all signed fields |
| Registry.DomainsAreApart | contracts/NeoDIDRegistry/NeoDIDRegistry.cs:284-308 | No binding preimage is an action preimage |
| Registry.SignerMatchesRegistry | workers/nitro-worker/src/neodid/index.js:396-425 | The off-chain signer hashes the same octets as the contract, for every binding and every ticket |
| Registry.RegistrationStores | contracts/NeoDIDRegistry/NeoDIDRegistry.cs:125-165 | The record left by a registration, field by field, who may make it and what must be signed; nothing else changes |
| Registry.RevocationEnds | contracts/NeoDIDRegistry/NeoDIDRegistry.cs:167-180 | A revocation ends one active binding and changes nothing else |
| Registry.TicketIsConsumed | contracts/NeoDIDRegistry/NeoDIDRegistry.cs:222-237 | A ticket is used by its own account, unused before and signed, and consumed at the call's time |
| Registry.AcceptedExactlyWhen | contracts/NeoDIDRegistry/NeoDIDRegistry.cs:250-274 | The exact conditions for a registration, a revocation and a ticket |
| Registry.SettingTakesHold | contracts/NeoDIDRegistry/NeoDIDRegistry.cs:95-114 | Settings are the admin's and touch no binding |
| Registry.NeoDIDRegistry.RegisterBinding | contracts/NeoDIDRegistry/NeoDIDRegistry.cs:125-165 | Commits exactly when allowed; the new state is the transition's |
| Registry.NeoDIDRegistry.RevokeBinding | contracts/NeoDIDRegistry/NeoDIDRegistry.cs:167-180 | Deactivates an active binding for its owner or the admin; the nullifier stays consumed |
| Registry.NeoDIDRegistry.UseActionTicket | contracts/NeoDIDRegistry/NeoDIDRegistry.cs:222-237 | Consumes an unused ticket for the account's own witness |
| Registry.NeoDIDRegistry.EncodeCanonicalHash160 | contracts/NeoDIDRegistry/NeoDIDRegistry.cs:332-342 | The loop reverses the hash |
| Feed.FeedHistory | contracts/MorpheusDataFeed/MorpheusDataFeed.cs:272-311 | From deployment each pair reads as the six arguments of the last accepted write for it, the index lists every written pair once in first-write order, and without AdminResetFeed rounds strictly rise and timestamps never fall |
| Feed.FirstWritesAreDistinct | contracts/MorpheusDataFeed/MorpheusDataFeed.cs:177-184 | The order the index is compared with lists each written pair exactly once |
| Feed.LatestIsLast | contracts/MorpheusDataFeed/MorpheusDataFeed.cs:402-410 | A pair's latest update is the last one for it in the history |
| Feed.SingleWriteStores | contracts/MorpheusDataFeed/MorpheusDataFeed.cs:257-291 | An accepted write or reset stores its six arguments, an absent hash as empty, for the updater or the admin only; other pairs stay |
| Feed.BatchStores | contracts/MorpheusDataFeed/MorpheusDataFeed.cs:369-391 | After an accepted batch each pair reads as the last update for it, and the others as before |
| Feed.KeyedWritesAreSigned | contracts/MorpheusDataFeed/MorpheusDataFeed.cs:219-240 | With a key registered every write of the updater is signed over its pair, price, timestamp and round |
| Feed.WriteAcceptedExactlyWhen | contracts/MorpheusDataFeed/MorpheusDataFeed.cs:244-291 | The exact conditions for a write and for a reset |
| Feed.BatchIsTheUpdaters | contracts/MorpheusDataFeed/MorpheusDataFeed.cs:369-377 | The exact conditions for a batch |
| Feed.SettingTakesHold | contracts/MorpheusDataFeed/MorpheusDataFeed.cs:113-157 | Settings are the admin's and touch no record |
| Feed.FeedMessageExample | workers/nitro-worker/src/oracle/feeds/feed-submit.js:51-60 | The order of the message's fields |
| Feed.BatchIsItsSingles | contracts/MorpheusDataFeed/MorpheusDataFeed.cs:369-391 | A batch commits exactly when its writes sent singly would all be accepted, with the same outcome |
| Feed.MorpheusDataFeed.UpdateFeeds | contracts/MorpheusDataFeed/MorpheusDataFeed.cs:369-391 | The batch loop is the left fold of single writes, all or nothing, and rejects misaligned arrays |
| Feed.MorpheusDataFeed.UpdateFeedInternal | contracts/MorpheusDataFeed/MorpheusDataFeed.cs:272-291 | Commits exactly when inputs, signature and monotonicity allow |
| Feed.MorpheusDataFeed.AdminResetFeed | contracts/MorpheusDataFeed/MorpheusDataFeed.cs:349-356 | Writes past the monotonicity guard, for the admin |
| Feed.MorpheusDataFeed.GetAllPairs | contracts/MorpheusDataFeed/MorpheusDataFeed.cs:302-311 | The listing loop returns the index in order |
| Feed.FeedMessageInjective | contracts/MorpheusDataFeed/MorpheusDataFeed.cs:199-208 | The signed message determines pair, price, timestamp and round, for every pair |
| RateBounds.BoundExact | apps/web/lib/rate-limit.ts:33-62 | For every limiter and clock gap: all runs admit at most twice the maximum per key in any closed interval one window long, if and only if Suits holds of window, maximum and gap |
| RateBounds.BoundByClock | apps/web/lib/rate-limit.ts:33-62 | The same for a clock that stands still during a request and for one that may jump, with the condition in plain numbers |
| RateBounds.RateBound | apps/web/lib/rate-limit.ts:33-62 | The bound, run by run, for every limiter that suits |
| RateBounds.BoundFails | apps/web/lib/rate-limit.ts:53-62 | For every limiter that does not suit, a run that admits more |
| RateLimiter.CleanupExact | apps/web/lib/rate-limit.ts:53-62 | The clean-up changes no decision of any run if and only if window and clock gap together are at most 600000 ms |
| RateLimiter.CleanupIsInvisible | apps/web/lib/rate-limit.ts:53-62 | Under that condition, decisions are those of a limiter without clean-up, from any pair of states that differ in stale records only |
| RateLimiter.CleanupShows | apps/web/lib/rate-limit.ts:53-62 | Without it, for every maximum, some run is decided differently |
| RateLimiter.RateLimiter.IncrementLocalCounter | apps/web/lib/rate-limit.ts:33-51 | Cleans up, then counts in the current window or opens a new one |
| RateLimiter.RateLimiter.CleanupStaleEntries | apps/web/lib/rate-limit.ts:53-62 | The deletion loop removes exactly the stale entries, at most once per interval |
| RateLimiter.RateLimiter.Allow | apps/web/lib/rate-limit.ts:106-137 | Admits exactly the requests counted within the maximum |

## Left out

Kernel
- System modules, their grants and their metadata: whether a task's module is active and granted is one boolean of the task.
- App key/value state, encryption and verification keys, contract update and events.
- SHA-256 keys of inbox and sponsorship maps: the hash is an arbitrary function, and statements about a key speak of its hash. The fulfilment signature check is a function of the signed fields and the signature, supplied with each call.
- Null and empty results and errors are one value. Whether a closed request expired or failed is kept as history, since the source gives both one status.
- The GAS transfer of a withdrawal is atomic and its recipient makes no calls; a withdrawal to the kernel itself is modelled. GAS enters through OnNEP17Payment only.
- A fault that the virtual machine does not let the fulfilment catch aborts the whole transaction, which is a call with no effect.
- Storage records are grouped in five fields by purpose. PutMiniApp checks the callback's owner before its first write, which an abort makes equal.
- Callback lookups over legacy duplicates after a winner repoints, and backfill slices that start past what is covered: the source promises nothing there.
- KernelContract.MorpheusOracle.SubmitMiniAppRequestInternal: does not model the module registry; whether the task's module exists, is active and is granted to the app is one boolean of the task.

Codecs
- Bit operations are written as arithmetic; Go's 64-bit int never overflows at the lengths a buffer can have.
- CMS envelope parsing, RSA and AES of cms.go: native cryptography and encoding/asn1.
- JavaScript number rounding at 2^53 and above, floats (kept as raw bits), UTF-8 validity of text, arrays of 2^32 elements and more.
- Map keys that are not text in the web decoder, integer-like and `__proto__` property names, and object-identity keys in the shared one: object coercion. An encoding the decoders are proved to agree on has distinct text keys.
- An indefinite string whose chunk is an array of numbers: the shared decoder coerces it, the model reports a bad chunk.

Protocols
- Scheduler: one job and one relayer at a time; the loop over a batch, its counters, the idle back-off and the run records. The queue's reply is taken to name the request id it was given. A cancellation racing the finalising write is not modelled.
- Job rows come with their texts trimmed, a non-empty automation id and no explicit request id.
- Worker pool: a limit that is not a whole number, and worker functions that answer differently when called twice.

Words, registry, feed, limiter
- Parsing the decimal text before encodeUint256Word; magics beyond 2^53.
- The relayer's digest for the legacy chain, and for deployments without a script hash; the worker's normalisation of ticket fields before it signs.
- Registry and feed entry points that only set the admin, updater or a key are transitions of the runs but have no method of their own. Signature checks are functions of key, message and signature; nothing is assumed of SHA-256.
- Storage key length limits of the Neo virtual machine.
- Rate limiter: the Upstash counter and requests interleaved while it is awaited, HTTP headers, client address parsing. Limits are whole positive numbers.
