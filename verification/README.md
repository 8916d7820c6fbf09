# A verified model of the notification server's trust core

This project models, in Dafny, the parts of the notification server that decide whom to trust: the witness that co-signs
directory tree heads, the rotating online keysets and the store that remembers them, the manager that hands them out, the
topic keys and their erasure, the canonical bytes under every signature, the one-use token identifiers, the encrypted
delivery wrapper with its replay window, the association history, and the rate limiters. It proves properties of that
model over every input, every run or every reachable state.

| file | what it models |
|---|---|
| `Merkle.dfy` | the consistency verifier of section 2.1.2 of RFC 6962: soundness, completeness, proof length, termination |
| `TreeHeads.dfy`, `WitnessLedger.dfy` | tree heads, their signed bytes, and the append-only ledger of co-signed heads over whole runs |
| `KeyRotation.dfy`, `Tokens.dfy` | rotation rules along chains of accepted keysets, and the tokens in flight across them |
| `KeysetStore.dfy`, `TrustManager.dfy`, `ManagerClose.dfy` | the durable high-water row shared by replicas, one replica's manager as a state machine over its lock-protected sections, and what its close tells a caller |
| `Epochs.dfy`, `TopicKeys.dfy`, `Redaction.dfy` | topic epochs and schedules, key erasure under two clocks, and the in-place redaction of secrets |
| `Decimal.dfy`, `Unicode.dfy`, `CanonicalJson.dfy`, `Transcripts.dfy` | the restricted profile of RFC 8785: printer, strict parser, signed transcripts |
| `Receipts.dfy`, `JtiCache.dfy` | one-use token identifiers in the database, racing a purge, and in process |
| `Framing.dfy`, `Headers.dfy`, `ReplayWindow.dfy`, `Wrapper.dfy` | the delivery wrapper: inner frame, authenticated header, replay window, sealing and opening |
| `Association.dfy` | the paged update history, the difference check, and the fold to associated or revoked |
| `Buckets.dfy` | the two token buckets and the retry backoff |

Conventions. Code that changes things in place is a class or a method with loops, proved against a function or a relation
on values; protocols with concurrency are state machines whose steps are the source's critical sections or database
statements. Digests, signatures, MACs, the AEAD and base64 are function parameters; nothing is assumed of the digest (a
broken claim yields an explicit collision), of signing only that a signature verifies, of the AEAD that opening inverts
sealing and adds sixteen bytes and, where the claim is that nobody forges a wrapper, that it opens nothing but what some
recorded call encrypted. Clocks, randomness and the fate of database calls are arguments. Instants are integers, in
nanoseconds except in the keyset modules, which count milliseconds.

## Findings

Where a property turned out not to hold of the code as it stands, the model keeps the code, a lemma gives an input, and
another states exactly when the property holds.

- A repeated `Close` of a closed manager returns nil without waiting for the retry worker, both while another `Close` waits (`ManagerClose.RepeatCloseLeavesWorker`) and, for a thread that closes alone, between the worker's last unlock and its end (`ManagerClose.SoleCloserLeavesWorker`). Unless another `Close` is in progress it does find a worker that takes no lock and calls no store again (`ManagerClose.RepeatCloseIsSafeAlone`, `ManagerClose.QuietForGood`). That the worker has ended is certain exactly when a `Close` that did the closing, or a `CloseContext`, has returned nil (`ManagerClose.StoppedIsKnownExactly`); a repeated `Close` adds nothing to that (`ManagerClose.RepeatCloseTellsNothing`).
- The delivery rate limiter truncates its wait to whole nanoseconds and admits at zero without taking a token. With a rate that does not divide a billion, such as 3 a second, it admits any number of calls at one instant; it keeps its rate exactly when the rate divides a billion (`Buckets.DeliveryKeepsRateExactly`).
- The doubling loop behind the tree split never ends for values above 2^63 (`Merkle.LoopStopsExactly`); a valid head cannot carry one.
- The in-process replay store does not compare the clock with the deadline it is given, so a call after the deadline is accepted again (`JtiCache.LateCallIsAcceptedAgain`), and so is a call in time once another caller's reading has passed the deadline (`JtiCache.EarlyReadingIsAcceptedAgain`). In whatever order the readings come, the next call with an identifier is accepted exactly when it, or a call since the last acceptance, came with a reading past that deadline (`JtiCache.NextIsAcceptedExactly`).
- The replay window stores any header it is given, also one that a restore refuses (`ReplayWindow.InvalidHeaderIsLost`); transfers inserted anywhere between calls are invisible exactly when every header the window accepts would pass the checks of a restore (`ReplayWindow.InvisibleExactly`), as every header that the wrapper has validated does (`ReplayWindow.ValidCallsHideTransfers`).
- The retry jitter multiplies in 64 bits, so a base of 15 million seconds scaled by 1.25 comes out at three and a half days (`Buckets.LongBaseWraps`); the delay stays within a quarter of its base exactly when the product does not wrap (`Buckets.JitterBoundsExactly`). No caller passes such a base: configured delays end at two minutes, where the bound always holds (`Buckets.ConfiguredJitterIsNear`).
- Sealing an empty message is refused by the inline size estimate, so the branch that would fall back to a foreground wrapper for it is never reached (`Wrapper.Choose`).

## Model

| member | source | states |
|---|---|---|
| Merkle.LargestPowerOfTwoLessThan | pkg/a3trust/witness.go:461-470 | the loop ends, without wrap-around, for every value up to 2^63, at the unique power of two that is smaller than the value and at least half of it |
| Merkle.LoopStopsExactly | pkg/a3trust/witness.go:461-470 | on 64-bit words the doubling loop has a terminating round if and only if the value is at most 2^63 |
| Merkle.SplitShared | pkg/a3trust/witness.go:421-453 | the split point of a tree is also the split point of every larger prefix of it, which the right-hand recursion relies on |
| Merkle.EncodeInjective | pkg/a3trust/witness.go:472-478 | the domain-separated byte encodings of the empty tree, a leaf and a node never coincide |
| Merkle.RootBindsLeaves | pkg/a3trust/witness.go:410-478 | two leaf sequences of one size with one root are equal, or an explicit digest collision has been computed |
| Merkle.VerifySubtree | pkg/a3trust/witness.go:421-453 | the recursive closure with its shared cursor computes the pure walk over the proof, in both hashes, the verdict and the elements consumed |
| Merkle.VerifyConsistency | pkg/a3trust/witness.go:410-459 | accepts exactly the consistent pairs of heads: equal sizes only with equal roots and no proof, and otherwise only a proof consumed to its end |
| Merkle.ConsistencySound | pkg/a3trust/witness.go:410-459 | for every leaf sequence behind the new root, an accepted old root is the root of its first oldSize leaves, or an explicit digest collision has been computed |
| Merkle.ConsistencyComplete | pkg/a3trust/witness.go:410-459 | the proof of section 2.1.2 of RFC 6962 is accepted for every 0 < m < n, all of it consumed |
| Merkle.WalkUses | pkg/a3trust/witness.go:421-453 | how many proof elements a walk takes depends on the two sizes alone, and it fails exactly when there are fewer |
| Merkle.AcceptedProofIsShort | pkg/a3trust/witness.go:34 | every accepted proof for sizes up to 2^53-1 has at most 54 elements, so the limit of 64 never rejects an honest proof |
| TreeHeads.HeadObjectInjective | pkg/a3trust/witness.go:376-395 | the canonical object determines every field of the head |
| TreeHeads.CanonicalTreeHead | pkg/a3trust/witness.go:366-395 | prints exactly the valid heads, with context and length prefix, and refuses all others |
| TreeHeads.CanonicalBytesInjective | pkg/a3trust/witness.go:376-395 | two heads with the same signed bytes are the same head |
| TreeHeads.DecodeHashOf | pkg/a3trust/witness.go:480-486 | decoding the hexadecimal spelling of a digest gives the digest back |
| TreeHeads.VerifyWitnessExtension | pkg/a3trust/witness.go:397-408 | accepts exactly a valid head whose proof is consistent, or a first head with an empty proof |
| TreeHeads.ExtensionProofIsShort | pkg/a3trust/witness.go:397-408 | every accepted extension has a proof within the stored limit |
| WitnessLedger.EncodeWitnessProof | pkg/db/a3_witness_store.go:1269-1275 | stores a proof so that cutting the bytes into digests gives the same proof back |
| WitnessLedger.ValidStoredWitness | pkg/db/a3_witness_store.go:1242-1267 | accepts a stored row exactly when its key, canonical bytes, proof and signature all fit its own columns |
| WitnessLedger.ReadLatest | pkg/db/a3_witness_store.go:1187-1240 | finds a row of the greatest tree size, or that there is none |
| WitnessLedger.ReadAt | pkg/db/a3_witness_store.go:1145-1185 | finds the row of a tree size, or that there is none |
| WitnessLedger.CheckProposal | pkg/db/a3_witness_store.go:998-1011 | passes exactly the proposals whose environment, key, canonical bytes and proof are in order |
| WitnessLedger.Decide | pkg/db/a3_witness_store.go:1030-1086 | with an empty ledger or a latest row in order under the proposed key: writes exactly a timely continuation, calls a fork exactly a timely proposal that is neither on record nor a continuation, and reuses only the very row on record |
| WitnessLedger.Replay | pkg/db/a3_witness_store.go:1048-1077 | a proposal no larger than the latest head is a fork if and only if it is not on record word for word |
| WitnessLedger.Judge | pkg/db/a3_witness_store.go:992-1124 | one call under any fault or ambiguous commit: what may be written, what may be signed, what a fork means, and that a fault-free continuation is signed |
| WitnessLedger.WrittenRowIsValid | pkg/db/a3_witness_store.go:1242-1275 | every row ever written passes the check that later calls make of it |
| WitnessLedger.InsertKeepsLedger | pkg/db/a3_witness_store.go:1078-1124 | a written row keeps the table one chain from the empty tree with strictly growing sizes and nondecreasing timestamps, all verifiable |
| WitnessLedger.SizesGrow | pkg/db/a3_witness_store.go:1078-1086 | along the chain tree sizes strictly grow and timestamps never fall |
| WitnessLedger.SignedHeadsArePrefixes | pkg/db/a3_witness_store.go:992-1124 | whatever leaves stand behind the latest root, every head on record is the root of a prefix of them, or an explicit collision has been computed from the stored proofs |
| WitnessLedger.JudgedKeepsSound | pkg/db/a3_witness_store.go:992-1124 | chain, verifiability and a row behind every released signature survive any outcome of a call, also an ambiguous commit |
| WitnessLedger.Settle | pkg/db/a3_witness_store.go:992-1124 | a call adds at most one continuation, records whatever it signs, never changes the rows on a fork, and leaves the ledger sound |
| WitnessLedger.OneHeadPerSize | pkg/db/a3_witness_store.go:992-1124 | no two different heads of one size ever get a released signature |
| WitnessLedger.SignedHeadsAgree | pkg/db/a3_witness_store.go:992-1124 | of any two heads ever signed the smaller is the root of a prefix of whatever leaves stand behind the larger, or an explicit collision has been computed |
| WitnessLedger.EnvironmentLedger.AcceptDirectoryTreeHead | pkg/db/a3_witness_store.go:992-1124 | a call appends at most one continuation, keeps every earlier row and signature, and leaves the ledger sound; a fork changes nothing |
| WitnessLedger.EnvironmentLedger.Serve | pkg/db/a3_witness_store.go:992-1124 | any sequence of calls with any faults keeps the ledger sound |
| KeyRotation.SelectSole | pkg/a9trust/keyset.go:372-435 | finds the only key with a property, and refuses none or several |
| KeyRotation.ValidateKeyset | pkg/a9trust/keyset.go:39-78 | accepts exactly the keysets with ordered times of at most a day, two to four keys of different identifiers and nonempty windows, one signer per use, each active at issue, and a clock inside the keyset's own window when one is given |
| KeyRotation.OnlineKeyAt | pkg/a9trust/keyset.go:122-137 | the first key of an identifier and use decides: its material if its window covers the instant, and otherwise nothing |
| KeyRotation.ValidateVerifyOnlyContinuity | pkg/a9trust/keyset.go:322-370 | accepts exactly when every unexpired verify-only key is carried over unchanged |
| KeyRotation.ValidateOnlineRotationForUse | pkg/a9trust/keyset.go:256-320 | accepts exactly the rotations of one use: same signer, or a signer staged a day ahead whose predecessor is retained |
| KeyRotation.ValidateOnlineRotation | pkg/a9trust/keyset.go:214-254 | accepts exactly when sequence and issue time advance and both uses rotate |
| KeyRotation.ChainAscends | pkg/a9trust/keyset.go:214-254 | along accepted keysets sequences strictly increase and issue times never fall |
| KeyRotation.KeysPersist | pkg/a9trust/keyset.go:214-370 | along any chain of accepted keysets a key is still published, same use and material, in every later keyset issued before it expires |
| KeyRotation.PromotionWasStaged | pkg/a9trust/keyset.go:256-320 | every key that becomes signer was verify-only with the same material in the keyset just before, issued at least a day before its start |
| KeyRotation.NoResurrection | pkg/a9trust/keyset.go:256-320 | a signer once replaced never signs again in the chain |
| KeyRotation.RetirementRetains | pkg/a9trust/keyset.go:294-320 | the keyset that replaces a signer keeps it published for the whole retention of its use |
| KeyRotation.SignerStaysVerifiable | pkg/a9trust/keyset.go:214-370 | a signer stays published under every later keyset already issued, through the retention after its replacement |
| Tokens.ValidateJWT | pkg/a9trust/jwt.go:70-162 | accepts exactly the tokens whose header and claims are bound to this environment, method, path and body, whose claim times are in order, whose window covers the instant, and whose key verifies at issue time; the replay deadline it reports has not passed |
| Tokens.RotationSparesTokens | pkg/a9trust/jwt.go:114-152 | a token issued less than a minute after its signer was replaced is accepted under every later keyset already issued, until five seconds after it expires |
| Tokens.RotationSparesAssertions | pkg/a9trust/signed.go:260-315 | a control assertion that verifies under its signer's keyset passes the time, key and signature checks at every instant of its life under every later keyset already issued |
| KeysetStore.LatchMovesForward | pkg/db/a9_store.go:349-429 | latching leaves the row uncertain, keeps sequence, hash and history, and keeps the first reason |
| KeysetStore.AcceptMovesForward | pkg/db/a9_store.go:126-277 | whatever is submitted, an acceptance leaves exactly that keyset current and a rejection leaves the row uncertain and the history alone; a valid submission keeps the history a chain of rotations |
| KeysetStore.RunMovesForward | pkg/db/a9_store.go:126-429 | under any order of submissions and latches of any replicas the history only grows, the sequence never falls and uncertainty stays |
| KeysetStore.RunStaysConsistent | pkg/db/a9_store.go:126-429 | when every submitted keyset was validated the history is a chain of valid rotations in every state of the run |
| KeysetStore.OneHashPerSequence | pkg/db/a9_store.go:126-277 | one sequence number names one hash for the whole run |
| KeysetStore.UncertaintyIsAbsorbing | pkg/db/a9_store.go:349-429 | once uncertain, the row keeps sequence, hash and first reason for ever |
| KeysetStore.ChainIsAccepted | pkg/db/a9_store.go:548-686 | the stored history is a chain to which every rotation result applies |
| KeysetStore.A9KeysetStore.AcceptKeysetOnce | pkg/db/a9_store.go:126-277 | the branches of one transaction compute the abstract acceptance, under every way the commit may end |
| KeysetStore.A9KeysetStore.LatchKeysetUncertaintyOnce | pkg/db/a9_store.go:349-429 | the branches of one latch compute the abstract latch; success is reported only when it is durable |
| KeysetStore.A9KeysetStore.LatchKeysetUncertainty | pkg/db/a9_store.go:317-347 | up to five attempts: succeeds exactly when the first attempt that is not to be retried commits, and then the row is latched |
| KeysetStore.A9KeysetStore.AcceptKeyset | pkg/db/a9_store.go:85-124 | a document that does not bear out its fields is refused only with the row latched as KEY_STATE; otherwise up to five attempts: never a retry to the caller, an answer exactly when one attempt commits, and no answer without a matching durable row |
| TrustManager.NeverRolledBack | pkg/a9trust/manager.go:967-1042 | an installed keyset never compares as rolled back with the durable row, whatever the replicas do |
| TrustManager.StepKeepsInv | pkg/a9trust/manager.go:271-1147 | every step of every thread, of the retry worker and of other replicas keeps the lock discipline, the accepted history and the lease and close conditions |
| TrustManager.RunMovesDurable | pkg/a9trust/manager.go:271-342 | in every interleaving the durable state moves forward |
| TrustManager.LeaseFreezes | pkg/a9trust/manager.go:468-545 | while a lease is open no step of anyone swaps the snapshot, sets the hard flag or closes the manager |
| TrustManager.LeaseFreezesRun | pkg/a9trust/manager.go:702-720 | from the grant of a lease to its end the local state of the whole run stands still |
| TrustManager.HardIsSticky | pkg/a9trust/manager.go:1044-1098 | no step clears hard uncertainty or changes its first reason |
| TrustManager.RunKeepsHard | pkg/a9trust/manager.go:762-775 | hard uncertainty, once set, holds with its first reason in every later state of the run |
| TrustManager.UncertainRowShutsReaders | pkg/a9trust/manager.go:967-1042 | once the row has turned uncertain every later read that the store answers, in every run, serves nothing and shuts this replica |
| TrustManager.ServedMatchesDurable | pkg/a9trust/manager.go:346-370 | everything ever handed out to a verifier or a lease equals the row read for it and was before expiry and before its next refresh |
| TrustManager.ServedWasReadInCall | pkg/a9trust/manager.go:967-1042 | every step of a run that hands out a keyset ends a call of one thread that read, inside that call, the row it carries, durable and not uncertain at that very step |
| TrustManager.NothingServedOnceUncertain | pkg/a9trust/manager.go:967-1042 | a call that begins after the row has turned uncertain hands out nothing, however it is interleaved |
| TrustManager.LeasedUseIsCurrent | pkg/a9trust/manager.go:617-700 | whatever a lease hands out, in any run, it hands out at a reading from its evaluation time up to the earlier of expiry and next refresh, while the manager is open, certain and holds the very keyset whose row the granting call read |
| TrustManager.CloseReturnsSafely | pkg/a9trust/manager.go:777-860 | a nil return of either close finds secrets erased and uncertainty durable, and the worker stopped unless the close was a repeated one |
| ManagerClose.RepeatCloseIsSafeAlone | pkg/a9trust/manager.go:777-818 | in every run a repeated close that returns nil finds secrets erased, uncertainty durable and, unless another `Close` is still waiting, a worker past its last unlock |
| ManagerClose.QuietForGood | pkg/a9trust/manager.go:1100-1146 | a worker past its last unlock takes no lock and calls no store again |
| ManagerClose.StoppedIsKnownExactly | pkg/a9trust/manager.go:777-860 | in every reachable state, everything but the worker itself settles that the worker has ended if and only if a `Close` that did the closing, or a `CloseContext`, has returned nil |
| ManagerClose.RepeatCloseTellsNothing | pkg/a9trust/manager.go:777-818 | after a repeated close the end of the worker is certain exactly when another kind of close had returned nil before |
| ManagerClose.RepeatCloseLeavesWorker | pkg/a9trust/manager.go:777-818 | a run of two closers in which the second returns nil while the first still waits and the worker may still go to work |
| ManagerClose.SoleCloserLeavesWorker | pkg/a9trust/manager.go:1100-1128 | a run of one thread that closes, is told of pending uncertainty, closes again once the worker has latched it, and gets nil before the worker has ended |
| Epochs.EpochBracketsInstant | pkg/a9trust/primitives.go:213-223 | an instant lies between the boundaries of its epoch and the next if and only if it is inside the 2^32 periods from 1970 |
| Epochs.UsableInterval | pkg/a9trust/primitives.go:228-245 | an epoch verifies exactly from its boundary to sixty seconds past the next, and issues exactly in its own period |
| Epochs.ValidateTopicKeySchedule | pkg/a9trust/keyset.go:483-548 | accepts exactly the current key alone, with its successor, or in the overlap with its predecessor, each with an exact handoff |
| Epochs.ScheduleLeavesNoGap | pkg/a9trust/keyset.go:483-548 | an accepted current and next key leave no instant uncovered: the outgoing key covers all of its verification interval and the incoming one starts at the boundary |
| TopicKeys.SettlingMovesNothing | pkg/a9trust/config.go:785-810 | deadlines never move once set |
| TopicKeys.KeptTwice | pkg/a9trust/config.go:821-873 | erasing at a later steady reading erases everything an earlier one would |
| TopicKeys.CandidatesAreBindings | pkg/a9trust/config.go:561-666 | route lookup yields the current epoch first, the previous exactly when held in the overlap, each with the binding that verification computes, and fails exactly when one of those does |
| TopicKeys.TopicKeySet.constructor | pkg/a9trust/config.go:169-178 | the set starts with deadlines fixed once from the first readings, with what is already due gone |
| TopicKeys.TopicKeySet.InitializeRetirementDeadlines | pkg/a9trust/config.go:785-810 | sets missing deadlines from the epoch and the two clocks, in the same order on both, and leaves set ones alone |
| TopicKeys.TopicKeySet.ScheduleRetirement | pkg/a9trust/config.go:718-769 | with its mutual recursion terminating on the number of records, leaves exactly what is not due and a pending timer that fires within a second and before every hard deadline |
| TopicKeys.TopicKeySet.EraseRetiredAt | pkg/a9trust/config.go:821-873 | erases exactly what is due on either clock, remembers the newest erased descriptor, and re-arms the timer |
| TopicKeys.TopicKeySet.EraseRetired | pkg/a9trust/config.go:812-819 | every call first erases exactly what is due at its readings and keeps the set valid |
| TopicKeys.TopicKeySet.Tick | pkg/a9trust/config.go:763-768 | a timer callback, also a late one, is one erasing step |
| TopicKeys.TopicKeySet.BindingForEpoch | pkg/a9trust/config.go:561-605 | after the erasing step, computes the verification binding over what is left, and nothing once closed |
| TopicKeys.TopicKeySet.CandidateTopicBindings | pkg/a9trust/config.go:611-666 | after the erasing step, computes the candidates over what is left; the zero instant changes nothing |
| TopicKeys.TopicKeySet.Reconcile | pkg/a9trust/config.go:474-556 | eligible exactly when held keys and signed keys are the same, one per epoch, but for the one just retired, and the current one is held |
| TopicKeys.TopicKeySet.Close | pkg/a9trust/config.go:683-707 | every secret is gone, no timer is pending, and nothing later brings a key back |
| TopicKeys.SurvivesExactly | pkg/a9trust/config.go:709-873 | between any two moments of a run a key survives, with its very deadlines, exactly when no step in between closed the set or saw one of its deadlines |
| TopicKeys.RunStaysReady | pkg/a9trust/config.go:709-873 | in every state of a run each key has both its deadlines, in one order on the two clocks, and no two keys share an epoch |
| TopicKeys.NoBindingPastDeadline | pkg/a9trust/config.go:561-605 | once any call or tick has seen a key's deadline on either clock, no call then or later computes a binding for its epoch, whatever the wall clock does |
| TopicKeys.SteadyDeadlineHolds | pkg/a9trust/config.go:718-769 | once the steady clock has passed the hard deadline, every later call erases the key |
| Redaction.PlainEnd | pkg/a9trust/config.go:303-324 | a string end without escape is exactly the first quote with no backslash before it |
| Redaction.JsonStringEnd | pkg/a9trust/config.go:303-324 | the scanning loop finds the end and whether an escape was seen, over a buffer whose earlier part may be overwritten |
| Redaction.SkipJsonSpace | pkg/a9trust/config.go:326-336 | stops at the first byte that is not white space |
| Redaction.ExtractAndRedact | pkg/a9trust/config.go:230-301 | succeeds exactly when no string is refused and one or two secret values are found; returns their decodings in order and has overwritten those values and nothing else |
| Redaction.ScanSeesAll | pkg/a9trust/config.go:230-301 | on success every string of the buffer, found by pairing quotes, is free of escapes and decodes to a secret exactly when it is one of the extracted values |
| Redaction.SecretsAreFieldValues | pkg/a9trust/config.go:254-286 | every extracted value follows a string with the field's name and a colon |
| Redaction.RescanFindsSame | pkg/a9trust/config.go:230-301 | the redacted buffer has the same strings at the same places |
| Redaction.RedactedHoldsNoSecret | pkg/a9trust/config.go:225-301 | in the redacted buffer every string that decodes to a secret is the fixed text |
| CanonicalJson.ValueRoundTrip | pkg/a9trust/jcs.go:27-196 | strictly parsing the canonical text of a value followed by any text that does not go on with a digit, a point or an exponent returns the value and leaves that text |
| CanonicalJson.ParseUndoesPrint | pkg/a9trust/jcs.go:27-44 | strictly parsing the canonical text returns the value with nothing left over |
| CanonicalJson.PrintInjective | pkg/a9trust/jcs.go:112-118 | one canonical text, one value |
| CanonicalJson.SortedAscends | pkg/a9trust/jcs.go:169-180 | member names come in strictly ascending byte order |
| CanonicalJson.AppendAsciiString | pkg/a9trust/jcs.go:217-250 | the escaping loop appends the quoted text, and refuses exactly non-ASCII strings |
| CanonicalJson.CanonicalInteger | pkg/a9trust/jcs.go:198-215 | accepts exactly the canonical spellings within the I-JSON range |
| CanonicalJson.SortNames | pkg/a9trust/jcs.go:169-180 | sorting the names of an object gives the ascending list of its names |
| CanonicalJson.AppendCanonical | pkg/a9trust/jcs.go:120-196 | appends the canonical text exactly for the values of the profile |
| CanonicalJson.Canonicalize | pkg/a9trust/jcs.go:112-118 | prints exactly the values of the profile |
| CanonicalJson.ParseStrictJSON | pkg/a9trust/jcs.go:27-44 | accepts exactly valid UTF-8 that is one JSON value without repeated names and nothing behind it, and every string it returns is valid UTF-8 |
| CanonicalJson.StrictIsUtf8 | pkg/a9trust/jcs.go:27-107 | names and strings of whatever is accepted are valid UTF-8, through escapes, surrogate pairs and lone surrogates |
| CanonicalJson.ReadValue | pkg/a9trust/jcs.go:46-107 | the token loop of the parser computes the functional parser |
| CanonicalJson.ReadArray | pkg/a9trust/jcs.go:82-101 | the array loop computes the functional parser |
| CanonicalJson.ReadObject | pkg/a9trust/jcs.go:54-81 | the object loop, with its duplicate check, computes the functional parser |
| Transcripts.SignedTranscript | pkg/a9trust/signed.go:24-38 | the signed bytes are the domain and the canonical text without the signature member |
| Transcripts.DomainsDiverge | pkg/a9trust/signed.go:15-20 | two signature domains differ before either ends, so transcripts under different domains never coincide |
| Transcripts.TranscriptBinds | pkg/a9trust/signed.go:24-38 | equal transcripts have one domain and agree on every member but the signature |
| Decimal.PlainIsFormat | pkg/a9trust/jcs.go:198-215 | a decimal spelling without leading zeros is the only one of its value |
| Receipts.StepKeepsInv | pkg/db/a9_store.go:431-546 | every statement of every consumer and purge keeps receipts in the table until their retention has passed, and an uncommitted receipt exclusive |
| Receipts.ConsumedAtMostOnce | pkg/db/a9_store.go:431-523 | in every interleaving, also with ambiguous commits, receipts of one identifier have strictly growing retention, so each is consumed at most once per retention |
| Receipts.ReplayConflicts | pkg/db/a9_store.go:480-500 | until its retention has passed, a receipt makes every further insert of the identifier conflict |
| Receipts.OnlyCheckedGrants | pkg/db/a9_store.go:501-522 | a receipt is written only by a consumer that passed the second clock check |
| Receipts.EndPurgeKeepsInv | pkg/db/a9_store.go:527-546 | a purge removes only receipts that were past their retention when it marked them |
| JtiCache.ReplayStore.Consume | pkg/a9trust/jwt.go:243-263 | the purge loop over the map removes exactly what is past its deadline, and the identifier is accepted exactly when it is not left |
| JtiCache.NextIsAcceptedExactly | pkg/a9trust/jwt.go:243-263 | for readings in any order the next call with an identifier is accepted if and only if it, or some call since, came with a reading past the identifier's deadline |
| JtiCache.NextIsAcceptedExactlyLate | pkg/a9trust/jwt.go:243-263 | with readings that never run back that is the reading of the call itself |
| JtiCache.AcceptedOncePerDeadline | pkg/a9trust/jwt.go:243-263 | an identifier presented in time is accepted again for one deadline only if a call in between came with a reading past it, so never with readings that do not run back |
| JtiCache.LateCallIsAcceptedAgain | pkg/a9trust/jwt.go:243-263 | a call after the deadline is accepted a second time |
| JtiCache.EarlyReadingIsAcceptedAgain | pkg/a9trust/jwt.go:243-263 | two calls in time are both accepted when a call in between reads past the deadline |
| Framing.ValidatorsAgree | pkg/gate8wrapper/wrapper.go:457-528 | the validator on parts and the validator on lengths admit the same plaintexts |
| Framing.EncodePlaintext | pkg/gate8wrapper/wrapper.go:380-414 | the buffer writes give exactly the frame, for exactly the admitted plaintexts |
| Framing.DecodesExactly | pkg/gate8wrapper/wrapper.go:380-455 | decoding a byte string yields a plaintext if and only if encoding that plaintext yields the byte string |
| Headers.BuildNonce | pkg/gate8wrapper/header.go:164-175 | prefix and big-endian sequence fill the nonce; sequences beyond 2^53-1 are refused |
| Headers.NonceInjective | pkg/gate8wrapper/header.go:164-175 | equal nonces have equal prefix and sequence |
| Headers.CanonicalAad | pkg/gate8wrapper/header.go:183-207 | the appended pieces are the canonical text of exactly the valid headers |
| Headers.ParsesExactly | pkg/gate8wrapper/header.go:212-248 | a text parses to a header if and only if the header is valid and prints to that text |
| Headers.CanonicalTextInjective | pkg/gate8wrapper/header.go:183-207 | two valid headers that authenticate the same bytes are the same header |
| ReplayWindow.ReplayWindow.CompareAndAdvanceAuthenticated | pkg/gate8wrapper/replay.go:120-151 | accepts exactly the first header or a higher sequence in the same scope; a refusal says which and changes nothing |
| ReplayWindow.ReplayWindow.Snapshot | pkg/gate8wrapper/replay.go:98-116 | returns the whole state, or nothing before the first acceptance |
| ReplayWindow.RestoreReplayWindow | pkg/gate8wrapper/replay.go:73-95 | gives a window in exactly the saved state, or none exactly when the state completes to no valid header |
| ReplayWindow.AcceptedAscend | pkg/gate8wrapper/replay.go:120-151 | over any calls and transfers all accepted headers share one scope and have strictly increasing sequences |
| ReplayWindow.RestoredBounds | pkg/gate8wrapper/replay.go:73-151 | nothing at or below a restored mark or of another scope is ever accepted |
| ReplayWindow.InvisibleExactly | pkg/gate8wrapper/replay.go:73-151 | from a window that a restore accepts, transfers inserted anywhere between any calls leave every later window, and so every outcome, unchanged if and only if every accepted header would pass the checks of a restore |
| ReplayWindow.ValidCallsHideTransfers | pkg/gate8wrapper/replay.go:73-151 | in particular no transfer shows between calls with valid headers |
| ReplayWindow.InvalidHeaderIsLost | pkg/gate8wrapper/replay.go:120-151 | a header of epoch 0 is accepted by the window and lost by a transfer |
| Wrapper.Choose | pkg/gate8wrapper/wrapper.go:181-205 | inline exactly when its estimate fits, otherwise foreground exactly when that fits; an empty message is refused before the fallback |
| Wrapper.Seal | pkg/gate8wrapper/wrapper.go:131-247 | succeeds exactly when the request is in order and a payload fits; the ciphertext has the length that the budget approved, and the hook runs exactly for foreground |
| Wrapper.Open | pkg/gate8wrapper/wrapper.go:253-341 | only an authenticated wrapper for the route moves the window, also when its frame turns out malformed; every other error leaves it alone, and acceptance yields the decoded frame |
| Wrapper.OpenUndoesSeal | pkg/gate8wrapper/wrapper.go:131-341 | over an ideal AEAD a sealed wrapper opens on its route to exactly the capability, mode, padding and message that were chosen |
| Wrapper.SealThenOpenTwice | pkg/gate8wrapper/wrapper.go:131-341 | with a fresh window the first opening returns the payload and the second is a replay |
| Wrapper.OpenedWasSealed | pkg/gate8wrapper/wrapper.go:253-341 | whatever opens on a route is, header and ciphertext, the very wrapper that a recorded call sealed for that environment, day, epoch and alias, and decodes to the payload that call chose |
| Wrapper.OpensExactlySealed | pkg/gate8wrapper/wrapper.go:131-341 | over an AEAD that opens exactly what was encrypted, a route opens a wrapper if and only if a recorded call made it under the day key of this route and its header is on the route |
| Association.IdentifierSet | pkg/a3trust/association.go:271-286 | the set of a list, refused exactly for duplicates and identifiers not understood |
| Association.StateMemberSet | pkg/a3trust/association.go:245-269 | the members of a state, refused exactly for disagreeing entries and duplicates |
| Association.DiffMatches | pkg/a3trust/association.go:302-332 | the counting check holds if and only if added and removed are exactly the two set differences |
| Association.ValidatedTransition | pkg/a3trust/association.go:225-243 | accepts a response exactly when its difference is the change from the previous members to its state |
| Association.ReadAssociation | pkg/a3trust/association.go:102-223 | succeeds exactly when every update replays within the limits; revoked if and only if the installation was a member after some prefix and is not in the final state |
| Association.CompleteHistory | pkg/a3trust/association.go:619-676 | for any log the service serves in pages of any size, a successful read is that whole log, and the read succeeds when the service answers and the log is within the limits |
| Buckets.AfterInRange | pkg/a3trust/witness.go:618-638 | tokens stay between nothing and the capacity and the bucket's clock never runs back, whatever the readings |
| Buckets.FixedKeepsRate | pkg/a3trust/witness.go:596-638 | any stretch of calls that the bucket's clock places in a window has at most burst + rate * window admissions |
| Buckets.DeliveryKeepsRateExactly | pkg/delivery/apns_reliable.go:846-918 | the same bound holds of the delivery limiter for every sequence of readings if and only if its rate divides a billion |
| Buckets.ThreePerSecondBreaksRate | pkg/delivery/apns_reliable.go:901-918 | three a second with a burst of one breaks the bound |
| Buckets.FixedTokenBucket.Allow | pkg/a3trust/witness.go:618-638 | refills up to the capacity with clamped time and admits exactly against a whole token |
| Buckets.DeliveryTokenBucket.Delay | pkg/delivery/apns_reliable.go:901-918 | zero exactly on admission, and otherwise the whole nanoseconds after which less than one more nanosecond's income is missing |
| Buckets.DeliveryTokenBucket.Wait | pkg/delivery/apns_reliable.go:863-882 | returns admitted exactly at the first reading whose call is admitted, and cancelled only after all others were refused |
| Buckets.BackoffBase | pkg/delivery/apns_reliable.go:805-829 | the saturating loop gives the least of the cap and the initial delay doubled once per further attempt |
| Buckets.JitterBoundsExactly | pkg/delivery/apns_reliable.go:830-844 | the jittered delay of a base under the cap stays within a quarter of that base if and only if the 64-bit product does not wrap |
| Buckets.ConfiguredJitterIsNear | pkg/delivery/apns_reliable.go:221-238 | for every base under a cap of at most two minutes the jittered delay stays within a quarter of the base |
| Buckets.LongBaseWraps | pkg/delivery/apns_reliable.go:830-844 | a base of 15 million seconds scaled up by a quarter wraps to three and a half days |
| Buckets.JitteredBackoff | pkg/delivery/apns_reliable.go:805-844 | defaults, cap, doubling and jitter together, with the 64-bit wrap-around of the product |

## Left out

- `a9schema`: the second strict JSON reader and the field-by-field schema validators; they would add members that are settled by reading them.
- `ParseCanonicalAAD`: the general JSON decoder behind it; the model reads only the printed profile, and the final comparison of bytes rejects everything else.
- Keyset documents: the parsing of the signed JSON, root signatures, key ordering, the derivation of key identifiers and the bootstrap of the first keyset; a keyset enters the model as its sequence, times and online keys.
- KeyRotation.ValidateKeyset: decides the times, the sequence and the online keys; the protocol fields, the key order and the commitment keys of the same function are not in the model.
- `TopicKeySet`: the environment name, the wiping of key bytes as opposed to dropping the record, the read-only readiness check, and the JSON record parser that follows redaction.
- Base64, hexadecimal decoding of installation identifiers, protobuf encoding and the association digest: parameters or absent.
- Database: isolation levels, SQL and the schema guards other than the delete guard; a transaction is a step or a sequence of statement steps, and timestamps keep their precision.
- Floating point: tokens of the rate limiters are exact, so rounding of the source's floats is not captured.
- Concurrency of the witness ledger and of the keyset store: their transactions hold an advisory lock and are taken one at a time.
- Vault routing, notification queues, delivery jobs, HTTP and gRPC handlers, configuration, and the A10 registration keyset store.
- Merkle.LargestPowerOfTwoLessThan: is stated for values up to 2^63, exactly those for which the source's loop ends.
- Merkle.VerifyConsistency: is stated for sizes up to 2^63, because above that the source's loop does not end.
- KeysetStore.A9KeysetStore.AcceptKeyset: the store's own check of the document against the submitted fields is one flag, and the store is that of one known environment.
- Tokens.ValidateJWT: the decoding of the three segments and their exact fields is one flag.
- Tokens.RotationSparesAssertions: the field formats, the binding to the expected values and the windows of the commitment keys are not in the model.
- ManagerClose.RepeatCloseIsSafeAlone: goes one way, because while another `Close` waits the worker may be past its last unlock or not; ManagerClose.StoppedIsKnownExactly is the exact condition for its end.
