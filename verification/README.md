# Secure file-transfer engine: verified models

This project models the parts of the secure file-transfer engine whose correctness
depends on state kept over many requests, and proves what that state promises. Verify
it with `dafny verify dfyconfig.toml` (Dafny 4.11).

| file | what it models |
|---|---|
| `Text.dfy`, `Json.dfy`, `Hashing.dfy` | decimal and hexadecimal printing, paths, the compact JSON dump with its parser, SHA-256 as an arbitrary function |
| `AuditChain.dfy`, `Anchoring.dfy` | the audit hash chain, its verifier, the append-only hooks, and anchoring on a write-once contract with retries |
| `Prekeys.dfy` | the one-time prekey pool under any interleaving of the statements of claims, generations and retrievals |
| `Primitives.dfy` | the cryptographic libraries as arbitrary functions with their decryption and agreement laws |
| `KeyRegistry.dfy`, `HybridKex.dfy` | the versioned ML-KEM key registry and the hybrid key agreement |
| `TransferSignature.dfy` | the eight-line text a sender signs, and what it determines |
| `PfcePackage.dfy`, `PfceRoundTrip.dfy`, `PfceEngine.dfy` | fragmenting, sealing, packaging, the download gates, reassembly |
| `PrivacyBudget.dfy`, `Privatize.dfy`, `ContinuousMonitor.dfy` | the privacy-budget accountant in both implementations, feature privatisation, and the monitor that spends from it |
| `RateLimiter.dfy`, `ReplayCache.dfy` | the sliding-window limiter and the JTI replay cache |
| `MfaChallenges.dfy` | the one-time-password challenges of a sign-in |

How to read it:

- Code that updates an object is a class whose methods are proved equal to a step
  function; runs of steps are what the lemmas are about. Fields of a state described
  as history (logs of claims, of passes, of accepted requests) are not stored by the
  program; they are what the theorems speak of.
- Nothing assumes that SHA-256 or HKDF is injective. A result that depends on it ends
  in "or here are the two inputs that collide", and the inputs are taken from the data
  at hand (`AuditChain.Evidence`, `PfceRoundTrip.ForgedChunk`; `HybridKex.UploadInputs`, `HybridKex.UploadPrk`
  and `HybridKex.Packed` are those of the key agreement).
- A lemma named `...Exactly` says when its operation does what, in the terms of its inputs and its
  history and not by the operation's own tests.
- The only laws assumed of the libraries are decryption after encryption, commutativity
  of ECDH, the decapsulation law of section 7.3 of FIPS 203 and base64 decoding.
  `Primitives.LawsHoldOfSomething` shows that they do not contradict each other.
- The JSON dump follows section 7 of RFC 8259 as Python writes it with `ensure_ascii`;
  its injectivity is proved by a parser, not assumed.
- Clocks, randomness, the network, the database's choice among matching rows and the
  outcome of library calls are parameters; theorems hold for every value of them.

Properties that the code does not have, each with a run that shows it and the exact
condition under which it does hold:

- Two downloads of one package may both receive its one-time key: the query and the
  delete of a retrieval are two statements (`Prekeys.TwoDownloads`). A key is handed out
  twice exactly when a second query falls between a first one and its delete
  (`Prekeys.TwiceExactly`, `PfceRoundTrip.HandedOutOnce`).
- KEK agreement fails when the receiver's active ML-KEM public key is another one at download
  than at upload, although the recorded version decapsulates: the transcript takes the
  active key (`HybridKex.RotationRun`). Agreement holds exactly when the key is the same, or the
  upload's transcript and the one with the new key collide, or the upload's extract expands to one key
  under both (`HybridKex.KekAgreementExactly`).
- A receiver id with superfluous leading zeros has its prekey claimed under a different
  user than the one it is retrieved under, so a hybrid package is never delivered to it
  (`PfceEngine.OwnerIsReceiver`, `PfceEngine.SendAndReceive`).
- The ciphers drawn for fragments are among the policy's candidates exactly when no risk
  beyond the classification asked for ChaCha20 alone or the classification asks for it too
  (`PfceEngine.CandidatesKept`).
- With required anchoring a normal return may leave a row not marked CONFIRMED although its
  slot is filled (`Anchoring.AnchoredButFailed`): exactly when an idempotency check leaves
  the loop, and `Anchoring.NormalReturnStatus` says which status is left.
- Required anchoring guarantees that the anchor is the row's own exactly when no other
  account's call of the public contract method competes for the slot (`Anchoring.OwnAnchorExactly`).
- The privacy budget exceeds the configured maximum exactly when the reserve is negative
  and the maximum less the reserve is positive (`PrivacyBudget.MaximumHolds`). Redis and the
  process together stay under one ceiling, for a given course of Redis, exactly when no error occurs
  or the first request already finds Redis down (`PrivacyBudget.CeilingOnceExactly`). What Redis
  charges for one key stays under the ceiling, for given request times and times to live, exactly when no request
  comes after a key made by an earlier one would have expired (`PrivacyBudget.ExpiryExactly`): with
  the times to live of the code, it always does unless requests other than the first come in the last second
  of an epoch (`PrivacyBudget.QuietLastSecond`), and there nothing is bounded (`PrivacyBudget.LastSecondUnbounded`).
- What one transfer is charged stays within the configured number of analyses exactly when
  no analysis can raise after its charge and no answer of Redis can be lost, or the settings
  rule the effect out, or the budget does not cover one analysis above the reserve
  (`ContinuousMonitor.WithinExactly`), with a failing run for every limit and every budget that does
  (`ContinuousMonitor.RaisedEscape`, `ContinuousMonitor.LostEscape`); a budget that does not is never
  charged (`ContinuousMonitor.NothingCharged`).
- A JTI passes at most once exactly for tokens that live at most sixty seconds
  (`ReplayCache.LifetimeBound`); the issuer's tokens live thirty.
- A token that was never let past can be refused as replayed (`ReplayCache.RefusedUnused`): exactly when Redis
  decides and the answer to an earlier SET for its JTI was lost (`ReplayCache.ReplayedExactly`).
- A hybrid download after the receiver's active public key changed emits nothing and fails at the first unwrap
  (`PfceRoundTrip.FailedDownload`). It delivers the file when the two transcripts or the two expansions of the
  upload's extract collide; otherwise it fails so exactly when the upload's wrap does not open under the key that
  is recovered (`PfceRoundTrip.RotatedDownload`).
- Two client addresses can share a deque, and then requests under one limit fill the window of
  another, exactly when one address is the other followed by `:/api/` and a text without a question mark
  (`RateLimiter.ShareExactly`, `RateLimiter.WindowExactly`).

Where the code and its documentation differ, the code is followed: the package signature
covers the sender's declared fields, not the fragments; the budget status is read from
Redis whenever it can be reached, even after consumption has moved to the dictionary.

## Model

| member | source | states |
|---|---|---|
| Text.StrInjective | backend/app/services/pfce_engine.py:131-135 | decimal printing of fragment ids is injective |
| Json.RoundTrip | backend/app/services/blockchain_service.py:170-178 | parsing the compact dump of any fields gives back every key and value, through every escape and surrogate pair |
| Json.DumpsBytesInjective | backend/app/services/upce_quantum_service.py:99-114 | the UTF-8 bytes of the canonical dump determine every field |
| Hashing.JsonLawful | backend/app/services/blockchain_service.py:170-179 | the one law used of the dump, that it determines its fields, holds of the modelled dump whatever SHA-256 is |
| AuditChain.CanonicalKeysAscend | backend/app/services/blockchain_service.py:170-178 | the modelled field order is the order of sorted keys |
| AuditChain.CanonicalNames | backend/app/services/blockchain_service.py:162-178 | each of the four columns is found in the hashed object under its own name |
| AuditChain.PreimageInjective | backend/app/services/blockchain_service.py:162-179 | the hashed bytes of a row determine its event type, details, previous hash and timestamp |
| AuditChain.TamperEvidence | backend/app/services/blockchain_service.py:317-354 | two chains that pass the off-chain checks and end in one hash have equal length and equal hashed contents, or two of their preimages collide, or one of their rows hashes to 64 zeros; which of the three is exhibited |
| AuditChain.ReceiveBeforeUpdate | backend/app/database/models.py:93-105 | the hook accepts an update if and only if no column outside the seven anchoring columns changes |
| AuditChain.FaultExactly | backend/app/services/blockchain_service.py:322-384 | each of the seven reasons is given if and only if its check is the first that fails; the on-chain checks concern confirmed rows of an enabled, connected verifier with a contract |
| AuditChain.FaultlessIsChain | backend/app/services/blockchain_service.py:322-384 | no row is faulty if and only if the table is a linked, sealed chain whose confirmed rows agree with their anchors and receipts |
| AuditChain.VerifyChain | backend/app/services/blockchain_service.py:300-445 | reports valid if and only if the table is a chain that agrees with its anchors; otherwise names the first faulty row, its reason, and one fewer checked records than its position counted from one |
| Anchoring.ExecuteOk | backend/contracts/AuditLedger.sol:31-54 | a call of the contract method, by whichever account, fills an empty slot with its anchor and leaves every written slot alone |
| Anchoring.SubmitOk | backend/app/services/blockchain_service.py:241-283 | whatever becomes of one submission (not sent, reverted, mined, mined after the time-out) no written anchor changes, and a successful receipt means the anchor is there |
| Anchoring.RetryOk | backend/app/services/blockchain_service.py:233-296 | over every behaviour of the environment, calls by other accounts included, in up to three attempts: CONFIRMED means anchored with the row's own hash, and under required anchoring returning normally means the slot is filled |
| Anchoring.AppendOk | backend/app/services/blockchain_service.py:185-298 | one append keeps the chain, the ids in order and every earlier anchor, whatever the environment does; CONFIRMED means anchored, and under required anchoring a normal return means anchored by the row or filled by another account |
| Anchoring.AppendRecords | backend/app/services/blockchain_service.py:185-232 | the new row carries the request's event type, details and time under the next id; without an enabled, reachable blockchain it stays unanchored, the contract is untouched, and required anchoring alone raises |
| Anchoring.AppendConfirms | backend/app/services/blockchain_service.py:233-283 | if one of the three attempts goes through and those before it come to nothing, the row's own anchor fills its free slot and the row carries the columns of that receipt, marked CONFIRMED |
| Anchoring.AppendFails | backend/app/services/blockchain_service.py:284-296 | if all three attempts come to nothing the row is marked FAILED, nothing is anchored, and the call raises if and only if anchoring is required |
| Anchoring.AppendFound | backend/app/services/blockchain_service.py:233-241 | a slot already filled ends the call normally at the first idempotency check that reads it, the row left as inserted |
| Anchoring.AppendUnseen | backend/app/services/blockchain_service.py:233-296 | if every such check raises, whatever is sent reverts: the row is marked FAILED and the call raises if and only if anchoring is required |
| Anchoring.EveryRun | backend/app/services/blockchain_service.py:185-298 | from any contract state, after any sequence of appends, hook-checked updates, refused deletes and late mining, the table is a chain, each slot was written once and by the service only with the hash of the row with its id, and (without manual updates) confirmed rows are anchored |
| Anchoring.AnchorsPersist | backend/contracts/AuditLedger.sol:39-41 | an anchor, once written, is never changed or lost in any later step |
| Anchoring.StatusExactly | backend/app/services/blockchain_service.py:233-296 | the loop raises exactly when anchoring is required and its attempts are used up; the status it leaves is CONFIRMED after a successful receipt, and after a check that found the slot filled it is FAILED or LOCAL_ONLY as an earlier attempt reverted or not |
| Anchoring.NormalReturnStatus | backend/app/services/blockchain_service.py:233-296 | with anchoring required, a normal return leaves CONFIRMED if and only if no idempotency check left the loop; otherwise FAILED if and only if an attempt was mined and reverted before it, LOCAL_ONLY if and only if none was |
| Anchoring.AnchoredButFailed | backend/app/services/blockchain_service.py:236-245 | an environment in which a required append returns normally with its anchor written but its row marked FAILED |
| Anchoring.OwnAnchorExactly | backend/app/services/blockchain_service.py:236-241 | with anchoring required, every normal return means the row's own anchor is written if and only if no other account has filled or may fill the slot with another one |
| Anchoring.AnchorPinsHistory | backend/app/services/blockchain_service.py:322-384 | if a rewritten table verifies against the contract and holds a confirmed row under an id whose slot the service filled, the whole prefix up to it equals the original prefix in every hashed column, or a collision or zero digest is exhibited |
| Anchoring.UntouchedVerifies | backend/app/services/blockchain_service.py:317-400 | the ledger of any run without manual updates verifies, anchors included, for an enabled verifier that reads the contract and finds the receipts of confirmed rows successful |
| Anchoring.BlockchainService.AppendBlock | backend/app/services/blockchain_service.py:185-298 | the retry loop over the table and the contract is the specified append, in its new state and in whether it raises |
| Anchoring.BlockchainService.Update | backend/app/database/models.py:93-105 | an update takes effect exactly when only anchoring columns differ, and otherwise leaves the ledger unchanged |
| Prekeys.Reachable | backend/app/services/crypto_service.py:191-264 | the pool's invariant holds after every interleaving of the reads, conditional updates, generations, retrieving reads and deletes of any number of calls |
| Prekeys.Exclusive | backend/app/services/crypto_service.py:219-264 | no prekey is ever returned to two claims; every private key handed out had been claimed and is no longer stored; no retrieval returns two |
| Prekeys.TwiceExactly | backend/app/services/crypto_service.py:249-264 | in every run a private key is handed out twice if and only if two retrievals both query its row before either deletes it, and both deletes run |
| Prekeys.SideBySideTwice | backend/app/services/crypto_service.py:249-264 | after any run, two retrievals of a claimed key that overlap both return it |
| Prekeys.TwoDownloads | backend/app/services/crypto_service.py:191-264 | a run from the empty pool in which one upload's key reaches two downloads |
| Prekeys.ClaimedRowsFixed | backend/app/services/crypto_service.py:233-264 | a claimed row keeps every column as long as it exists, and a row that was deleted never comes back |
| Prekeys.AnswerBinds | backend/app/services/crypto_service.py:233-245 | the row of a returned key names the receiver and transfer of the call it was returned to |
| Prekeys.NeverExpired | backend/app/services/crypto_service.py:219-247 | in every run no call is answered with a key that had expired when the call began |
| Prekeys.FailedUpdate | backend/app/services/crypto_service.py:233-246 | a conditional update that changes no row means another call claimed that very key since this call read it |
| Prekeys.NoneMeansContention | backend/app/services/crypto_service.py:219-247 | a claim answers None only after three attempts, and only if other calls claimed keys of the same receiver while it ran, or it ran for thirty days |
| Prekeys.LoneClaimer | backend/app/services/crypto_service.py:219-247 | a claim without competition succeeds by its second attempt: the next conditional update it makes returns its key |
| Primitives.LawsHoldOfSomething | backend/app/services/crypto_service.py:277-369 | the assumed laws of the cryptographic libraries are consistent |
| KeyRegistry.GenerateOk | backend/app/services/mlkem_service.py:75-104 | generating a key pair keeps versions 1..n with only the newest active for every user, adds one row for its user, and changes no key material and no other user's rows |
| KeyRegistry.GenerateRetires | backend/app/services/mlkem_service.py:75-103 | a generation retires the user's active row at its time, leaves every other row exactly as it was and adds the user's next version |
| KeyRegistry.ExactlyOneActive | backend/app/services/mlkem_service.py:114-123 | a user with keys has exactly one active row, and the lookup finds it |
| KeyRegistry.VersionUnique | backend/app/services/mlkem_service.py:125-141 | the lookup by user and version finds the one row that carries them |
| KeyRegistry.RotationsOk | backend/app/services/mlkem_service.py:75-113 | any sequence of rotations keeps the registry valid and leaves users that were not rotated as they were |
| KeyRegistry.DecapsulateLater | backend/app/services/mlkem_service.py:143-157 | a secret encapsulated to any key is recovered under its recorded version after any rotations |
| KeyRegistry.MLKEMService.GenerateKeypair | backend/app/services/mlkem_service.py:75-104 | the in-place flip and insert is the specified generation |
| HybridKex.TranscriptKeysAscend | backend/app/services/upce_quantum_service.py:99-114 | the modelled order of the transcript's fields is the order of sorted keys |
| HybridKex.TranscriptNames | backend/app/services/upce_quantum_service.py:93-114 | each of the seven inputs is found in the transcript's object under its own name |
| HybridKex.TranscriptBinds | backend/app/services/upce_quantum_service.py:93-114 | equal transcript hashes mean equal inputs in all seven fields, or a digest collision among those inputs |
| HybridKex.KeyMaterialInjective | backend/app/services/upce_quantum_service.py:116-124 | the length-prefixed key material determines both secrets whenever both lengths fit 32 bits; longer ones are refused |
| HybridKex.KekBindsSecrets | backend/app/services/upce_quantum_service.py:116-134 | equal keys come from one transcript and one pair of secrets, or HKDF collides on the length-prefixed secrets under the protocol's salt, or on the extracts under its label |
| HybridKex.SameKekSameSetup | backend/app/services/upce_quantum_service.py:136-212 | two set-ups with one key have equal ECDH secrets, equal ML-KEM secrets and equal transcript inputs, or HKDF collides on those secrets or their extracts, or SHA-256 on what the transcripts hash |
| HybridKex.SecretRun | backend/app/services/upce_quantum_service.py:136-212 | for any participants, a run with lawful schemes and transcripts that are all alike in which another encapsulated secret gives another key |
| HybridKex.KekAgreement | backend/app/services/upce_quantum_service.py:136-264 | the receiver recovers the sender's key, which `HybridKex.KekBindsSecrets` ties to both secrets, after any rotations of other users' keys |
| HybridKex.KekAgreementExactly | backend/app/services/upce_quantum_service.py:136-264 | after any rotations, the receiver's own included, the receiver recovers the sender's key if and only if its active public key is the one of the upload, or the upload's transcript collides with the one that has the new key, or the upload's extract expands to one key under both |
| HybridKex.RotationBreaksAgreement | backend/app/services/upce_quantum_service.py:226-247 | in any registry whose active public key for the receiver is another one, keys that still agree make the two transcripts, or the two sides' expansions, collide |
| HybridKex.AgreementNeedsSameInputs | backend/app/services/upce_quantum_service.py:116-134 | equal keys from different transcript inputs make the transcripts collide, or the expansions of what was extracted from the two pairs of secrets |
| HybridKex.RotationRun | backend/app/services/upce_quantum_service.py:226-247 | for any participants and master key, a run with lawful schemes in which the receiver's key is rotated between upload and download and the recovered key is another one |
| HybridKex.SetupSucceeds | backend/app/services/upce_quantum_service.py:136-212 | with a valid prekey and a usable library the set-up is hybrid and records the version of the key active afterwards |
| HybridKex.SetupDeclines | backend/app/services/upce_quantum_service.py:136-160 | without a prekey or a usable library the transfer is not hybrid and no key is generated |
| PfcePackage.FragmentNamesDistinct | backend/app/services/pfce_engine.py:128-135 | fragments with different ids have different names in the package |
| PfcePackage.SortRestores | backend/app/services/pfce_engine.py:381 | sorting any permutation of the numbered entries by id gives back the original list |
| TransferSignature.TextDetermines | frontend/src/utils/cryptoSigning.js:170-189 | a declaration without line breaks is the only one with its signed text, even among declarations with line breaks |
| PfcePackage.SameText | backend/app/services/pfce_engine.py:335-352 | the text the server verifies is, field by field, the one the sender's client signs |
| PfcePackage.GateExactly | backend/app/services/pfce_engine.py:305-362 | the gates let a package pass if and only if it is signed by its declared sender, under the accepted scheme and a key of 2048 bits with the declared fingerprint, over the client's text for this receiver |
| PfcePackage.FaultExactly | backend/app/services/pfce_engine.py:305-362 | each of the seven reasons is reported if and only if its condition is the first that is not met |
| PfcePackage.GenuineWasSigned | backend/app/services/pfce_engine.py:335-362 | if only texts that the key's holder signed verify, then the sender, receiver, transfer, hash, size, time and nonce of a package that passes are those of one declaration the holder signed |
| PfceRoundTrip.SealUnwraps | backend/app/services/crypto_service.py:351-369 | a sealed fragment's key comes back by the transfer key and by RSA; an entry without a hybrid wrap is opened by RSA even when there is a transfer key |
| PfceRoundTrip.RoundTrip | backend/app/services/pfce_engine.py:381-483 | for any pieces, keys, ciphers and any permutation of the manifest, the download emits exactly the pieces and no error, on the RSA path always and on the hybrid path after any rotations that leave the receiver's active public key what it was |
| PfceRoundTrip.RotatedDownload | backend/app/services/pfce_engine.py:388-452 | after a change of the receiver's active public key a hybrid download delivers the file if the two transcripts or the two expansions collide; otherwise it ends in the first fragment's unwrap error with nothing emitted, if and only if the first wrap does not open under the key that recovery yields |
| PfceRoundTrip.FailedDownload | backend/app/services/pfce_engine.py:388-452 | for any participants, piece and random choices, a sealed package whose download after a rotation emits nothing but that error |
| PfceRoundTrip.PrefixOrError | backend/app/services/pfce_engine.py:413-483 | whatever replaces or removes the fragment bodies, what is emitted is a prefix of the original and all of it unless an error is raised, or an emitted chunk with a colliding digest is exhibited |
| PfceRoundTrip.DeliversPrefix | backend/app/services/pfce_engine.py:381-483 | the same for a whole download with the manifest's entries in any order; a failed key recovery emits nothing |
| PfceRoundTrip.TamperingStops | backend/app/services/pfce_engine.py:413-430 | a replaced or removed fragment body stops the download earlier or at that fragment with the error that names it, or collides with the original ciphertext |
| PfceRoundTrip.HandedOutOnce | backend/app/services/crypto_service.py:249-264 | the prekey of a uniquely named transfer is handed out to two downloads if and only if both query it before either deletes it |
| PfceRoundTrip.NoRowLeft | backend/app/services/crypto_service.py:249-264 | once it was handed out, no row is left for the transfer |
| PfceRoundTrip.OneShot | backend/app/services/pfce_engine.py:383-411 | once its prekey was handed out, every download of a hybrid package with a crypto engine that queries the pool later fails before emitting a byte, with no downgrade to RSA |
| PfceRoundTrip.NoEngineNoLimit | backend/app/services/pfce_engine.py:410-411 | without a crypto engine, or without hybrid metadata, the package is delivered through RSA any number of times |
| PfceRoundTrip.SealedSize | backend/app/services/pfce_engine.py:334-339 | the size that is verified when the signature declares none is the size of the sealed file |
| PfceRoundTrip.HandedOutForever | backend/app/services/crypto_service.py:249-264 | nothing that happens later makes a handed-out prekey available again |
| PfceEngine.PolicyFor | backend/app/services/pfce_engine.py:88-89 | the chunk range of an upload, with or without a policy, is never empty or below one byte |
| PfceEngine.PolicyExactly | backend/app/services/upce_quantum_service.py:67-88 | the strictest chunk range goes to high risk or sensitive classifications and to nothing else, the middle one to what is left of medium level or internal data, the widest to the rest |
| PfceEngine.CandidatesKept | backend/app/services/upce_quantum_service.py:57-91 | every cipher that may be drawn is a candidate of the selected policy if and only if neither the level nor the malware score alone asked for ChaCha20, or the classification asks for it too |
| PfceEngine.CutFragment | backend/app/services/pfce_engine.py:108-124 | however short the reads are, a fragment is the next bytes of the stream, full unless the stream ended |
| PfceEngine.OwnerIsReceiver | backend/app/services/pfce_engine.py:70-73 | the user a prekey is claimed for is the receiver id used at download exactly when the id has no superfluous leading zero |
| PfceEngine.PrekeyStore.GeneratePrekeys | backend/app/services/crypto_service.py:191-217 | adds the asked number of available rows for the user and changes nothing else |
| PfceEngine.PrekeyStore.ClaimPrekey | backend/app/services/crypto_service.py:219-247 | without competition returns the public half of a row that was available or new and is now bound to the user and transfer; no other row changes |
| PfceEngine.PrekeyStore.GetAndDelete | backend/app/services/crypto_service.py:249-264 | answers with the private key of a row bound to the user and transfer and deletes that row, or answers None when there is none |
| PfceEngine.PFCEEngine.EncryptForReceiver | backend/app/services/crypto_service.py:277-348 | writes the fragment's ciphertext and returns the entry with both wraps and both digests |
| PfceEngine.PFCEEngine.SealStream | backend/app/services/pfce_engine.py:103-210 | the nested loops seal consecutive pieces of the stream, numbered from zero, until it is exhausted or the monitor blocks; the master hash covers exactly the sealed pieces |
| PfceEngine.PFCEEngine.Pack | backend/app/services/pfce_engine.py:212-234 | the package holds exactly the fragments' files, and they are gone from the directory |
| PfceEngine.PFCEEngine.BeginTransfer | backend/app/services/pfce_engine.py:70-84 | binds one prekey to the package name and sets up the transfer with its public half |
| PfceEngine.PFCEEngine.ProcessUpload | backend/app/services/pfce_engine.py:46-278 | the returned package seals a cutting of the whole stream under the set-up for its prekey; the count and hash are those of the pieces; each error occurs if and only if its cause does: a missing enclave, which touches nothing, an empty chunk range, or a block after the last fragment that was sealed and after no earlier one |
| PfceEngine.PFCEEngine.ProcessDownload | backend/app/services/pfce_engine.py:280-483 | a package that is not genuine emits nothing, reports the first gate that fails and leaves the prekey pool unchanged; a genuine one has its prekey retrieved and deleted and its emission is the specified delivery; whatever emits a byte or changes the pool was declared and signed, if only signed texts verify |
| PfceEngine.PFCEEngine.EmitChunks | backend/app/services/pfce_engine.py:413-483 | the generator's loop yields what the specification emits, up to the first failing fragment |
| PfceEngine.UploadDelivers | backend/app/services/pfce_engine.py:280-483 | what an upload produced, downloaded with its prekey, emits the pieces of the upload |
| PfceEngine.SendAndReceive | backend/app/services/pfce_engine.py:46-483 | upload followed by two downloads through the engine's own state: the first accepted one emits exactly the uploaded bytes if and only if the receiver id owns its prekeys or the transfer is not hybrid, and otherwise only the error of a missing prekey; the second one of a hybrid package fails before emitting a byte |
| PrivacyBudget.ScriptPosts | backend/app/security/privacy/differential_privacy.py:62-101 | one run of the script on the flat hash decides as the ledger of charges does and leaves the ledger's total, count and ids |
| PrivacyBudget.InMemoryPosts | backend/app/security/privacy/differential_privacy.py:157-182 | the dictionary decides as the ledger does and leaves the ledger's total and ids |
| PrivacyBudget.SameAccountant | backend/app/security/privacy/differential_privacy.py:62-182 | after any calls the script and the dictionary accept or refuse the next one alike, with the same remaining budget, total and number of distinct ids |
| PrivacyBudget.RefusedExactly | backend/app/security/privacy/differential_privacy.py:78-101 | after any calls the hash and the dictionary refuse a call if and only if its id is new and its cost exceeds the maximum less the charges so far, less the reserve for a periodic call and for no other; what is new and not refused is charged its cost, and what is left is reported |
| PrivacyBudget.RefusedInRun | backend/app/security/privacy/differential_privacy.py:118-182 | the same for every request of every run with failover, by the charges of the store that decides it |
| PrivacyBudget.MicroExact | backend/app/security/privacy/differential_privacy.py:128-131 | amounts are counted in millionths towards zero, losing less than one |
| PrivacyBudget.HashKeeps | backend/app/security/privacy/differential_privacy.py:88-101 | over any calls `consumed` is the sum of charges of distinct ids, `count` is their number, the `seen:` fields are exactly those ids, and the total stays under the ceiling |
| PrivacyBudget.LedgerKeeps | backend/app/security/privacy/differential_privacy.py:72-90 | no id is charged twice and the total stays between zero and the ceiling |
| PrivacyBudget.MaximumHolds | backend/app/security/privacy/differential_privacy.py:79-86 | the total never exceeds the maximum, over all call sequences, if and only if the reserve is not negative or nothing can be charged at all |
| PrivacyBudget.GrantedStaysFree | backend/app/security/privacy/differential_privacy.py:69-77 | once granted, an id is granted again at no charge after any calls in between |
| PrivacyBudget.EveryRun | backend/app/security/privacy/differential_privacy.py:118-155 | over every run of answers, errors before the script and errors after it, each store is in the state its own calls lead to |
| PrivacyBudget.AtMostTwice | backend/app/security/privacy/differential_privacy.py:133-146 | Redis and the dictionary together spend at most twice the ceiling of a key |
| PrivacyBudget.OnceWhileAnswered | backend/app/security/privacy/differential_privacy.py:133-155 | as long as Redis answers, nothing is ever charged in the dictionary and the two stores together stay under the ceiling |
| PrivacyBudget.TwiceIsReached | backend/app/security/privacy/differential_privacy.py:133-146 | for every course of Redis with an error that is not a refusal of the first request, a run that is charged exactly twice the ceiling |
| PrivacyBudget.CeilingOnceExactly | backend/app/security/privacy/differential_privacy.py:133-146 | for a fixed course of Redis, both stores together stay within one ceiling over all requests and keys if and only if no error occurs, or the first request finds Redis down, or the ceiling is zero |
| PrivacyBudget.StatusReports | backend/app/security/privacy/differential_privacy.py:184-213 | the status equals the total and number of charges of the calls the store that is asked has executed, and of no others |
| PrivacyBudget.ExpiresWithEpoch | backend/app/security/privacy/differential_privacy.py:106-116 | the epoch contains the present, a key expires with it or less than a second before, and the time to live is zero exactly in the epoch's last second |
| PrivacyBudget.ExpiryExactly | backend/app/security/privacy/differential_privacy.py:92-101 | for fixed request times and times to live, what Redis charges for one key stays under the ceiling over all calls if and only if no request comes after a key made by an earlier one would have expired, or the ceiling is zero |
| PrivacyBudget.QuietLastSecond | backend/app/security/privacy/differential_privacy.py:106-116 | with the times to live of one epoch, the ceiling holds when no request but the first comes in the epoch's last second |
| PrivacyBudget.LastSecondUnbounded | backend/app/security/privacy/differential_privacy.py:92-116 | requests in the last second of an epoch for the whole budget are granted and charged every time |
| PrivacyBudget.KeysApart | backend/app/security/privacy/differential_privacy.py:122-123 | budget keys of different users or epochs differ |
| PrivacyBudget.RedisServer.EvalSha | backend/app/security/privacy/differential_privacy.py:62-101 | the script's commands on the hash are the specified step |
| PrivacyBudget.PrivacyBudgetAccountant.ConsumeBudget | backend/app/security/privacy/differential_privacy.py:118-155 | a non-positive epsilon changes nothing; otherwise the call is the specified step, including the permanent failover |
| PrivacyBudget.PrivacyBudgetAccountant.InMemoryConsume | backend/app/security/privacy/differential_privacy.py:157-182 | the dictionary update is the specified step for its key and leaves other keys alone |
| PrivacyBudget.PrivacyBudgetAccountant.GetBudgetStatus | backend/app/security/privacy/differential_privacy.py:184-213 | reads the total and count of the store that can be reached, zero when there is no entry |
| Privatize.Protected | backend/app/security/privacy/differential_privacy.py:276-291 | whatever the noise, a protected feature ends in its domain and keeps being an integer or a real |
| Privatize.ProtectReleases | backend/app/security/privacy/differential_privacy.py:276-289 | while the clipped value plus the noise is in the domain, a real feature is released as exactly that sum and an integer feature as the nearest integer, ties to even; otherwise as the bound that was passed |
| Privatize.AnyRelease | backend/app/security/privacy/differential_privacy.py:270-292 | whatever the raw features, every map of the right kinds in the domains is their one release under some noise |
| Privatize.MonotoneRelease | backend/app/security/privacy/differential_privacy.py:276-289 | in every feature more noise never releases less |
| Privatize.Sensitivity | backend/app/security/privacy/differential_privacy.py:276-286 | before rounding, two raw values end at most the policy's sensitivity apart under the same noise, in their order, and no further apart than their clipped values |
| Privatize.DifferentialPrivacyService.NoiseAll | backend/app/security/privacy/differential_privacy.py:270-292 | every feature with a policy is released as the noisy sum while that is in the domain, rounded for an integer, and as the bound otherwise; all others and the key set stay |
| Privatize.DifferentialPrivacyService.PrivatizeFeatures | backend/app/security/privacy/differential_privacy.py:252-301 | features come back, released in the same way, only if the budget granted the analysis in one step of the accountant; disabled privacy returns the raw ones and charges nothing |
| ContinuousMonitor.MonitorsArePeriodic | backend/app/services/ai_service.py:276-278 | every analysis id a monitor builds is charged as a periodic one |
| ContinuousMonitor.ClassExactly | backend/app/services/ai_service.py:274-278 | an analysis is charged as an initial one if and only if its id has no colon |
| ContinuousMonitor.AnalysesApartById | backend/app/services/continuous_monitor.py:166-167 | analyses of one transfer after different numbers of fragments or with different suffixes have different ids, so none of them is free |
| ContinuousMonitor.EveryRun | backend/app/services/continuous_monitor.py:159-247 | over any run, failover of the accountant included, the maximum is the largest of zero and every score taken, the current score and risk band are those of the last, the transfer is blocked exactly when some score reached the threshold or was critical, and every charge in either store is accounted for by a score, a wasted analysis or the one lost answer |
| ContinuousMonitor.BlockedStays | backend/app/services/continuous_monitor.py:203-247 | a blocked transfer is never marked completed or unblocked by anything later |
| ContinuousMonitor.CompletionExactly | backend/app/services/continuous_monitor.py:203-247 | at its end a transfer is blocked if some score of its run blocked it, and completed if none did |
| ContinuousMonitor.CountersExact | backend/app/services/continuous_monitor.py:72-74 | over any run the counters are the number of fragments and the sum of their bytes |
| ContinuousMonitor.HeuristicsExactly | backend/app/services/continuous_monitor.py:119-157 | a large transfer that is slow after ten seconds is scored 0.2 higher, up to 1, and its level follows the raised score; no other score changes |
| ContinuousMonitor.ScoredExactly | backend/app/services/ai_service.py:274-306 | with privacy on, an analysis is scored if and only if nothing raised before its charge and the budget refused it under the open policy, or granted it and nothing raised after |
| ContinuousMonitor.MediaIsFree | backend/app/services/ai_service.py:205-224 | over any run a transfer with a media extension is never charged, is scored 0.15 or 0.35, and is not blocked by a threshold above that |
| ContinuousMonitor.GuardExactly | backend/app/services/continuous_monitor.py:76-117 | an analysis is allowed if and only if monitoring is on, samples are left, the budget is used up or above its reserve, and it is the first or the interval or the number of fragments, tripled above the soft limit, has passed |
| ContinuousMonitor.AnalysesApart | backend/app/services/continuous_monitor.py:76-117 | over any run, any score but the first was taken at least the interval, or at least the number of fragments, after the one before it |
| ContinuousMonitor.SpendBound | backend/app/services/continuous_monitor.py:88-90 | in both stores together a transfer is charged at most the configured number of analyses (at least the unguarded one), plus one for every analysis that raised after it was granted, plus at most one for an answer that was lost |
| ContinuousMonitor.WithinExactly | backend/app/services/continuous_monitor.py:88-90 | for every setting: over all transfers, events and accountants without negative totals the charge stays within the limit if and only if no analysis can raise after its grant and no answer can be lost, or the settings rule the effect out, or the budget does not cover one analysis above the reserve |
| ContinuousMonitor.RaisedEscape | backend/app/services/continuous_monitor.py:166-193 | for every limit and every budget that covers one analysis above the reserve, a run whose first analysis raises after its charge, each analysis in an epoch of its own, is charged one analysis too many |
| ContinuousMonitor.LostEscape | backend/app/security/privacy/differential_privacy.py:133-146 | for every limit and every budget that covers one analysis above the reserve, a run whose first answer is lost, each analysis in an epoch of its own, is charged one analysis too many |
| ContinuousMonitor.NothingCharged | backend/app/services/ai_service.py:274-286 | a transfer is charged nothing in any run if privacy is off, an analysis costs nothing, or the budget does not cover one above the reserve |
| ContinuousMonitor.ReserveLeft | backend/app/services/ai_service.py:274-286 | every charge a monitor makes leaves the reserve in the store that is charged |
| ContinuousMonitor.MonitorsKeepReserve | backend/app/services/continuous_monitor.py:76-120 | however many monitors share the accountant and through any failover, while all charges are periodic the reserve of neither store is touched |
| ContinuousMonitor.ContinuousTransferMonitor.ReanalyzeTransfer | backend/app/services/continuous_monitor.py:159-210 | the field updates are the specified analysis, with its charge, and nothing but the charge when it raises |
| ContinuousMonitor.ContinuousTransferMonitor.Observe | backend/app/services/pfce_engine.py:181-192 | one fragment updates the telemetry and analyses exactly when the guard allows |
| ContinuousMonitor.ContinuousTransferMonitor.CompleteMonitoring | backend/app/services/continuous_monitor.py:244-247 | completes a transfer that is not blocked and leaves a blocked one as it is |
| RateLimiter.PruneIsAfter | backend/app/core/rate_limiter.py:51-52 | on a sorted deque the popleft loop keeps exactly the elements after the cutoff |
| RateLimiter.EveryRun | backend/app/core/rate_limiter.py:41-63 | in every run with monotone time every deque agrees with its key's accepted history from the cutoff on, and no accepted request was one too many |
| RateLimiter.DequeIsWindow | backend/app/core/rate_limiter.py:50-62 | the deque a request leaves behind is the accepted history of its key filtered to the window |
| RateLimiter.DecisionExact | backend/app/core/rate_limiter.py:45-62 | a limited request passes if and only if the window of the unpruned history holds fewer than its limit |
| RateLimiter.PassesExactly | backend/app/core/rate_limiter.py:41-63 | for a client whose address is not nested with another's, a request for a path passes if and only if fewer than the path's limit of that client's requests for that path, whatever their query, passed in the window that ends now |
| RateLimiter.ClientWindow | backend/app/core/rate_limiter.py:41-63 | so at every instant at most the path's limit of that client's requests for that path passed in the window that ends then |
| RateLimiter.ClientExactly | backend/app/core/rate_limiter.py:26-31 | the client is the first forwarded address without the white space around it, the peer without a forwarded list, or unknown |
| RateLimiter.Unlimited | backend/app/core/rate_limiter.py:41-43 | with the limiter off or outside /api/ every request passes and none is counted |
| RateLimiter.SlidingWindow | backend/app/core/rate_limiter.py:41-63 | for every client that no other address of the run extends or is extended by, every path and every instant, at most the path's limit of requests was accepted in the window that ends there |
| RateLimiter.WindowBound | backend/app/core/rate_limiter.py:45-62 | for any key and instant, with no condition on addresses, a window holds at most the limit of its latest accepted request |
| RateLimiter.KeySplits | backend/app/core/rate_limiter.py:49 | equal keys come from one address and path, or from two addresses of which one extends the other |
| RateLimiter.ShareExactly | backend/app/core/rate_limiter.py:26-49 | two addresses can share a deque if and only if one of them extends the other |
| RateLimiter.KeyFixesLimit | backend/app/core/rate_limiter.py:33-49 | requests counted in one deque are held against one limit unless one address extends the other |
| RateLimiter.BurstExceeds | backend/app/core/rate_limiter.py:26-62 | a run in which requests under a larger limit fill the window of a sign-in key beyond the sign-in limit |
| RateLimiter.WindowExactly | backend/app/core/rate_limiter.py:26-62 | for two addresses and a sign-in limit below the others, every window keeps its limit over all runs of the two if and only if neither extends the other |
| RateLimiter.InMemoryRateLimitMiddleware.Dispatch | backend/app/core/rate_limiter.py:41-63 | the loop over the deque decides and updates as the specified step |
| ReplayCache.ForgettingIsSafe | backend/app/security/internal_auth.py:26-114 | for tokens that live at most sixty seconds the pruned stores write and let past exactly the JTIs that the record of all JTIs ever written would, lost answers of Redis included |
| ReplayCache.VerdictExact | backend/app/security/internal_auth.py:26-114 | so every verdict, with its status code, is the one the record of all JTIs ever written gives |
| ReplayCache.AcceptedExactly | backend/app/security/internal_auth.py:26-114 | in every run a request is accepted if and only if it carries a decoded, unexpired token with a JTI, from the service node-api, whose method and path claims are absent, a star or the request's own, and the store that decides has never written that JTI |
| ReplayCache.AcceptedMeans | backend/app/security/internal_auth.py:93-104 | in any state and for any lifetime, what is accepted was minted for this request |
| ReplayCache.NeverElsewhere | backend/app/security/internal_auth.py:96-104 | a token minted for one method and path is never accepted for another |
| ReplayCache.StatusExactly | backend/app/security/internal_auth.py:26-114 | 401 exactly for no valid token or a written JTI, 500 exactly when no store decides, 403 exactly for claims that do not suit |
| ReplayCache.ReplayedExactly | backend/app/security/internal_auth.py:61-91 | a valid token is refused as replayed if and only if the store that decides has let its JTI past, or that store is Redis and the answer to an earlier SET for the JTI was lost |
| ReplayCache.RefusedUnused | backend/app/security/internal_auth.py:75-91 | outside development a lost answer is a 500 and the next presentation of that token, never let past, is a 401 |
| ReplayCache.NeverAgain | backend/app/security/internal_auth.py:56-104 | a token that got past the replay check, accepted or refused for its context, is answered 401 by the same store ever after |
| ReplayCache.LifetimeBound | backend/app/security/internal_auth.py:56-88 | each JTI passes at most once per store over every run if and only if tokens live at most sixty seconds |
| ReplayCache.ReplayedLate | backend/app/security/internal_auth.py:76-78 | for any longer lifetime a run in which one JTI passes twice |
| ReplayCache.AtMostTwice | backend/app/security/internal_auth.py:61-88 | with Redis and the dictionary both in play a JTI passes at most twice |
| ReplayCache.ProductionOnce | backend/app/security/internal_auth.py:61-91 | outside development a JTI passes at most once, however Redis fails and recovers |
| ReplayCache.InternalAuth.Cleanup | backend/app/security/internal_auth.py:56-59 | the two loops delete exactly the entries whose time has passed |
| ReplayCache.InternalAuth.VerifyInternalToken | backend/app/security/internal_auth.py:26-114 | the verdict, the cache and the Redis keys are those of the specified step |
| MfaChallenges.EveryRun | backend-node/src/controllers/authController.js:127-256 | every chain of challenges keeps its invariant over any interleaving of sign-ins, verifications and resends |
| MfaChallenges.LoginChain | backend-node/src/controllers/authController.js:127-224 | the challenges of one login: at most maxResends + 1, at most one open, at most maxAttempts times that many comparisons, consecutive sends at least the cooldown and at most one lifetime apart, at most one token |
| MfaChallenges.TokenExactly | backend-node/src/controllers/authController.js:127-174 | in every run a token is issued if and only if the right password arrives for the newest challenge of its login while that is open and not expired; a challenge out of attempts is never still open |
| MfaChallenges.VerifyExactly | backend-node/src/controllers/authController.js:127-178 | in every run, the status and the effect of a verification: 400 and nothing for a challenge that is not live; on a live one a mismatch costs one attempt, the last of which closes it with 429, and a match closes it |
| MfaChallenges.GuessesExactly | backend-node/src/controllers/authController.js:140-158 | after n wrong guesses on a live challenge the right one signs in if and only if, with those before, they are fewer than the configured attempts |
| MfaChallenges.SignInExactly | backend-node/src/controllers/authController.js:24-74 | a stored sign-in opens one challenge for its user, live from that instant for the configured minutes, and changes no other |
| MfaChallenges.ResendExactly | backend-node/src/controllers/authController.js:180-224 | in every run a resend adds a challenge if and only if its challenge is live, resends are left and the cooldown has passed |
| MfaChallenges.ResendAnswers | backend-node/src/controllers/authController.js:180-256 | a resend that is not allowed changes nothing and answers 400 or 429; one that is allowed closes its challenge and appends a fresh one for the same user |
| MfaChallenges.TokenInTime | backend-node/src/controllers/authController.js:144-224 | no token is issued later than maxResends + 1 lifetimes after the sign-in |
| MfaChallenges.ClosedForever | backend-node/src/controllers/authController.js:140-193 | a login whose challenges are all consumed is never changed again |
| MfaChallenges.TokenEndsLogin | backend-node/src/controllers/authController.js:155-174 | a token is issued on a match only, to the challenge's user, and ends its login for good |
| MfaChallenges.AuthController.SendMfaChallenge | backend-node/src/controllers/authController.js:24-74 | a sign-in adds one chain with one open challenge, whether or not its email is delivered |
| MfaChallenges.AuthController.VerifyMfa | backend-node/src/controllers/authController.js:127-178 | the handler's updates and status codes are those of the specified step |
| MfaChallenges.AuthController.ResendMfa | backend-node/src/controllers/authController.js:180-256 | the handler's updates and status codes are those of the specified step |

## Left out

- Internals of SHA-256, HKDF, AES-GCM, ChaCha20-Poly1305, RSA, ECDH and ML-KEM: library calls, kept as arbitrary functions with the laws stated above.
- Scores of the isolation forest, the malware model and the heuristics, and the Laplace draw: arbitrary inputs.
- The quarantine service writes to the audit table with a different preimage (backend/app/security/quarantine/quarantine_service.py:13-28): the chain theorems are about rows written by `append_block`.
- A second process appending between reading the last row and inserting: an append is one atomic step.
- The contract's further columns (audit id hash, event type hash, timestamp, running total): nothing reads them back in the verifier.
- Commit failures, file-system errors and the text of the package's archive and metadata files: the package is the pair of its manifest and its entries.
- The audit records that a failed download writes, progress callbacks and timings: no decision depends on them.
- Lone surrogate code points in strings: the modelled strings are sequences of Unicode scalar values.
- Unicode digits in receiver ids and Unicode white space in forwarded addresses: only ASCII ones are recognised.
- Rounding of floating-point time, scores and epsilon, and integers beyond 2^53 in the script: amounts are exact integers, times and scores are reals.
- Clocks that run backwards or differ between processes: theorems about windows, lifetimes and epochs take monotone time as a hypothesis where they need it.
- Expiry of budget keys within an epoch: a key lives for its epoch except in its last second; `PrivacyBudget.ExpiresWithEpoch` says how far the time to live falls short of that and `PrivacyBudget.LastSecondUnbounded` what follows.
- Calls of the contract method with an empty event hash: they leave their slot free and are not counted.
- More than one process: each has its own replay dictionary and its own budget dictionary, so what is said of the dictionary, and the bound of twice the ceiling, is for one process.
- How the database compares a receiver's integer id with a text column: by its decimal form; ids beyond 64 bits and databases that reject the comparison are not modelled.
- More than one contract: without a configured address every process deploys its own, and then confirmed rows of another read as missing; the verifier is taken to read the contract the ledger wrote to.
- The database's choice of a challenge: verification and resending take the challenge that was found as an input, so the choice among a user's challenges and its ties is arbitrary.
- Configuration values that do not parse as numbers: limits are integers.
- Concurrent requests on one challenge: each handler is one atomic step at one instant, although the source stamps a new challenge after several awaits.
- The key-management providers, the second key registry, native memory wiping, packet capture, the frontend and the routes' own parsing: no part of the modelled state.
