# Threshold ECDSA: a verified model

This project models the logic of a threshold-ECDSA library and proves its central promises: that honest
ceremonies always produce signatures and keys that verify, that every check accepts exactly what it should, and that
honest parties which finish agree, however the others behave and however messages are interleaved. It covers both
protocol families of the library, DKLs23 (`src/dklstss`) and GG18 (`src/ecdsatss`), and the codec and map they share.

`dafny verify dfyconfig.toml` checks everything.

## How the system is modelled

* The scalar field is the integers modulo a prime n. A curve point is its discrete logarithm in [0, n), so [k]G is
  k mod n and 0 is the identity. Coordinates are uninterpreted functions with x(-P) = x(P) and opposite y-parity.
* Hashes and the PRG are uninterpreted functions. Their collision freedom is a hypothesis of the agreement theorems and
  of nothing else. Fiat-Shamir challenges are these functions reduced as the code reduces them.
* Random draws are parameters, so each statement is for all draws. Where an honest prover or signer can fail on a draw,
  the theorem says exactly for which draws.
* The broker is an adversarial scheduler with authenticated senders: a handler gets one message per expected sender, in
  any order of handlers, with arbitrary contents from the parties that are not honest. A state machine is a class whose
  handlers carry one invariant; `Run` methods drive it with any list of events.
* A party is named by its index and by its key as an integer. Byte strings are sequences of 8-bit vectors where bits
  matter and of numbers below 256 in the codec.

| files | content |
|---|---|
| NumberTheory, Polynomial, Sums, Bits, Bytes, Results | congruences, Fermat, binomials; interpolation over a prime field; pairwise products; bit strings |
| Secp, Lagrange, Vss, Keys, Lifecycle, Resharing | ECDSA algebra, sharing, keygen, reshare and refresh in one process |
| OtExtension, BaseOt, Ole, OleCheck, CrossTerms | from base OT to additive shares of a product |
| SignEncoding, Signing, Presign | in-process signing, presigning and their single-use records |
| Echo, Committee, Dkg, DkgAgreement, KeygenParty | broker keygen: echo phase, agreement, state machine |
| SigningView, SigningParty, SigningComplete, SigningRun | broker signing: agreement, state machine, completeness, a whole run |
| ReshareView, ResharingParty, ReshareComplete | broker resharing: agreement, state machine, honest committees |
| RefreshView, RefreshParty | broker refresh: agreement, honest committees, state machine |
| KeyImage | threshold key images |
| Bn, Residues, Reciprocity | integer algorithms, Legendre and Jacobi symbols, quadratic reciprocity |
| Paillier, Mta, MtaVerify, ModProof | Paillier, MtA and its proofs, what its verifiers accept from anyone, the Blum-modulus proof |
| KeyConsistency, GgSigning, GgCommittee, GgRun, GgEndToEnd | GG18 keys, the nine signing rounds, whole runs |
| Varint, Wire, WireCodec, VecMap | the binary codec and the sorted-vector map |

## Results that limit or correct the documentation

* GG18 `finalize` delivers the x-coordinate of R as r without reducing it modulo the group order, while its check reduces
  it. The documentation calls the result a standard ECDSA signature. `GgRun.Sec1Exactly` shows that what is delivered passes
  SEC 1, section 4.1.4, if and only if that coordinate is below the order; `GgRun.Sec1Example` is an input where it is not.
* MtA shares the product because of the size check on moduli. `Mta.MtaExact` gives the condition for any sizes (q divides
  what the reduction modulo N removed), `Mta.MtaCorrect` shows that N > q^5 + q^2 suffices, and `Mta.SizeSuffices` that the
  2048 bits which `check_peer_modulus` demands give that for every order of 256 bits. `GgEndToEnd.EndToEnd` needs no more.
* An honest MtA prover can be refused. `Mta.RangeProofExact` and `Mta.BobProofExact` give the exact set of draws;
  `Mta.RangeProofRefused` and `Mta.BobProofRefused` are inputs: alpha drawn as 0 and a value of 1.
* `validate_consistency` cannot notice a replaced public share when another party has the zero id;
  `KeyConsistency.TamperedShareRejected` is an if-and-only-if with that condition, and
  `KeyConsistency.ZeroIdHidesTampering` gives inputs for every order.
* The broker's signing session ids join party keys of any length with a separator. `SignEncoding.MulPreimageExact` says when
  two of them hash the same string, `SignEncoding.MulPreimageInjective` that keys without the separator byte never do, and
  `SignEncoding.SidCollision` is a pair that does. The two directions of that pair use separate OT states.
* A new member that would be the only dealer sends an empty echo, and an empty echo is refused:
  `ReshareComplete.HonestReportExact` shows that this is the only honest report that is.
* The multiplication check does not notice a deviation applied to both runs, as its module documentation says:
  `OleCheck.SameOffsetUndetected` shows that it passes and when the shares are then wrong, `OleCheck.UndetectedExample` is
  an input.

## Model

| member | source | states |
|---|---|---|
| OtExtension.SenderExtend | src/dklstss/otext.rs:137-192 | each error exactly when its input is malformed; otherwise accepts iff for every h and j the bit T_h[j] + x_h delta_j is the inner product of row j of Q with bits h l to (h+1) l of the expansion; the two keys of row i are the hashes of column i of Q and of Q + delta |
| OtExtension.ReceiverExtend | src/dklstss/otext.rs:256-312 | accepts exactly the positive lengths divisible by 8 that the choice covers; x_h and T_h are the inner products of those bits of the expansion with the choice and the rows of T0, and key i is the hash of column i of T0 |
| OtExtension.XorSelectedRows | src/dklstss/otext.rs:316-334 | in place: bit j of the result is the GF(2) inner product of chi with column j added to the old bit, early exits included |
| OtExtension.TransposeBits | src/dklstss/otext.rs:414-436 | row i of the result is column i of the packed input, for every size divisible by 8 |
| OtExtension.PopcountParity | src/dklstss/otext.rs:438-442 | the parity of the bit count is the inner product |
| OtExtension.ExactAcceptance | src/dklstss/otext.rs:137-192 | for rows u_j = t0_j + t1_j + c_j with arbitrary c_j the sender accepts iff T_h[j] + <chi_h, t0_j> = delta_j (x_h + <chi_h, c_j>) for all 80 h and 128 j, chi_h being bits of the expansion |
| OtExtension.ChallengesJoined | src/dklstss/otext.rs:388-410 | the challenge vectors joined in order are the expansion bound to session, length and rows |
| OtExtension.RowsAlwaysFrom | src/dklstss/otext.rs:137-192 | every received row has such a choice vector, so the exact condition speaks about all messages |
| OtExtension.HonestAccepted | src/dklstss/otext.rs:256-312 | an honest receiver is always accepted |
| OtExtension.ChosenKey | src/dklstss/otext.rs:137-192 | the receiver key for row i is the sender key its choice bit selects |
| BaseOt.NewReceiver | src/dklstss/baseot.rs:99-139 | fails exactly on too few choice bits or an invalid proof; response i is x_i G, shifted by S when bit i is set |
| BaseOt.SenderFinalize | src/dklstss/baseot.rs:72-89 | fails exactly on a wrong count; key pair i is derived from y R_i and y R_i - y S |
| BaseOt.ReceiverFinalize | src/dklstss/baseot.rs:141-150 | key i is derived from x_i S under choice bit i |
| BaseOt.ChosenKeyAgrees | src/dklstss/baseot.rs:99-150 | the sender key for the choice bit is the receiver key, for every y and x |
| BaseOt.RunBaseOtPair | src/dklstss/setup.rs:14-27 | never fails on honest inputs and leaves matching OT-extension state, made of the draws: key i hashes (x_i + c_i y) y G, less y S for the second value |
| BaseOt.SetupPairs | src/dklstss/setup.rs:31-62 | every ordered pair of parties ends with matching state, from that pair's own draws and session ids |
| Ole.BitsLE | src/dklstss/ole.rs:178-190 | bit i of the packed little-endian choice is bit i of the scalar |
| Ole.BitsRecompose | src/dklstss/ole.rs:97-122 | 256 bits recompose every scalar below 2^256 |
| Ole.ScalarBytes | src/dklstss/ole.rs:97-122 | the 32 big-endian bytes of a scalar have its value |
| Ole.AliceStep1 | src/dklstss/ole.rs:97-122 | never fails; the sent message and kept keys are those of an honest extension of length 416 on the bits of alpha followed by the drawn pad |
| Ole.BobStep1 | src/dklstss/ole.rs:125-156 | fails exactly on a wrong length or a refused extension; otherwise the corrections and u_B are the ones defined from the keys |
| Ole.AliceStep2 | src/dklstss/ole.rs:159-176 | fails exactly on a wrong correction count; otherwise the weighted sum over the chosen keys |
| Ole.OutputsWithOffsets | src/dklstss/ole.rs:125-176 | with Bob off by d_i in correction i, u_A + u_B = alpha beta + sum alpha_i d_i modulo n |
| Ole.Multiply | src/dklstss/ole.rs:97-176 | with matching states no step fails and u_A + u_B = alpha beta modulo n for every pad and session id |
| Ole.MultiplyFromBaseOt | src/dklstss/ole.rs:97-176 | the same from any honest base-OT batch |
| OleCheck.SubSidInjective | src/dklstss/ole_check.rs:69-74 | sub-session ids never collide across runs or sids |
| OleCheck.SubSessionsDiffer | src/dklstss/ole_check.rs:69-74 | the two runs never share a session id |
| OleCheck.CheckedAliceStep2 | src/dklstss/ole_check.rs:114-130 | accepts exactly on well-sized replies whose difference equals z |
| OleCheck.CheckIsExact | src/dklstss/ole_check.rs:80-130 | with beta1, beta2, offsets d1, d2 and an offset zeta, Alice accepts iff alpha(beta1-beta2) + sum alpha_i(d1_i-d2_i) + zeta = 0; her share then sums to alpha beta1 + sum alpha_i d1_i |
| OleCheck.HonestRun | src/dklstss/ole_check.rs:80-130 | nothing off: the check passes and the first run is the product |
| OleCheck.CheckedMultiply | src/dklstss/ole_check.rs:80-130 | whatever comes out, both of Alice's messages were accepted, Bob used one beta and the runs agree; from matching states the check passes and the outputs share alpha beta |
| OleCheck.SameOffsetUndetected | src/dklstss/ole_check.rs:114-130 | with the same offsets in both runs Alice always accepts, and her share is wrong iff sum alpha_i d_i does not vanish |
| OleCheck.UndetectedExample | src/dklstss/ole_check.rs:114-130 | alpha odd and correction 0 one too high in both runs: accepted, and the shares miss the product |
| Vss.Create | src/dklstss/vss.rs:9-23 | one share per id on the polynomial of secret and draws, each accepted by verify |
| Vss.EvalPoly | src/dklstss/vss.rs:59-67 | the running powers compute the polynomial value |
| Vss.HornerEvalPoints | src/dklstss/vss.rs:50-57 | Horner over commitments is the evaluation of their logarithms |
| Vss.EvaluateCommitmentSum | src/dklstss/vss.rs:34-47 | the sum of all dealers evaluations |
| Vss.Verify | src/dklstss/vss.rs:26-31 | accepts exactly a share equal to the committed value with t+1 commitments |
| Vss.AcceptedSharesInterpolate | src/dklstss/vss.rs:26-31 | any t+1 accepted shares for distinct ids interpolate to the logarithm of the first commitment, whoever dealt |
| Vss.AcceptedShareUnique | src/dklstss/vss.rs:26-31 | one share is accepted per id |
| Polynomial.InterpolateAtZero | src/dklstss/signing.rs:282-295 | t+1 points of a degree-t polynomial over a prime field give its value at zero under the code weights |
| Polynomial.WeightsSumToOne | src/dklstss/signing.rs:282-295 | the interpolation weights sum to one |
| Lagrange.LagrangeCoefficient | src/dklstss/signing.rs:282-295 | errs exactly on a repeated id; otherwise the interpolation weight |
| Lagrange.WeightOverNonZero | src/dklstss/signing.rs:282-295 | weights of non-zero ids are non-zero |
| CrossTerms.RunMul | src/dklstss/signing.rs:260-279 | with matching OT state, plain or checked, shares of alpha beta; a checked run that returns anything passed the check |
| CrossTerms.CrossShares | src/dklstss/signing.rs:150-191 | one multiplication per ordered pair, each under its own session id, leaves shares of (sum k)(sum rho) and (sum x)(sum rho) |
| Signing.SortBy | src/dklstss/signing.rs:67-105 | the signers sorted by key, a permutation |
| Signing.EffectiveShares | src/dklstss/signing.rs:105-114 | share i is lambda_i x_i |
| Signing.EffectiveTotal | src/dklstss/signing.rs:105-114 | effective shares sum to the interpolated secret |
| Signing.TweakedTotal | src/dklstss/signing.rs:115-117 | the tweak moves the summed secret by itself |
| Signing.Finish | src/dklstss/signing.rs:200-251 | for honest sums it fails exactly when rho or e + r x vanishes and never in the final gate; whatever the sums, a returned signature verifies and is low-S |
| Signing.SignCore | src/dklstss/signing.rs:67-251 | for keys sharing the logarithm of the public key with matching OT state, any t+1 signers, hash, tweak and draws: succeeds exactly on a good request with r, phi, s non-zero; low-S, verifies under pub + tweak G, v is the recomputed parity; a checked session that signs passed every pair's multiplication checks |
| Secp.RecoverNonce | src/dklstss/signing.rs:309-316 | s k = e + r x makes the verifier recompute kG |
| Secp.NormalizedVerifies | src/dklstss/signing.rs:309-326 | low-S normalisation keeps verification, including SEC 1 range checks, and v is the parity of the recomputed point |
| Secp.VerifiesExactly | src/dklstss/signing.rs:309-316 | for any r and s other than zero, with s p = e + r pub: the gate compares the reduced x-coordinate of p with r, and SEC 1 also wants p, r and s in range |
| SignEncoding.ShortHashValue | src/dklstss/signing.rs:298-306 | the message scalar is the leftmost 32 bytes, or the whole shorter hash, modulo n |
| SignEncoding.MakeSidInjective | src/dklstss/signing.rs:328-338 | session ids of one session never collide |
| SignEncoding.MakeSidReads | src/dklstss/signing.rs:328-338 | where session, kind and the two indexes stand, big-endian |
| Signing.SessionSidsFresh | src/dklstss/signing.rs:67-105 | the multiplications of one session never share an id |
| Signing.SessionsApart | src/dklstss/signing.rs:67-105 | nor does a checked session share one with an unchecked one |
| SignEncoding.CmpBeIsNumeric | src/dklstss/signing.rs:347-356 | byte-string comparison is numeric for any lengths |
| SignEncoding.CanonicalIff | src/dklstss/keygen_party.rs:683-686 | a scalar string is canonical iff its value is below the order |
| Presign.Presign | src/dklstss/presign.rs:57-178 | from consistent keys it succeeds exactly on a good subset with r non-zero; R is the sum of the drawn nonces and the material is honest |
| Presign.PresignApart | src/dklstss/presign.rs:57-178 | presigns and signatures never share a session id |
| Presign.SignWithPresign | src/dklstss/presign.rs:181-251 | an empty hash leaves the presign usable; otherwise it is consumed and only the consuming call can sign, completely for honest material |
| Presign.TweakedSharesTotal | src/dklstss/presign.rs:181-251 | late tweaking of the shares equals signing under the tweaked key |
| Presign.Replay | src/dklstss/presign.rs:181-251 | of any requests to one presign empty hashes are refused, the first other one is finalized if the presign was fresh, every later one is refused |
| Presign.SignDurable | src/dklstss/presign.rs:284-300 | the durable record decides before the flag, and a used presign is refused |
| Presign.ReplayDurable | src/dklstss/presign.rs:284-300 | across any copies and restorations a request with a hash is finalized iff its nonce is on no record and its presign fresh, so no group nonce signs twice |
| Keys.ValidateBasic | src/dklstss/key.rs:53-92 | accepts exactly the well-formed keys |
| Signing.RequirePairs | src/dklstss/key.rs:146-161 | accepts exactly when every peer has loaded state, and blames membership first |
| Keys.QuorumOfKeys | src/dklstss/key.rs:30-49 | any t+1 keys of a sharing reconstruct the secret |
| Keys.CheckIndexes | src/dklstss/keygen.rs:116-128 | accepts exactly non-zero, distinct ids |
| Lifecycle.SumVerifiedShares | src/dklstss/keygen.rs:35-73 | goes through iff every dealt share fits its dealer's commitments; the sums are then the joint evaluations |
| Lifecycle.RecomputeCommitments | src/dklstss/keygen.rs:60-73 | goes through iff every share matches the commitments evaluated at its id, which it returns |
| Lifecycle.Keygen | src/dklstss/keygen.rs:15-103 | each error exactly when its condition fails; party j's share is the sum over dealers and degrees of draw times id_j^degree, the OT states are those of the pairs' draws, and the keys consistently share the sum of the constant draws |
| Resharing.Reshare | src/dklstss/resharing.rs:16-136 | any successful reshare shares the old public key logarithm under the same chain code, each new share being the interpolated secret plus the draws of degree 1 to t at the new id; from a consistent committee it fails only on a bad request or a zero share |
| Resharing.Refresh | src/dklstss/resharing.rs:139-205 | keeps secret, public key and chain code; each share moves by the sum of all parties' draws of degree 1 to t at its id; detects every share that does not match its commitment |
| Resharing.EvalZeroConst | src/dklstss/resharing.rs:254-262 | the zero-constant polynomial |
| Resharing.VerifyZeroConst | src/dklstss/resharing.rs:265-280 | accepts exactly its value |
| Resharing.SumDeltas | src/dklstss/resharing.rs:139-205 | goes through iff every delta is the value of its dealer's zero-constant polynomial |
| Resharing.ConsistentParticipants | src/dklstss/resharing.rs:16-136 | weighted shares of a quorum are non-zero and add up to the secret |
| Resharing.Lifetime | src/dklstss/resharing.rs:16-205 | after any sequence of reshares and refreshes the committee still shares the same secret, key and chain code |
| Echo.CommitPreimageInjective | src/dklstss/echo.rs:38-53 | the pre-image binds tag, dealer and every commitment |
| Echo.VerifyEchoes | src/dklstss/echo.rs:73-178 | accepts exactly when every report agrees; otherwise the first failing report is blamed for a true reason |
| Echo.AcceptedReports | src/dklstss/echo.rs:73-178 | with a complete view, a report is accepted iff non-empty, keyed by exactly the others, and equal digest by digest |
| Echo.BlameIsJust | src/dklstss/echo.rs:73-178 | with honest reporters the culprit sent two parties different commitments |
| Echo.Unflatten | src/dklstss/echo.rs:196-211 | errors exactly on odd length or the first off-curve pair |
| Echo.FlattenRoundTrip | src/dklstss/echo.rs:184-211 | the identity-free point lists, and only those, come back |
| Dkg.CheckDealer | src/dklstss/keygen_party.rs:332-420 | accepts exactly a broadcast and share that fit |
| Dkg.CheckPeer | src/dklstss/keygen_party.rs:332-420 | the same with the OT message |
| DkgAgreement.ViewsAgree | src/dklstss/keygen_party.rs:281-310 | after the echo phase two finishers know every dealer by the same commitments |
| DkgAgreement.FinishersAgree | src/dklstss/keygen_party.rs:477-578 | two honest finishers hold the same key, public shares and chain code |
| DkgAgreement.DeliveredMeans | src/dklstss/keygen_party.rs:332-420 | a delivered key means every peer dealt t+1 points with an accepted proof, a share below the order that fits them, an accepted base-OT point and 128 responses |
| Dkg.SidsApart | src/dklstss/keygen_party.rs:332-420 | two members name the same base-OT session iff they mean the same pair and direction |
| DkgAgreement.FinishersReconstruct | src/dklstss/keygen_party.rs:477-578 | any t+1 honest finishers shares interpolate to the logarithm of the key |
| DkgAgreement.PairStateMatches | src/dklstss/keygen_party.rs:332-578 | two finishers hold matching OT state both ways |
| DkgAgreement.WholeCommitteeShares | src/dklstss/keygen_party.rs:477-578 | an all-honest run yields a sharing ready for signing |
| KeygenParty.RoundOne | src/dklstss/keygen_party.rs:158-225 | broadcasts the commitments and proofs, and unicasts to each peer its value of the polynomial and its OT message |
| KeygenParty.HonestDealerAccepted | src/dklstss/keygen_party.rs:332-420 | an honest dealer passes every check of an honest receiver iff its coefficients are non-zero and its proofs are accepted |
| KeygenParty.HonestResponsesUsable | src/dklstss/keygen_party.rs:332-474 | the responses of an honest receiver are usable iff no x_i G, plus S for a set bit, is the identity |
| KeygenParty.HonestEchoExact | src/dklstss/keygen_party.rs:281-310 | an honest echo is accepted iff both parties hold the same digest for every dealer but its sender |
| KeygenParty.BuildKey | src/dklstss/keygen_party.rs:477-578 | delivers exactly when all responses are well-formed and the key validates |
| KeygenParty.Shared.OnR1Bcasts | src/dklstss/keygen_party.rs:247-262 | handler: keeps the invariant, joins round 1 once |
| KeygenParty.Shared.OnR1Unicasts | src/dklstss/keygen_party.rs:264-279 | the same for the unicasts |
| KeygenParty.Shared.RoundTwo | src/dklstss/keygen_party.rs:332-474 | stores only verified data, echoes own view, answers every OT |
| KeygenParty.Shared.OnEchoes | src/dklstss/keygen_party.rs:281-310 | passes only when every echo agrees |
| KeygenParty.Shared.OnResponses | src/dklstss/keygen_party.rs:312-316 | stores the responses and tries to finalize |
| KeygenParty.Shared.TryFinalize | src/dklstss/keygen_party.rs:318-329 | finalizes once, only after echoes and responses |
| KeygenParty.Shared.Finalize | src/dklstss/keygen_party.rs:477-578 | delivers one result; a key only for a complete, verified transcript |
| KeygenParty.Run | src/dklstss/keygen_party.rs:247-578 | in every run at most one result, a key only after every share and echo verified, exactly one result once all messages came |
| KeygenParty.RunsAgree | src/dklstss/keygen_party.rs:247-578 | two runs that deliver keys and used the echoes the other recorded as sent agree on all public values |
| SigningView.SignersAgree | src/dklstss/signing_party.rs:538-656 | two honest signers that deliver deliver the same (r, s, v) |
| SigningView.DeliveredMeans | src/dklstss/signing_party.rs:469-656 | a delivered signature verifies, is low-S with r non-zero, and every peer passed the consistency check under the pair's own session ids |
| SigningView.SignersShareSsid | src/dklstss/signing_party.rs:238-353 | and mixed the same session id |
| SigningParty.Shared.OnR1 | src/dklstss/signing_party.rs:238-299 | fails exactly on a nonce that does not parse or a vanishing R.x; otherwise stores the nonces and records the echo it broadcasts |
| SigningParty.Shared.OnR1Echoes | src/dklstss/signing_party.rs:301-334 | passes exactly when every round-1 echo agrees, else delivers an error |
| SigningParty.Shared.OnR2 | src/dklstss/signing_party.rs:336-341 | stores envelopes |
| SigningParty.Shared.TryRound3 | src/dklstss/signing_party.rs:343-358 | round 3 starts only after echoes and envelopes, once |
| SigningParty.Shared.Round3 | src/dklstss/signing_party.rs:410-467 | Bob answers every peer; fails exactly on a message his checks refuse |
| SigningParty.Shared.OnR3 | src/dklstss/signing_party.rs:469-536 | aggregates the replies and reveals; fails exactly on replies of a wrong size |
| SigningParty.Shared.OnR4 | src/dklstss/signing_party.rs:538-565 | stores the reveals and records the echo it broadcasts; fails exactly on undecodable ones |
| SigningParty.Shared.Finalize | src/dklstss/signing_party.rs:567-656 | one result; a signature only behind both echo phases and the final gate; on honest totals and agreeing reports the gate opens iff rho and e + r x do not vanish |
| SigningParty.Run | src/dklstss/signing_party.rs:238-656 | in every run at most one result, round 3 at most once and only after every round-1 echo verified |
| SigningParty.RunsAgree | src/dklstss/signing_party.rs:238-656 | two runs that deliver signatures and used the echoes the other recorded as sent deliver the same one |
| SigningComplete.HonestMessagesAccepted | src/dklstss/signing_party.rs:410-467 | what an honest signer sends as Alice passes every check of a Bob with matching OT state |
| SigningComplete.ProductsShared | src/dklstss/signing_party.rs:360-536 | the shares of an honest committee add up to (sum k)(sum rho) and (sum x)(sum rho) |
| SigningComplete.HonestTotals | src/dklstss/signing_party.rs:538-656 | every signer sees the totals k rho and rho (e + r x) |
| SigningComplete.ReportsPass | src/dklstss/signing_party.rs:538-600 | the reports of the other honest signers pass |
| SigningComplete.FinishHonestly | src/dklstss/signing_party.rs:567-656 | when a whole committee has come to the last step with all messages delivered, finishing signs, low-S and verifying, unless R.x, rho or e + r x vanishes |
| SigningRun.SignHonestly | src/dklstss/signing_party.rs:98-656 | honest signers of one session run all rounds on each other's messages: everyone delivers one result, and it is the same low-S signature, which verifies, unless R.x, rho or e + r x vanishes |
| SignEncoding.MulPreimageExact | src/dklstss/signing_party.rs:852-861 | two multiplications hash the same string iff session, kind and keys are the same or the joined keys can be cut at another separator |
| SignEncoding.MulPreimageInjective | src/dklstss/signing_party.rs:852-861 | keys without a separator byte never share a session id string |
| SignEncoding.SidCollision | src/dklstss/signing_party.rs:852-861 | keys that do: both directions of one pair |
| ResharingParty.OldRound1 | src/dklstss/resharing_party.rs:215-277 | deals the weighted share, sends every new member its value, the broadcast to itself when it is a new member too, and is done without a key when it is not; refuses exactly a zero share |
| ReshareView.MembersAgree | src/dklstss/resharing_party.rs:336-598 | two honest new members agree and hold the key being reshared |
| ReshareView.DeliveredMeans | src/dklstss/resharing_party.rs:411-598 | a delivered key means every dealer dealt t+1 points with an accepted proof and a share below the order that fits them, and the points add up to the old key |
| ReshareView.MembersReconstruct | src/dklstss/resharing_party.rs:558-598 | any new quorum shares the logarithm of the old key, whoever dealt |
| ReshareComplete.DealAll | src/dklstss/resharing_party.rs:143-277 | members of a consistent committee deal: none is refused, the weights are those of its ids, and every new member gets what belongs to the weighted shares, the dealer itself included |
| ReshareComplete.HonestDealersKeepKey | src/dklstss/resharing_party.rs:411-598 | a new member that received what members of a consistent committee dealt accepts it exactly when no coefficient is zero and the proofs are accepted, and then the received commitments add up to that committee's key |
| ReshareComplete.HonestReportExact | src/dklstss/resharing_party.rs:336-409 | an honest member's report about commitments heard alike is accepted, unless its sender is the only dealer |
| ReshareComplete.ResharedCommitteeShares | src/dklstss/resharing_party.rs:558-657 | when every new member is honest the new keys share the old key's logarithm with matching OT state, whoever dealt |
| ResharingParty.Shared.OnEchoes | src/dklstss/resharing_party.rs:368-409 | passes only when every dealer report agrees |
| ResharingParty.Shared.Finalize | src/dklstss/resharing_party.rs:558-657 | one result; a key only for a verified transcript |
| ResharingParty.Run | src/dklstss/resharing_party.rs:302-657 | in every run at most one result, a key only under the old public key, and exactly one result once all five sets of messages came |
| ResharingParty.RunsAgree | src/dklstss/resharing_party.rs:302-657 | two runs that deliver keys and used the echoes the other recorded as sent agree on all public values |
| RefreshParty.Start | src/dklstss/refresh_party.rs:72-112 | starts exactly with a valid key whose own party list is the committee, in a state every handler accepts |
| RefreshParty.RoundOne | src/dklstss/refresh_party.rs:137-200 | deals commitments to the coefficients and to each peer the value at its id, encoded minimally, with the base-OT point of that pair |
| RefreshParty.EvalZeroConstPoly | src/dklstss/refresh_party.rs:555-563 | the running-power loop is the value of the polynomial with constant term zero |
| RefreshParty.EvalCommitmentZeroConst | src/dklstss/refresh_party.rs:566-578 | nothing exactly for an empty commitment, otherwise the committed value |
| RefreshParty.VerifyZeroConstShare | src/dklstss/refresh_party.rs:581-586 | accepts exactly the committed value of a non-empty commitment |
| RefreshParty.HonestDeltaAccepted | src/dklstss/refresh_party.rs:137-331 | an honest dealing passes the receiver's checks on commitments and share if and only if no coefficient is zero |
| RefreshParty.CheckRefresher | src/dklstss/refresh_party.rs:304-360 | accepts a peer exactly when coordinate count, curve points, canonical share, share verification and base-OT message are good |
| RefreshParty.BuildKey | src/dklstss/refresh_party.rs:384-483 | delivers exactly when the old share matches its old public share, the responses are well-formed and the new key validates; the key is the one of the verified transcript |
| RefreshParty.Shared.OnR1Bcasts | src/dklstss/refresh_party.rs:202-217 | stores the broadcasts; the second of the two handlers echoes the view it has, digest by digest |
| RefreshParty.Shared.OnR1Unicasts | src/dklstss/refresh_party.rs:219-234 | stores the unicasts; the second of the two handlers echoes the view it has |
| RefreshParty.Shared.OnEchoes | src/dklstss/refresh_party.rs:264-290 | round 2 is reached only when every report agrees with the party's own view |
| RefreshParty.Shared.RoundTwo | src/dklstss/refresh_party.rs:292-382 | takes the unicasts, keeps points and shares of verified peers only, answers each peer's OT, or delivers an error |
| RefreshParty.Shared.Finalize | src/dklstss/refresh_party.rs:384-483 | one delivery, with a key only for a complete verified transcript; the individual shares are dropped |
| RefreshParty.Run | src/dklstss/refresh_party.rs:72-483 | over every event list at most one result, a key only for a verified transcript under the old key and chain code, and exactly one result once all messages came |
| RefreshParty.RunsAgree | src/dklstss/refresh_party.rs:264-483 | two runs that delivered keys and took each other's recorded echoes hold the same public shares, key and chain code |
| RefreshView.RefreshViewsAgree | src/dklstss/refresh_party.rs:236-290 | the echo phase forces equal zero-constant commitments for every dealer, whatever dishonest dealers sent |
| RefreshView.RefreshersAgree | src/dklstss/refresh_party.rs:236-483 | two honest finishers hold the same public shares, key and chain code |
| RefreshView.DeliveredMeans | src/dklstss/refresh_party.rs:292-360 | a delivered key means every peer's delta is below the order and the value of its zero-constant polynomial |
| RefreshView.NewShareIs | src/dklstss/refresh_party.rs:398-405 | the new share is the old public share moved by the dealers' joint polynomial at the party's id |
| RefreshView.CheckExact | src/dklstss/refresh_party.rs:396-434 | once every share has been verified, the consistency check fails exactly when the old share did not match its old public share |
| RefreshView.RefreshersReconstruct | src/dklstss/refresh_party.rs:396-483 | if the old public shares shared the key, any t+1 honest finishers' new shares interpolate to the unchanged key |
| RefreshView.RefreshedCommitteeShares | src/dklstss/refresh_party.rs:384-483 | an all-honest refresh of a committee yields a sharing of the same key with matching OT state for signing |
| KeyImage.HashToPoint | src/dklstss/keyimage_party.rs:499-526 | the first counter whose candidate is a non-identity point |
| KeyImage.PointUnique | src/dklstss/keyimage_party.rs:499-526 | one point per identifier and key |
| KeyImage.DeriveDelivers | src/dklstss/keyimage_party.rs:364-385 | what a committee gets from its image, errors included |
| KeyImage.DleqComplete | src/dklstss/keyimage_party.rs:411-442 | honest proofs verify |
| KeyImage.ProofMade | src/dklstss/keyimage_party.rs:411-427 | the proof commits to the drawn r and answers r + c w |
| KeyImage.VerifyExact | src/dklstss/keyimage_party.rs:429-465 | any proof is accepted iff z = a1 + c y and z P = a2 + c W for the hashed challenge c |
| KeyImage.DleqTwoChallenges | src/dklstss/keyimage_party.rs:429-442 | two answered challenges force the partial to carry the statement logarithm |
| KeyImage.CheckPartial | src/dklstss/keyimage_party.rs:295-363 | accepts or names the exact reason |
| KeyImage.PartialMeans | src/dklstss/keyimage_party.rs:295-363 | an accepted partial is tied to the peer's public share times its weight, for the session of identifier, key, subset and that peer |
| KeyImage.New | src/dklstss/keyimage_party.rs:178-292 | refuses with the first failing check in order, and otherwise starts the ceremony and sends the honest message unless a point of it is the identity |
| KeyImage.KeyImageParty.Finalize | src/dklstss/keyimage_party.rs:295-385 | delivers once; from the sum v of accepted partials the image is v, the secret the non-zero hash of identifier, key and v, the child key the key plus the secret, and each error exactly when its quantity vanishes |
| KeyImage.DeliveredImage | src/dklstss/keyimage_party.rs:295-385 | whatever the peers send, if accepted partials are genuine the image is xP, with the secret and child key of xP |
| KeyImage.HonestCommittee | src/dklstss/keyimage_party.rs:178-385 | an honest committee accepts every partial and delivers what xP gives |
| KeyImage.SameKeyImage | src/dklstss/keyimage_party.rs:178-385 | any two members of any two qualifying committees get the same result |
| Bn.Sqrt | src/ecdsatss/bn.rs:163-178 | the floor square root, with the estimate as termination measure |
| Bn.BinaryGcd | src/ecdsatss/bn.rs:196-237 | the greatest common divisor |
| Bn.Jacobi | src/ecdsatss/bn.rs:535-555 | in {-1,0,1}, non-zero iff coprime, and equal to every function that obeys the laws of the Jacobi symbol |
| Reciprocity.JacobiSymbol | src/ecdsatss/bn.rs:535-555 | jacobi returns the product of the Legendre symbols over the prime factors |
| Reciprocity.SymbolLaws | src/ecdsatss/bn.rs:535-555 | that product obeys all the laws the algorithm uses |
| Reciprocity.PrimeReciprocity | src/ecdsatss/bn.rs:535-555 | quadratic reciprocity for odd primes |
| Reciprocity.LegendreTwo | src/ecdsatss/bn.rs:535-555 | two is a square modulo p iff p is 1 or 7 modulo 8 |
| Reciprocity.GaussLemma | src/ecdsatss/bn.rs:535-555 | the symbol is the parity of the residues in the upper half |
| Bn.Witness | src/ecdsatss/bn.rs:375-403 | passes iff a^d is 1 or some a^(d 2^i) with i < s is -1 modulo n |
| Bn.IsProbablePrime | src/ecdsatss/bn.rs:359-403 | true iff n is 2 or a listed prime, or has no listed factor and every drawn base passes for the odd d with d 2^s = n - 1; never rejects a prime |
| NumberTheory.Fermat | src/ecdsatss/bn.rs:359-403 | the little theorem the test rests on |
| Bn.RootsOfOne | src/ecdsatss/bn.rs:359-403 | only trivial square roots of one modulo a prime |
| Bn.SmallFactorIsPrime | src/ecdsatss/bn.rs:339-356 | the primes below 1000 find a factor iff any divisor below 1000 does |
| Bn.SmallPrimesExact | src/ecdsatss/bn.rs:333-337 | the table holds the primes from 3 to 251 |
| Bn.SetBitReads | src/ecdsatss/bn.rs:116-121 | setting a bit changes that bit only |
| Paillier.GammaPowIsPower | src/ecdsatss/paillier.rs:51-58 | 1 + (m mod N)N is (N+1)^m modulo N^2 |
| Paillier.NthPowerResidue | src/ecdsatss/paillier.rs:67-76 | s^N modulo N^2 depends only on s modulo N |
| Paillier.EncryptionEncrypts | src/ecdsatss/paillier.rs:67-76 | encryption yields a ciphertext of its message |
| Paillier.HomoAddEncrypts | src/ecdsatss/paillier.rs:90-92 | products encrypt sums |
| Paillier.HomoMultEncrypts | src/ecdsatss/paillier.rs:97-99 | powers encrypt multiples |
| Paillier.FromPrimes | src/ecdsatss/paillier.rs:104-118 | the key: N, phi and lambda = phi / gcd |
| Paillier.LambdaIsLcm | src/ecdsatss/paillier.rs:104-118 | lambda is a multiple of p-1 and q-1 and divides every common multiple |
| Paillier.CarmichaelPower | src/ecdsatss/paillier.rs:104-118 | x^lambda = 1 modulo N |
| Paillier.DecryptCorrect | src/ecdsatss/paillier.rs:121-142 | every ciphertext of m, however computed, decrypts to m modulo N |
| Paillier.RoundTrip | src/ecdsatss/paillier.rs:67-142 | decryption inverts encryption |
| Paillier.DecryptAccepts | src/ecdsatss/paillier.rs:121-142 | under an honest key exactly the units below N^2 are decrypted, anything else is refused by size first |
| Paillier.KeyProofComplete | src/ecdsatss/paillier.rs:146-162 | the key-correctness proof verifies whenever its challenges exist |
| Paillier.VerifyKey | src/ecdsatss/paillier.rs:165-196 | accepts exactly the stated equations |
| Paillier.GenerateXs | src/ecdsatss/paillier.rs:198-231 | terminates for every modulus; the accepted candidates in order |
| Paillier.XsAre | src/ecdsatss/paillier.rs:198-236 | each challenge is the first unit from where the one before stopped; none come out iff the count would pass 1000 |
| Mta.SizeSuffices | src/ecdsatss/prepare.rs:39-55 | an order of at most b bits and a modulus of more than 6b leave no room for a wraparound: N > q^5 + q^2 |
| Mta.CommitLinear | src/ecdsatss/mta.rs:69-171 | commitments are linear in the responses: h1^s1 h2^s2 = z^e w |
| Mta.MaskedLinear | src/ecdsatss/mta.rs:69-171 | Gamma^s1 s^N = c^e u although s is kept only modulo N |
| Mta.RangeProofExact | src/ecdsatss/mta.rs:69-171 | an honest range proof is accepted iff its responses avoid the refused ranges |
| Mta.RangeProofRefused | src/ecdsatss/mta.rs:69-171 | an input: alpha drawn as 0 and a value of at most 1, for every key, ring and other draw |
| Mta.MixLinear | src/ecdsatss/mta.rs:238-469 | equation (7) for honest values |
| Mta.PointLinear | src/ecdsatss/mta.rs:420-440 | equation (4) for honest values |
| Mta.PointExact | src/ecdsatss/mta.rs:439-446 | equation (4) for any response and points: s1 = e log X + log U |
| Mta.BobProofExact | src/ecdsatss/mta.rs:238-469 | Bob's honest proof on factor x, plain or against the point of any X, is accepted iff its responses are in range and e x = e log X |
| Mta.BobProofRefused | src/ecdsatss/mta.rs:238-469 | the same for Bob, in both forms |
| Mta.DecryptsToProduct | src/ecdsatss/mta.rs:543-592 | Bob ciphertext decrypts to ab + beta modulo N |
| Mta.DecryptsExactly | src/ecdsatss/mta.rs:543-592 | to ab + beta itself when N > q^5 + q^2 |
| Mta.HonestRun | src/ecdsatss/mta.rs:474-612 | an honest conversion completes iff the draws are lucky, and what its shares then are |
| Mta.HonestSteps | src/ecdsatss/mta.rs:474-612 | step by step: Alice can always start, Bob answers iff her responses are lucky, Alice goes on iff his are |
| MtaVerify.RangeVerifyExact | src/ecdsatss/mta.rs:113-171 | any range proof is accepted iff it meets the written-out sizes and ranges, (N+1)^s1 s^N = c^e u and h1^s1 h2^s2 = z^e w |
| MtaVerify.BobVerifyExact | src/ecdsatss/mta.rs:333-469 | any proof of Bob is accepted iff it meets the sizes and ranges and equations (4) to (7) |
| MtaVerify.RangeProofMade | src/ecdsatss/mta.rs:69-111 | what Alice sends: her commitments under the drawn randomness, and e m + alpha, e rho + gamma |
| MtaVerify.BobProofMade | src/ecdsatss/mta.rs:238-331 | what Bob sends: five commitments and five responses, and the point of alpha in the form with check |
| MtaVerify.BobMidExact | src/ecdsatss/mta.rs:543-572 | Bob answers exactly an acceptable range proof; his share is -beta' and his ciphertext c^b (N+1)^beta' r^N |
| MtaVerify.AliceEndExact | src/ecdsatss/mta.rs:576-612 | Alice goes on exactly with an acceptable proof, for the expected point if any, and a ciphertext that decrypts |
| Mta.MtaExact | src/ecdsatss/mta.rs:474-612 | alpha + beta = ab modulo q iff q divides what the reduction removed |
| Mta.MtaCorrect | src/ecdsatss/mta.rs:474-612 | within the bound every completed honest conversion shares the product |
| ModProof.ChallengeChain | src/ecdsatss/modproof.rs:63-77 | challenge i hashes W, N and all challenges before it |
| ModProof.Challenges | src/ecdsatss/modproof.rs:63-77 | the growing vector is that chain |
| ModProof.FindSquare | src/ecdsatss/modproof.rs:112-135 | the first of the four candidates that is a square modulo both primes |
| ModProof.OneSquare | src/ecdsatss/modproof.rs:112-135 | exactly one candidate is, for a unit challenge, and none otherwise |
| ModProof.FourthRoot | src/ecdsatss/modproof.rs:98-128 | the exponent ((phi+4)/8)^2 takes fourth roots of squares |
| ModProof.Prove | src/ecdsatss/modproof.rs:90-145 | errs exactly as stated; otherwise every iteration is answered and A and B are 81-bit words of the choices |
| ModProof.StuckExactly | src/ecdsatss/modproof.rs:90-145 | the prover gives up on a Blum modulus iff some challenge is not a unit |
| ModProof.Verify | src/ecdsatss/modproof.rs:148-204 | accepts exactly the well-formed proofs satisfying X^4 = (+-)W^b Y and Z^N = Y |
| ModProof.BlumProofComplete | src/ecdsatss/modproof.rs:90-204 | every proof of a Blum modulus is accepted unless N is taken for a prime |
| Residues.LegendreMul | src/ecdsatss/modproof.rs:58-60 | the symbol is multiplicative |
| Residues.LegendreNeg | src/ecdsatss/modproof.rs:58-60 | minus one is a non-residue modulo 3 mod 4 primes |
| Residues.SymbolOfTwo | src/ecdsatss/modproof.rs:80-87 | the Jacobi symbol modulo pq is the product of the two |
| KeyConsistency.ValidateConsistency | src/ecdsatss/key.rs:325-368 | accepts exactly on-curve shares with distinct ids that interpolate to the public key |
| KeyConsistency.SubsetForParties | src/ecdsatss/key.rs:249-275 | succeeds exactly when all parties are known and the rebuilt key is consistent; slices follow the given order |
| KeyConsistency.SubsetStable | src/ecdsatss/key.rs:249-275 | from shares on a degree-t polynomial every larger choice of parties in any order is accepted |
| KeyConsistency.WithKdd | src/ecdsatss/key.rs:290-312 | moves public key, public shares and secret share by delta modulo the order, or errs exactly when a point is off the curve |
| KeyConsistency.KddKeepsConsistency | src/ecdsatss/key.rs:290-312 | a derived key is consistent iff the original is |
| KeyConsistency.KddKeepsShare | src/ecdsatss/key.rs:290-312 | the secret share still matches its public share |
| KeyConsistency.TamperedShareRejected | src/ecdsatss/key.rs:325-368 | a replaced public share is accepted iff it is the same point or another id is zero |
| KeyConsistency.ZeroIdHidesTampering | src/ecdsatss/key.rs:325-368 | for every order, ids 0 and 1: any replacement of the second share goes unnoticed |
| GgSigning.PrepareForSigning | src/ecdsatss/signing.rs:968-1012 | errs exactly on too few parties or inseparable ids; w_i and W_j are the weighted share and public shares |
| GgSigning.CheckStart | src/ecdsatss/signing.rs:114-146 | accepts exactly a valid hash, known parties, a consistent narrowed key with good peer parameters, and a share that fits it |
| GgSigning.PeerParamsMean | src/ecdsatss/signing.rs:114-146 | peer parameters are good iff all moduli are odd, of 2048 to 4096 bits and free of primes below 1000, and h1, h2 are different units other than 1 and -1 |
| GgSigning.Start | src/ecdsatss/signing.rs:114-199 | a session starts exactly when those checks pass, the ids separate and every ciphertext of k can be made; then every peer has one |
| GgSigning.Shared.Round2 | src/ecdsatss/signing.rs:340-400 | answers every peer twice and keeps the negated masks |
| GgSigning.Shared.OnR1Proofs | src/ecdsatss/signing.rs:304-319 | the second of the two round-1 handlers runs round 2 |
| GgSigning.Shared.OnR1Commitments | src/ecdsatss/signing.rs:321-338 | files commitments; the second handler runs round 2 |
| GgSigning.Shared.Round3 | src/ecdsatss/signing.rs:402-501 | theta and sigma gather both directions of every conversion |
| GgSigning.Shared.Round4 | src/ecdsatss/signing.rs:503-552 | inverts the summed theta or fails |
| GgSigning.Shared.Round5 | src/ecdsatss/signing.rs:554-653 | R, s_i, A_i and V_i |
| GgSigning.Shared.Round6 | src/ecdsatss/signing.rs:655-716 | files every peer commitment; fails on an undecodable one |
| GgSigning.Shared.Round7 | src/ecdsatss/signing.rs:718-831 | U_i and T_i from the opened V and A |
| GgSigning.Shared.Round8 | src/ecdsatss/signing.rs:833-859 | the same for the second commitments |
| GgSigning.Shared.Round9 | src/ecdsatss/signing.rs:861-918 | releases s_i exactly when the sums agree |
| GgSigning.Shared.Finalize | src/ecdsatss/signing.rs:920-965 | sums, normalises, sets the recovery id and verifies before delivering |
| GgCommittee.Round3Is | src/ecdsatss/signing.rs:402-501 | after a completed round 3 theta and sigma are the rows of the product matrices |
| Sums.SharesOfProduct | src/ecdsatss/signing.rs:402-501 | shares of all cross products add up to the product of the sums |
| GgCommittee.Round4Is | src/ecdsatss/signing.rs:503-552 | everyone inverts the same total |
| GgCommittee.Round5Is | src/ecdsatss/signing.rs:554-653 | R is the opened Gamma total times the inverse |
| GgCommittee.Round7Is | src/ecdsatss/signing.rs:718-831 | U and T come from the same V and A for everyone |
| GgCommittee.Round9Is | src/ecdsatss/signing.rs:861-918 | the test compares the totals of U and T |
| GgRun.Round3Products | src/ecdsatss/signing.rs:402-501 | sum theta = (sum k)(sum gamma) and sum sigma = (sum k)(sum w) |
| GgRun.PairProducts | src/ecdsatss/signing.rs:340-501 | two completed honest conversions of a pair share k gamma and k w |
| GgRun.PairCompletes | src/ecdsatss/signing.rs:244-501 | when the two conversions of an honest pair go through: iff the responses of either side are in range |
| GgCommittee.BobForExact | src/ecdsatss/signing.rs:340-400 | round 2 answers exactly an acceptable range proof, with gamma in the first conversion and w, tied to W_me, in the second |
| GgCommittee.AliceForExact | src/ecdsatss/signing.rs:402-501 | round 3 goes on with peer j iff both its proofs are acceptable, the second in 12 parts and against W_j, and both answers decrypt |
| GgRun.CommonNonce | src/ecdsatss/signing.rs:503-653 | R k = 1 |
| GgRun.HonestEquation | src/ecdsatss/signing.rs:554-653 | sum s R = mG + rQ in an honest run |
| GgRun.ConsistencyExact | src/ecdsatss/signing.rs:718-918 | for arbitrary s_i, l_i, rho_i the U = T test passes iff sum rho = 0 or sum s R = mG + rQ |
| GgRun.HonestPassesCheck | src/ecdsatss/signing.rs:718-918 | the test never stops an honest run |
| GgRun.PublicWeights | src/ecdsatss/signing.rs:968-1012 | every party holds the same W_j = w_j G |
| GgRun.WeightsTotal | src/ecdsatss/signing.rs:968-1012 | the weighted shares add up to the public key logarithm |
| GgRun.FinalExact | src/ecdsatss/signing.rs:920-957 | on shares satisfying the equation finalize succeeds iff neither r nor s vanishes, with a good signature |
| GgRun.GgVerifyExact | src/ecdsatss/signing.rs:1039-1066 | the last check, for any r and s: the point p with s p = m + r pub has x-coordinate r modulo the order, and that is not zero |
| GgRun.Sec1Exactly | src/ecdsatss/signing.rs:920-957 | what finalize delivers passes SEC 1 iff the x-coordinate of R is below the order |
| GgRun.Sec1Example | src/ecdsatss/signing.rs:920-957 | an input for which it does not |
| GgRun.HonestSigning | src/ecdsatss/signing.rs:503-957 | all parties of an honest run end with the same good signature |
| GgEndToEnd.AnswersKeep | src/ecdsatss/signing.rs:340-400 | round 2 changes only the stored conversion shares |
| GgEndToEnd.SharesHeld | src/ecdsatss/signing.rs:340-400 | a completed round 2 holds the shares of every answer it sent |
| GgEndToEnd.ConversionsDone | src/ecdsatss/signing.rs:114-501 | from the keys and the delivered messages of rounds 1 and 2 every ordered pair shares both products |
| GgEndToEnd.ModulusLarge | src/ecdsatss/signing.rs:114-199 | a started session has a Paillier modulus above q^5 + q^2 |
| GgEndToEnd.EndToEnd | src/ecdsatss/signing.rs:114-957 | from consistent keys and honest draws, all messages delivered, to one good signature for all parties |
| Varint.WriteVarint | src/wire.rs:218-233 | appends the canonical bytes, never overrunning the 19-byte buffer |
| Varint.VarintFits | src/wire.rs:218-233 | no 128-bit value needs more than 19 bytes |
| Varint.ReadVarint | src/wire.rs:236-260 | the cursor loop reads exactly what the parser means |
| Varint.VarintExact | src/wire.rs:218-260 | reading gives v and leaves rest iff the input is the writer output for v followed by rest |
| Varint.ZigzagBijection | src/wire.rs:262-268 | zigzag is a bijection of the 128-bit integers |
| WireCodec.ReadLen | src/wire.rs:270-276 | a length above the cap is refused |
| WireCodec.ReadBytes | src/wire.rs:279-288 | the chunked read returns exactly the requested bytes |
| WireCodec.Serialize | src/wire.rs:306-510 | for every type the sink grows by exactly the encoding, or the error is reported |
| WireCodec.Deserialize | src/wire.rs:550-700 | for every type the source is read exactly as the codec means |
| WireCodec.DeserializeAll | src/wire.rs:703-723 | the counted loop reads exactly that many elements |
| Wire.RoundTrip | src/wire.rs:306-773 | decoding an encoding followed by any tail gives the value and that tail |
| Wire.Canonical | src/wire.rs:306-773 | whatever is accepted is the encoding of the value it decodes to |
| Wire.CodecExact | src/wire.rs:306-773 | byte strings and values of a type are in bijection |
| Wire.PrefixFree | src/wire.rs:306-773 | no encoding is a prefix of another of the same type |
| Wire.WritesExactly | src/wire.rs:291-510 | the writer accepts exactly the values of the type with lengths of at most 2^24 |
| WireCodec.ToVec | src/wire.rs:195-199 | the encoding |
| WireCodec.FromSlice | src/wire.rs:207-214 | accepts exactly the encodings |
| WireCodec.KeyToVec | src/wire.rs:800-807 | version byte and encoding, in a buffer of exactly that size |
| WireCodec.KeyToBytes | src/wire.rs:838-842 | the key bytes of the converted key, or an error |
| WireCodec.KeyFromBytes | src/wire.rs:810-852 | accepts exactly the encodings of wire structs that convert, with the converted key |
| WireCodec.KeyRoundTrip | src/wire.rs:821-852 | reading what was written gives the key back |
| VecMap.SortedMap.Find | src/vecmap.rs:23-28 | binary search finds the key or its place |
| VecMap.SortedMap.Insert | src/vecmap.rs:31-39 | replaces the value under the kept key, or shifts an entry in; hands back the old value |
| VecMap.SortedMap.Get | src/vecmap.rs:57-62 | the lookup |
| VecMap.SortedMap.FromUnsorted | src/vecmap.rs:44-55 | sort and merge give the same map as inserting one by one |
| VecMap.BulkEqualsInserts | src/vecmap.rs:44-55 | first key kept, last value wins, for keys that compare equal but differ |
| VecMap.MergeInsert | src/vecmap.rs:44-55 | merging commutes with stable insertion |
| VecMap.SortIsStable | src/vecmap.rs:44-47 | the sort keeps the order of the entries of every key |
| VecMap.StableSortUnique | src/vecmap.rs:44-47 | any stable sort gives the same list |
| VecMap.LookupInserted | src/vecmap.rs:31-39 | the map law |
| VecMap.LookupByEquality | src/vecmap.rs:31-39 | for an order that tells keys apart, the law of a map by equality of keys |

## Left out

- Proofs of knowledge (the base-OT Schnorr proof, the constant-term proofs, the GG18 Schnorr and V-proofs): validity predicates of a message; a commitment opening in GG18 is likewise one uninterpreted function that includes them.
- Secrecy, zero knowledge, soundness error, constant-time behaviour and zeroization.
- Broker transport, JSON, point and integer encodings of proof messages, threads: handlers are called with decoded messages; decoding failures are one error.
- Random samplers: draws are parameters with the ranges the samplers promise.
- BaseOt.SetupPairs: sids are any function of the pair; the sid hash is not modelled.
- Ole.Multiply: multiplication needs n at most 2^256, true of the curve.
- Resharing.Reshare: asks that the first subset index is in range, where the source indexes without a check.
- Signing.SignCore: keys are given one per party of the committee, as the library returns them.
- Presign.SignDurable: the durable store is a set that survives.
- signing_checked_party: the state machine of signing_party with the checked multiplication in its place.
- ReshareComplete.ResharedCommitteeShares: speaks about members that finish; that honest dealings and reports pass is stated separately.
- SigningParty.Run: dictionaries are lists in committee order and the mutex-protected state is one record.
- SigningRun.SignHonestly: hands out the messages round by round; other orders of delivery are covered by SigningParty.Run, which promises safety.
- RefreshParty.Run: dictionaries are lists in committee order.
- ReshareView.MembersAgree: a member of both committees is assumed to receive its own broadcast as sent.
- ModProof.BlumProofComplete: the Miller-Rabin verdict on the composite N is a parameter, as its bases are random.
- GG18 keygen and resharing parties, dlnproof, facproof, commit: not modelled; message collection of rounds 6 and 8 is.
- GgEndToEnd.EndToEnd: the curve order has at most 256 bits, true of the curve.
- Bn.SmallFactorIsPrime: the source's table of primes is taken to be what its comment says, all primes below 1000.
- Wire: byte strings are UTF-8 by a given predicate, floats are their bytes, and a map is its list of pairs, so what a collection does with repeated keys is VecMap's business.
- VecMap: the standard library's binary search and stable sort are modelled by an algorithm with the same result; key equality is the key order's, as Rust's Ord contract demands.
