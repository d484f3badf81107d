# Verification of the multi-party signing library

A Dafny model of `mpc-lib` with proofs about it: the threshold ECDSA protocol (presigning with
Paillier-based multiplication, refresh, offline and online signing), the asymmetric EdDSA protocol,
hierarchical key derivation, key setup and resharing, the number-theoretic fast paths underneath,
and the small byte machines (Keccak buffering, deterministic random bytes, permutations, scalars).

Run `dafny verify dfyconfig.toml` in this directory.

## How it is organised

* `Modular`, `NumberTheory`, `RsaGroup`, `AlgebraUtils`: congruences, Fermat and Euler, CRT
  exponentiation. Nothing is assumed about RSA moduli except that the two primes differ.
* `RingPedersen`, `DamgardFujisaki`: commitments checked through the trapdoor, and parameter proofs.
* `Paillier`, `Mta`, `MtaProof`, `MtaBatch`: encryption, the exact two-party multiplication, the
  single and the batch verifier of its range proofs.
* `Sums`, `Curve`, `CmpPresigning`, `CmpSession`, `CmpOutcome`, `CmpRefinement`, `Presignature`: the
  presigning protocol. `CmpPresigning` has one player's steps on its data; `CmpSession` interleaves
  the steps of any number of players; `CmpOutcome` states what every run conserves and ends with;
  `CmpRefinement` shows that the methods on the data take the steps of the session.
* `Refresh`, `EcdsaSigning`, `EcdsaService`, `EcdsaOnline`, `EcdsaEndToEnd`: what is done with a
  presignature. `Presignature.Good` is what presigning establishes, refresh keeps and signing needs.
* `Eddsa`, `EddsaRounds`, `EddsaOutcome`, `EddsaProtocol`: client and servers of the EdDSA protocol, one
  block, and all rounds on all blocks.
* `HdDerive`, `Setup`, `AddUser`, `KeyStore`: derivation, setup, resharing, stored metadata.
* `Permutation`, `ToughPrime`, `Keccak`, `Drng`, `Bytes`, `Endian`, `Scalars`: bytes and buffers.

Objects that the library updates in place are classes (`CmpPresigning.PreprocessingData`,
`MtaBatch.BatchVerifier`, `Refresh.Preprocessed`, `EddsaRounds.Server`, `EcdsaOnline.SigningData`,
`Setup.Player`, `Keccak.Context`, `Drng.Generator`), buffers are arrays, and each method is proved
against functions on values about which the lemmas speak. Lemmas whose names end in `Means` say what
such a function comes to in plain arithmetic.

## What is taken as given

* A curve is its group of prime order q: a point is its discrete logarithm. x-coordinates and the
  parity of y are uninterpreted functions that two points share, respectively differ in, exactly
  when they are opposite (`EcdsaSigning.PointGroup`; `PointGroupExists` shows that this can be met).
* Hash functions, HMAC, PRFs and the Keccak permutation are function parameters. Only `Setup`
  assumes that its hash has no collisions.
* Random draws, primality tests and the prime generator of OpenSSL are parameters; statements hold
  for all their values. Encryption between players is the platform's and is left out: messages
  arrive as they were sent.
* Players are numbered in the order of their ids.

## Where the code differs from its description

* The comment above `in_field` in `GFp_curve_algebra.c` contradicts the code, which returns 1 when the
  value is below the order (`Endian.InField`). `reduce` reduces nothing: it masks and checks.
* `derive_private_and_public_keys` declares a second status inside its loop, so every failure comes out
  as the general error; and it reduces a hash above the order instead of refusing it.
* For secp256k1 `is_positive` looks at the top bit only, so `make_sig_s_positive` leaves s between half
  the order and 2^255 as it is. The online service then refuses such a signature at its final check,
  as it does when the x-coordinate is not below the order.
* `generate_tough_prime` lets 241 factors through its size check, which wraps the pool size to 0.
* The masks to 40 bits in the batch verifier's ring-Pedersen step act on single bytes and do nothing;
  the weights there are one byte wide.
* The honest prover of the range proof may produce a proof that every verifier refuses: z1 of more than
  96 bytes (`MtaProof.MaskCanOverflow`), z1 = 0, a value of the first move that is more than 8 bytes
  short, or any proof between Paillier moduli of different byte lengths, because prover and
  verifier each write the length of their own modulus first (`MtaProof.HonestAccepted` has the exact
  condition).
* The honest Damgard-Fujisaki parameter proof may exceed the verifier's length bound
  (`DamgardFujisaki.AnswerCanOverflow`).
* EdDSA signing along a hardened path goes through on the client and every server. With one server
  the block is then finished; with more, `get_eddsa_signature` derives the public key again and
  refuses it (`EddsaRounds.HardenedNotFinishable`, `EddsaOutcome.FinishedExactly`).
* ECDSA signing is alike. Along a hardened path every player of the online service gives its share, and
  `get_cmp_signature` then refuses the block, because it derives the public key (`EcdsaOnline.SignOnline`,
  `HdDerive.PublicExactly`). The offline service refuses the path at once if the protocol version scales
  R, and signs it otherwise (`EcdsaSigning.DerivedBlockMatches`, `EcdsaEndToEnd.EndToEnd`).
* The EdDSA server's final verification is commented out; that its output verifies is a theorem here.

## Model

| member | source | states |
|---|---|---|
| CmpSession.RunInv | mpc-lib/src/common/cosigner/cmp_ecdsa_signing_service.cpp:28-250 | in every session of every interleaved run of any number of players: each ciphertext sent encrypts the sender's k, every answer can be decrypted, each delta and chi is congruent to the own product minus the shares sent plus the shares read, and GAMMA is the sum of all gammas once it is complete |
| CmpSession.StepInv | mpc-lib/src/common/cosigner/cmp_ecdsa_signing_service.cpp:28-250 | each of the four steps of a player, in whatever order the messages allow, keeps that invariant |
| CmpSession.BetasAreExcess | mpc-lib/src/common/cosigner/cmp_ecdsa_signing_service.cpp:107-124 | the betas a player subtracts are exactly, modulo q, the shares it sends out minus the products they stand for |
| CmpOutcome.RunConservation | mpc-lib/src/common/cosigner/cmp_ecdsa_signing_service.cpp:107-206 | at every moment of every run the deltas (or chis) held plus the alphas still in flight equal the sum of k_j*gamma_i (or k_j*x_i) over the answered pairs and the own ones |
| CmpOutcome.Conservation | mpc-lib/src/common/cosigner/cmp_ecdsa_signing_service.cpp:107-206 | the same for any session that satisfies the invariant |
| CmpOutcome.Completion | mpc-lib/src/common/cosigner/cmp_ecdsa_signing_service.cpp:141-206 | when all answers are read, the deltas add up to (sum k)(sum gamma) and the k_i*x_i + chi_i to (sum k)(sum x) |
| CmpOutcome.DeltaPoints | mpc-lib/src/common/cosigner/cmp_ecdsa_signing_service.cpp:208-236 | the points the players send in the last round add up to the point of the summed deltas, so the g^delta == DELTA check passes for honest players |
| CmpOutcome.NonceIsInverse | mpc-lib/src/common/cosigner/cmp_ecdsa_signing_service.cpp:208-250 | calc_R fails exactly when the joint k or the joint gamma is zero modulo q; otherwise R is the inverse of the joint k times G |
| CmpOutcome.RunOutcome | mpc-lib/src/common/cosigner/cmp_ecdsa_signing_service.cpp:208-250 | whoever finishes, in whatever order, holds one and the same R, and R with all shares is a good presignature |
| CmpOutcome.RunMessages | mpc-lib/src/common/cosigner/cmp_ecdsa_signing_service.cpp:89-206 | no honest message is refused: every request, and every answer to another player, sent in a run is invertible modulo the receiver's Paillier modulus |
| CmpRefinement.RequestRefines | mpc-lib/src/common/cosigner/cmp_ecdsa_signing_service.cpp:28-50 | on an object of its own, create_mta_request does the first step of a session: same k, gamma, delta, chi, GAMMA and request |
| CmpRefinement.RespondRefines | mpc-lib/src/common/cosigner/cmp_ecdsa_signing_service.cpp:89-126 | on the requests of any reachable session create_mta_response succeeds, sends what the second step sends and leaves the object as that step leaves the player |
| CmpRefinement.VerifyRefines | mpc-lib/src/common/cosigner/cmp_ecdsa_signing_service.cpp:128-206 | likewise the third step: it succeeds on the answers of the session and sends its delta and DELTA |
| CmpRefinement.FinishRefines | mpc-lib/src/common/cosigner/cmp_ecdsa_signing_service.cpp:208-250 | likewise the last step: calc_R gives the R of the session, or fails where the session has none |
| CmpPresigning.PreprocessingData.CreateMtaRequest | mpc-lib/src/common/cosigner/cmp_ecdsa_signing_service.cpp:28-50 | sets k, gamma, delta = k*gamma, chi = 0 and GAMMA = gamma*G and encrypts k |
| CmpPresigning.PreprocessingData.CreateMtaResponse | mpc-lib/src/common/cosigner/cmp_ecdsa_signing_service.cpp:89-126 | succeeds exactly when every other player's request is invertible; then delta and chi have lost the betas of all other players and of nobody else, and each answer is the request to the power of gamma or x times an encryption of its beta with its own randomness |
| CmpPresigning.PreprocessingData.VerifyBlockAndGetDelta | mpc-lib/src/common/cosigner/cmp_ecdsa_signing_service.cpp:128-206 | succeeds exactly when all answers can be decrypted; then delta, chi and GAMMA have gained the shares and points of all other players |
| CmpPresigning.PreprocessingData.CalcR | mpc-lib/src/common/cosigner/cmp_ecdsa_signing_service.cpp:208-250 | succeeds exactly when the sum of the deltas sent fits the sum of the DELTA points sent and is invertible; then R times that sum is GAMMA, whatever the players sent |
| CmpPresigning.MismatchFails | mpc-lib/src/common/cosigner/cmp_ecdsa_signing_service.cpp:208-236 | so a peer whose delta does not belong to its DELTA is found out: of two deltas that differ modulo q at most one fits |
| CmpPresigning.AddOthersCong | mpc-lib/src/common/cosigner/cmp_ecdsa_signing_service.cpp:141-206 | the addition loops over the other players change a value by the sum over the others modulo q |
| CmpPresigning.SubOthersCong | mpc-lib/src/common/cosigner/cmp_ecdsa_signing_service.cpp:107-124 | the subtraction loops likewise |
| CmpPresigning.AddOtherPointsCong | mpc-lib/src/common/cosigner/cmp_ecdsa_signing_service.cpp:141-188 | the point additions likewise, on discrete logarithms |
| Presignature.InverseUnique | mpc-lib/src/common/cosigner/cmp_ecdsa_signing_service.cpp:240-250 | the joint k determines R |
| Mta.AnswerRequest | mpc-lib/src/common/cosigner/mta.cpp:601-669 | succeeds exactly when the request is invertible and beta is below both moduli; the answer is request^x times an encryption of beta, and the own share is beta modulo q |
| Mta.AnswerValueCong | mpc-lib/src/common/cosigner/mta.cpp:601-669 | the answer is the request to the power x times (1 + n*beta)*r^n modulo n^2 |
| Mta.AnswerEncrypts | mpc-lib/src/common/cosigner/mta.cpp:601-669 | the answer encrypts k*x + beta under the requester's key |
| Mta.DecryptResponse | mpc-lib/src/common/cosigner/mta.cpp:671-716 | fails exactly on ciphertexts that are not invertible and otherwise gives the signed plaintext modulo q |
| Mta.PlaintextBelowHalf | mpc-lib/src/common/cosigner/cmp_setup_service.cpp:568-572 | with k and x of at most 256 bits, beta of at most 1280 bits and a modulus that passes the key size check, k*x + beta is at most half the modulus |
| Mta.MtaExact | mpc-lib/src/common/cosigner/mta.cpp:601-716 | the exchange is exact: decryption takes the lower branch, and the two shares differ by k*x modulo q |
| Mta.UpperHalfWraps | mpc-lib/src/common/cosigner/mta.cpp:690-709 | a larger plaintext is read as negative, so the bound is needed |
| Paillier.Encrypt | mpc-lib/src/common/crypto/paillier/paillier.c:635-685 | refuses randomness that is not invertible; otherwise the ciphertext is (1 + n*m)*r^n modulo n^2 |
| Paillier.Decrypt | mpc-lib/src/common/crypto/paillier/paillier.c:718-766 | fails exactly on ciphertexts that are not invertible and returns m modulo n for every encryption of m |
| Paillier.DecryptEncrypted | mpc-lib/src/common/crypto/paillier/paillier.c:718-766 | decryption inverts encryption, by way of the totient power and the L function |
| Paillier.AddHomomorphic | mpc-lib/src/common/crypto/paillier/paillier.c:1185-1288 | the product of two ciphertexts encrypts the sum, with the product of the randomness |
| Paillier.MulHomomorphic | mpc-lib/src/common/crypto/paillier/paillier.c:1604-1708 | a power of a ciphertext encrypts the multiple |
| Paillier.CiphertextUnit | mpc-lib/src/common/crypto/paillier/paillier.c:635-685 | every ciphertext is invertible modulo n and n^2 |
| MtaProof.SingleProcess | mpc-lib/src/common/cosigner/mta.cpp:1189-1507 | accepts exactly when the values of the first move are long enough, the ranges hold, z1 is positive and meets the curve equation, and the two Paillier equations and the two ring-Pedersen openings all hold |
| MtaProof.SingleMeans | mpc-lib/src/common/cosigner/mta.cpp:1189-1507 | what acceptance means: z1*G = Bx + e*X, C^z1*(1 + n*z2)*w^n = D^e*A, (1 + m*z2)*wy^m = Y^e*By, s^z1*t^z3 = S^e*E and s^z2*t^z4 = T^e*F, all values but these invertible and in range |
| MtaProof.DecodesMeans | mpc-lib/src/common/cosigner/mta.cpp:193-330 | what the lengths and ranges come to in bytes |
| MtaProof.HonestMeans | mpc-lib/src/common/cosigner/mta.cpp:330-529 | what the honest prover sends: commitments to the masks as the first move, and e times the secret plus the mask as each response |
| MtaProof.HonestAnswer | mpc-lib/src/common/cosigner/mta.cpp:330-529 | the prover's answer satisfies the Paillier equation on the request |
| MtaProof.HonestRing | mpc-lib/src/common/cosigner/mta.cpp:330-529 | the prover's answers open the ring-Pedersen commitments, although the verifier recomputes them through its trapdoor |
| MtaProof.HonestPoint | mpc-lib/src/common/cosigner/mta.cpp:330-529 | the prover's z1 satisfies the equation on the curve |
| MtaProof.HonestAccepted | mpc-lib/src/common/cosigner/mta.cpp:330-529 | an honest proof passes the single verifier exactly when both Paillier moduli have equally many bytes, no value of the first move is more than 8 bytes short, z1 is not zero, z1 fits in 96 bytes and z2 in 224 |
| MtaProof.MaskCanOverflow | mpc-lib/src/common/cosigner/mta.cpp:330-529 | there are such refusals: with the largest alpha of 96 bytes z1 is too long as soon as the challenge and x are not zero |
| MtaBatch.AnswerFactorBalances | mpc-lib/src/common/cosigner/mta.cpp:947-1091 | the factor that the batch verifier accumulates for a request is 1 modulo n^2 when the single equation holds, because (1 + n*z2)(1 - n*z2) is 1 |
| MtaBatch.CommitmentFactorBalances | mpc-lib/src/common/cosigner/mta.cpp:947-1091 | likewise for the factor of the commitment to beta |
| MtaBatch.UnmaskPositive | mpc-lib/src/common/cosigner/mta.cpp:947-1091 | for a modulus that passes the key size check, the range check on z2 gives n*z2 < n^2, so 1 - n*z2 + n^2 is a positive number of at most n^2 + 1 |
| MtaBatch.RequestIsUnit | mpc-lib/src/common/cosigner/mta.cpp:947-1091 | whatever passes the single verifier answers an invertible request, so the inversion that only the batch verifier needs cannot fail there |
| MtaBatch.RingFactorBalances | mpc-lib/src/common/cosigner/mta.cpp:1093-1187 | an accepted ring-Pedersen opening adds to the exponent what it multiplies onto the product |
| MtaBatch.ReducedChallenge | mpc-lib/src/common/cosigner/mta.cpp:1093-1187 | reducing the weighted challenge modulo the order of the group before the exponentiation changes nothing |
| MtaBatch.StepBalances | mpc-lib/src/common/cosigner/mta.cpp:800-895 | processing one singly accepted response with any weights keeps all accumulated equations balanced |
| MtaBatch.BatchVerifier.constructor | mpc-lib/src/common/cosigner/mta.cpp:759-798 | starts with neutral accumulators |
| MtaBatch.BatchVerifier.ProcessPaillier | mpc-lib/src/common/cosigner/mta.cpp:947-1091 | multiplies the randomised factors of one response into the five accumulators of each kind, or refuses a response whose ciphertexts are not invertible |
| MtaBatch.BatchVerifier.ProcessRingPedersen | mpc-lib/src/common/cosigner/mta.cpp:1093-1187 | two openings that satisfy their equations, taken in with any weights, keep t to the accumulated exponent equal to the accumulated product; the exponent grows by the two weighted ones and the product by the two weighted commitments |
| MtaBatch.BatchVerifier.Process | mpc-lib/src/common/cosigner/mta.cpp:800-895 | refuses nothing that the single verifier accepts and then keeps all accumulated equations balanced; refuses short values, ranges exceeded, a zero z1, a wrong curve point and ciphertexts or requests that are not invertible, leaving the accumulators as they were |
| MtaBatch.BatchVerifier.Verify | mpc-lib/src/common/cosigner/mta.cpp:897-945 | passes exactly when all accumulated products are balanced |
| MtaBatch.VerifyBatch | mpc-lib/src/common/cosigner/mta.cpp:800-1187 | passes exactly when every answer is processed and the weighted products agree: so every sequence of responses that each pass the single verifier passes, for every choice of weights, and a passing batch that is right but for one item is right there too, in every equation that a weight of 1 tests |
| MtaBatch.AnswerSound | mpc-lib/src/common/cosigner/mta.cpp:897-1091 | soundness for the answer: if a batch passes and all other items are singly accepted, an answer with weight 1 in some round satisfies its equation |
| MtaBatch.CommitmentSound | mpc-lib/src/common/cosigner/mta.cpp:897-1091 | likewise for the commitment to beta |
| MtaBatch.OpeningSound | mpc-lib/src/common/cosigner/mta.cpp:897-1187 | likewise for an opening with weight 1 beside one with weight 0 |
| MtaBatch.SingleAnswer | mpc-lib/src/common/cosigner/mta.cpp:897-1091 | for a batch of one response: in every round w^(n*g) must be (D^e*C^-z1*A*(1 - n*z2))^g modulo n^2 |
| MtaBatch.SingleCommitment | mpc-lib/src/common/cosigner/mta.cpp:897-1091 | and wy^(m*g) must be (Y^e*By*(1 - m*z2))^g modulo m^2 |
| Refresh.RefreshKey | mpc-lib/src/common/cosigner/cmp_offline_refresh_service.cpp:86-165 | goes through exactly when there are at most n participants, all known, each of which sent a 32-byte seed and was sent one; the new share is the old one with the received PRF values added and the sent ones subtracted |
| Refresh.KeyMoves | mpc-lib/src/common/cosigner/cmp_offline_refresh_service.cpp:114-165 | in terms of the table and the store: the key share gains the value of every seed received for it and loses that of every seed sent |
| Refresh.AcceptableMeans | mpc-lib/src/common/cosigner/cmp_offline_refresh_service.cpp:86-140 | which participants it goes ahead with |
| Refresh.Preprocessed.Transform | mpc-lib/src/common/cosigner/cmp_offline_refresh_service.cpp:167-199 | one presignature: k gains the values of the seeds received less those sent, under its own tag and index, and chi takes in the old product k*x, gives out the new one and gains those under its tag |
| Refresh.ShiftCong | mpc-lib/src/common/cosigner/cmp_offline_refresh_service.cpp:157-164 | the loop changes a value by the sum over the other participants of received minus sent |
| Refresh.ExchangeCancels | mpc-lib/src/common/cosigner/cmp_offline_refresh_service.cpp:114-164 | over all participants the changes add up to zero, for each tag and index |
| Refresh.RefreshedShare | mpc-lib/src/common/cosigner/cmp_offline_refresh_service.cpp:167-199 | a player's k*x + chi moves by its change and nothing else, although k and x both moved |
| Refresh.RefreshKeepsGood | mpc-lib/src/common/cosigner/cmp_offline_refresh_service.cpp:114-199 | whoever takes part, the joint key and joint k stay the same modulo q and every good presignature stays good with its old R |
| EcdsaSigning.PickNonce | mpc-lib/src/common/cosigner/cmp_ecdsa_offline_signing_service.cpp:345-362 | the positive-R loop: the point is always the counter's multiple of the base, it stops at the least counter of at most 255 with a positive r, and fails exactly when the base is at infinity or there is no such counter |
| EcdsaSigning.FirstPositiveNone | mpc-lib/src/common/cosigner/cmp_ecdsa_offline_signing_service.cpp:349-362 | the search fails exactly when none of the first 255 multiples is positive |
| EcdsaSigning.SignBlock | mpc-lib/src/common/cosigner/cmp_ecdsa_offline_signing_service.cpp:309-388 | a player fails exactly when the common nonce fails (hash not invertible, no positive R); otherwise r and v are those all players compute, and s is the player's share |
| EcdsaSigning.NonceFacts | mpc-lib/src/common/cosigner/cmp_ecdsa_offline_signing_service.cpp:322-386 | dividing the nonce point by the hash and the counter gives the presignature's R back; r and v are its x-coordinate modulo the order, its overflow and its parity |
| EcdsaSigning.NonceChosen | mpc-lib/src/common/cosigner/cmp_ecdsa_offline_signing_service.cpp:322-362 | r and v of a request's signature, and its point, are those of the base itself or, with POSITIVE_R, of its least multiple by 1 to 255 whose r is below the threshold; the base is R, or R times the hash over the publicly derived key |
| EcdsaSigning.PartialsSum | mpc-lib/src/common/cosigner/cmp_ecdsa_offline_signing_service.cpp:364-384 | the shares add up to ((m + r*delta)*sum k + r*sum(k_i*x_i + chi_i)) divided by hash and counter |
| EcdsaSigning.SumEquation | mpc-lib/src/common/cosigner/cmp_ecdsa_offline_signing_service.cpp:309-388 | the summed s times the nonce point is m*G + r*Q for the derived key Q |
| EcdsaSigning.SignatureVerifies | mpc-lib/src/common/cosigner/cmp_ecdsa_offline_signing_service.cpp:309-446 | for any number of players with a good presignature the normalised sum is a valid signature under the derived key: it verifies as in section 4.1.4 of SEC 1 unless r or s is zero, and r and v denote the point that satisfies the signature equation |
| EcdsaSigning.DerivedBlockMatches | mpc-lib/src/common/cosigner/cmp_ecdsa_offline_signing_service.cpp:322-343 | along every path that derives, the derived key is the joint key plus the tweak; with R scaled by a hash only paths without hardened indices derive |
| EcdsaSigning.RecoveredKeyUnique | mpc-lib/src/common/cosigner/cmp_ecdsa_signing_service.cpp:281-290 | r, s and v fit one key only: whatever key a valid signature is recovered to is the derived one |
| EcdsaSigning.NormalisedEquation | mpc-lib/src/common/cosigner/cmp_ecdsa_signing_service.cpp:281-290 | when s is replaced by q - s, flipping the parity bit makes r and v denote the opposite point, and the same key satisfies the equation |
| EcdsaService.EcdsaSign | mpc-lib/src/common/cosigner/cmp_ecdsa_offline_signing_service.cpp:309-388 | signs all blocks exactly when the players are players of the key, neither too few nor too many, and every block has 32 bytes, a presignature, a path that derives and a nonce; block i uses presignature index + i, and its r and v are those of the point that its own flags ask for |
| EcdsaService.OfflineSignature | mpc-lib/src/common/cosigner/cmp_ecdsa_offline_signing_service.cpp:391-448 | rejects with INVALID_PARAMETERS exactly when there is nothing to combine, the algorithm is wrong, counts differ or some r or v differs; otherwise each result is the normalised sum of the shares |
| EcdsaService.CombinableMeans | mpc-lib/src/common/cosigner/cmp_ecdsa_offline_signing_service.cpp:391-437 | what is combined: at least one list, all of one length, with one r and v per block |
| EcdsaService.SignAndCombine | mpc-lib/src/common/cosigner/cmp_ecdsa_offline_signing_service.cpp:309-448 | if every player signs with a good presignature, the combining service accepts and its signature is good for the derived key |
| EcdsaEndToEnd.RefreshesKeepGood | mpc-lib/src/common/cosigner/cmp_offline_refresh_service.cpp:114-199 | any number of refreshes by any participants keeps a presignature good and the joint key the same |
| EcdsaEndToEnd.EndToEnd | mpc-lib/src/common/cosigner/cmp_ecdsa_offline_signing_service.cpp:309-448 | from any interleaved presigning run, through any refreshes and any derivation, along hardened paths too unless R is scaled, to a signature that the combining service accepts and that is good for the derived key |
| EcdsaOnline.SigningData.GetSi | mpc-lib/src/common/cosigner/cmp_ecdsa_online_signing_service.cpp:310-417 | derives the tweak, also along hardened paths, replaces the point by the multiple that the request's flags ask for and gives the player's share for it; fails, leaving the point, exactly when the tweak cannot be derived or there is no such multiple |
| EcdsaOnline.VerifySignature | mpc-lib/src/common/crypto/GFp_curve_algebra/GFp_curve_algebra.c:812-898 | accepts exactly the signatures that verify under a key other than the point at infinity, whose recomputed point has an x-coordinate below the order, and whose s is in the lower half |
| EcdsaOnline.CheckedWith | mpc-lib/src/common/crypto/GFp_curve_algebra/GFp_curve_algebra.c:812-898 | for any inverse w of s the check is that the point with logarithm m*w + x*(r*w) is not infinity and has r as its x-coordinate, for 0 < r < q, 0 < s < q/2 and a key other than infinity |
| EcdsaOnline.GetCmpSignature | mpc-lib/src/common/cosigner/cmp_ecdsa_online_signing_service.cpp:419-506 | adds up all shares, normalises, derives the public key, and returns the result exactly when the key can be derived and the result passes that check under it; otherwise an internal error |
| EcdsaOnline.OnlineAccepted | mpc-lib/src/common/cosigner/cmp_ecdsa_online_signing_service.cpp:419-506 | what get_cmp_signature assembles from honest shares is the normalised joint formula, is good for the derived key, and passes the check exactly when r and s are not zero, the nonce point's x-coordinate is below the order, the normalised s is in the lower half and the key is not the point at infinity |
| EcdsaOnline.SignOnline | mpc-lib/src/common/cosigner/cmp_ecdsa_online_signing_service.cpp:310-506 | both rounds with all players: on a good presignature a signature comes out exactly when the tweak derives, the path has no hardened index, a positive nonce is found and these conditions hold, and it is good for the publicly derived key |
| Eddsa.DerivationKeyDelta | mpc-lib/src/common/cosigner/asymmetric_eddsa_cosigner.cpp:28-57 | one signer's part of the tweak and the derived key; all derivation errors become internal errors |
| Eddsa.DeltaSharesSum | mpc-lib/src/common/cosigner/asymmetric_eddsa_cosigner.cpp:45-51 | for up to 255 signers the parts add up to the tweak modulo the group order |
| Eddsa.DeltaSharesWrap | mpc-lib/src/common/cosigner/asymmetric_eddsa_cosigner.cpp:28-57 | about the cast of the number of signers to uint8_t alone: from 256 on it wraps, and the parts add up if and only if the tweak is zero; setup stores no key with more than 255 players, so signing does not get there |
| Eddsa.DrawNonces | mpc-lib/src/common/cosigner/asymmetric_eddsa_cosigner_server.cpp:151-190 | fails exactly when 1024 draws fail; otherwise all blocks of the call get the first number drawn, because the status is not reset between blocks |
| EddsaRounds.Server.BroadcastR | mpc-lib/src/common/cosigner/asymmetric_eddsa_cosigner_server.cpp:256-324 | succeeds exactly when all points are there and every commitment opens; then each stored point has gained the points of all other servers |
| EddsaRounds.Server.BroadcastSi | mpc-lib/src/common/cosigner/asymmetric_eddsa_cosigner_server.cpp:326-462 | needs the client's commitments to open; each result is the server's own share for the joint point, with the client's added by the first server or, with one server, to finish |
| EddsaRounds.GetSignature | mpc-lib/src/common/cosigner/asymmetric_eddsa_cosigner_server.cpp:464-557 | succeeds exactly when all servers sent the stored point and reduced scalars and the public key can be derived along every path; s is the sum of the scalars |
| EddsaRounds.FinishableMeans | mpc-lib/src/common/cosigner/asymmetric_eddsa_cosigner_server.cpp:464-557 | for a block that is finished: the path derives publicly, and every server sent the stored point and a reduced scalar |
| EddsaRounds.HardenedNotFinishable | mpc-lib/src/common/cosigner/asymmetric_eddsa_cosigner_server.cpp:517-525 | so a block with a hardened index in its path is refused, whatever the servers sent |
| EddsaRounds.SignAsClient | mpc-lib/src/common/cosigner/asymmetric_eddsa_cosigner_client.cpp:100-232 | succeeds exactly when all players of the key sign, there are at most 1000 blocks, all servers agree on all points, their hashes are right, and every block has a nonce and can be signed |
| EddsaOutcome.OneJointPoint | mpc-lib/src/common/cosigner/asymmetric_eddsa_cosigner_server.cpp:290-321 | whichever own point a server starts from, all servers report the same joint point |
| EddsaOutcome.RCong | mpc-lib/src/common/cosigner/asymmetric_eddsa_cosigner_client.cpp:206-229 | the point of the signature is the sum of all nonces times the base, on the client and on every server |
| EddsaOutcome.FinalSum | mpc-lib/src/common/cosigner/asymmetric_eddsa_cosigner_server.cpp:370-541 | the finished s contains every server's share and the client's exactly once, with one server as well as with many |
| EddsaOutcome.RunVerifies | mpc-lib/src/common/cosigner/asymmetric_eddsa_cosigner_server.cpp:290-541 | for up to 254 servers and every path, hardened or not, the run goes through exactly when the path derives and the message is not empty, and the result satisfies s*B = R + H(R, A, M)*A of section 5.1.7 of RFC 8032 for the derived key A |
| EddsaOutcome.StoredPoint | mpc-lib/src/common/cosigner/asymmetric_eddsa_cosigner_server.cpp:290-321 | the stored point after broadcast_r is the joint point of the run |
| EddsaOutcome.FinishedSignature | mpc-lib/src/common/cosigner/asymmetric_eddsa_cosigner_server.cpp:501-541 | what get_eddsa_signature returns for a block of an honest run verifies under the public derivation of the key |
| EddsaOutcome.FinishedExactly | mpc-lib/src/common/cosigner/asymmetric_eddsa_cosigner_server.cpp:464-557 | honest messages for a block are finished by get_eddsa_signature exactly when its path has no hardened index |
| EddsaProtocol.ServersAgree | mpc-lib/src/common/cosigner/asymmetric_eddsa_cosigner_server.cpp:256-324 | after broadcast_r on all blocks every server sends the client the same points |
| EddsaProtocol.CompletedVerifies | mpc-lib/src/common/cosigner/asymmetric_eddsa_cosigner_server.cpp:256-557 | all rounds on all blocks of a request, chained by the contracts of broadcast_r, the client's signing, broadcast_si and get_eddsa_signature: every finished signature verifies under the derived key of its block |
| EddsaProtocol.SingleServerVerifies | mpc-lib/src/common/cosigner/asymmetric_eddsa_cosigner_server.cpp:326-462 | with a single server every block ends in broadcast_si, along hardened paths too, and verifies under the derived key |
| HdDerive.DerivePublicKey | mpc-lib/src/common/blockchain/mpc/hd_derive.cpp:104-129 | walks the path and reports the first error, or gives the derived key; an empty path gives the key itself, a hardened first index fails, and a single plain index adds the left half of its HMAC times the generator |
| HdDerive.DerivePrivateAndPublicKeys | mpc-lib/src/common/blockchain/mpc/hd_derive.cpp:136-172 | the same for both keys, but every failure is reported as the general error, and an empty path leaves the public key unset; a single index adds the left half of its HMAC to both |
| HdDerive.FirstChild | mpc-lib/src/common/blockchain/mpc/hd_derive.cpp:64-172 | derivation from the front: at an index below 2^31 the HMAC of the public key and the index under the chain code, above it of the private key, moves both keys by its left half, and the rest of the path goes on from there under its right half |
| HdDerive.PublicAlone | mpc-lib/src/common/blockchain/mpc/hd_derive.cpp:72-129 | without hardened indices the public-only derivation gives the same point, chain code and success as the private one from any key |
| HdDerive.PublicExactly | mpc-lib/src/common/blockchain/mpc/hd_derive.cpp:72-172 | the public derivation gets through exactly where the private one does and no index is hardened, and then reaches the same key |
| HdDerive.Homomorphic | mpc-lib/src/common/blockchain/mpc/hd_derive.cpp:72-172 | along every path without hardened indices, of any length, deriving from x gives x plus what deriving from 0 gives, and the public key moves by the same amount |
| HdDerive.KeysMoveTogether | mpc-lib/src/common/blockchain/mpc/hd_derive.cpp:136-172 | along every path, hardened or not, the private derivation moves the public key by what it moves the private key |
| HdDerive.HardenedPublicFails | mpc-lib/src/common/blockchain/mpc/hd_derive.cpp:76-79 | public derivation stops with the hardened error at the first hardened index |
| HdDerive.HardenedNotHomomorphic | mpc-lib/src/common/blockchain/mpc/hd_derive.cpp:64-102 | with a hardened index anywhere in the path the sum rule fails for some hash: 1 derives to something else than 1 plus the delta |
| HdDerive.DerivedKeyMatches | mpc-lib/src/common/cosigner/cmp_ecdsa_signing_service.cpp:262-279 | along every path, hardened or not, the key that the private derivation reaches belongs to the joint private key plus the derivation delta |
| AlgebraUtils.IsCoprimeFast | mpc-lib/src/common/crypto/algebra_utils/algebra_utils.c:327-376 | the Euclid loop answers whether two numbers are coprime, including the zero cases |
| AlgebraUtils.CrtRecombine | mpc-lib/src/common/crypto/algebra_utils/algebra_utils.c:243-278 | the result is below p*q and has both given remainders |
| AlgebraUtils.CrtModExp | mpc-lib/src/common/crypto/algebra_utils/algebra_utils.c:281-323 | for all coprime p and q, the two exponentiations and the recombination give base^e modulo p*q |
| AlgebraUtils.CrtUnique | mpc-lib/src/common/crypto/algebra_utils/algebra_utils.c:243-278 | remainders modulo p and q determine the number below p*q |
| NumberTheory.Fermat | mpc-lib/src/common/crypto/commitments/damgard_fujisaki.c:121-236 | Fermat's little theorem for integers, from the binomial theorem |
| NumberTheory.Euler | mpc-lib/src/common/crypto/commitments/damgard_fujisaki.c:182-236 | Euler's theorem for the product of two distinct primes |
| RsaGroup.ReduceExponent | mpc-lib/src/common/crypto/commitments/damgard_fujisaki.c:182-236 | exponents may be reduced modulo the totient for invertible bases |
| Permutation.SwapMerges | mpc-lib/src/common/crypto/algebra_utils/algebra_utils.c:57-64 | swapping entries of two cycles of a permutation joins the cycles |
| Permutation.XorSwapAt | mpc-lib/src/common/crypto/algebra_utils/algebra_utils.c:21 | the three exclusive-or assignments swap two different entries |
| Permutation.GeneratePermutation | mpc-lib/src/common/crypto/algebra_utils/algebra_utils.c:38-67 | for every size from 1 to 255 and all random bytes the result is one single cycle through all indices |
| Permutation.ShufflesDiffer | mpc-lib/src/common/crypto/algebra_utils/algebra_utils.c:38-67 | the bytes decide the permutation: different choices of places give different ones |
| Permutation.SingleCycleFacts | mpc-lib/src/common/crypto/algebra_utils/algebra_utils.c:38-67 | so it is a permutation and, for more than one entry, has no fixed point |
| ToughPrime.PoolHoldsFactors | mpc-lib/src/common/crypto/algebra_utils/algebra_utils.c:104-115 | of the accepted factor counts all but 241 fit into the pool; 241 wraps its size to 0 |
| ToughPrime.Multiply | mpc-lib/src/common/crypto/algebra_utils/algebra_utils.c:164-185 | the product takes the pool entries that the first entries of the permutation name, all different |
| ToughPrime.GenerateToughPrime | mpc-lib/src/common/crypto/algebra_utils/algebra_utils.c:73-239 | a returned number has the asked bit size, passes the primality test, leaves the asked remainder and is twice a product of different pool entries plus one |
| ToughPrime.BuiltIsThreeModFour | mpc-lib/src/common/crypto/algebra_utils/algebra_utils.c:104-215 | such a number is 3 modulo 4 when the sub-primes are odd |
| DamgardFujisaki.GenerateKey | mpc-lib/src/common/crypto/commitments/damgard_fujisaki.c:290-386 | a generated key is valid: t is the square of the first candidate coprime to n and each s_i a power of it; it fails exactly when no candidate is coprime to n |
| DamgardFujisaki.CreateCommitment | mpc-lib/src/common/crypto/commitments/damgard_fujisaki.c:121-180 | refuses an empty or too long vector and otherwise gives t^r times the product of the s_i^x_i modulo n |
| DamgardFujisaki.ExponentPower | mpc-lib/src/common/crypto/commitments/damgard_fujisaki.c:182-236 | t to r + sum lambda_i*x_i is that product, for every dimension |
| DamgardFujisaki.TrapdoorForm | mpc-lib/src/common/crypto/commitments/damgard_fujisaki.c:182-236 | and so is t to any exponent congruent to it modulo phi |
| DamgardFujisaki.CreateWithPrivate | mpc-lib/src/common/crypto/commitments/damgard_fujisaki.c:182-236 | the trapdoor computation gives exactly the public commitment |
| DamgardFujisaki.VerifyCommitment | mpc-lib/src/common/crypto/commitments/damgard_fujisaki.c:239-288 | accepts exactly the value that the public form computes |
| DamgardFujisaki.ParametersZkpGenerate | mpc-lib/src/common/crypto/zero_knowledge_proof/damgard_fujisaki_zkp.c:307-367 | refuses exactly unsupported challenge lengths and key sizes; otherwise every repetition satisfies t^z = A * product of s_j^e_j, whatever numbers are drawn, and answers to numbers below phi are reduced |
| DamgardFujisaki.FinalAnswerMeans | mpc-lib/src/common/crypto/zero_knowledge_proof/damgard_fujisaki_zkp.c:307-367 | the answer is the number drawn plus the sum of the challenges times the trapdoor, modulo phi |
| DamgardFujisaki.ParametersZkpVerify | mpc-lib/src/common/crypto/zero_knowledge_proof/damgard_fujisaki_zkp.c:463-549 | accepts exactly when there is a dimension, challenge length and key size are supported, there is one answer for each repetition, n is not prime, t and all s_j are invertible, every z fits the length bound and every equation holds |
| DamgardFujisaki.ProofEquationMeans | mpc-lib/src/common/crypto/zero_knowledge_proof/damgard_fujisaki_zkp.c:463-549 | the equation of one repetition, with the low bits of the raw challenges as exponents |
| DamgardFujisaki.ShortChallenge | mpc-lib/src/common/crypto/zero_knowledge_proof/damgard_fujisaki_zkp.c:463-549 | a challenge never has more bits than asked for, and one that fits is used as it was drawn |
| DamgardFujisaki.RepetitionTable | mpc-lib/src/common/crypto/zero_knowledge_proof/damgard_fujisaki_zkp.c:39-88 | 128 repetitions for up to 4 bits or more than two dimensions, otherwise fewer |
| DamgardFujisaki.AnswerLengths | mpc-lib/src/common/crypto/zero_knowledge_proof/damgard_fujisaki_zkp.c:256-275 | answers of two and a half times the security level of the modulus plus the challenge, and which sizes are supported |
| DamgardFujisaki.ProveAndVerify | mpc-lib/src/common/crypto/zero_knowledge_proof/damgard_fujisaki_zkp.c:307-549 | an honest proof is accepted exactly when there is a dimension, the sizes are supported and every response fits the length bound; for numbers drawn below phi the response is a function of them, the challenges and the trapdoor |
| DamgardFujisaki.AnswerCanOverflow | mpc-lib/src/common/crypto/zero_knowledge_proof/damgard_fujisaki_zkp.c:307-549 | there are draws for which it does not: the largest number that can be drawn, once the challenges move it without passing phi |
| RingPedersen.GenerateKey | mpc-lib/src/common/crypto/commitments/ring_pedersen.c:91-148 | a generated key is valid, with t the square of the first candidate coprime to n, and generation fails exactly when there is none |
| RingPedersen.TrapdoorCommitment | mpc-lib/src/common/crypto/commitments/ring_pedersen.c:984-1021 | t to (lambda*x + r) modulo phi is s^x*t^r modulo n |
| RingPedersen.VerifyCommitment | mpc-lib/src/common/crypto/commitments/ring_pedersen.c:984-1021 | private verification accepts exactly s^x*t^r modulo n |
| RingPedersen.WeightedPower | mpc-lib/src/common/crypto/commitments/ring_pedersen.c:1127-1170 | t to the accumulated exponent is the weighted product of the openings |
| RingPedersen.VerifyBatch | mpc-lib/src/common/crypto/commitments/ring_pedersen.c:1091-1188 | refuses an empty batch; otherwise passes exactly when the weighted products agree, so it passes whenever every member is individually accepted, for all weights, and a member of weight 1 among right ones is right if it passes |
| RingPedersen.ParametersZkpGenerate | mpc-lib/src/common/crypto/commitments/ring_pedersen.c:702-745 | every repetition satisfies t^z = A*s^e |
| RingPedersen.ParametersZkpVerify | mpc-lib/src/common/crypto/commitments/ring_pedersen.c:796-865 | accepts exactly when n is not prime, s and t are invertible and every equation holds |
| RingPedersen.ProveAndVerify | mpc-lib/src/common/crypto/commitments/ring_pedersen.c:654-870 | an honest proof is accepted |
| Keccak.Context.Init | mpc-lib/src/common/crypto/keccak1600/keccak1600.c:9-24 | accepts exactly the digest sizes whose block size, computed with wrap-around in size_t, fits the buffer, and starts with the empty message |
| Keccak.Rates | mpc-lib/src/common/crypto/keccak1600/keccak1600.c:9-24 | the rates of the four usual digest sizes |
| Keccak.Context.Update | mpc-lib/src/common/crypto/keccak1600/keccak1600.c:26-65 | keeps the absorbed blocks plus the buffered bytes equal to everything passed in, with less than a block buffered |
| Keccak.Context.Final | mpc-lib/src/common/crypto/keccak1600/keccak1600.c:67-86 | the digest is squeezed from the state that has absorbed exactly the padded message |
| Keccak.ShortMessage | mpc-lib/src/common/crypto/keccak1600/keccak1600.c:67-86 | a message of less than a block is absorbed in one application, as message, pad byte, zeros and 0x80 |
| Keccak.ChunksDoNotMatter | mpc-lib/src/common/crypto/keccak1600/keccak1600.c:26-65 | two contexts fed the same message in any pieces are in the same state |
| Keccak.UnpadPadded | mpc-lib/src/common/crypto/keccak1600/keccak1600.c:72-81 | padding can be undone for pad bytes from 1 to 0x7f, also when pad byte and 0x80 share the last byte (pad10*1, section 5.1 of FIPS 202) |
| Keccak.PaddedIsWhole | mpc-lib/src/common/crypto/keccak1600/keccak1600.c:72-81 | a padded message is a whole number of blocks |
| Keccak.AbsorbedConcat | mpc-lib/src/common/crypto/keccak1600/keccak1600.c:48-57 | absorbing whole blocks in two goes is absorbing their concatenation |
| Drng.New | mpc-lib/src/common/crypto/drng/drng.c:14-34 | refuses an empty seed; a new generator has handed out nothing |
| Drng.Generator.Read | mpc-lib/src/common/crypto/drng/drng.c:45-74 | refuses length zero and a buffer inside the generator; otherwise appends the next bytes of the stream to what was handed out, keeps pos at most 32 and leaves the rest of the buffer alone |
| Drng.StreamInBlock | mpc-lib/src/common/crypto/drng/drng.c:60-71 | within one hash the stream is a slice of its first half |
| Drng.StreamUnfolds | mpc-lib/src/common/crypto/drng/drng.c:36-74 | the stream is the first half of the digest it starts from and then the stream that starts from the hash of the second half |
| Drng.ChunksDoNotMatter | mpc-lib/src/common/crypto/drng/drng.c:45-74 | generators from one seed that handed out equally many bytes handed out the same ones |
| Endian.InField | mpc-lib/src/common/crypto/GFp_curve_algebra/GFp_curve_algebra.c:1055-1072 | the borrow loop over words ends with 1 exactly when the value is below the order |
| Endian.BorrowStep | mpc-lib/src/common/crypto/GFp_curve_algebra/GFp_curve_algebra.c:1062-1069 | one word of the borrow loop, in 64-bit wrap-around arithmetic |
| Scalars.InFieldEd25519 | mpc-lib/src/common/crypto/ed25519_algebra/ed25519_algebra.c:930-947 | the same for the Ed25519 loop against little-endian words |
| Scalars.Reduce | mpc-lib/src/common/crypto/GFp_curve_algebra/GFp_curve_algebra.c:1077-1140 | accepts exactly when the number without its masked top bits is below the order, and then returns that number; on failure the output is unchanged, except that the Ed25519 version clears it |
| Scalars.RangeNumbers | mpc-lib/src/common/crypto/GFp_curve_algebra/GFp_curve_algebra.c:1077-1140 | what the masks leave: 2^252, 2^253 or 2^256 |
| Scalars.MaskIsMod | mpc-lib/src/common/crypto/ed25519_algebra/ed25519_algebra.c:949-968 | masking the first byte is reduction modulo a power of two |
| Scalars.IsGreaterOrEqual | mpc-lib/include/cosigner/cmp_ecdsa_signing_service.h:136-149 | compares prefixes as big-endian numbers and fails exactly for length zero |
| Scalars.IsPositive | mpc-lib/include/cosigner/cmp_ecdsa_signing_service.h:150-160 | is the comparison with 2^250, with 0x7FFFFFFF80000000 * 2^192 or with 2^255, by curve |
| Scalars.ThresholdNumbers | mpc-lib/include/cosigner/cmp_ecdsa_signing_service.h:150-160 | the thresholds are 2^250, 0x7FFFFFFF80000000 * 2^192 and 2^255 |
| Scalars.MakeSigSPositive | mpc-lib/src/common/cosigner/cmp_ecdsa_signing_service.cpp:281-290 | keeps r and gives either s and v, or q - s and v with the parity bit flipped, the latter exactly when s is above both the threshold and half the order |
| Scalars.NormalisedIsLow | mpc-lib/src/common/cosigner/cmp_ecdsa_signing_service.cpp:281-290 | the result is at most half the order exactly when s was not between half the order and the threshold; so always for secp256r1 and Stark |
| Scalars.HighSecp256k1 | mpc-lib/include/cosigner/cmp_ecdsa_signing_service.h:159 | secp256k1 has such s: q/2 + 1 is left as it is |
| Scalars.ThresholdLow | mpc-lib/include/cosigner/cmp_ecdsa_signing_service.h:152-158 | for secp256r1 and Stark the threshold is at most half the order |
| Setup.Player.StoreCommitments | mpc-lib/src/common/cosigner/cmp_setup_service.cpp:124-159 | succeeds exactly when there is a commitment from every player and the own one opens; the acknowledgement is the hash of the whole list |
| Setup.Player.LoadDecommitments | mpc-lib/src/common/cosigner/cmp_setup_service.cpp:667-699 | accepts exactly when every commitment opens, every acknowledgement equals the own one and the keys are good; then holds the share of every player |
| Setup.AcceptedMeans | mpc-lib/src/common/cosigner/cmp_setup_service.cpp:616-699 | what is checked of every opening: a player of the key, the commitment over salt, key id, player id, seed, share, Schnorr point and the two keys, the acknowledgement, and good keys |
| Setup.Player.CombineSeeds | mpc-lib/src/common/cosigner/cmp_setup_service.cpp:161-184 | after that also holds the exclusive or of all seeds and everybody's Schnorr point |
| Setup.JointSeedMeans | mpc-lib/src/common/cosigner/cmp_setup_service.cpp:161-184 | the joint seed takes in every player's seed once, byte by byte, starting from zero |
| Setup.SeedCounts | mpc-lib/src/common/cosigner/cmp_setup_service.cpp:161-184 | so no player's seed can be changed without changing the joint one |
| Setup.Player.SetPublicKey | mpc-lib/src/common/cosigner/cmp_setup_service.cpp:186-209 | fails exactly when a share does not decode or a key that was already set differs from the sum of all shares; otherwise the public key is that sum |
| Setup.AckBinds | mpc-lib/src/common/cosigner/cmp_setup_service.cpp:655-665 | with collision-free hashing equal acknowledgements come from equal commitment maps |
| Setup.CommitmentBinds | mpc-lib/src/common/cosigner/cmp_setup_service.cpp:616-653 | two openings of one commitment agree in every field of fixed length and in the concatenation of the two keys |
| Setup.CommitmentBindsPlayer | mpc-lib/src/common/cosigner/cmp_setup_service.cpp:616-653 | no commitment opens for two players |
| Setup.SameKeys | mpc-lib/src/common/cosigner/cmp_setup_service.cpp:635-637 | the two keys agree one by one if and only if the first ones have equal length |
| Setup.KeysCanShift | mpc-lib/src/common/cosigner/cmp_setup_service.cpp:635-637 | otherwise they need not: one commitment fits two splittings of the same bytes |
| Setup.Agreement | mpc-lib/src/common/cosigner/cmp_setup_service.cpp:124-184 | two players who both get through, one of which received the other's acknowledgement, hold the same commitments, the same share, Schnorr point and seed of every player, honest or not, and the same joint seed |
| Setup.SamePublicKey | mpc-lib/src/common/cosigner/cmp_setup_service.cpp:194-209 | and they compute the same public key |
| AddUser.AddUserRequest | mpc-lib/src/common/cosigner/cmp_setup_service.cpp:294-370 | succeeds exactly for 2 to 255 different players who do not hold the key, with t equal to their number, an old key of that algorithm and a new key id that is not taken |
| AddUser.SplitMeans | mpc-lib/src/common/cosigner/cmp_setup_service.cpp:354-369 | all players but the last get the numbers drawn, the last what is left |
| AddUser.AddUser | mpc-lib/src/common/cosigner/cmp_setup_service.cpp:372-456 | succeeds exactly when all holders sent shares for the same players and the same public key, t is their number, from 2 to 255, and the key is not stored yet; the new key is the sum of the shares received |
| AddUser.NewKeyMeans | mpc-lib/src/common/cosigner/cmp_setup_service.cpp:420-453 | the new key is congruent to the sum of the shares received |
| AddUser.SplitSum | mpc-lib/src/common/cosigner/cmp_setup_service.cpp:354-369 | what one holder sends adds up to its key modulo q |
| AddUser.AddUserConserves | mpc-lib/src/common/cosigner/cmp_setup_service.cpp:354-453 | the new keys add up to the old ones for any numbers of either, whatever order each holder lists the players in |
| AddUser.PublicKeyKept | mpc-lib/src/common/cosigner/cmp_setup_service.cpp:194-209 | so the sum of the new public shares is the stored public key and the later check passes |

## Left out

- ToughPrime.GenerateToughPrime: excludes exactly 241 factors, for which the pool size wraps to 0 and the C code writes outside its arrays.
- CmpPresigning.PreprocessingData.CreateMtaRequest: the commitment points A, B and Z, their random scalars and the proofs about the request are not modelled.
- CmpPresigning.PreprocessingData.CreateMtaResponse: the check and creation of the range proofs and the stored public data are not modelled, nor their failures; the source subtracts each pair of betas right after building the answer, the model builds all answers first, and the two differ only in what is left behind when an answer fails, which the source discards.
- CmpPresigning.PreprocessingData.VerifyBlockAndGetDelta: the failures of the range proofs (MtaProof and MtaBatch have them) and of the Diffie-Hellman proof about GAMMA are not part of the condition.
- CmpPresigning.PreprocessingData.CalcR: the failures of the Diffie-Hellman proofs about DELTA are not part of the condition.
- Mta.AnswerRequest: the range proof that goes with the answer (MtaProof has it) and the length test of the ciphertext are not part of the condition.
- MtaProof.SingleProcess: serialization is modelled by its length header and the minimum lengths; the byte layout is not.
- EcdsaService.EcdsaSign: the check of the stored key's algorithm and of the metadata that the platform reads are not part of the condition.
- Eddsa.DrawNonces: freshness of nonces across blocks is not claimed, because it does not hold.
- EddsaOutcome.RunVerifies: stated up to 254 servers, the number that setup can store with the client; beyond that the cast to uint8_t makes it false (Eddsa.DeltaSharesWrap).
- EddsaRounds.SignAsClient: the check of the stored key's algorithm is not part of the condition; that points come from players of the key is built into their numbering.
- EddsaRounds.Server.BroadcastSi: the sender is taken to be the client; the source only checks that it is one of the signers and part of the key; the check of the stored key's algorithm is left out.
- Refresh.RefreshKey: seeds arrive decrypted, and the tenant check and storage around the computation are not modelled.
- DamgardFujisaki.ProveAndVerify: responses pass from prover to verifier as numbers; one that does not even fit its bytes is not written by the source and counts as too long here.
- RingPedersen.ParametersZkpVerify: an even n, for which the Montgomery set-up of a public key fails, is not singled out.
- Setup.Agreement: only the fields of fixed length, since the two serialized keys are hashed without separators (Setup.KeysCanShift).
- AddUser.AddUser: the commitments to the new key that follow in add_user are those of Setup and are not made here.
- Byte orders of EdDSA scalars: scalars are numbers there, so the conversions are identities.
- The zero-knowledge proofs other than the range proof and the parameter proofs (discrete logarithm, Paillier-Blum, large factors, Schnorr): completeness of these is not modelled.
- The symmetric online EdDSA service: the algebra of the asymmetric protocol with fewer branches.
- Secrecy, soundness and the quality of randomness.
- The loops that redraw a random number until it fits, apart from the nonce loops: an accepted draw is a parameter.
- Serialization, persistence, permissions, tenants, time limits, metadata checks before a protocol starts, memory management and error texts.
- Demo programs, networking and logging.
- OpenSSL, curve25519, SHA and the Keccak permutation themselves.
