# Algebraic core of a pairing-based transferable e-cash library

A Dafny model of the algebraic layer of a transferable e-cash library. It covers four parts:

- **Groth–Sahai equation encoders** (`src/proof.rs`). These build two fixed shapes of pairing-product equation ("ayxb" and "xbxb_t"), create proofs with a self-check, and check proofs against the equation they rebuild.
- **One-time linearly homomorphic structure-preserving signature** (LHSPS): key setup and signing.
- **Replayable-CCA (RCCA) encryption scheme**: key generation, encryption, the five-part composed verifier `check_proofs`, decryption, the ciphertext update of `rerandomize`, and `verify`.
- **Double-spending primitives**: serial numbers, tags, the pairing checks that verify them, and detection of a double spender.

## Group model

Every element of G1, G2, GT and the scalar field is an `int`: its discrete logarithm to a fixed generator (module `Groups`).

- Group addition is `+`.
- Scalar multiplication k·P is `k * P`.
- The identity is `0`.
- The pairing e(x, y) is `x * y`.

Bilinearity therefore holds by construction. Correctness claims become ring identities.

Integers are not reduced modulo the group order. An identity proved over the integers also holds modulo every prime, so the identities, completeness statements and round trips below carry over to Z_p. Every equality test the model makes, however, compares unreduced integers. The rejection direction of each "accepts exactly when" statement therefore holds over Z only. This covers the double-spending verifiers, `VerifyFirstSerialNumberNeedsKey`, detection's `a == 0` branch, and the "None exactly when no key satisfies it" of `Search` and `Detect`. For example, `VerifySerialNumber` rejects an input whose pairing difference is 5, which a group of order 5 would accept (`DoubleSpending.SerialNumberRejectionIsOverIntegers`).

Vectors are `seq`s. Wherever the source combines two vectors with `zip`, the model truncates to the shorter one.

## The external proof engine

The Groth–Sahai crate (`commit_and_prove`, `PPE::verify`) enters as an `Engine` value: two arbitrary functions passed as a parameter. Every statement below therefore holds for whatever the crate computes.

Where a statement needs the crate to be correct, it assumes `Complete(eng)`. This hypothesis means that a proof made from witnesses satisfying a well-shaped equation verifies against that equation, and leads with a pairing-product equation proof.

The LHSPS `generate_proof` and `check_proof` live in `verifying_key.rs`, which is not part of this model. They enter the same way, as the `ProofLayer` value. `sign_derive` is modelled as the coordinate-wise weighted sum that the encryption code relies on.

`ValidSignature(vk, m, sig)` is the LHSPS verification relation: e(z, gz) + e(r, gr) = Σ e(m_i, pk_i), on a message of the key's dimension.

Statements about the proof layer name their hypotheses explicitly:

- `ProverTotal(lp)`: `generate_proof` never fails.
- `LayerComplete(lp)`: a proof generated from a signature valid on m is accepted on m.
- `DropsTrailingIdentity(lp)`: a proof accepted on m + [identity] is also accepted on m.
- `ChecksLength(lp)`: only messages of the key's dimension are accepted.

## Model

| member | source | states |
|---|---|---|
| Proof.AyxbReduces | src/proof.rs:24-36 | The ayxb encoding (X=[0,x], Y=[y], A=[a], B=[0,b], γ 2×1 zeros, t=0) has consistent dimensions, and the general equation holds exactly when e(a,y)+e(x,b)=0 |
| Proof.XbxbReduces | src/proof.rs:91-105 | The xbxb_t encoding (X=[0,x1,x2], Y=[0], A=[0], B=[0,b1,b2], γ 3×1 zeros) has consistent dimensions, and the general equation holds exactly when e(x1,b1)+e(x2,b2)=t |
| Proof.CreateProofAyxb | src/proof.rs:16-45 | Returns Ok only with the engine's proof for the built equation, and only when that proof verifies against it; Err exactly when the self-check fails |
| Proof.CheckProofAyxb | src/proof.rs:49-78 | False when the proof has no equation proofs or its first one is not a pairing product; otherwise the engine's verdict on the rebuilt ayxb equation |
| Proof.CreateProofXbxbT | src/proof.rs:82-114 | As CreateProofAyxb, for e(x1,b1)+e(x2,b2)=t |
| Proof.CheckProofXbxbT | src/proof.rs:118-150 | As CheckProofAyxb, for the rebuilt xbxb_t equation |
| Proof.AyxbCreatedProofChecks | src/proof.rs:43-44 | With a complete engine, witnesses satisfying e(a,y)+e(x,b)=0 give an Ok proof, and the proof check for the same a, b accepts it |
| Proof.AyxbCheckRebuildsEquation | src/proof.rs:64-75 | For any engine, a created proof that leads with a pairing-product proof passes the proof check: the proof check rebuilds the same A, B, γ and target |
| Proof.XbxbCreatedProofChecks | src/proof.rs:112-113 | With a complete engine, witnesses satisfying e(x1,b1)+e(x2,b2)=t give an Ok proof that the proof check for the same b1, b2, t accepts |
| Proof.XbxbCheckRebuildsEquation | src/proof.rs:134-147 | For any engine, a created xbxb_t proof that leads with a pairing-product proof passes the proof check for the same b1, b2, t |
| Lhsps.Setup | src/lhsps/mod.rs:30-45 | The signing key holds exactly the n sampled pairs, and the verify key stores the gz, gr it was built from. pk has n entries with pk_i = x_i·gz + y_i·gr |
| Lhsps.Accumulate | src/lhsps/signing_key.rs:37-43 | The fold over zip(m, xy) yields z = Σ x_i·m_i and r = Σ y_i·m_i |
| Lhsps.Sign | src/lhsps/signing_key.rs:32-46 | Err exactly when len(m) differs from the number of key pairs; otherwise z = Σ x_i·m_i and r = Σ y_i·m_i |
| Lhsps.SignIsValid | src/lhsps/signing_key.rs:27-30 | With a matching key pair, sign succeeds and its output satisfies e(z,gz)+e(r,gr) = Σ e(m_i,pk_i) |
| Lhsps.SignLinear | src/lhsps/signing_key.rs:37-43 | sign(a·m + b·m′) = a·sign(m) + b·sign(m′), coordinate-wise |
| Lhsps.SignZero | src/lhsps/signing_key.rs:41 | Signing the all-identity vector yields (identity, identity) |
| Lhsps.SignDerive | src/rcca/encrypt_key.rs:85-86 | The derived signature is the weighted sum (Σ w_i·z_i, Σ w_i·r_i) of the weighted signatures |
| Lhsps.SignDeriveValid | src/rcca/encrypt_key.rs:85-86 | A weighted sum of valid signatures is valid on the same weighted sum of their messages |
| RccaKeyGen.KeyGen | src/rcca/mod.rs:18-79 | alpha and h have length n with h_i = alpha_i·g. The LHSPS key has dimension n+3. sig_v1 and sig_v2 are valid on v1 = [f,g,0…] and v2 = [0,0,0,h…] (both of length n+3). The decryption key holds exactly the returned encryption key |
| RccaEncrypt.ProveSelectors | src/rcca/encrypt_key.rs:57-74 | One proof per element, each the self-checked ayxb proof for that element from its own coin; fails exactly when one creation fails |
| RccaEncrypt.Encrypt | src/rcca/encrypt_key.rs:32-146 | c = [φf, φg, m_i + φh_i …] with 2 + min(len m, len h) entries. len(cpf_ps) = len(c)−1 and len(cpf_fgh) = len(h)+2. Each bundle is the proof made for its relation: cpf_v on [c0,c1,0,0…] with sign_derive([(φ, sig_v1)]), and cpf_w on [f,g,0,0…] with sign_derive([(1, sig_v1)]). With a complete engine and a prover that never fails, encryption succeeds |
| RccaEncrypt.RerandomizeC | src/rcca/encrypt_key.rs:152-159 | Adds v·f to c0 and v·g to c1. Adds v·h_i to c_{i+2} for the slots zip reaches, and leaves the rest unchanged |
| RccaEncrypt.Verify | src/rcca/encrypt_key.rs:179-186 | True exactly when check_proofs succeeds |
| RccaCheck.CheckProofsAsWritten | src/rcca/ciphertext.rs:20-65 | The source's verifier including its panics. It panics only when c has fewer than two elements |
| RccaCheck.CheckProofs | src/rcca/ciphertext.rs:20-65 | Ok exactly when all of these hold: len(c) ≥ 2 and len(cpf_ps) = len(c)−1; cpf_b checks for (g, g̃); each cpf_ps[i−1] checks for c_i; cpf_v checks on [c0,c1]+(len c − 2) identities; every zip pair of [f,g,h…] with cpf_fgh checks; cpf_w checks on [f,g]+(len c − 2) identities. All failures are the same unit Err |
| RccaDecrypt.Unpad | src/rcca/decrypt_key.rs:24-27 | Yields len(c)−2 entries, with m_i = c_{i+2} − alpha_i·c_1 |
| RccaDecrypt.DecryptAsWritten | src/rcca/decrypt_key.rs:19-30 | The source's decrypt including its panics. It aborts exactly when check_proofs panics, or when check_proofs accepts and len(c) > len(alpha) + 2. It returns a plaintext exactly when check_proofs accepts and len(c) ≤ len(alpha) + 2; that plaintext has len(c)−2 entries with m_i = c_{i+2} − alpha_i·c_1 |
| RccaDecrypt.Decrypt | src/rcca/decrypt_key.rs:19-30 | The corrected decrypt. Ok exactly when check_proofs passes and len(c) = len(alpha) + 2. The plaintext then has len(alpha) entries with m_i = c_{i+2} − alpha_i·c_1 |
| RccaProperties.UnpadUndoesPad | src/rcca/decrypt_key.rs:26 | When h_i = alpha_i·g, stripping the pads of an encryption of m gives back m, cut to the number of slots |
| RccaProperties.EncryptDecryptRoundTrip | src/rcca/mod.rs:92-100 | Take keys from key_gen(n), a message of n elements, a complete engine, and an LHSPS layer that satisfies ProverTotal, LayerComplete and DropsTrailingIdentity. Then encrypt succeeds and decrypt(encrypt(m)) = Ok(m) |
| RccaProperties.SelectorWitnessSatisfies | src/rcca/encrypt_key.rs:45-55 | The witnesses encrypt uses in every ayxb proof (A=X=a, Y=−g̃, B=g̃, b=1) satisfy the equation |
| RccaProperties.SelectorProofChecks | src/rcca/ciphertext.rs:32-40 | With a complete engine, a selector proof that encrypt creates for an element passes the selector check for that element |
| RccaProperties.EncryptSelectorsCheck | src/rcca/ciphertext.rs:28-56 | With a complete engine and a prover that never fails, encrypt succeeds, and its output passes the cpf_b check, every cpf_ps check and every cpf_fgh check |
| RccaProperties.EncryptSignedProofsCheck | src/rcca/encrypt_key.rs:84-135 | With a complete LHSPS layer and a key whose sig_v1 is valid on v1, cpf_v is accepted on [c0,c1,0,0…] and cpf_w on [f,g,0,0…]: the messages encrypt signed |
| RccaProperties.EncryptPassesCheck | src/rcca/ciphertext.rs:20-65 | Take a complete engine, a key whose sig_v1 is valid on v1, a message that fills every slot, and a layer that satisfies ProverTotal, LayerComplete and DropsTrailingIdentity. Then encrypt succeeds and its output passes check_proofs |
| RccaProperties.LengthCheckingLayerRejectsEncryption | src/rcca/ciphertext.rs:41-62 | Under a layer that satisfies ChecksLength, check_proofs rejects every output of encrypt. It rebuilds messages of n+2 entries for a key of dimension n+3 |
| RccaProperties.ExtendedCiphertextAborts | src/rcca/decrypt_key.rs:21-27 | Take an encryption, append any x to c, and append the selector proof for x to cpf_ps. With a complete engine and a complete layer, this ciphertext passes check_proofs, the source's decrypt aborts on it, and the corrected decrypt rejects it |
| RccaProperties.DecryptMatchesSource | src/rcca/decrypt_key.rs:19-30 | When len(c) = len(alpha) + 2, the source's decrypt never aborts, and the corrected decrypt returns exactly its plaintext |
| RccaProperties.SignedVIsScaledBasis | src/rcca/encrypt_key.rs:77-86 | When the message fills every slot, the vector signed for cpf_v equals φ·v1 |
| RccaProperties.SignedWIsBasis | src/rcca/encrypt_key.rs:120-129 | When the message fills every slot, the vector signed for cpf_w equals b·v1 = v1 |
| RccaProperties.CpfVWitnessValid | src/rcca/encrypt_key.rs:85-92 | With keys from key_gen, the signature given to the cpf_v prover is valid on the vector given with it |
| RccaProperties.CpfWWitnessValid | src/rcca/encrypt_key.rs:128-135 | With keys from key_gen, the signature given to the cpf_w prover is valid on the vector given with it |
| RccaProperties.DerivedBasisValid | src/rcca/encrypt_key.rs:84-86 | A one-term sign_derive with weight w turns a valid signature on v into a valid signature on w·v |
| RccaProperties.CheckedVDropsLastSigned | src/rcca/ciphertext.rs:42-46 | check_proofs rebuilds cpf_v's message one entry shorter than encrypt signs it. The dropped entry is the identity, so Σ e(v_i, pk_i) is unchanged |
| RccaProperties.CheckedWDropsLastSigned | src/rcca/ciphertext.rs:58-62 | The same one-entry truncation for cpf_w's message |
| RccaProperties.RerandomizeKeepsPlaintext | src/rcca/encrypt_key.rs:152-159 | When h_i = alpha_i·g, the c update leaves the value decrypt computes unchanged |
| RccaProperties.RerandomizeIsReencryption | src/rcca/encrypt_key.rs:152-159 | Updating an encryption under φ with v gives exactly the encryption under φ + v |
| RccaProperties.RerandomizeComposes | src/rcca/encrypt_key.rs:152-159 | Two updates with v1 and v2 equal one update with v1 + v2 |
| RccaProperties.VerifyAcceptsEncryption | src/rcca/encrypt_key.rs:179-186 | Under the hypotheses of EncryptPassesCheck, verify accepts every output of encrypt, whatever message it is given |
| RccaProperties.VerifyIgnoresMessage | src/rcca/encrypt_key.rs:179-186 | verify returns the same answer for every message argument |
| RccaProperties.FghProofsMayBeDropped | src/rcca/ciphertext.rs:48-56 | Because cpf_fgh is checked through zip, a ciphertext that passes still passes with no cpf_fgh proofs |
| RccaProperties.FghExtraProofsIgnored | src/rcca/ciphertext.rs:50-56 | Appending proofs after the n+2 needed ones does not change the verdict |
| RccaProperties.CheckProofsAsWrittenPanics | src/rcca/ciphertext.rs:21-46 | A one-element c with no cpf_ps and a valid cpf_b makes the source's verifier panic. The corrected verifier rejects it |
| RccaProperties.CheckProofsMatchesSource | src/rcca/ciphertext.rs:20-65 | The source never panics once len(c) ≥ 2. Wherever it does not panic, it accepts exactly when the corrected verifier does |
| DoubleSpending.VerifyGuilt | src/double_spending/public_key.rs:26-34 | Accepts exactly when e(ax,g) = e(mx,pk) + e(h1,tx) or e(ax,g) = e(mx,pk) + e(h2,tx) |
| DoubleSpending.VerifyFirstSerialNumber | src/double_spending/public_key.rs:37-73 | Accepts exactly when all five equations hold: e(M,g)=e(g1,N0), e(N,g)=e(g2,N0+pk), N1 = pk, and e(Mi,g)=e(g1,Ni) for both messages |
| DoubleSpending.VerifySerialNumber | src/double_spending/public_key.rs:76-96 | Accepts exactly when e(M,g)=e(g1,π) and e(N,g)=e(g2,π+pk) |
| DoubleSpending.VerifyTag | src/double_spending/public_key.rs:100-129 | Accepts exactly when e(M,g)=e(g1,π), e(A,g)=e(M_d,pk)+e(h1,π) and e(B,g)=e(N_d,pk)+e(h2,π) |
| DoubleSpending.InitAndGenerateAgree | src/double_spending/secret_key.rs:44-59 | generate_serial_number gives the same sn = (n·g1, (sk+n)·g2) as init_serial_number for the same sk and n |
| DoubleSpending.VerifyFirstSerialNumberComplete | src/double_spending/secret_key.rs:21-40 | Under pk = sk·g, init_serial_number's serial number and its messages (n·g1, n·g), (sk·g1, sk·g) are accepted |
| DoubleSpending.VerifySerialNumberComplete | src/double_spending/secret_key.rs:44-59 | Under pk = sk·g, generate_serial_number's output (with sn_pf = n·g) is accepted |
| DoubleSpending.VerifyTagComplete | src/double_spending/secret_key.rs:64-82 | Under pk = sk·g, generate_tag's tag (A = sk·M_d + n·h1, B = sk·N_d + n·h2, π = n·g) is accepted with the serial number for the same n |
| DoubleSpending.VerifyFirstSerialNumberNeedsKey | src/double_spending/public_key.rs:58-60 | Rejects whenever the second message's G2 part is not pk |
| Detect.Search | src/double_spending/detect.rs:44-48 | Returns only a registered key that satisfies the predicate, and returns nothing exactly when no registered key does |
| Detect.Detect | src/double_spending/detect.rs:12-42 | The evidence is the component-wise differences, taken from A/M/h1 unless the A-difference is the identity. A returned key is registered, satisfies the guilt relation on that evidence and passes verify_guilt. None exactly when no registered key satisfies it |
| Detect.CulpritSatisfiesGuilt | src/double_spending/detect.rs:22-39 | When both tags come from generate_tag under one sk, pk = sk·g satisfies the guilt relation in whichever branch is taken |
| Detect.DetectFindsDoubleSpender | src/double_spending/detect.rs:34-41 | When both tags come from one sk whose pk is registered, detect returns a key, and that key passes verify_guilt |

All operations are Dafny functions, so each one is deterministic by construction. This covers `sign`, `decrypt`, the proof checks and the double-spending generators.

The LHSPS signing key used in key generation is a local of `KeyGen`. `EncryptKey` and `DecryptKey` have no field that could hold it.

## Notes on the source

- The comments at src/rcca/encrypt_key.rs:75-76 and src/rcca/ciphertext.rs:41 describe the same message v = [c_0, c_1, 1, …, 1]. Encryption builds it with len(c) + 1 entries (src/rcca/encrypt_key.rs:77-82). `check_proofs` rebuilds it with len(c) entries (src/rcca/ciphertext.rs:42-43).
- The same holds for w (src/rcca/encrypt_key.rs:118-125 against src/rcca/ciphertext.rs:57-59).
- An honest ciphertext therefore passes only if `check_proof` accepts the message one identity entry short. This is the `DropsTrailingIdentity` hypothesis. `LengthCheckingLayerRejectsEncryption` shows what happens without it.
- Encryption creates n + 2 cpf_fgh proofs (src/rcca/encrypt_key.rs:102-116). `check_proofs` only zips them with [f, g, h…] and never checks how many there are (`FghProofsMayBeDropped`, `FghExtraProofsIgnored`).

## Findings

| source | as written | input that shows it | evidently intended | confidence | as-written member | corrected member |
|---|---|---|---|---|---|---|
| src/rcca/ciphertext.rs:21-46 | The length guard `cpf_ps.len() != c.len() - 1` lets a one-element c through with an empty cpf_ps. `self.c[1]` is then indexed after the cpf_b and cpf_ps checks, which panics. An empty c underflows `c.len() - 1`, which panics in a debug build | c = [x], cpf_ps = [], cpf_b = any proof that checks for (g, g̃), such as the cpf_b of an honest ciphertext | Reject ciphertexts with fewer than two elements, so that decryption of adversarial input never aborts | high (not executed) | RccaProperties.CheckProofsAsWrittenPanics | RccaCheck.CheckProofs |
| src/rcca/decrypt_key.rs:21-27 | `check_proofs` never bounds len(c) by the key's n + 2. The loop then reads `alpha[i]` for every slot of c, so a longer ciphertext that passes the check makes `decrypt` panic | An honest encryption with any x appended to c and the selector proof for x appended to cpf_ps. Anyone can make that proof from the public CRS. The result passes the check under a complete engine and a complete LHSPS layer | Reject every ciphertext whose length is not n + 2 before decrypting | high (not executed) | RccaProperties.ExtendedCiphertextAborts | RccaDecrypt.Decrypt |

## Left out

- Groth–Sahai crate internals (`CRS::generate_crs`, `commit_and_prove`, `PPE::verify`): they are an external library. They enter as the `Engine` parameter; completeness is a hypothesis, never a fact.
- LHSPS `verify`, `generate_proof` and `check_proof`: `verifying_key.rs` is not part of this model. The first is replaced by the `ValidSignature` relation; the other two enter as the `ProofLayer` parameter.
- Lhsps.SignDerive: modelled as the weighted sum that never fails. The source's `sign_derive` returns a `Result` whose error cases are not visible.
- Randomness: phi, alpha, f, g, the LHSPS pairs and generators, and the re-randomisation exponent are explicit parameters. Each proof creation draws its coin from a `Tape` (k ↦ k-th coin), in the order the source creates the proofs.
- The proof refresh of `rerandomize`, `adapt_proof`, and the plaintext half of `verify` are `todo!()` or TODO in the source, so they are not modelled. As written, `rerandomize` always panics after updating c. RerandomizeC models only the c update.
- RccaProperties.EncryptPassesCheck: holds only under the layer hypotheses ProverTotal, LayerComplete and DropsTrailingIdentity, because `check_proof`'s code is not part of this model.
- RccaProperties.EncryptDecryptRoundTrip: holds only under the same three layer hypotheses.
- Modular arithmetic: equality tests are over unreduced integers, so rejections and "exactly when" statements (the double-spending verifiers, `Search`, `Detect`) are not claimed for Z_p, where they can fail.
- RccaDecrypt.Decrypt: it is built on the corrected `CheckProofs`. It rejects ciphertexts shorter than two elements, on some of which the source's `check_proofs` panics (an empty c, or c = [x] with no cpf_ps and a cpf_b that checks), and ciphertexts longer than n + 2, where the source's loop panics. It also rejects ciphertexts shorter than n + 2 that pass the check; the source returns a shorter plaintext for those. DecryptAsWritten keeps the source's behaviour.
- RccaEncrypt.Verify: it is built on the corrected `CheckProofs`. The source's `verify` panics wherever its `check_proofs` does: on an empty c, and on c = [x] with no cpf_ps and a cpf_b that checks.
- RccaEncrypt.RerandomizeC: requires len(c) ≥ 2, because the source indexes c[0] and c[1] and slices c[2..].
- CheckProofsAsWritten models the empty-c underflow as a panic (debug build). In a release build the subtraction wraps and the length guard rejects.
- Soundness and security claims (RCCA security, unlinkability, zero knowledge, rejection of a mutated ciphertext "with overwhelming probability") cannot be stated in an exponent model with an arbitrary engine.
- `src/encrypt_e/*` is a thin wrapper over an external ElGamal crate whose operations are not visible.
- Representation details are not modelled: affine/projective conversions, the manual CRS clone (both keys here hold the same CRS value), module wiring, `PublicKey::from`, and BLS12-381 field arithmetic (replaced by the integer exponent model).
- Detect.Search: the `Searcher` trait is instantiated by a linear search over a registered key list. Detect's guarantees use only the trait's contract: a returned key satisfies the predicate, and nothing is returned only when no key does.
- RccaEncrypt.Encrypt: the source `unwrap`s each proof creation and so panics when a self-check fails. The model returns Err in that case instead.
