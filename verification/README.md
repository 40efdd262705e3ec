# Browser contribution step of a powers-of-tau ceremony, in Dafny

This project models `contribute_challenge`, the step of the phase-1 trusted
setup ceremony that turns a participant's challenge (the prior accumulator)
into a response carrying the participant's contribution, plus two digests
that bind input to output. The step:

1. checks the challenge length against the parameters, under the fixed
   policy that the challenge is read uncompressed, and rejects a challenge
   of the wrong length with a message naming both lengths;
2. sizes the response under the fixed policy that it is written compressed;
3. hashes the challenge and pre-fills the response buffer by cycling
   through the digest;
4. generates a key pair from the random source, with the digest as context;
5. runs the transformation (challenge uncompressed in, response compressed
   out, no input check, the fresh private key);
6. writes the public key into the response;
7. hashes the final response and returns both digests and the response.

Hashing, key generation, the transformation and the key write are
cryptographic code outside the model. They arrive as the function fields of
an `Engine` value, so every property below holds for every possible
behaviour of that code. `Contribute` returns, next to its result, the list of
engine calls it made with their arguments. This is how "never reached" and
"called with these arguments" are stated. The random source is an opaque
value handed to key generation.

Modules:

- `Results`: `Option` and a `Result` whose error side is a text, as the
  step returns `Result<_, String>`.
- `Bytes`: `byte` and the non-empty `Digest`.
- `Decimal`: how `{}` renders a length, and reading it back.
- `Policy`: compression modes, parameters, the three policy constants and the
  two length selectors.
- `Prefill`: the cyclic pre-fill, as a function and as the source's loop.
- `Messages`: the step's error texts.
- `Contribution`: the engine, the response record and the step itself.
- `ContributionProperties`: what the step promises, for every engine.

## Model

| member | source | states |
|---|---|---|
| Policy.ExpectedChallengeLength | phase1-wasm/src/phase1.rs:146-149 | A challenge read uncompressed must be one full accumulator long; read compressed, one contribution long |
| Policy.RequiredOutputLength | phase1-wasm/src/phase1.rs:159-162 | A response written in a given mode is as long as a challenge read in that mode, plus room for the public key when uncompressed |
| Policy.PolicyLengths | phase1-wasm/src/phase1.rs:146-162 | Under the fixed policy (input uncompressed, output compressed), a challenge must be exactly `accumulator_size` long and the response is exactly `contribution_size` long |
| Prefill.CyclicFill | phase1-wasm/src/phase1.rs:164-169 | The pre-fill has exactly the requested length, and byte `i` is `digest[i % len(digest)]` |
| Prefill.FillResponse | phase1-wasm/src/phase1.rs:164-169 | The push loop over `0..required_output_length` produces a buffer of that length with the cyclic digest pattern, the same buffer as `CyclicFill` |
| Prefill.CyclicFillIsRepeat | phase1-wasm/src/phase1.rs:167-169 | Filling `k * len(digest) + j` bytes gives `k` whole copies of the digest followed by its first `j` bytes |
| Prefill.CyclicFillPrefix | phase1-wasm/src/phase1.rs:167-169 | The pre-fill of a shorter buffer is a prefix of the pre-fill of a longer one |
| Decimal.Render | phase1-wasm/src/phase1.rs:152-156 | A length is written as a non-empty run of decimal digits with no leading zero (except for zero itself), as `{}` prints a `usize` |
| Decimal.ValueOfRender | phase1-wasm/src/phase1.rs:152-156 | A length rendered in decimal reads back as the same number, so the rendering loses nothing |
| Decimal.RenderInjective | phase1-wasm/src/phase1.rs:152-156 | Different lengths render as different texts |
| Messages.SizeMismatch | phase1-wasm/src/phase1.rs:151-157 | The length-rejection text starts with the fixed opening and ends with the fixed closing. It names both lengths: the expected length and then the actual length can be read back from it |
| Messages.SizeMismatchInjective | phase1-wasm/src/phase1.rs:151-157 | Two length rejections with the same text have the same expected length and the same actual length |
| Messages.FixedMessagesAreNotSizeMismatches | phase1-wasm/src/phase1.rs:173-204 | The key-pair text and the transformation text differ from each other, and neither reads as a length rejection |
| Contribution.InitialResponse | phase1-wasm/src/phase1.rs:159-169 | The buffer handed to the transformation is `contribution_size` long and holds the cyclic pattern of the challenge digest |
| Contribution.Contribute | phase1-wasm/src/phase1.rs:141-206 | Success implies the challenge length equals `accumulator_size`. A wrong length gives the length-rejection error and no engine call. Success returns `Hash(challenge)` and `Hash(response)`. An accepted length first hashes the challenge and then generates keys with that digest |
| ContributionProperties.EarlyReject | phase1-wasm/src/phase1.rs:146-157 | A wrong-length challenge is rejected before any engine call, and both lengths can be read back from the error text |
| ContributionProperties.ExactLengthAccepted | phase1-wasm/src/phase1.rs:151-173 | A challenge of exactly the expected length passes the check: it is hashed, then key generation is called with that digest |
| ContributionProperties.KeyGenerationFailure | phase1-wasm/src/phase1.rs:171-176 | A failed key generation gives `Err("could not generate keypair")`. Neither the transformation nor the key write is called |
| ContributionProperties.TransformationArguments | phase1-wasm/src/phase1.rs:179-187 | After keys are generated, the transformation is the third call. Its buffer has exactly the required output length and the cyclic digest pattern. Its other arguments are the fixed policy modes, the new private key and the same parameters |
| ContributionProperties.ComputationFailure | phase1-wasm/src/phase1.rs:179-204 | A failed transformation gives `Err("must contribute with the key")`. The key write is not called |
| ContributionProperties.KeyWrite | phase1-wasm/src/phase1.rs:188-200 | After a successful transformation, the public key is written into the transformed buffer, compressed. A failed write gives the writer's own message. A successful write is followed only by the hash of the final bytes |
| ContributionProperties.SuccessCondition | phase1-wasm/src/phase1.rs:151-196 | The step returns `Ok` if and only if the length check, key generation, the transformation and the key write all succeed |
| ContributionProperties.HashChain | phase1-wasm/src/phase1.rs:164-196 | On success, `current_accumulator_hash` is `Hash(challenge)`. `response` is the transformed buffer after the key write. `contribution_hash` is the hash of those final bytes, and that hash is the fifth and last engine call |

## Left out

- `Phase1WASM::contribute_full` and `contribute_chunked` (phase1.rs:50-113) are left out. They parse the curve and proving-system tokens, which aborts on an unknown token. `contribute_chunked` also builds a thread pool on host workers and waits on a one-shot channel. That is concurrency and host plumbing.
- RNG construction (`get_rng`, `user_system_randomness`, `derive_rng_from_seed`) is entropy and foreign code. The random source is an opaque value passed to key generation. The model does not track how generation consumes the random state.
- `get_parameters_full` and `get_parameters_chunked` (phase1.rs:116-139) wrap size formulas that are not part of this model. `Parameters` is an arbitrary record of three lengths.
- `init_hooks`, the global allocator and the `Serialize` derive are host environment plumbing.
- The internals of `calculate_hash`, `Phase1::key_generation`, `Phase1::computation` and `PublicKey::write` are cryptographic code. They are arbitrary functions of an `Engine`. The only assumption is that a digest is non-empty. Otherwise `i % len` in the pre-fill would panic on a non-empty buffer, and the panic is not modelled.
- The model makes no claim that the transformation or the key write keeps the buffer length. Both return a buffer of any length. The source's mutable slice would keep the length, but the step itself does not promise this.
- `CheckForCorrectness` is defined outside this model. Only its `No` value is used here, so it is modelled with two values.
- `Policy.RequiredOutputLength`: in the uncompressed-output branch, `accumulator_size + public_key_size` is a `usize` sum in the source. Its overflow is not modelled. The fixed policy never takes that branch.
- Errors returned by key generation and the transformation are dropped by the step. The model gives them as text, and that text never reaches the result.

