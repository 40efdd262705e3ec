/** The contribution step `contribute_challenge`: check the challenge's
    length, hash it, pre-fill the response, generate a key pair, transform
    the challenge into the response, write the public key, hash the result.

    Hashing, key generation, the transformation and the key write are
    cryptographic code outside this model. They reach it as the fields of an
    `Engine`, which may be any functions at all; the step's own logic is
    what is modelled. Besides its result the step reports the sequence of
    engine calls it made, so that what is and is not reached, and with which
    arguments, can be stated. */
module Contribution {
  import opened Results
  import opened Bytes
  import opened Policy
  import Prefill
  import Messages

  /** What a successful contribution hands back to the host. */
  datatype ContributionResponse = ContributionResponse(
    currentAccumulatorHash: seq<byte>,
    response: seq<byte>,
    contributionHash: seq<byte>)

  datatype KeyPair<Pub, Priv> = KeyPair(publicKey: Pub, privateKey: Priv)

  /** Every argument the transformation receives. `output` is the response
      buffer as it stands when the transformation is called. */
  datatype ComputationCall<Priv> = ComputationCall(
    input: seq<byte>,
    output: seq<byte>,
    inputCompression: UseCompression,
    outputCompression: UseCompression,
    checkInput: CheckForCorrectness,
    privateKey: Priv,
    parameters: Parameters)

  /** The cryptographic collaborators. `keyGeneration` receives the random
      source and the challenge digest as context; `computation` and
      `writePublicKey` return the response buffer as they leave it. */
  datatype Engine<!Rng, !Pub, !Priv> = Engine(
    hash: seq<byte> -> Digest,
    keyGeneration: (Rng, Digest) -> Result<KeyPair<Pub, Priv>>,
    computation: ComputationCall<Priv> -> Result<seq<byte>>,
    writePublicKey: (Pub, seq<byte>, UseCompression, Parameters) -> Result<seq<byte>>)

  /** One call made to the engine, with its arguments. */
  datatype Call<Rng, Pub, Priv> =
    | Hashed(data: seq<byte>)
    | KeysGenerated(rng: Rng, context: Digest)
    | Computed(call: ComputationCall<Priv>)
    | KeyWritten(publicKey: Pub, buffer: seq<byte>, compression: UseCompression, parameters: Parameters)

  /** The step's result and the engine calls it made, in order. */
  datatype Run<Rng, Pub, Priv> = Run(
    result: Result<ContributionResponse>,
    calls: seq<Call<Rng, Pub, Priv>>)

  /** The response buffer handed to the transformation: the required output
      length, filled by cycling through the challenge's digest. */
  function InitialResponse(digest: Digest, parameters: Parameters): (r: seq<byte>)
    ensures |r| == parameters.contributionSize
    ensures forall i :: 0 <= i < |r| ==> r[i] == digest[i % |digest|]
  {
    Prefill.CyclicFill(digest, RequiredOutputLength(CompressedOutput, parameters))
  }

  /** The call to the transformation the step makes once key generation has
      produced `privateKey`: the challenge read uncompressed, the pre-filled
      buffer written compressed, no input check, and the step's own
      parameters. */
  function TransformationCall<Priv>(challenge: seq<byte>, parameters: Parameters, digest: Digest, privateKey: Priv): (c: ComputationCall<Priv>)
    ensures c.input == challenge
    ensures |c.output| == parameters.contributionSize
    ensures forall i :: 0 <= i < |c.output| ==> c.output[i] == digest[i % |digest|]
    ensures c.inputCompression == UseCompression.No
    ensures c.outputCompression == UseCompression.Yes
    ensures c.checkInput == CheckForCorrectness.No
    ensures c.privateKey == privateKey && c.parameters == parameters
  {
    ComputationCall(challenge, InitialResponse(digest, parameters), CompressedInput, CompressedOutput,
                    CheckInputCorrectness, privateKey, parameters)
  }

  /** The contribution step. */
  function Contribute<Rng, Pub, Priv>(
    challenge: seq<byte>, parameters: Parameters, rng: Rng, engine: Engine<Rng, Pub, Priv>
  ): (run: Run<Rng, Pub, Priv>)
    ensures run.result.Ok? ==> |challenge| == parameters.accumulatorSize
    ensures |challenge| != parameters.accumulatorSize
      ==> run.result == Err(Messages.SizeMismatch(parameters.accumulatorSize, |challenge|)) && run.calls == []
    ensures run.result.Ok? ==>
      && run.result.value.currentAccumulatorHash == engine.hash(challenge)
      && run.result.value.contributionHash == engine.hash(run.result.value.response)
    ensures |challenge| == parameters.accumulatorSize ==>
      |run.calls| >= 2 && run.calls[..2] == [Hashed(challenge), KeysGenerated(rng, engine.hash(challenge))]
  {
    var expected := ExpectedChallengeLength(CompressedInput, parameters);
    if |challenge| != expected then
      Run(Err(Messages.SizeMismatch(expected, |challenge|)), [])
    else
      var digest := engine.hash(challenge);
      var calls := [Hashed(challenge), KeysGenerated(rng, digest)];
      match engine.keyGeneration(rng, digest)
      case Err(_) => Run(Err(Messages.KeyGenerationFailed), calls)
      case Ok(keys) =>
        var call := TransformationCall(challenge, parameters, digest, keys.privateKey);
        var calls := calls + [Computed(call)];
        match engine.computation(call)
        case Err(_) => Run(Err(Messages.ComputationFailed), calls)
        case Ok(transformed) =>
          var calls := calls + [KeyWritten(keys.publicKey, transformed, CompressedOutput, parameters)];
          match engine.writePublicKey(keys.publicKey, transformed, CompressedOutput, parameters)
          case Err(e) => Run(Err(e), calls)
          case Ok(written) =>
            Run(Ok(ContributionResponse(digest, written, engine.hash(written))), calls + [Hashed(written)])
  }
}
