/** What `Contribution.Contribute` promises its caller, for every engine. */
module ContributionProperties {
  import opened Results
  import opened Bytes
  import opened Policy
  import opened Contribution
  import Prefill
  import Messages

  /** A challenge of the wrong length is rejected before any engine call,
      with a text from which both the expected and the actual length can be
      read back. */
  lemma EarlyReject<Rng, Pub, Priv>(challenge: seq<byte>, parameters: Parameters, rng: Rng, engine: Engine<Rng, Pub, Priv>)
    requires |challenge| != parameters.accumulatorSize
    ensures var run := Contribute(challenge, parameters, rng, engine);
      && run.result.Err?
      && run.calls == []
      && Messages.ParseSizeMismatch(run.result.message) == Some((parameters.accumulatorSize, |challenge|))
  {
  }

  /** A challenge of exactly the expected length passes the check: the
      challenge is hashed and key generation is reached with that digest. */
  lemma ExactLengthAccepted<Rng, Pub, Priv>(challenge: seq<byte>, parameters: Parameters, rng: Rng, engine: Engine<Rng, Pub, Priv>)
    requires |challenge| == parameters.accumulatorSize
    ensures var run := Contribute(challenge, parameters, rng, engine);
      && |run.calls| >= 2
      && run.calls[0] == Hashed(challenge)
      && run.calls[1] == KeysGenerated(rng, engine.hash(challenge))
  {
  }

  /** Key generation failing ends the step with the fixed key-pair text;
      neither the transformation nor the key write is reached. */
  lemma KeyGenerationFailure<Rng, Pub, Priv>(challenge: seq<byte>, parameters: Parameters, rng: Rng, engine: Engine<Rng, Pub, Priv>)
    requires |challenge| == parameters.accumulatorSize
    requires engine.keyGeneration(rng, engine.hash(challenge)).Err?
    ensures var run := Contribute(challenge, parameters, rng, engine);
      && run.result == Err(Messages.KeyGenerationFailed)
      && run.calls == [Hashed(challenge), KeysGenerated(rng, engine.hash(challenge))]
  {
  }

  /** Once key generation succeeds, the transformation is the next call, and
      its arguments are fixed: the challenge, a buffer of exactly the
      required output length holding the cyclic digest pattern, input
      uncompressed, output compressed, no input check, the freshly generated
      private key and the step's own parameters. */
  lemma TransformationArguments<Rng, Pub, Priv>(challenge: seq<byte>, parameters: Parameters, rng: Rng, engine: Engine<Rng, Pub, Priv>)
    requires |challenge| == parameters.accumulatorSize
    requires engine.keyGeneration(rng, engine.hash(challenge)).Ok?
    ensures var run := Contribute(challenge, parameters, rng, engine);
      var digest := engine.hash(challenge);
      var keys := engine.keyGeneration(rng, digest).value;
      && |run.calls| >= 3
      && run.calls[2].Computed?
      && var c := run.calls[2].call;
      && c.input == challenge
      && |c.output| == RequiredOutputLength(CompressedOutput, parameters) == parameters.contributionSize
      && (forall i :: 0 <= i < |c.output| ==> c.output[i] == digest[i % |digest|])
      && c.inputCompression == UseCompression.No
      && c.outputCompression == UseCompression.Yes
      && c.checkInput == CheckForCorrectness.No
      && c.privateKey == keys.privateKey
      && c.parameters == parameters
  {
  }

  /** The transformation failing ends the step with the fixed transformation
      text; the key write is not reached. */
  lemma ComputationFailure<Rng, Pub, Priv>(challenge: seq<byte>, parameters: Parameters, rng: Rng, engine: Engine<Rng, Pub, Priv>)
    requires |challenge| == parameters.accumulatorSize
    requires engine.keyGeneration(rng, engine.hash(challenge)).Ok?
    requires engine.computation(TransformationCall(challenge, parameters, engine.hash(challenge), engine.keyGeneration(rng, engine.hash(challenge)).value.privateKey)).Err?
    ensures var run := Contribute(challenge, parameters, rng, engine);
      && run.result == Err(Messages.ComputationFailed)
      && |run.calls| == 3
      && run.calls[2].Computed?
  {
  }

  /** Once the transformation succeeds, the next call writes the public key
      into the transformed buffer in compressed form; if that fails the step
      ends with the writer's own text, otherwise the final bytes are hashed
      and nothing else is called. */
  lemma KeyWrite<Rng, Pub, Priv>(challenge: seq<byte>, parameters: Parameters, rng: Rng, engine: Engine<Rng, Pub, Priv>)
    requires |challenge| == parameters.accumulatorSize
    requires engine.keyGeneration(rng, engine.hash(challenge)).Ok?
    requires engine.computation(TransformationCall(challenge, parameters, engine.hash(challenge), engine.keyGeneration(rng, engine.hash(challenge)).value.privateKey)).Ok?
    ensures var run := Contribute(challenge, parameters, rng, engine);
      var keys := engine.keyGeneration(rng, engine.hash(challenge)).value;
      var transformed := engine.computation(TransformationCall(challenge, parameters, engine.hash(challenge), keys.privateKey)).value;
      var written := engine.writePublicKey(keys.publicKey, transformed, UseCompression.Yes, parameters);
      && run.calls[3..] == (if written.Ok? then [KeyWritten(keys.publicKey, transformed, UseCompression.Yes, parameters), Hashed(written.value)]
                            else [KeyWritten(keys.publicKey, transformed, UseCompression.Yes, parameters)])
      && (written.Err? ==> run.result == Err(written.message))
  {
  }

  /** All four stages succeed: the length check, key generation, the
      transformation and the key write. */
  ghost predicate AllStagesSucceed<Rng, Pub, Priv>(challenge: seq<byte>, parameters: Parameters, rng: Rng, engine: Engine<Rng, Pub, Priv>) {
    && |challenge| == parameters.accumulatorSize
    && var keys := engine.keyGeneration(rng, engine.hash(challenge));
    && keys.Ok?
    && var transformed := engine.computation(TransformationCall(challenge, parameters, engine.hash(challenge), keys.value.privateKey));
    && transformed.Ok?
    && engine.writePublicKey(keys.value.publicKey, transformed.value, UseCompression.Yes, parameters).Ok?
  }

  /** The step succeeds exactly when every stage does. */
  lemma SuccessCondition<Rng, Pub, Priv>(challenge: seq<byte>, parameters: Parameters, rng: Rng, engine: Engine<Rng, Pub, Priv>)
    ensures Contribute(challenge, parameters, rng, engine).result.Ok? <==> AllStagesSucceed(challenge, parameters, rng, engine)
  {
  }

  /** On success the response binds input to output: the first digest is the
      challenge's, the response is the transformed buffer after the key
      write, and the second digest is taken over those final bytes, as the
      last engine call. */
  lemma HashChain<Rng, Pub, Priv>(challenge: seq<byte>, parameters: Parameters, rng: Rng, engine: Engine<Rng, Pub, Priv>)
    requires Contribute(challenge, parameters, rng, engine).result.Ok?
    ensures var run := Contribute(challenge, parameters, rng, engine);
      var r := run.result.value;
      var keys := engine.keyGeneration(rng, engine.hash(challenge)).value;
      var transformed := engine.computation(TransformationCall(challenge, parameters, engine.hash(challenge), keys.privateKey)).value;
      && r.currentAccumulatorHash == engine.hash(challenge)
      && r.response == engine.writePublicKey(keys.publicKey, transformed, UseCompression.Yes, parameters).value
      && r.contributionHash == engine.hash(r.response)
      && |run.calls| == 5
      && run.calls[4] == Hashed(r.response)
  {
    SuccessCondition(challenge, parameters, rng, engine);
  }
}
