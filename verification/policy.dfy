/** Ceremony parameters, compression modes and the fixed policy of the
    browser contribution step (phase1-wasm/src/phase1.rs). */
module Policy {

  /** Whether group elements are stored compressed. */
  datatype UseCompression = Yes | No

  /** Whether the transformation validates its input points. */
  datatype CheckForCorrectness = Yes | No

  /** The three byte counts a contribution is checked and sized against. How
      they are derived from the curve, the proving system, the power and the
      batch size or chunk window is left abstract. */
  datatype Parameters = Parameters(
    accumulatorSize: nat,
    contributionSize: nat,
    publicKeySize: nat)

  /** The challenge is read uncompressed. */
  const CompressedInput: UseCompression := UseCompression.No

  /** The response is written compressed. */
  const CompressedOutput: UseCompression := UseCompression.Yes

  /** The transformation does not re-check the challenge's points. */
  const CheckInputCorrectness: CheckForCorrectness := CheckForCorrectness.No

  /** How long a challenge read in the given mode must be: a compressed
      challenge is a contribution, an uncompressed one a full accumulator. */
  function ExpectedChallengeLength(input: UseCompression, p: Parameters): (n: nat)
    ensures input == UseCompression.No ==> n == p.accumulatorSize
    ensures input == UseCompression.Yes ==> n == p.contributionSize
  {
    match input
    case Yes => p.contributionSize
    case No => p.accumulatorSize
  }

  /** How long the response written in the given mode is: compressed, a
      contribution; uncompressed, the accumulator followed by the public key.
      Either way it is a challenge of the same mode plus room for the key when
      the key is not embedded. */
  function RequiredOutputLength(output: UseCompression, p: Parameters): (n: nat)
    ensures n == ExpectedChallengeLength(output, p) + (if output == UseCompression.No then p.publicKeySize else 0)
  {
    match output
    case Yes => p.contributionSize
    case No => p.accumulatorSize + p.publicKeySize
  }

  /** Under the fixed policy a challenge must be exactly one uncompressed
      accumulator long, and the response is exactly one compressed
      contribution long. */
  lemma PolicyLengths(p: Parameters)
    ensures ExpectedChallengeLength(CompressedInput, p) == p.accumulatorSize
    ensures RequiredOutputLength(CompressedOutput, p) == p.contributionSize
  {
  }
}
