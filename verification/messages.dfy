/** The error texts the contribution step returns to the host. */
module Messages {
  import opened Results
  import Decimal

  const SizePrefix := "The size of challenge file should be "
  const SizeMiddle := ", but it's "
  const SizeSuffix := ", so something isn't right."

  /** Returned when key generation fails; the generator's own error is
      dropped. */
  const KeyGenerationFailed := "could not generate keypair"

  /** Returned when the transformation fails; its own error is dropped. */
  const ComputationFailed := "must contribute with the key"

  /** Two numbers written into a template: `prefix`, the first number,
      `middle`, the second number, `suffix`. */
  function Fill2(prefix: string, middle: string, suffix: string, x: nat, y: nat): string {
    prefix + Decimal.Render(x) + middle + Decimal.Render(y) + suffix
  }

  /** Reads the two numbers back out of a text built by `Fill2` with the same
      template, or `None` when the text does not have that shape. */
  function Read2(prefix: string, middle: string, suffix: string, message: string): Option<(nat, nat)> {
    if !(prefix <= message) then None
    else
      var first := Decimal.LeadingDigits(message[|prefix|..]);
      if first.0 == [] || !(middle <= first.1) then None
      else
        var second := Decimal.LeadingDigits(first.1[|middle|..]);
        if second.0 == [] || second.1 != suffix then None
        else Some((Decimal.Value(first.0), Decimal.Value(second.0)))
  }

  /** Dropping a prefix that was just prepended gives the rest back. */
  lemma DropPrefix(p: string, x: string)
    ensures p <= p + x
    ensures (p + x)[|p|..] == x
  {
  }

  /** Whenever the text after each number starts with a non-digit, both
      numbers can be read back from the filled template. */
  lemma {:induction false} Read2OfFill2(prefix: string, middle: string, suffix: string, x: nat, y: nat)
    requires |middle| > 0 && !Decimal.IsDigit(middle[0])
    requires suffix == [] || !Decimal.IsDigit(suffix[0])
    ensures Read2(prefix, middle, suffix, Fill2(prefix, middle, suffix, x, y)) == Some((x, y))
  {
    var dx, dy := Decimal.Render(x), Decimal.Render(y);
    var afterY := dy + suffix;
    var afterX := middle + afterY;
    assert Fill2(prefix, middle, suffix, x, y) == prefix + (dx + afterX);
    DropPrefix(prefix, dx + afterX);
    Decimal.LeadingDigitsSplit(dx, afterX);
    DropPrefix(middle, afterY);
    Decimal.LeadingDigitsSplit(dy, suffix);
    Decimal.ValueOfRender(x);
    Decimal.ValueOfRender(y);
  }

  /** The text of the challenge-length rejection, naming the expected length
      first and the actual length second: both can be read back from it. */
  function SizeMismatch(expected: nat, actual: nat): (message: string)
    ensures SizePrefix <= message
    ensures message[|message| - |SizeSuffix|..] == SizeSuffix
    ensures ParseSizeMismatch(message) == Some((expected, actual))
  {
    assert SizeMiddle[0] == ',' && SizeSuffix[0] == ',';
    Read2OfFill2(SizePrefix, SizeMiddle, SizeSuffix, expected, actual);
    Fill2(SizePrefix, SizeMiddle, SizeSuffix, expected, actual)
  }

  /** Reads the two lengths back out of a challenge-length rejection, or
      `None` for any other text. */
  function ParseSizeMismatch(message: string): Option<(nat, nat)> {
    Read2(SizePrefix, SizeMiddle, SizeSuffix, message)
  }

  /** Different length pairs give different rejection texts. */
  lemma SizeMismatchInjective(e1: nat, a1: nat, e2: nat, a2: nat)
    requires SizeMismatch(e1, a1) == SizeMismatch(e2, a2)
    ensures e1 == e2 && a1 == a2
  {
  }

  /** The two fixed failure texts are not length rejections, so the three
      kinds of failure the step reports itself are told apart by their text. */
  lemma FixedMessagesAreNotSizeMismatches()
    ensures ParseSizeMismatch(KeyGenerationFailed) == None
    ensures ParseSizeMismatch(ComputationFailed) == None
    ensures KeyGenerationFailed != ComputationFailed
  {
    assert KeyGenerationFailed[0] != SizePrefix[0];
    assert ComputationFailed[0] != SizePrefix[0];
  }
}
