/** Bytes and hash digests. */
module Bytes {

  /** One `u8`. */
  type byte = x: int | 0 <= x < 256

  /** A hash digest. The hash used by the ceremony produces a fixed-size,
      non-empty digest; the model only relies on it being non-empty, which is
      what makes `i % |digest|` in the response pre-fill well defined. */
  type Digest = s: seq<byte> | |s| > 0 witness [0]
}
