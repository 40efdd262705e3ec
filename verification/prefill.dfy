/** The response buffer's pre-fill: before the transformation runs, the
    buffer gets its final length by repeating the challenge's digest. */
module Prefill {
  import opened Bytes

  /** The first `n` bytes of the digest repeated without end. Built one byte
      at a time, as the source pushes onto an empty vector. */
  function CyclicFill(h: Digest, n: nat): (r: seq<byte>)
    ensures |r| == n
    ensures forall i :: 0 <= i < n ==> r[i] == h[i % |h|]
    decreases n
  {
    if n == 0 then [] else CyclicFill(h, n - 1) + [h[(n - 1) % |h|]]
  }

  /** The imperative pre-fill loop: push `h[i % |h|]` for every `i` below
      `n`. */
  method FillResponse(h: Digest, n: nat) returns (response: seq<byte>)
    ensures |response| == n
    ensures forall i :: 0 <= i < n ==> response[i] == h[i % |h|]
    ensures response == CyclicFill(h, n)
  {
    response := [];
    var i := 0;
    while i < n
      invariant 0 <= i <= n
      invariant response == CyclicFill(h, i)
    {
      response := response + [h[i % |h|]];
      i := i + 1;
    }
  }

  /** `k` whole copies of `h`, one after another. */
  function Repeat(h: seq<byte>, k: nat): seq<byte>
    decreases k
  {
    if k == 0 then [] else Repeat(h, k - 1) + h
  }

  /** A positive multiple of `m` is at least `m`. */
  lemma {:induction false} MultipleAtLeast(a: int, m: int)
    requires a >= 1 && m > 0
    ensures a * m >= m
    decreases a
  {
    if a > 1 {
      MultipleAtLeast(a - 1, m);
      assert a * m == (a - 1) * m + m;
    }
  }

  /** A quotient-remainder pair is unique. */
  lemma DivMod(x: int, m: int, q: int, r: int)
    requires m > 0 && 0 <= r < m && x == q * m + r
    ensures x % m == r
  {
    var q', r' := x / m, x % m;
    assert x == q' * m + r';
    assert (q' - q) * m == r - r' by {
      assert (q' - q) * m == q' * m - q * m;
    }
    if q' > q {
      MultipleAtLeast(q' - q, m);
    } else if q' < q {
      MultipleAtLeast(q - q', m);
    }
  }

  /** The pre-fill is whole copies of the digest followed by a prefix of it. */
  lemma {:induction false} CyclicFillIsRepeat(h: Digest, k: nat, j: nat)
    requires j <= |h|
    ensures CyclicFill(h, k * |h| + j) == Repeat(h, k) + h[..j]
    decreases k, j
  {
    if j == 0 {
      if k > 0 {
        CyclicFillIsRepeat(h, k - 1, |h|);
        assert (k - 1) * |h| + |h| == k * |h|;
        assert h[..|h|] == h;
      }
    } else {
      CyclicFillIsRepeat(h, k, j - 1);
      DivMod(k * |h| + j - 1, |h|, k, j - 1);
      assert h[..j] == h[..j - 1] + [h[j - 1]];
    }
  }

  /** Filling to `n` and then cutting to `m` is the same as filling to `m`:
      the pre-fill of a shorter buffer is a prefix of a longer one. */
  lemma CyclicFillPrefix(h: Digest, m: nat, n: nat)
    requires m <= n
    ensures CyclicFill(h, n)[..m] == CyclicFill(h, m)
  {
  }
}
