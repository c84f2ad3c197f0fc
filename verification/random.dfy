/** Explicit randomness. Every `Math.random()` call of the program becomes a
    `Draw` read from an oracle stream `rand: nat -> Draw`; the caller supplies
    the stream and the index of the next unread draw. Nothing is assumed
    about the distribution of the draws. */
module Random {

  /** A value `Math.random()` may return: a real in [0, 1). */
  type Draw = u: real | 0.0 <= u < 1.0

  /** `Math.floor(u * n)`: the uniform index into a collection of size `n`. */
  function Scale(u: Draw, n: nat): (k: nat)
    requires n > 0
    ensures k < n
  {
    var x := u * n as real;
    assert 0.0 <= x < n as real by {
      assert (1.0 - u) * n as real > 0.0;
    }
    x.Floor
  }
}
