/**
 * `Math.floor(Math.random() * n)`, the random pick both the server and the
 * extension use, with the draw of `Math.random()` passed in as `rand`.
 */
module Draw {

  /** The index drawn for `rand` in `[0, 1)` among `n` elements. */
  function DrawIndex(rand: real, n: nat): (i: nat)
    requires 0.0 <= rand < 1.0 && n > 0
    ensures i < n
    ensures (i as real) <= rand * (n as real) < (i as real) + 1.0
  {
    var x := rand * (n as real);
    assert 0.0 <= x < n as real;
    x.Floor
  }

  /** Every index can be drawn: `i / n` draws `i`. */
  lemma DrawCoversEveryIndex(i: nat, n: nat)
    requires i < n
    ensures 0.0 <= (i as real) / (n as real) < 1.0
    ensures DrawIndex((i as real) / (n as real), n) == i
  {
    var rand := (i as real) / (n as real);
    assert rand * (n as real) == i as real;
  }
}
