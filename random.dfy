/** numpy's global random generator, as an explicit source of draws. The
    generator's distribution is not modelled: the k-th call receives the raw
    value `source(k)` and maps it into the requested interval. */
module Random {

  /** `np.random.randint(low, high)` on integral bounds, given the raw draw:
      a value of the half-open interval [low, high), the raw draw reduced
      modulo the width of the interval. Every value of the interval is the
      image of some raw draw. */
  function Pick(raw: nat, low: int, high: int): (v: int)
    requires low < high
    ensures low <= v < high
    ensures raw < high - low ==> v == low + raw
    decreases raw
  {
    if raw < high - low then low + raw else Pick(raw - (high - low), low, high)
  }

  /** A positive multiple of m is at least m. */
  lemma {:induction false} MulAtLeast(m: int, d: int)
    requires m > 0 && d >= 1
    ensures m * d >= m
    decreases d
  {
    if d > 1 {
      MulAtLeast(m, d - 1);
      assert m * d == m * (d - 1) + m;
    }
  }

  /** A remainder in [0, m) is the one of Euclidean division. */
  lemma RemainderUnique(a: int, m: int, q: int, r: int)
    requires m > 0 && a == m * q + r && 0 <= r < m
    ensures a % m == r
  {
    var q0, r0 := a / m, a % m;
    assert m * q0 + r0 == m * q + r;
    assert m * (q - q0) == r0 - r;
    if q - q0 >= 1 {
      MulAtLeast(m, q - q0);
    } else if q0 - q >= 1 {
      MulAtLeast(m, q0 - q);
    }
  }

  /** Taking one modulus off leaves the remainder unchanged. */
  lemma ModSub(a: int, m: int)
    requires m > 0
    ensures (a - m) % m == a % m
  {
    var q, r := a / m, a % m;
    assert a - m == m * (q - 1) + r;
    RemainderUnique(a - m, m, q - 1, r);
  }

  /** Pick is `low + raw % (high - low)`: the raw draw modulo the width. */
  lemma {:induction false} PickIsRemainder(raw: nat, low: int, high: int)
    requires low < high
    ensures Pick(raw, low, high) == low + raw % (high - low)
    decreases raw
  {
    var m := high - low;
    if raw >= m {
      PickIsRemainder(raw - m, low, high);
      ModSub(raw, m);
    }
  }

  class Rng {
    /** The raw draw handed out by the k-th call. */
    const source: nat -> nat
    /** How many draws have been taken so far. */
    var drawn: nat

    constructor (source: nat -> nat)
      ensures this.source == source && drawn == 0
    {
      this.source := source;
      drawn := 0;
    }

    /** `np.random.randint(low, high)`; numpy raises when low >= high, which
        no caller in the generator lets happen. */
    method RandInt(low: int, high: int) returns (v: int)
      requires low < high
      modifies this
      ensures v == Pick(source(old(drawn)), low, high)
      ensures low <= v < high
      ensures drawn == old(drawn) + 1
    {
      v := Pick(source(drawn), low, high);
      drawn := drawn + 1;
    }
  }
}
