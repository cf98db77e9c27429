/** Random integers in a range from uniform 64-bit draws, by rejecting the first few values. */
module RejectionSampling {
  import opened Arith
  import opened Basics

  /** A word read as a signed number. */
  function Signed(w: nat): int {
    if w < 0x8000_0000_0000_0000 then w else w - WORDS
  }

  function Threshold(range: nat): nat
    requires 0 < range < WORDS
  {
    Wrap(0 - range) % range
  }

  /** The accepted words are a whole number of ranges. */
  lemma AcceptedIsWhole(range: nat)
    requires 0 < range < WORDS
    ensures Threshold(range) < range && WORDS - Threshold(range) == ((WORDS - Threshold(range)) / range) * range
    ensures (WORDS - Threshold(range)) / range >= 1
  {
    var x := WORDS - range;
    DivUnique(0 - range, -1, x, WORDS);
    var t := x % range;
    assert x == (x / range) * range + t;
    assert (x / range + 1) * range == (x / range) * range + range;
    DivUnique(WORDS - t, x / range + 1, 0, range);
  }

  // ----- counting the draws that give a value -----

  ghost function Draws(lo: nat, hi: nat, range: nat, v: nat): set<nat>
    requires 0 < range
  {
    set d | lo <= d < hi && d % range == v
  }

  lemma SmallMultiple(k: int, m: nat)
    requires 0 < m && 0 - m < k * m < m
    ensures k == 0
  {
    if k >= 1 {
      MulMono(1, k, m);
    }
    if k <= -1 {
      MulMono(k, -1, m);
    }
  }

  lemma SameRemainder(a: nat, b: nat, range: nat)
    requires 0 < range && a % range == b % range && a < b + range && b < a + range
    ensures a == b
  {
    var k := a / range - b / range;
    assert a - b == k * range by {
      assert a == (a / range) * range + a % range && b == (b / range) * range + b % range;
    }
    SmallMultiple(k, range);
  }

  /** One range of consecutive words hits every remainder once. */
  lemma EachRangeOnce(lo: nat, range: nat, v: nat)
    requires v < range
    ensures |Draws(lo, lo + range, range, v)| == 1
  {
    var q, r := lo / range, lo % range;
    var d: nat := if r <= v then lo + (v - r) else lo + range + v - r;
    assert (q + 1) * range == q * range + range;
    DivUnique(d, if r <= v then q else q + 1, v, range);
    var hits := Draws(lo, lo + range, range, v);
    forall e | e in hits ensures e == d {
      SameRemainder(e, d, range);
    }
    assert hits == {d};
  }

  lemma {:induction false} RangesCount(lo: nat, k: nat, range: nat, v: nat)
    requires v < range
    ensures |Draws(lo, lo + k * range, range, v)| == k
  {
    if k == 0 {
      assert Draws(lo, lo, range, v) == {};
    } else {
      var mid := lo + (k - 1) * range;
      assert k * range == (k - 1) * range + range;
      MulMono(0, k - 1, range);
      RangesCount(lo, k - 1, range, v);
      EachRangeOnce(mid, range, v);
      var a, b := Draws(lo, mid, range, v), Draws(mid, mid + range, range, v);
      assert Draws(lo, lo + k * range, range, v) == a + b && a !! b;
    }
  }

  /** What a draw becomes: the remainder counted up from the least value, in wrapping words. */
  function Chosen(min: int, range: nat, draw: nat): int
    requires 0 < range
  {
    Signed(Wrap(draw % range + Wrap(min)))
  }

  lemma ChosenIs(min: int, max: int, draw: nat)
    requires -0x8000_0000_0000_0000 <= min <= max < 0x8000_0000_0000_0000
    ensures var range := max - min + 1;
              Chosen(min, range, draw) == min + draw % range && min <= Chosen(min, range, draw) <= max
  {
    var range := max - min + 1;
    var v := min + draw % range;
    var q := if min < 0 then -1 else 0;
    DivUnique(min, q, min - q * WORDS, WORDS);
    if v < 0 {
      DivUnique(draw % range + Wrap(min), 0, v + WORDS, WORDS);
    } else {
      DivUnique(draw % range + Wrap(min), -q, v, WORDS);
    }
  }

  /** Every value from `min` to `max` is chosen by the same number of accepted draws. */
  lemma Uniform(min: int, max: int, v: int)
    requires -0x8000_0000_0000_0000 <= min <= v <= max < 0x8000_0000_0000_0000 && max - min + 1 < WORDS
    ensures var range := max - min + 1;
            |(set d: nat | Threshold(range) <= d < WORDS && Chosen(min, range, d) == v)| ==
            (WORDS - Threshold(range)) / range
  {
    var range := max - min + 1;
    var t := Threshold(range);
    AcceptedIsWhole(range);
    RangesCount(t, (WORDS - t) / range, range, v - min);
    var chosen := set d: nat | t <= d < WORDS && Chosen(min, range, d) == v;
    forall d: nat ensures Chosen(min, range, d) == v <==> d % range == v - min {
      ChosenIs(min, max, d);
    }
    assert chosen == Draws(t, WORDS, range, v - min);
  }

  // ----- the loop -----

  datatype Outcome = CrossedBounds | NoEntropy | Number(n: int)

  lemma RangeIs(min: int, max: int)
    requires 0 <= max - min < WORDS
    ensures Wrap(max - min) == max - min
  {
    DivUnique(max - min, 0, max - min, WORDS);
  }

  ghost predicate FirstAccepted(words: seq<nat>, i: int, range: nat)
    requires 0 < range < WORDS
  {
    0 <= i < |words| && words[i] >= Threshold(range) && forall j :: 0 <= j < i ==> words[j] < Threshold(range)
  }

  /** tya_secure_random_int on the 64-bit words the entropy source delivers, until it fails. */
  method RandomInt(min: int, max: int, words: seq<nat>) returns (r: Outcome)
    requires -0x8000_0000_0000_0000 <= min < 0x8000_0000_0000_0000 &&
             -0x8000_0000_0000_0000 <= max < 0x8000_0000_0000_0000
    requires max - min < 0x8000_0000_0000_0000
    requires forall i :: 0 <= i < |words| ==> words[i] < WORDS
    ensures r.CrossedBounds? <==> max < min
    ensures r.NoEntropy? ==> forall i :: 0 <= i < |words| ==> words[i] < Threshold(max - min + 1)
    ensures r.Number? ==> min <= r.n <= max && exists i ::
              FirstAccepted(words, i, max - min + 1) && r.n == Chosen(min, max - min + 1, words[i])
  {
    if max < min {
      return CrossedBounds;
    }
    RangeIs(min, max);
    var range := Wrap(max - min) + 1;
    var threshold := Threshold(range);
    var i := 0;
    while i < |words|
      invariant 0 <= i <= |words| && forall j :: 0 <= j < i ==> words[j] < threshold
    {
      if words[i] >= threshold {
        ChosenIs(min, max, words[i]);
        assert FirstAccepted(words, i, range);
        return Number(Chosen(min, range, words[i]));
      }
      i := i + 1;
    }
    return NoEntropy;
  }
}
