/**
 Length normalisation in the BM25 formula, with the facts about quotients that its laws rest on.
 */
module Bm25Formula {

  /** Saturation and length-normalisation parameters. */
  datatype Weights = Weights(k1: real, b: real)

  /** How long a document is, relative to the mean length; the weight b says how much of it counts. */
  function LengthNorm(w: Weights, length: real, mean: real): real
    requires mean != 0.0
  {
    1.0 - w.b + Share(w.b, length, mean)
  }

  function Share(b: real, length: real, mean: real): real
    requires mean != 0.0
  {
    b * length / mean
  }

  lemma QuotientPositive(x: real, y: real)
    requires x > 0.0 && y > 0.0
    ensures x / y > 0.0
  {
  }

  lemma QuotientsOrdered(p: real, q: real, r: real, s: real)
    requires q > 0.0 && s > 0.0 && p * s > r * q
    ensures p / q > r / s
  {
    var u, v := p / q, r / s;
    assert u * q == p && v * s == r;
    assert v * q * s == v * s * q;
    if u <= v {
      ProductMonotone(u, v, q);
      ProductMonotone(u * q, v * q, s);
    }
  }

  lemma ProductMonotone(u: real, v: real, q: real)
    requires u <= v && q > 0.0
    ensures u * q <= v * q
  {
    assert (v - u) * q >= 0.0;
  }

  lemma ProductStrict(u: real, v: real, q: real)
    requires u < v && q > 0.0
    ensures u * q < v * q && q * u < q * v
  {
    assert (v - u) * q > 0.0;
  }

  /** With the usual weights the norm is positive, one at mean length, and grows with the length. */
  lemma NormGrows(w: Weights, short: real, long: real, mean: real)
    requires 0.0 <= w.b <= 1.0 && 0.0 < short && mean > 0.0
    ensures LengthNorm(w, short, mean) > 0.0
    ensures short == mean ==> LengthNorm(w, short, mean) == 1.0
    ensures w.b > 0.0 && short < long ==> LengthNorm(w, short, mean) < LengthNorm(w, long, mean)
  {
    hide Share;
    ShareOfMean(w.b, short, mean);
    if w.b > 0.0 && short < long {
      LongerShare(w.b, short, long, mean);
    }
  }

  lemma ShareOfMean(b: real, length: real, mean: real)
    requires 0.0 <= b && length > 0.0 && mean > 0.0
    ensures if b > 0.0 then Share(b, length, mean) > 0.0 else Share(b, length, mean) == 0.0
    ensures length == mean ==> Share(b, length, mean) == b
  {
    if b > 0.0 {
      ProductStrict(0.0, length, b);
      QuotientPositive(b * length, mean);
    }
  }

  lemma LongerShare(b: real, short: real, long: real, mean: real)
    requires b > 0.0 && short < long && mean > 0.0
    ensures Share(b, short, mean) < Share(b, long, mean)
  {
    ProductStrict(short, long, b);
    ProductStrict(b * short, b * long, mean);
    QuotientsOrdered(b * long, mean, b * short, mean);
  }

  lemma LargerDivisor(c: real, low: real, high: real)
    requires c > 0.0 && 0.0 < low < high
    ensures 0.0 < c / high < c / low
  {
    ProductStrict(low, high, c);
    QuotientsOrdered(c, low, c, high);
    QuotientPositive(c, high);
  }

  lemma ShareOf(x: real, K: real, c: real)
    requires x + K > 0.0
    ensures (x * c) / (x + K) == (1.0 - K / (x + K)) * c
  {
    var q := K / (x + K);
    assert q * (x + K) == K;
    assert (1.0 - q) * c * (x + K) == x * c;
    assert ((1.0 - q) * c * (x + K)) / (x + K) == (1.0 - q) * c;
  }
}
