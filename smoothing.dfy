/**
 * The per-beacon RSSI smoother of `processDevice` (hooks/use-ble-scanner.ts):
 * a bounded window of the most recent raw samples, whose mean seeds an
 * exponential moving average (EMA) the first time a beacon is heard; after
 * that the EMA alone tracks the signal. Arithmetic is over `real`; the
 * source's floating-point rounding is not modelled.
 */
module Smoothing {
  import opened Wrappers

  function Min(a: int, b: int): int {
    if a <= b then a else b
  }

  /** JavaScript's `s.slice(-k)`, for any integer `k`. */
  function SliceFromEnd(s: seq<int>, k: int): (r: seq<int>)
    ensures |r| <= |s| && r == s[|s| - |r|..]
    ensures k >= 1 ==> |r| == Min(|s|, k)
    ensures k == 0 ==> r == s
  {
    if k > 0 then
      if |s| <= k then s else s[|s| - k..]
    else if -k >= |s| then []
    else s[-k..]
  }

  /**
   * `[...history, raw].slice(-k)`: the window after one new sample. For a
   * positive window size it holds the last `min(|history| + 1, k)` samples and
   * ends with the new one.
   */
  function NextWindow(history: seq<int>, raw: int, k: int): (w: seq<int>)
    ensures |w| <= |history| + 1 && w == (history + [raw])[|history| + 1 - |w|..]
    ensures k >= 1 ==> |w| == Min(|history| + 1, k) && w[|w| - 1] == raw
  {
    SliceFromEnd(history + [raw], k)
  }

  function Sum(s: seq<int>): int {
    if s == [] then 0 else Sum(s[..|s| - 1]) + s[|s| - 1]
  }

  /** `s.reduce((a, v) => a + v, 0) / Math.max(1, s.length)`. */
  function Mean(s: seq<int>): (r: real)
    ensures s == [] ==> r == 0.0
    ensures s != [] ==> r * |s| as real == Sum(s) as real
  {
    Sum(s) as real / (if |s| == 0 then 1 else |s|) as real
  }

  lemma {:induction false} SumBetween(s: seq<int>, lo: int, hi: int)
    requires forall i :: 0 <= i < |s| ==> lo <= s[i] <= hi
    ensures |s| * lo <= Sum(s) <= |s| * hi
  {
    if s != [] {
      SumBetween(s[..|s| - 1], lo, hi);
      assert |s| * lo == (|s| - 1) * lo + lo && |s| * hi == (|s| - 1) * hi + hi;
    }
  }

  /** A quotient by a positive `n` keeps the bounds that `n` times them gives. */
  lemma QuotientBetween(x: real, n: real, lo: real, hi: real)
    requires n > 0.0 && n * lo <= x <= n * hi
    ensures lo <= x / n <= hi
  {
    var q := x / n;
    assert q * n == x;
    assert n * (q - lo) >= 0.0;
    assert n * (hi - q) >= 0.0;
  }

  /** The mean of a non-empty window lies within the range of its samples. */
  lemma MeanBetween(s: seq<int>, lo: int, hi: int)
    requires s != []
    requires forall i :: 0 <= i < |s| ==> lo <= s[i] <= hi
    ensures lo as real <= Mean(s) <= hi as real
  {
    SumBetween(s, lo, hi);
    QuotientBetween(Sum(s) as real, |s| as real, lo as real, hi as real);
  }

  /**
   * The next EMA: the window mean when the beacon has no EMA yet, otherwise
   * `alpha * raw + (1 - alpha) * previous`.
   */
  function NextEma(previous: Option<real>, window: seq<int>, raw: int, alpha: real): (e: real)
    ensures previous.None? ==> e == Mean(window)
    ensures previous.Some? ==> e - previous.value == alpha * (raw as real - previous.value)
  {
    match previous
    case None => Mean(window)
    case Some(p) => alpha * raw as real + (1.0 - alpha) * p
  }

  /** With `0 <= alpha <= 1` an update lands between the sample and the previous EMA. */
  lemma EmaBetween(p: real, window: seq<int>, raw: int, alpha: real)
    requires 0.0 <= alpha <= 1.0
    ensures var e := NextEma(Some(p), window, raw, alpha);
      (raw as real <= e <= p) || (p <= e <= raw as real)
  {
    var e := NextEma(Some(p), window, raw, alpha);
    var d, beta := raw as real - p, 1.0 - alpha;
    assert e - p == alpha * d;
    assert raw as real - e == beta * d;
    SignOfProduct(alpha, d);
    SignOfProduct(beta, d);
  }

  lemma SignOfProduct(a: real, d: real)
    requires a >= 0.0
    ensures d <= 0.0 ==> a * d <= 0.0
    ensures d >= 0.0 ==> a * d >= 0.0
  {
  }

  /** `Math.round`: the nearest integer, halves rounded towards +infinity. */
  function JsRound(x: real): (r: int)
    ensures r as real - 0.5 <= x < r as real + 0.5
  {
    (x + 0.5).Floor
  }

  /**
   * The first sample of a beacon comes out unchanged: its window is the
   * sample alone, whose mean seeds the EMA.
   */
  lemma FirstSampleExact(raw: int, k: int, alpha: real)
    requires k >= 0
    ensures NextWindow([], raw, k) == [raw]
    ensures NextEma(None, [raw], raw, alpha) == raw as real
    ensures JsRound(NextEma(None, NextWindow([], raw, k), raw, alpha)) == raw
  {
    assert [] + [raw] == [raw];
    assert [raw][..0] == [];
    assert Sum([raw]) == raw;
    assert Mean([raw]) == raw as real / 1 as real == raw as real;
    RoundOfInteger(raw);
  }

  /** Rounding a whole number changes nothing. */
  lemma RoundOfInteger(n: int)
    ensures JsRound(n as real) == n
  {
  }

  /** With `alpha = 1` the EMA follows the raw sample exactly. */
  lemma AlphaOneExact(p: real, window: seq<int>, raw: int)
    ensures NextEma(Some(p), window, raw, 1.0) == raw as real
    ensures JsRound(NextEma(Some(p), window, raw, 1.0)) == raw
  {
  }
}
