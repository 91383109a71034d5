// The arithmetic behind the online adjustment, on unbounded integers.
// N and K are the two coefficients scaled by 2^32; a perfect pair has K * N == 2^64.

module RoundTripArithmetic {
  import opened Word
  import opened FixedPoint

  /** How far the two coefficients are from being inverse to each other. */
  function Skew(N: nat, K: nat): int { K * N - 0x1_0000_0000_0000_0000 }

  /** A time in nanoseconds taken to ticks and back. */
  function RoundTrip(y: nat, N: nat, K: nat): nat { Scale(Scale(y, K), N) }

  lemma ProductAbs(a: int, b: int, x: nat, y: nat)
    requires Abs(a) <= x && Abs(b) <= y
    ensures Abs(a * b) <= x * y
  {
    MulMono(Abs(a), Abs(b), x, y);
    if a >= 0 && b >= 0 {
      assert a * b == Abs(a) * Abs(b);
    } else if a >= 0 {
      assert a * b == -(Abs(a) * Abs(b));
    } else if b >= 0 {
      assert a * b == -(Abs(a) * Abs(b));
    } else {
      assert a * b == Abs(a) * Abs(b);
    }
  }

  /** The rounding of Scale made explicit. */
  lemma Rest(x: nat, factor: nat) returns (rest: u32)
    ensures x * factor == Scale(x, factor) * 0x1_0000_0000 + rest
  {
    ScaleBounds(x, factor);
    rest := x * factor - Scale(x, factor) * 0x1_0000_0000;
  }

  /** Exact value of a converted time, in terms of the rounding rests. */
  lemma DriftIdentity(N: nat, K: nat, y: nat, s: nat, t: nat, last: int, ns: int, a: int, b: int, d: int)
    requires y * K == s * 0x1_0000_0000 + a
    requires s * N == last * 0x1_0000_0000 + d
    requires t * N == ns * 0x1_0000_0000 + b
    ensures (y + (ns - last)) * K * N
         == t * N * 0x1_0000_0000 + a * N + (d - b) * 0x1_0000_0000 + (ns - last) * Skew(N, K)
  {
    var D := ns - last;
    var P := K * N;
    calc {
      (y + D) * K * N;
      { assert (y + D) * K == y * K + D * K; }
      (y * K + D * K) * N;
      y * K * N + D * K * N;
      { assert D * K * N == D * P; }
      (s * 0x1_0000_0000 + a) * N + D * P;
      { assert (s * 0x1_0000_0000 + a) * N == s * N * 0x1_0000_0000 + a * N; }
      s * N * 0x1_0000_0000 + a * N + D * P;
      { assert D * P == D * Skew(N, K) + D * 0x1_0000_0000_0000_0000; }
      s * N * 0x1_0000_0000 + a * N + D * 0x1_0000_0000_0000_0000 + D * Skew(N, K);
    }
  }

  /**
   * Converting ns with the offset measured at y is off by at most c ticks, when
   * c bounds the drift the skew can build up over the cached interval.
   */
  lemma OffsetConversion(N: nat, K: nat, y: nat, t: nat, interval: nat, c: nat)
    requires N > 0 && c > 0
    requires interval * Abs(Skew(N, K)) + 0x1_0000_0000_0000_0000 <= c * 0x1_0000_0000 * N
    requires Abs(Scale(t, N) - RoundTrip(y, N, K)) <= interval
    ensures (t - c) * 0x1_0000_0000 < (y + (Scale(t, N) - RoundTrip(y, N, K))) * K < (t + c + 1) * 0x1_0000_0000
  {
    var s, last, ns := Scale(y, K), RoundTrip(y, N, K), Scale(t, N);
    var a := Rest(y, K);
    var d := Rest(s, N);
    var b := Rest(t, N);
    OffsetConversionAt(N, K, y, s, t, last, ns, a, b, d, interval, c);
  }

  lemma OffsetConversionAt(N: nat, K: nat, y: nat, s: nat, t: nat, last: int, ns: int, a: u32, b: u32, d: u32,
                           interval: nat, c: nat)
    requires N > 0 && c > 0
    requires interval * Abs(Skew(N, K)) + 0x1_0000_0000_0000_0000 <= c * 0x1_0000_0000 * N
    requires y * K == s * 0x1_0000_0000 + a
    requires s * N == last * 0x1_0000_0000 + d
    requires t * N == ns * 0x1_0000_0000 + b
    requires Abs(ns - last) <= interval
    ensures (t - c) * 0x1_0000_0000 < (y + (ns - last)) * K < (t + c + 1) * 0x1_0000_0000
  {
    var drift := (ns - last) * Skew(N, K);
    var z := (y + (ns - last)) * K;
    var aN := a * N;
    assert z * N == t * N * 0x1_0000_0000 + aN + (d - b) * 0x1_0000_0000 + drift
      by { DriftIdentity(N, K, y, s, t, last, ns, a, b, d); }
    assert Abs(drift) <= interval * Abs(Skew(N, K))
      by { ProductAbs(ns - last, Skew(N, K), interval, Abs(Skew(N, K))); }
    assert aN <= 0xffff_ffff * N by { MulMono(a, N, 0xffff_ffff, N); }
    DriftBounds(z, N, t, c, aN, d - b, drift);
  }

  lemma DriftBounds(z: int, N: nat, t: nat, c: nat, aN: nat, r: int, drift: int)
    requires N > 0
    requires z * N == t * N * 0x1_0000_0000 + aN + r * 0x1_0000_0000 + drift
    requires aN <= 0xffff_ffff * N && Abs(r) < 0x1_0000_0000
    requires Abs(drift) + 0x1_0000_0000_0000_0000 <= c * 0x1_0000_0000 * N
    ensures (t - c) * 0x1_0000_0000 < z < (t + c + 1) * 0x1_0000_0000
  {
    var tN, cN := t * N, c * N;
    assert t * N * 0x1_0000_0000 == tN * 0x1_0000_0000;
    assert c * 0x1_0000_0000 * N == cN * 0x1_0000_0000;
    assert (t - c) * 0x1_0000_0000 * N == (tN - cN) * 0x1_0000_0000;
    assert (t + c + 1) * 0x1_0000_0000 * N == (tN + cN + N) * 0x1_0000_0000;
    CancelLess((t - c) * 0x1_0000_0000, z, N);
    CancelLess(z, (t + c + 1) * 0x1_0000_0000, N);
  }

  /** A round trip is off by the skew, plus the rounding of the two conversions. */
  lemma RoundTripError(N: nat, K: nat, y: nat)
    ensures -(y * Skew(N, K)) <= (y - RoundTrip(y, N, K)) * 0x1_0000_0000_0000_0000
    ensures (y - RoundTrip(y, N, K)) * 0x1_0000_0000_0000_0000
          < -(y * Skew(N, K)) + 0x1_0000_0000 * N + 0x1_0000_0000_0000_0000
  {
    var s, last := Scale(y, K), RoundTrip(y, N, K);
    var a := Rest(y, K);
    var d := Rest(s, N);
    RoundTripIdentity(N, K, y, s, last, a, d);
    assert 0 <= a * N <= 0xffff_ffff * N by { MulMono(a, N, 0xffff_ffff, N); }
  }

  lemma RoundTripIdentity(N: nat, K: nat, y: nat, s: nat, last: int, a: int, d: int)
    requires y * K == s * 0x1_0000_0000 + a
    requires s * N == last * 0x1_0000_0000 + d
    ensures (y - last) * 0x1_0000_0000_0000_0000 == -(y * Skew(N, K)) + a * N + d * 0x1_0000_0000
  {
    var P := K * N;
    assert y * P == y * K * N;
    assert (s * 0x1_0000_0000 + a) * N == s * N * 0x1_0000_0000 + a * N;
    assert y * P == y * Skew(N, K) + y * 0x1_0000_0000_0000_0000;
  }

  /**
   * One more pass of the loop is a contraction: the distance d of the adjustment
   * point from the target becomes at most |1 - N K / 2^64| |d| + N / 2^32 + 1.
   */
  lemma Contraction(N: nat, K: nat, uns: nat, y: nat, y': nat)
    requires y' == uns + y - RoundTrip(y, N, K)
    ensures Abs(uns - RoundTrip(y', N, K)) * 0x1_0000_0000_0000_0000
         <= Abs(uns - RoundTrip(y, N, K)) * Abs(Skew(N, K)) + 0x1_0000_0000 * N + 0x1_0000_0000_0000_0000
  {
    var s, last := Scale(y, K), RoundTrip(y, N, K);
    var s', last' := Scale(y', K), RoundTrip(y', N, K);
    var a := Rest(y, K);
    var d := Rest(s, N);
    var a' := Rest(y', K);
    var d' := Rest(s', N);
    RoundTripIdentity(N, K, y, s, last, a, d);
    RoundTripIdentity(N, K, y', s', last', a', d');
    ContractionAt(N, K, uns, y, y', s, s', last, last', a, a', d, d');
  }

  lemma ContractionAt(N: nat, K: nat, uns: nat, y: nat, y': nat, s: nat, s': nat, last: int, last': int,
                      a: u32, a': u32, d: u32, d': u32)
    requires y * K == s * 0x1_0000_0000 + a && s * N == last * 0x1_0000_0000 + d
    requires y' * K == s' * 0x1_0000_0000 + a' && s' * N == last' * 0x1_0000_0000 + d'
    requires y' == uns + y - last
    ensures Abs(uns - last') * 0x1_0000_0000_0000_0000
         <= Abs(uns - last) * Abs(Skew(N, K)) + 0x1_0000_0000 * N + 0x1_0000_0000_0000_0000
  {
    var D, S := uns - last, Skew(N, K);
    RoundTripIdentity(N, K, y, s, last, a, d);
    RoundTripIdentity(N, K, y', s', last', a', d');
    var p, p', q, m := Times(y, S), Times(y', S), Times(D, S), Times(Abs(D), Abs(S));
    var aN, aN' := Times(a, N), Times(a', N);
    Difference(y, y', D, S);
    ProductAbs(D, S, Abs(D), Abs(S));
    RestTimes(a, N);
    RestTimes(a', N);
    ContractionBound(uns, y, y', last, last', p, p', q, m, N, aN, aN', d, d');
  }

  function Times(x: int, y: int): int { x * y }

  lemma Difference(y: int, y': int, D: int, S: int)
    requires y' - y == D
    ensures Times(y', S) - Times(y, S) == Times(D, S)
  {
    assert y' == y + D;
  }

  lemma RestTimes(a: u32, N: nat)
    ensures 0 <= Times(a, N) <= 0xffff_ffff * N
  {
    MulMono(a, N, 0xffff_ffff, N);
  }

  lemma ContractionBound(uns: int, y: int, y': int, last: int, last': int, p: int, p': int, q: int, m: int,
                         N: nat, aN: int, aN': int, d: u32, d': u32)
    requires (y - last) * 0x1_0000_0000_0000_0000 == -p + aN + d * 0x1_0000_0000
    requires (y' - last') * 0x1_0000_0000_0000_0000 == -p' + aN' + d' * 0x1_0000_0000
    requires y' == uns + y - last && p' - p == q && Abs(q) <= m
    requires 0 <= aN <= 0xffff_ffff * N && 0 <= aN' <= 0xffff_ffff * N
    ensures Abs(uns - last') * 0x1_0000_0000_0000_0000 <= m + 0x1_0000_0000 * N + 0x1_0000_0000_0000_0000
  {
  }
}
