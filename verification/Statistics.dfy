/** Sums over signed samples, and what they say about two's-complement registers. */
module Statistics {
  import opened Bits
  import opened Capture

  function Sum(vs: seq<int>): int {
    if vs == [] then 0 else Sum(vs[..|vs| - 1]) + vs[|vs| - 1]
  }

  function SumSq(vs: seq<int>): int {
    if vs == [] then 0 else SumSq(vs[..|vs| - 1]) + vs[|vs| - 1] * vs[|vs| - 1]
  }

  /** Least value, from the initial content of ch_min. */
  function Low(vs: seq<int>): int {
    if vs == [] then Signed20(MIN_INIT)
    else if vs[|vs| - 1] < Low(vs[..|vs| - 1]) then vs[|vs| - 1] else Low(vs[..|vs| - 1])
  }

  function High(vs: seq<int>): int {
    if vs == [] then Signed20(MAX_INIT)
    else if vs[|vs| - 1] > High(vs[..|vs| - 1]) then vs[|vs| - 1] else High(vs[..|vs| - 1])
  }

  ghost predicate Samples18(vs: seq<int>) {
    forall j :: 0 <= j < |vs| ==> -0x2_0000 <= vs[j] < 0x2_0000
  }

  /** The values channel `n` contributes to a list of samples. */
  function Vals(ss: seq<Sample>, n: nat): (vs: seq<int>)
    requires n < NUM_CH
    ensures |vs| <= |ss|
  {
    ValsTo(ss, |ss|, n)
  }

  /** Those of the first `m` samples. */
  function ValsTo(ss: seq<Sample>, m: nat, n: nat): (vs: seq<int>)
    requires m <= |ss| && n < NUM_CH
    ensures |vs| <= m
  {
    if m == 0 then []
    else ValsTo(ss, m - 1, n) + if ss[m - 1].valid[n] then [Signed18(ss[m - 1].data[n])] else []
  }

  lemma {:induction false} ValsToRange(ss: seq<Sample>, m: nat, n: nat)
    requires m <= |ss| && n < NUM_CH
    ensures Samples18(ValsTo(ss, m, n))
  {
    if m > 0 {
      ValsToRange(ss, m - 1, n);
    }
  }

  lemma {:induction false} ValsRange(ss: seq<Sample>, n: nat)
    requires n < NUM_CH
    ensures Samples18(Vals(ss, n))
  {
    ValsToRange(ss, |ss|, n);
  }

  lemma {:induction false} ValsPrefix(a: seq<Sample>, b: seq<Sample>, m: nat, n: nat)
    requires m <= |a| && n < NUM_CH
    ensures ValsTo(a + b, m, n) == ValsTo(a, m, n)
  {
    if m > 0 {
      ValsPrefix(a, b, m - 1, n);
    }
  }

  lemma {:induction false} ValsAppend(ss: seq<Sample>, s: Sample, n: nat)
    requires n < NUM_CH
    ensures Vals(ss + [s], n) == if s.valid[n] then Vals(ss, n) + [Signed18(s.data[n])] else Vals(ss, n)
  {
    ValsPrefix(ss, [s], |ss|, n);
  }

  lemma {:induction false} ValsToConcat(a: seq<Sample>, b: seq<Sample>, m: nat, n: nat)
    requires m <= |b| && n < NUM_CH
    ensures ValsTo(a + b, |a| + m, n) == Vals(a, n) + ValsTo(b, m, n)
  {
    if m == 0 {
      ValsPrefix(a, b, |a|, n);
    } else {
      ValsToConcat(a, b, m - 1, n);
    }
  }

  lemma {:induction false} ValsConcat(a: seq<Sample>, b: seq<Sample>, n: nat)
    requires n < NUM_CH
    ensures Vals(a + b, n) == Vals(a, n) + Vals(b, n)
  {
    ValsToConcat(a, b, |b|, n);
  }

  lemma {:induction false} AllValidTo(ss: seq<Sample>, m: nat, n: nat)
    requires m <= |ss| && n < NUM_CH
    requires forall j :: 0 <= j < |ss| ==> ss[j].valid[n]
    ensures |ValsTo(ss, m, n)| == m
  {
    if m > 0 {
      AllValidTo(ss, m - 1, n);
    }
  }

  lemma {:induction false} AllValid(ss: seq<Sample>, n: nat)
    requires n < NUM_CH
    requires forall j :: 0 <= j < |ss| ==> ss[j].valid[n]
    ensures |Vals(ss, n)| == |ss|
  {
    AllValidTo(ss, |ss|, n);
  }

  lemma {:induction false} SumConcat(a: seq<int>, b: seq<int>)
    ensures Sum(a + b) == Sum(a) + Sum(b) && SumSq(a + b) == SumSq(a) + SumSq(b)
  {
    if b == [] {
      assert a + b == a;
    } else {
      var m := |b| - 1;
      SumConcat(a, b[..m]);
      assert (a + b)[..|a| + m] == a + b[..m];
    }
  }

  lemma {:induction false} Append(vs: seq<int>, v: int)
    ensures Sum(vs + [v]) == Sum(vs) + v
    ensures SumSq(vs + [v]) == SumSq(vs) + v * v
    ensures Low(vs + [v]) == if v < Low(vs) then v else Low(vs)
    ensures High(vs + [v]) == if v > High(vs) then v else High(vs)
  {
    assert (vs + [v])[..|vs|] == vs;
  }

  // ---------------------------------------------------------------- bounds

  lemma {:induction false} Bounds(vs: seq<int>)
    requires Samples18(vs)
    ensures -0x2_0000 * |vs| <= Sum(vs) <= 0x2_0000 * |vs|
    ensures 0 <= SumSq(vs) <= 0x4_0000_0000 * |vs|
  {
    if vs != [] {
      Bounds(vs[..|vs| - 1]);
      SquareFits(vs[|vs| - 1]);
    }
  }

  lemma CauchyStep(c: nat, s: int, q: int, v: int)
    requires s * s <= c * q && q >= 0 && (c == 0 ==> s == 0)
    ensures (s + v) * (s + v) <= (c + 1) * (q + v * v)
  {
    assert (s + v) * (s + v) == s * s + 2 * s * v + v * v;
    assert (c + 1) * (q + v * v) == c * q + c * (v * v) + q + v * v;
    assert 2 * s * v <= c * (v * v) + q by {
      if c > 0 {
        CrossTerm(c, s, q, v);
      } else {
        assert 2 * s * v == 0;
      }
    }
  }

  lemma CrossTerm(c: nat, s: int, q: int, v: int)
    requires c > 0 && s * s <= c * q
    ensures 2 * s * v <= c * (v * v) + q
  {
    var x := c * (v * v) + q - 2 * s * v;
    var y := c * v - s;
    assert y * y >= 0;
    assert c * x == (c * v) * (c * v) + c * q - 2 * s * (c * v);
    assert y * y == (c * v) * (c * v) - 2 * s * (c * v) + s * s;
    assert c * x >= 0;
    if x < 0 {
      NegativeTimes(c, x);
    }
  }

  lemma NegativeTimes(c: nat, x: int)
    requires c > 0 && x < 0
    ensures c * x < 0
  {
  }

  /** Cauchy-Schwarz: what makes mean and variance computed from the packet meaningful. */
  lemma {:induction false} CauchySchwarz(vs: seq<int>)
    ensures Sum(vs) * Sum(vs) <= |vs| * SumSq(vs) && SumSq(vs) >= 0
  {
    if vs != [] {
      var p := vs[..|vs| - 1];
      CauchySchwarz(p);
      CauchyStep(|p|, Sum(p), SumSq(p), vs[|vs| - 1]);
      SquareNonNegative(vs[|vs| - 1]);
    }
  }

  lemma SquareNonNegative(v: int)
    ensures v * v >= 0
  {
  }

  lemma {:induction false} Extremes(vs: seq<int>)
    requires Samples18(vs)
    ensures forall j :: 0 <= j < |vs| ==> Low(vs) <= vs[j] <= High(vs)
    ensures vs != [] ==> Low(vs) in vs && High(vs) in vs
  {
    if vs != [] {
      Extremes(vs[..|vs| - 1]);
    }
  }

  // ---------------------------------------------------------------- registers

  lemma SignExtend(d: u18)
    ensures Signed20(Extend20(d)) == Signed18(d)
    ensures Extend64(Extend20(d)) == Signed18(d) % TWO64
  {
  }

  lemma Wrap64(x: int, y: int)
    ensures Add64(x % TWO64, y % TWO64) == (x + y) % TWO64
  {
  }

  lemma WrapAdd(x: int, y: int)
    ensures Add64(x % TWO64, y) == (x + y) % TWO64
  {
  }

  lemma WrapSum(s: int, d: u18)
    ensures Add64(s % TWO64, Extend64(Extend20(d))) == (s + Signed18(d)) % TWO64
  {
    SignExtend(d);
    Wrap64(s, Signed18(d));
  }

  lemma Unwrap64(x: int)
    requires -0x8000_0000_0000_0000 <= x < 0x8000_0000_0000_0000
    ensures Signed64(x % TWO64) == x
  {
  }

  /** The running sums are those of `vs`, modulo 2^64. */
  predicate Holds(count: u64, sum: u64, sq: u64, vs: seq<int>) {
    count == |vs| % TWO64 && sum == Sum(vs) % TWO64 && sq == SumSq(vs) % TWO64
  }

  lemma {:induction false} HoldsAppend(count: u64, sum: u64, sq: u64, vs: seq<int>, d: u18)
    requires Holds(count, sum, sq, vs)
    ensures Holds(Add64(count, 1), Add64(sum, Extend64(Extend20(d))), Add64(sq, Square(d)), vs + [Signed18(d)])
  {
    Append(vs, Signed18(d));
    WrapAdd(|vs|, 1);
    WrapSum(Sum(vs), d);
    WrapAdd(SumSq(vs), Square(d));
  }

  /** With fewer than 2^29 samples nothing has wrapped: the registers read as the true sums. */
  lemma {:induction false} HoldsTrue(count: u64, sum: u64, sq: u64, vs: seq<int>)
    requires Holds(count, sum, sq, vs) && Samples18(vs) && |vs| < 0x2000_0000
    ensures count == |vs| && Signed64(sum) == Sum(vs) && sq == SumSq(vs) && Signed64(sq) == SumSq(vs)
    ensures Signed64(sum) * Signed64(sum) <= count * sq
  {
    Bounds(vs);
    Unwrap64(Sum(vs));
    CauchySchwarz(vs);
  }
}
