/** What scaling and compacting weights promise. */
module Compaction {
  import opened Arith
  import opened Weights

  // ---- Scaling is sound

  /** Rounding down `n` times loses less than `n` from the scaled sum. */
  lemma {:induction false} SumOfScaled(ws: seq<nat>, scale: nat, sum: nat) returns (rest: nat)
    requires sum > 0
    ensures scale * Sum(ws) == sum * Sum(Scaled(ws, scale, sum)) + rest
    ensures rest <= |ws| * (sum - 1)
  {
    if ws == [] {
      rest := 0;
    } else {
      var n := |ws| - 1;
      var r := SumOfScaled(ws[..n], scale, sum);
      var t := Scaled(ws, scale, sum);
      assert t[..n] == Scaled(ws[..n], scale, sum);
      var last := ws[n] * scale % sum;
      DivMod(ws[n] * scale, sum);
      rest := r + last;
      SumStep(scale, sum, Sum(ws[..n]), ws[n], Sum(t[..n]), t[n], r, last, n);
    }
  }

  lemma SumStep(scale: nat, sum: nat, a: nat, x: nat, b: nat, q: nat, r: nat, last: nat, n: nat)
    requires scale * a == sum * b + r && x * scale == sum * q + last
    requires r <= n * (sum - 1) && last <= sum - 1
    ensures scale * (a + x) == sum * (b + q) + (r + last)
    ensures r + last <= (n + 1) * (sum - 1)
  {
    Distribute(scale, a, x);
    Distribute(sum, b, q);
    Distribute(sum - 1, n, 1);
  }

  /**
    When weights are scaled at all, their sum ends up above `scale - n` and at most at `scale`, larger
    weights stay at least as large, no weight grows (so none can overflow its 16 bits) and not all
    become zero.
   */
  lemma ScalingIsSound(ws: seq<nat>)
    requires Sum(ws) > Scale(|ws|)
    ensures Scale(|ws|) - |ws| < Sum(Normalized(ws)) <= Scale(|ws|)
    ensures forall i | 0 <= i < |ws| :: Normalized(ws)[i] <= ws[i]
    ensures forall i, j | 0 <= i < |ws| && 0 <= j < |ws| && ws[i] <= ws[j] :: Normalized(ws)[i] <= Normalized(ws)[j]
    ensures exists i | 0 <= i < |ws| :: Normalized(ws)[i] > 0
  {
    var scale, sum, n := Scale(|ws|), Sum(ws), |ws|;
    var t := Normalized(ws);
    var rest := SumOfScaled(ws, scale, sum);
    SumBounds(sum, scale, Sum(t), n, rest);
    forall i | 0 <= i < n ensures t[i] <= ws[i] { ScaledDown(ws[i], scale, sum); }
    forall i, j | 0 <= i < n && 0 <= j < n && ws[i] <= ws[j] ensures t[i] <= t[j] { ScaledMono(ws[i], ws[j], scale, sum); }
    hide ScaledWeight;
    if forall i | 0 <= i < n :: t[i] == 0 { SumZero(t); }
  }

  /**
    What normalising computes: weights that add up to no more than a hundred, or than there are weights, stay;
    any others are scaled to that sum and rounded down.
   */
  lemma NormalizedIs(ws: seq<nat>)
    ensures var scale := if |ws| > 100 then |ws| else 100;
            if Sum(ws) <= scale then Normalized(ws) == ws
            else forall i | 0 <= i < |ws| ::
                   Normalized(ws)[i] * Sum(ws) <= ws[i] * scale < (Normalized(ws)[i] + 1) * Sum(ws)
  {
    var scale := if |ws| > 100 then |ws| else 100;
    if Sum(ws) > scale {
      forall i | 0 <= i < |ws|
        ensures Normalized(ws)[i] * Sum(ws) <= ws[i] * scale < (Normalized(ws)[i] + 1) * Sum(ws)
      {
        RoundedDown(ws[i] * scale, Sum(ws));
      }
    }
  }

  lemma RoundedDown(n: nat, d: nat)
    requires d > 0
    ensures n / d * d <= n < (n / d + 1) * d
  {
    DivMod(n, d);
  }

  lemma ScaledMono(w: nat, w': nat, scale: nat, sum: nat)
    requires sum > 0 && w <= w'
    ensures ScaledWeight(w, scale, sum) <= ScaledWeight(w', scale, sum)
  {
    MulMono(w, w', scale);
    DivMono(w * scale, w' * scale, sum);
  }

  lemma SumBounds(sum: nat, scale: nat, total: nat, n: nat, rest: nat)
    requires sum > 0 && scale * sum == sum * total + rest && rest <= n * (sum - 1) && n > 0
    ensures scale - n < total <= scale
  {
    Distribute(sum, scale, total);
    Distribute(n, sum, 1);
    if total >= scale + 1 { MulMono(scale - total, -1, sum); }
    if scale - total >= n { MulMono(n, scale - total, sum); }
  }

  lemma {:induction false} SumZero(ws: seq<nat>)
    ensures Sum(ws) == 0 <==> forall i | 0 <= i < |ws| :: ws[i] == 0
  {
    if ws != [] {
      var n := |ws| - 1;
      SumZero(ws[..n]);
      assert forall i | 0 <= i < n :: ws[..n][i] == ws[i];
    }
  }

  // ---- Greatest common divisors

  ghost predicate Divides(d: nat, n: int) {
    exists k: int :: n == d * k
  }

  lemma {:induction false} GcdScales(k: nat, a: nat, b: nat)
    ensures Gcd(k * a, k * b) == k * Gcd(a, b)
    decreases b
  {
    if b != 0 && k != 0 {
      ModScales(k, a, b);
      GcdScales(k, b, a % b);
      assert k * b > 0;
    } else if k == 0 {
    }
  }

  lemma ModScales(k: nat, a: nat, b: nat)
    requires k > 0 && b > 0
    ensures k * b > 0 && (k * a) % (k * b) == k * (a % b)
  {
    DivMod(a, b);
    Distribute(k, b * (a / b), a % b);
    assert k * (b * (a / b)) == (k * b) * (a / b);
    MulMono(a % b + 1, b, k);
    Distribute(k, a % b, 1);
    DivModUnique(k * a, k * b, a / b, k * (a % b));
  }

  function Times(k: nat, ws: seq<nat>): (r: seq<nat>)
    ensures |r| == |ws|
  {
    seq(|ws|, i requires 0 <= i < |ws| => k * ws[i])
  }

  lemma {:induction false} GcdAllScales(k: nat, ws: seq<nat>)
    ensures GcdAll(Times(k, ws)) == k * GcdAll(ws)
  {
    if ws != [] {
      var n := |ws| - 1;
      GcdAllScales(k, ws[..n]);
      assert Times(k, ws)[..n] == Times(k, ws[..n]);
      GcdScales(k, GcdAll(ws[..n]), ws[n]);
    }
  }

  lemma {:induction false} GcdDivides(a: nat, b: nat)
    ensures Divides(Gcd(a, b), a) && Divides(Gcd(a, b), b)
    decreases b
  {
    if b == 0 {
      assert a == a * 1 && 0 == a * 0;
    } else {
      var g := Gcd(b, a % b);
      GcdDivides(b, a % b);
      var x :| b == g * x;
      var y :| a % b == g * y;
      assert a == b * (a / b) + a % b == g * (x * (a / b) + y);
    }
  }

  lemma DividesTrans(d: nat, e: nat, n: int)
    requires Divides(d, e) && Divides(e, n)
    ensures Divides(d, n)
  {
    var x :| e == d * x;
    var y :| n == e * y;
    assert n == d * (x * y);
  }

  lemma {:induction false} GcdAllDivides(ws: seq<nat>)
    ensures forall i | 0 <= i < |ws| :: Divides(GcdAll(ws), ws[i])
  {
    if ws != [] {
      var n := |ws| - 1;
      GcdAllDivides(ws[..n]);
      GcdDivides(GcdAll(ws[..n]), ws[n]);
      forall i | 0 <= i < n ensures Divides(GcdAll(ws), ws[i]) {
        assert ws[..n][i] == ws[i];
        DividesTrans(GcdAll(ws), GcdAll(ws[..n]), ws[i]);
      }
    }
  }

  lemma {:induction false} GcdZero(a: nat, b: nat)
    ensures Gcd(a, b) == 0 <==> a == 0 && b == 0
    decreases b
  {
    if b != 0 { GcdZero(b, a % b); }
  }

  lemma {:induction false} GcdAllZero(ws: seq<nat>)
    ensures GcdAll(ws) == 0 <==> forall i | 0 <= i < |ws| :: ws[i] == 0
  {
    if ws != [] {
      var n := |ws| - 1;
      GcdAllZero(ws[..n]);
      GcdZero(GcdAll(ws[..n]), ws[n]);
      assert forall i | 0 <= i < n :: ws[..n][i] == ws[i];
    }
  }

  // ---- Compacting

  /** The divisor used: one where nothing is divided. */
  function Divisor(ws: seq<nat>): nat {
    if GcdAll(Normalized(ws)) < 2 then 1 else GcdAll(Normalized(ws))
  }

  /** Compacting is exact: multiplying back gives the normalised weights. */
  lemma CompactIsExact(ws: seq<nat>)
    ensures Times(Divisor(ws), Compacted(ws)) == Normalized(ws)
  {
    var t, d, c := Normalized(ws), Divisor(ws), Compacted(ws);
    GcdAllDivides(t);
    forall i | 0 <= i < |t| ensures d * c[i] == t[i] {
      if GcdAll(t) >= 2 {
        var k: int :| t[i] == d * k;
        DivModUnique(t[i], d, k, 0);
      }
    }
  }

  /** A list with a positive weight keeps one, whatever scaling does to it. */
  lemma NormalizedNonZero(ws: seq<nat>)
    ensures Sum(ws) > 0 <==> Sum(Normalized(ws)) > 0
  {
    if Sum(ws) > Scale(|ws|) {
      ScalingIsSound(ws);
      SumZero(Normalized(ws));
    }
  }

  lemma CompactGcdIsOne(ws: seq<nat>)
    requires Sum(ws) > 0
    ensures GcdAll(Compacted(ws)) == 1
  {
    var t, c := Normalized(ws), Compacted(ws);
    NormalizedNonZero(ws);
    SumZero(t);
    GcdAllZero(t);
    CompactIsExact(ws);
    GcdAllScales(Divisor(ws), c);
    assert Divisor(ws) * GcdAll(c) == GcdAll(t) == Divisor(ws);
    Cancel(Divisor(ws), GcdAll(c), 1);
  }

  /** `v` has the same pairwise ratios as `c`. */
  predicate SameRatios(v: seq<int>, c: seq<nat>) {
    && |v| == |c|
    && forall i, j | 0 <= i < |c| && 0 <= j < |c| :: v[i] * c[j] == v[j] * c[i]
  }

  lemma NaturalMultiple(v: seq<nat>, c: seq<nat>)
    requires SameRatios(v, c) && GcdAll(c) == 1
    ensures v == Times(GcdAll(v), c)
  {
    hide GcdAll;
    forall i | 0 <= i < |c| ensures v[i] == GcdAll(v) * c[i] {
      GcdAllScales(v[i], c);
      GcdAllScales(c[i], v);
      CrossTimes(v, c, i);
    }
  }

  lemma CrossTimes(v: seq<nat>, c: seq<nat>, i: nat)
    requires SameRatios(v, c) && i < |c|
    ensures Times(v[i], c) == Times(c[i], v)
  {
    forall j | 0 <= j < |c|
      ensures v[i] * c[j] == c[i] * v[j]
    {
      assert v[i] * c[j] == v[j] * c[i];
    }
  }

  function Negated(v: seq<int>): (r: seq<int>)
    ensures |r| == |v|
    ensures forall i | 0 <= i < |v| :: r[i] == -v[i]
  {
    seq(|v|, i requires 0 <= i < |v| => -v[i])
  }

  lemma NegatedRatios(v: seq<int>, c: seq<nat>)
    requires SameRatios(v, c)
    ensures SameRatios(Negated(v), c)
  {
    forall i, j | 0 <= i < |c| && 0 <= j < |c| ensures Negated(v)[i] * c[j] == Negated(v)[j] * c[i] {
      assert (-v[i]) * c[j] == -(v[i] * c[j]) && (-v[j]) * c[i] == -(v[j] * c[i]);
    }
  }

  lemma PositiveMultiple(v: seq<int>, c: seq<nat>, j: nat) returns (k: int)
    requires SameRatios(v, c) && GcdAll(c) == 1 && j < |c| && c[j] > 0 && v[j] >= 0
    ensures forall i | 0 <= i < |c| :: v[i] == k * c[i]
  {
    forall i | 0 <= i < |c| ensures v[i] >= 0 {
      MulMono(0, v[j], c[i]);
      SameSign(v[i], c[j], v[j] * c[i]);
    }
    var u: seq<nat> := v;
    NaturalMultiple(u, c);
    k := GcdAll(u);
  }

  /** A vector of gcd one is the smallest with its ratios: every other one is a multiple of it. */
  lemma SmallestVector(v: seq<int>, c: seq<nat>) returns (k: int)
    requires SameRatios(v, c) && GcdAll(c) == 1
    ensures forall i | 0 <= i < |c| :: v[i] == k * c[i]
  {
    GcdAllZero(c);
    var j :| 0 <= j < |c| && c[j] > 0;
    if v[j] >= 0 {
      k := PositiveMultiple(v, c, j);
    } else {
      NegatedRatios(v, c);
      var k' := PositiveMultiple(Negated(v), c, j);
      k := -k';
      forall i | 0 <= i < |c| ensures v[i] == k * c[i] {
        assert Negated(v)[i] == k' * c[i];
        assert (-k') * c[i] == -(k' * c[i]);
      }
    }
  }

  /**
    `compact` returns the smallest integer vector with the ratios of the normalised weights: its gcd is
    one, and every integer vector with those ratios is a multiple of it.
   */
  lemma CompactIsSmallest(ws: seq<nat>, v: seq<int>) returns (k: int)
    requires Sum(ws) > 0 && SameRatios(v, Normalized(ws))
    ensures GcdAll(Compacted(ws)) == 1
    ensures forall i | 0 <= i < |ws| :: v[i] == k * Compacted(ws)[i]
  {
    var t, c, d := Normalized(ws), Compacted(ws), Divisor(ws);
    CompactGcdIsOne(ws);
    CompactIsExact(ws);
    forall i, j | 0 <= i < |c| && 0 <= j < |c| ensures v[i] * c[j] == v[j] * c[i] {
      assert t[i] == d * c[i] && t[j] == d * c[j];
      assert v[i] * t[j] == v[j] * t[i];
      CancelCommon(d, v[i], c[j], v[j], c[i]);
    }
    k := SmallestVector(v, c);
  }

  lemma CancelCommon(d: nat, x: int, a: nat, y: int, b: nat)
    requires d > 0 && x * (d * a) == y * (d * b)
    ensures x * a == y * b
  {
    assert d * (x * a) == x * (d * a) && d * (y * b) == y * (d * b);
    Cancel(d, x * a, y * b);
  }

  lemma {:induction false} SumDivided(t: seq<nat>, c: seq<nat>, d: nat)
    requires t == Times(d, c) && d > 0
    ensures Sum(t) == d * Sum(c) && Sum(c) <= Sum(t)
  {
    if t != [] {
      var n := |t| - 1;
      SumDivided(t[..n], c[..n], d);
      Distribute(d, Sum(c[..n]), c[n]);
      MulMono(1, d, Sum(c));
    }
  }

  /** The list that the weights expand to is short, and empty only if no weight is positive. */
  lemma CompactSum(ws: seq<nat>)
    ensures Sum(Compacted(ws)) <= Scale(|ws|)
    ensures Sum(Compacted(ws)) > 0 <==> Sum(ws) > 0
  {
    CompactIsExact(ws);
    SumDivided(Normalized(ws), Compacted(ws), Divisor(ws));
    NormalizedNonZero(ws);
    NormalizedSum(ws);
    if Sum(Compacted(ws)) == 0 { assert Sum(Normalized(ws)) == Divisor(ws) * 0; }
  }

  lemma NormalizedSum(ws: seq<nat>)
    ensures Sum(Normalized(ws)) <= Scale(|ws|)
  {
    if Sum(ws) > Scale(|ws|) { ScalingIsSound(ws); }
  }

  /** Compacting twice is compacting once. */
  lemma CompactIdempotent(ws: seq<nat>)
    ensures Compacted(Compacted(ws)) == Compacted(ws)
  {
    var c := Compacted(ws);
    CompactSum(ws);
    assert Normalized(c) == c;
    if Sum(ws) > 0 {
      CompactGcdIsOne(ws);
    } else {
      SumZero(c);
      GcdAllZero(c);
    }
  }
}
