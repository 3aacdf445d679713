/** Relevance scores in exact arithmetic: a sparse intent vector against a product's values,
    and its blend with the text score. */
module Scores {

  /** One weighted value of the query and whether the product has it. */
  datatype Dimension = Dimension(weight: real, matched: bool)

  /** Weights as the request leaves them: above zero and at most one. */
  ghost predicate Weighted(dims: seq<Dimension>) {
    forall d :: d in dims ==> 0.0 < d.weight <= 1.0
  }

  function Dot(dims: seq<Dimension>): real {
    if dims == [] then 0.0
    else Dot(dims[..|dims| - 1]) + if dims[|dims| - 1].matched then dims[|dims| - 1].weight else 0.0
  }

  function Matches(dims: seq<Dimension>): nat {
    if dims == [] then 0 else Matches(dims[..|dims| - 1]) + if dims[|dims| - 1].matched then 1 else 0
  }

  function NormSquared(dims: seq<Dimension>): real {
    if dims == [] then 0.0
    else NormSquared(dims[..|dims| - 1]) + Square(dims[|dims| - 1].weight)
  }

  function Mul(x: real, y: real): real {
    x * y
  }

  function Square(x: real): real {
    Mul(x, x)
  }

  /** A square root on the numbers that have one. */
  ghost predicate IsSquareRoot(sqrt: real -> real) {
    forall x :: x >= 0.0 ==> sqrt(x) >= 0.0 && Square(sqrt(x)) == x
  }

  // ---------------------------------------------------------------- Cauchy-Schwarz

  lemma PositiveProduct(a: real, b: real)
    requires a > 0.0 && b > 0.0
    ensures Mul(a, b) > 0.0
  {
  }

  lemma SquareSign(x: real)
    ensures Square(x) >= 0.0
    ensures x != 0.0 ==> Square(x) > 0.0
  {
    if x > 0.0 {
      PositiveProduct(x, x);
    } else if x < 0.0 {
      PositiveProduct(-x, -x);
      assert Mul(-x, -x) == Mul(x, x);
    }
  }

  /** Completing the square: 2dw <= mw^2 + n whenever d^2 <= mn. */
  lemma CrossTerm(d: real, w: real, m: real, n: real)
    requires m >= 1.0 && n >= 0.0 && Square(d) <= m * n
    ensures 2.0 * d * w <= m * (w * w) + n
  {
    var slack := m * (w * w) + n - 2.0 * d * w;
    SquareSign(m * w - d);
    assert Square(m * w - d) == m * m * (w * w) - 2.0 * m * w * d + d * d;
    assert m * slack == m * m * (w * w) + m * n - 2.0 * m * w * d;
    assert m * slack >= 0.0;
    if slack < 0.0 {
      PositiveProduct(m, -slack);
    }
  }

  lemma OneMoreMatch(d: real, w: real, m: real, n: real)
    requires n >= 0.0 && Square(d) <= m * n && (m >= 1.0 || (m == 0.0 && d == 0.0))
    ensures Square(d + w) <= (m + 1.0) * (n + Square(w))
  {
    assert Square(d + w) == d * d + 2.0 * d * w + w * w;
    assert (m + 1.0) * (n + w * w) == m * n + n + m * (w * w) + w * w;
    if m >= 1.0 {
      CrossTerm(d, w, m, n);
    }
  }

  /** The squared sum of the matched weights is at most the number of matches times the sum
      of all squared weights. */
  lemma {:induction false} CauchySchwarz(dims: seq<Dimension>)
    ensures NormSquared(dims) >= 0.0
    ensures Matches(dims) == 0 ==> Dot(dims) == 0.0
    ensures Square(Dot(dims)) <= Matches(dims) as real * NormSquared(dims)
  {
    if dims != [] {
      var n := |dims| - 1;
      var before, w := dims[..n], dims[n].weight;
      CauchySchwarz(before);
      SquareSign(w);
      if dims[n].matched {
        OneMoreMatch(Dot(before), w, Matches(before) as real, NormSquared(before));
      } else {
        MoreRoom(Matches(before) as real, NormSquared(before), Square(w));
      }
    }
  }

  lemma MoreRoom(m: real, n: real, extra: real)
    requires m >= 0.0 && extra >= 0.0
    ensures m * n <= m * (n + extra)
  {
    assert m * (n + extra) == m * n + m * extra;
    assert m * extra >= 0.0;
  }

  lemma {:induction false} DotNonNegative(dims: seq<Dimension>)
    requires Weighted(dims)
    ensures Dot(dims) >= 0.0
    ensures Matches(dims) > 0 ==> NormSquared(dims) > 0.0
    ensures NormSquared(dims) >= 0.0
  {
    if dims != [] {
      var n := |dims| - 1;
      assert dims[n] in dims;
      DotNonNegative(dims[..n]);
      SquareSign(dims[n].weight);
    }
  }

  // ---------------------------------------------------------------- the scores

  /** Division guarded against a zero norm. */
  function Over(d: real, norms: real): real {
    if norms == 0.0 then 0.0 else d / norms
  }

  /** The matched weights over the two norms, zero if nothing matches. */
  function VectorScore(dims: seq<Dimension>, sqrt: real -> real): real {
    var n, m := sqrt(NormSquared(dims)), sqrt(Matches(dims) as real);
    if Matches(dims) > 0 then Over(Dot(dims), Mul(n, m)) else 0.0
  }

  /** The sums run over the weighted values in any grouping; a single value counts with its
      weight, and in the product and the matches only if the product has it. */
  lemma {:induction false} SumsOfParts(a: seq<Dimension>, b: seq<Dimension>)
    ensures Dot(a + b) == Dot(a) + Dot(b) && NormSquared(a + b) == NormSquared(a) + NormSquared(b)
    ensures Matches(a + b) == Matches(a) + Matches(b)
    ensures |b| == 1 ==> NormSquared(b) == b[0].weight * b[0].weight
    ensures |b| == 1 ==> Dot(b) == if b[0].matched then b[0].weight else 0.0
    ensures |b| == 1 ==> Matches(b) == if b[0].matched then 1 else 0
  {
    if b == [] {
      assert a + b == a;
    } else {
      var n := |b| - 1;
      SumsOfParts(a, b[..n]);
      assert (a + b)[..|a + b| - 1] == a + b[..n];
      hide Square;
    }
    if |b| == 1 {
      assert b[..0] == [];
    }
  }

  /** The score is the matched weights over both norms: squared and multiplied out, exactly
      that. */
  lemma VectorScoreIsCosine(dims: seq<Dimension>, sqrt: real -> real)
    requires Weighted(dims) && IsSquareRoot(sqrt)
    ensures var v := VectorScore(dims, sqrt);
            Mul(Square(v), Mul(NormSquared(dims), Matches(dims) as real)) == Square(Dot(dims))
    ensures Matches(dims) == 0 ==> VectorScore(dims, sqrt) == 0.0
  {
    VectorScoreWithin(dims, sqrt);
    CauchySchwarz(dims);
    DotNonNegative(dims);
    var x, y := NormSquared(dims), Matches(dims) as real;
    hide Weighted, Dot, NormSquared, Matches, Square, Mul, Over;
    if Matches(dims) > 0 {
      QuotientSquared(Dot(dims), sqrt(x), sqrt(y));
    } else {
      ZeroTimes(Mul(x, y));
    }
  }

  lemma ZeroTimes(x: real)
    ensures Square(0.0) == 0.0 == Mul(0.0, x)
  {
  }

  lemma QuotientSquared(d: real, n: real, m: real)
    requires Mul(n, m) > 0.0
    ensures Mul(Square(Over(d, Mul(n, m))), Mul(Square(n), Square(m))) == Square(d)
  {
    var p := Mul(n, m);
    var q := Over(d, p);
    assert q * p == d;
    SquareOfProduct(q, p);
    SquareOfProduct(n, m);
  }

  lemma SquareOfProduct(a: real, b: real)
    ensures Square(a * b) == Square(a) * Square(b)
  {
  }

  lemma LargerSquare(d: real, p: real)
    requires d > p > 0.0
    ensures Square(d) > Square(p)
  {
    assert Square(d) - Square(p) == (d - p) * (d + p);
    PositiveProduct(d - p, d + p);
  }

  lemma QuotientWithin(d: real, p: real)
    requires d >= 0.0 && p > 0.0 && Square(d) <= Square(p)
    ensures 0.0 <= d / p <= 1.0
  {
    if d > p {
      LargerSquare(d, p);
    }
  }

  /** With n and m the roots of x and y, d^2 <= yx keeps d within the product of the roots. */
  lemma BoundByRoots(d: real, x: real, y: real, n: real, m: real)
    requires d >= 0.0 && x > 0.0 && y > 0.0 && n >= 0.0 && m >= 0.0
    requires Square(n) == x && Square(m) == y && Square(d) <= y * x
    ensures Mul(n, m) > 0.0 && 0.0 <= Over(d, Mul(n, m)) <= 1.0
  {
    assert n != 0.0 by { assert Square(0.0) == 0.0; }
    assert m != 0.0 by { assert Square(0.0) == 0.0; }
    PositiveProduct(n, m);
    assert Square(Mul(n, m)) == Square(n) * Square(m);
    QuotientWithin(d, Mul(n, m));
  }

  /** Intent vectors score within [0,1]: no clamp is needed, and the guard against a zero
      norm never hides a match. */
  lemma VectorScoreWithin(dims: seq<Dimension>, sqrt: real -> real)
    requires Weighted(dims) && IsSquareRoot(sqrt)
    ensures 0.0 <= VectorScore(dims, sqrt) <= 1.0
    ensures Matches(dims) > 0 ==> Mul(sqrt(NormSquared(dims)), sqrt(Matches(dims) as real)) > 0.0
  {
    CauchySchwarz(dims);
    DotNonNegative(dims);
    var x, y := NormSquared(dims), Matches(dims) as real;
    hide Weighted, Dot, NormSquared, Matches, Square, Mul, Over;
    if Matches(dims) > 0 {
      BoundByRoots(Dot(dims), x, y, sqrt(x), sqrt(y));
    }
  }

  function Clamp(x: real): real {
    if x < 0.0 then 0.0 else if x > 1.0 then 1.0 else x
  }

  /** The blend of vector and text score; each part counts only if the request has it. */
  function HybridScore(vector: real, textScore: real, hasVector: bool, hasText: bool): real {
    var text := if textScore / 10.0 < 1.0 then textScore / 10.0 else 1.0;
    var vectorWeight := if hasVector && hasText then 0.78 else if hasVector then 1.0 else 0.0;
    var textWeight := if hasVector && hasText then 0.22 else if hasText then 1.0 else 0.0;
    vector * vectorWeight + text * textWeight
  }

  /** A request with both parts weighs the vector with 78 and the text with 22 hundredths; a
      part that is alone counts in full, and text counts in tenths up to one. */
  lemma HybridParts(vector: real, textScore: real)
    requires 0.0 <= textScore <= 10.0
    ensures HybridScore(vector, textScore, true, false) == vector
    ensures 10.0 * HybridScore(vector, textScore, false, true) == textScore
    ensures 1000.0 * HybridScore(vector, textScore, true, true) == 780.0 * vector + 22.0 * textScore
    ensures HybridScore(vector, textScore, false, false) == 0.0
    ensures forall more, b, c :: more >= 10.0 ==> HybridScore(vector, more, b, c) == HybridScore(vector, 10.0, b, c)
  {
  }

  lemma HybridScoreWithin(dims: seq<Dimension>, sqrt: real -> real, textScore: real, hasText: bool)
    requires Weighted(dims) && IsSquareRoot(sqrt) && textScore >= 0.0
    ensures 0.0 <= HybridScore(VectorScore(dims, sqrt), textScore, dims != [], hasText) <= 1.0
  {
    VectorScoreWithin(dims, sqrt);
  }

  /** One pass over the weighted values, accumulating both norms and the product. */
  method SemanticScore(dims: seq<Dimension>, sqrt: real -> real) returns (score: real, clamped: real, matches: nat)
    requires Weighted(dims) && IsSquareRoot(sqrt)
    ensures score == VectorScore(dims, sqrt) && matches == Matches(dims)
    ensures clamped == score && 0.0 <= score <= 1.0
  {
    var normSquared, dot := 0.0, 0.0;
    matches := 0;
    for i := 0 to |dims|
      invariant normSquared == NormSquared(dims[..i]) && dot == Dot(dims[..i]) && matches == Matches(dims[..i])
    {
      assert dims[..i + 1][..i] == dims[..i];
      normSquared := normSquared + Square(dims[i].weight);
      if dims[i].matched {
        dot := dot + dims[i].weight;
        matches := matches + 1;
      }
    }
    assert dims[..|dims|] == dims;
    VectorScoreWithin(dims, sqrt);
    DotNonNegative(dims);
    score := if normSquared != 0.0 && matches > 0 then dot / Mul(sqrt(normSquared), sqrt(matches as real)) else 0.0;
    clamped := Clamp(score);
  }
}
