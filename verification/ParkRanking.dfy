/** The Board's ranking: signals normalised across the candidates, weighted, and the best k kept. */
module ParkRanking {
  import opened Arith

  datatype Signals = Signals(recency: real, relevance: real, importance: real)

  datatype Weights = Weights(alpha: real, beta: real, gamma: real)

  // ---------- normalisation ----------

  function Lowest(xs: seq<real>): (lo: real)
    requires xs != []
  {
    if |xs| == 1 then xs[0]
    else
      var lo := Lowest(xs[..|xs| - 1]);
      if xs[|xs| - 1] < lo then xs[|xs| - 1] else lo
  }

  function Highest(xs: seq<real>): (hi: real)
    requires xs != []
  {
    if |xs| == 1 then xs[0]
    else
      var hi := Highest(xs[..|xs| - 1]);
      if xs[|xs| - 1] > hi then xs[|xs| - 1] else hi
  }

  function Spread(xs: seq<real>): real {
    if xs == [] then 0.0 else Highest(xs) - Lowest(xs)
  }

  // Where a signal stands between the lowest and the highest; neutral where there is no spread.
  function Norm(x: real, lo: real, range: real): real {
    if range <= EPSILON then 0.5 else (x - lo) / range
  }

  function Normalised(xs: seq<real>): (r: seq<real>)
    ensures |r| == |xs|
  {
    if xs == [] then [] else seq(|xs|, i requires 0 <= i < |xs| => Norm(xs[i], Lowest(xs), Spread(xs)))
  }

  method MinMaxNorm(xs: seq<real>) returns (r: seq<real>)
    ensures r == Normalised(xs)
  {
    if xs == [] {
      return [];
    }
    var lo, hi := xs[0], xs[0];
    var i := 1;
    assert xs[..1] == [xs[0]];
    while i < |xs|
      invariant 1 <= i <= |xs|
      invariant lo == Lowest(xs[..i]) && hi == Highest(xs[..i])
    {
      assert xs[..i + 1][..i] == xs[..i];
      if xs[i] < lo {
        lo := xs[i];
      }
      if xs[i] > hi {
        hi := xs[i];
      }
      i := i + 1;
    }
    assert xs[..i] == xs;
    var range := hi - lo;
    if range <= EPSILON {
      return seq(|xs|, i => 0.5);
    }
    return seq(|xs|, i requires 0 <= i < |xs| => (xs[i] - lo) / range);
  }

  lemma {:induction false} ExtremesExactly(xs: seq<real>)
    requires xs != []
    ensures forall x | x in xs :: Lowest(xs) <= x <= Highest(xs)
    ensures Lowest(xs) in xs && Highest(xs) in xs
  {
    if |xs| == 1 {
    } else {
      ExtremesExactly(xs[..|xs| - 1]);
      assert xs == xs[..|xs| - 1] + [xs[|xs| - 1]];
    }
  }

  lemma {:induction false} Products(p: real, q: real, range: real)
    requires range > 0.0
    ensures 0.0 <= p * range <= range ==> 0.0 <= p <= 1.0
    ensures p < q <==> p * range < q * range
  {
    if p < 0.0 {
      assert p * range < 0.0;
    } else if p > 1.0 {
      assert (p - 1.0) * range > 0.0;
    }
    if p < q {
      assert (q - p) * range > 0.0;
    } else {
      assert (p - q) * range >= 0.0;
    }
  }

  lemma {:induction false} Ratio(n: real, d: real)
    requires d > 0.0
    ensures n / d * d == n
  {
  }

  lemma {:induction false} NormExactly(x: real, y: real, lo: real, hi: real)
    requires lo <= x <= hi && lo <= y <= hi
    ensures 0.0 <= Norm(x, lo, hi - lo) <= 1.0
    ensures x <= y ==> Norm(x, lo, hi - lo) <= Norm(y, lo, hi - lo)
    ensures hi - lo > EPSILON ==> (x < y <==> Norm(x, lo, hi - lo) < Norm(y, lo, hi - lo))
  {
    var range := hi - lo;
    if range > EPSILON {
      Ratio(x - lo, range);
      Ratio(y - lo, range);
      Products((x - lo) / range, (y - lo) / range, range);
      Products((y - lo) / range, (x - lo) / range, range);
    }
  }

  lemma {:induction false} NormEnds(lo: real, hi: real)
    requires hi - lo > EPSILON
    ensures Norm(lo, lo, hi - lo) == 0.0 && Norm(hi, lo, hi - lo) == 1.0
  {
    Divided(lo - lo, 0.0, hi - lo);
    Divided(hi - lo, 1.0, hi - lo);
  }

  lemma {:induction false} Divided(n: real, q: real, d: real)
    requires d > 0.0 && n == q * d
    ensures n / d == q
  {
  }

  /** Normalised signals lie in [0, 1] and keep the order of the raw ones; with a spread they keep it
      strictly and reach both ends, without one they are all neutral. */
  lemma {:induction false} NormalisedExactly(xs: seq<real>, i: nat, j: nat)
    requires i < |xs| && j < |xs|
    ensures 0.0 <= Normalised(xs)[i] <= 1.0
    ensures xs[i] <= xs[j] ==> Normalised(xs)[i] <= Normalised(xs)[j]
    ensures Spread(xs) > EPSILON ==>
              && (xs[i] < xs[j] <==> Normalised(xs)[i] < Normalised(xs)[j])
              && (xs[i] == Lowest(xs) ==> Normalised(xs)[i] == 0.0)
              && (xs[i] == Highest(xs) ==> Normalised(xs)[i] == 1.0)
    ensures Spread(xs) <= EPSILON ==> Normalised(xs)[i] == 0.5
  {
    ExtremesExactly(xs);
    assert xs[i] in xs && xs[j] in xs;
    NormExactly(xs[i], xs[j], Lowest(xs), Highest(xs));
    if Spread(xs) > EPSILON {
      NormEnds(Lowest(xs), Highest(xs));
    }
  }

  // ---------- scores ----------

  function Relevances(ss: seq<Signals>): (r: seq<real>)
    ensures |r| == |ss|
  {
    seq(|ss|, i requires 0 <= i < |ss| => ss[i].relevance)
  }

  function Recencies(ss: seq<Signals>): (r: seq<real>)
    ensures |r| == |ss|
  {
    seq(|ss|, i requires 0 <= i < |ss| => ss[i].recency)
  }

  function Score(recency: real, relevance: real, importance: real, w: Weights): real {
    w.alpha * recency + w.beta * relevance + w.gamma * importance
  }

  function Weighted(rec: seq<real>, rel: seq<real>, ss: seq<Signals>, w: Weights): (r: seq<real>)
    requires |rec| == |rel| == |ss|
    ensures |r| == |ss|
  {
    seq(|ss|, i requires 0 <= i < |ss| => Score(rec[i], rel[i], ss[i].importance, w))
  }

  function Scores(ss: seq<Signals>, w: Weights): (r: seq<real>)
    ensures |r| == |ss|
  {
    Weighted(Normalised(Recencies(ss)), Normalised(Relevances(ss)), ss, w)
  }

  method ParkScores(ss: seq<Signals>, w: Weights) returns (r: seq<real>)
    ensures r == Scores(ss, w)
  {
    if ss == [] {
      return [];
    }
    var rel := MinMaxNorm(Relevances(ss));
    var rec := MinMaxNorm(Recencies(ss));
    return seq(|ss|, i requires 0 <= i < |ss| => Score(rec[i], rel[i], ss[i].importance, w));
  }

  lemma {:induction false} WeightedOrder(a: real, x: real, y: real)
    requires a >= 0.0 && x <= y
    ensures a * x <= a * y
  {
    assert a * (y - x) >= 0.0;
  }

  lemma {:induction false} ScoreOrder(r: real, l: real, m: real, r1: real, l1: real, m1: real, w: Weights)
    requires w.alpha >= 0.0 && w.beta >= 0.0 && w.gamma >= 0.0 && r <= r1 && l <= l1 && m <= m1
    ensures Score(r, l, m, w) <= Score(r1, l1, m1, w)
  {
    WeightedOrder(w.alpha, r, r1);
    WeightedOrder(w.beta, l, l1);
    WeightedOrder(w.gamma, m, m1);
  }

  // Between lo and hi: 0 at the one, 1 at the other, and in proportion; in the middle where they are no further
  // apart than a float can tell.
  predicate PlacedAt(x: real, lo: real, hi: real, p: real) {
    if hi - lo <= 1.0 / 8388608.0 then p == 0.5 else p * (hi - lo) == x - lo
  }

  ghost predicate AreExtremes(ss: seq<Signals>, signal: Signals -> real, j: nat, k: nat)
    requires j < |ss| && k < |ss|
  {
    forall m | 0 <= m < |ss| :: signal(ss[j]) <= signal(ss[m]) <= signal(ss[k])
  }

  // Where a candidate stands by one of its signals.
  ghost predicate Stands(ss: seq<Signals>, signal: Signals -> real, i: nat, p: real)
    requires i < |ss|
  {
    forall j: nat, k: nat | j < |ss| && k < |ss| && AreExtremes(ss, signal, j, k) ::
      PlacedAt(signal(ss[i]), signal(ss[j]), signal(ss[k]), p)
  }

  lemma {:induction false} NormPlaced(x: real, lo: real, hi: real)
    ensures PlacedAt(x, lo, hi, Norm(x, lo, hi - lo))
  {
    if hi - lo > EPSILON {
      Ratio(x - lo, hi - lo);
    }
  }

  lemma {:induction false} ExtremesFound(ss: seq<Signals>, signal: Signals -> real, xs: seq<real>, j: nat, k: nat)
    requires |ss| == |xs| && forall m | 0 <= m < |ss| :: xs[m] == signal(ss[m])
    requires j < |ss| && k < |ss| && AreExtremes(ss, signal, j, k)
    ensures signal(ss[j]) == Lowest(xs) && signal(ss[k]) == Highest(xs)
  {
    ExtremesExactly(xs);
    assert xs[j] in xs && xs[k] in xs;
    var l :| 0 <= l < |xs| && xs[l] == Lowest(xs);
    var h :| 0 <= h < |xs| && xs[h] == Highest(xs);
    assert signal(ss[j]) <= signal(ss[l]) && signal(ss[h]) <= signal(ss[k]);
  }

  lemma {:induction false} NormalisedStands(ss: seq<Signals>, signal: Signals -> real, xs: seq<real>, i: nat)
    requires i < |ss| == |xs| && forall j | 0 <= j < |ss| :: xs[j] == signal(ss[j])
    ensures Stands(ss, signal, i, Normalised(xs)[i])
  {
    NormPlaced(xs[i], Lowest(xs), Highest(xs));
    forall j: nat, k: nat | j < |ss| && k < |ss| && AreExtremes(ss, signal, j, k)
      ensures PlacedAt(signal(ss[i]), signal(ss[j]), signal(ss[k]), Normalised(xs)[i])
    {
      ExtremesFound(ss, signal, xs, j, k);
    }
  }

  lemma {:induction false} StandsOnce(ss: seq<Signals>, signal: Signals -> real, i: nat, p: real, q: real)
    requires i < |ss| && Stands(ss, signal, i, p) && Stands(ss, signal, i, q)
    ensures p == q
  {
    var xs := seq(|ss|, m requires 0 <= m < |ss| => signal(ss[m]));
    ExtremesExactly(xs);
    var j :| 0 <= j < |xs| && xs[j] == Lowest(xs);
    var k :| 0 <= k < |xs| && xs[k] == Highest(xs);
    forall m | 0 <= m < |ss| ensures signal(ss[j]) <= signal(ss[m]) <= signal(ss[k]) {
      assert xs[m] in xs;
    }
    assert AreExtremes(ss, signal, j, k);
    PlacedOnce(signal(ss[i]), signal(ss[j]), signal(ss[k]), p, q);
  }

  lemma {:induction false} PlacedOnce(x: real, lo: real, hi: real, p: real, q: real)
    requires PlacedAt(x, lo, hi, p) && PlacedAt(x, lo, hi, q)
    ensures p == q
  {
    if hi - lo > 1.0 / 8388608.0 {
      Products(p, q, hi - lo);
      Products(q, p, hi - lo);
    }
  }

  lemma {:induction false} WeightedAt(ss: seq<Signals>, w: Weights, i: nat, recency: real, relevance: real)
    requires i < |ss| && recency == Normalised(Recencies(ss))[i] && relevance == Normalised(Relevances(ss))[i]
    ensures Scores(ss, w)[i] == w.alpha * recency + w.beta * relevance + w.gamma * ss[i].importance
  {
  }

  /** A score is the weighted sum of where the candidate stands by recency and by relevance, and of its
      importance, each with its own weight. */
  lemma {:induction false} ScoreExactly(ss: seq<Signals>, w: Weights, i: nat, recency: real, relevance: real)
    requires i < |ss|
    requires Stands(ss, (s: Signals) => s.recency, i, recency) && Stands(ss, (s: Signals) => s.relevance, i, relevance)
    ensures Scores(ss, w)[i] == w.alpha * recency + w.beta * relevance + w.gamma * ss[i].importance
  {
    var byRecency, byRelevance := (s: Signals) => s.recency, (s: Signals) => s.relevance;
    NormalisedStands(ss, byRecency, Recencies(ss), i);
    NormalisedStands(ss, byRelevance, Relevances(ss), i);
    StandsOnce(ss, byRecency, i, recency, Normalised(Recencies(ss))[i]);
    StandsOnce(ss, byRelevance, i, relevance, Normalised(Relevances(ss))[i]);
    WeightedAt(ss, w, i, recency, relevance);
  }

  lemma {:induction false} WeightedDominance(
    rec: seq<real>, rel: seq<real>, ss: seq<Signals>, w: Weights, i: nat, j: nat)
    requires |rec| == |rel| == |ss| && i < |ss| && j < |ss| && w.alpha >= 0.0 && w.beta >= 0.0 && w.gamma >= 0.0
    requires rec[i] <= rec[j] && rel[i] <= rel[j] && ss[i].importance <= ss[j].importance
    ensures Weighted(rec, rel, ss, w)[i] <= Weighted(rec, rel, ss, w)[j]
  {
    ScoreOrder(rec[i], rel[i], ss[i].importance, rec[j], rel[j], ss[j].importance, w);
  }

  /** With non-negative weights a candidate that is at least as good in every signal scores at least as
      much. */
  lemma {:induction false} DominanceKept(ss: seq<Signals>, w: Weights, i: nat, j: nat)
    requires i < |ss| && j < |ss| && w.alpha >= 0.0 && w.beta >= 0.0 && w.gamma >= 0.0
    requires ss[i].recency <= ss[j].recency && ss[i].relevance <= ss[j].relevance
    requires ss[i].importance <= ss[j].importance
    ensures Scores(ss, w)[i] <= Scores(ss, w)[j]
  {
    NormalisedExactly(Recencies(ss), i, j);
    NormalisedExactly(Relevances(ss), i, j);
    WeightedDominance(Normalised(Recencies(ss)), Normalised(Relevances(ss)), ss, w, i, j);
  }

  // ---------- ranking ----------

  // Higher score first, the smaller index on ties.
  predicate Outranks(scores: seq<real>, a: nat, b: nat)
    requires a < |scores| && b < |scores|
  {
    scores[a] > scores[b] || (scores[a] == scores[b] && a < b)
  }

  ghost predicate Indices(idx: seq<nat>, scores: seq<real>) {
    forall i | i in idx :: i < |scores|
  }

  function Insert(x: nat, idx: seq<nat>, scores: seq<real>): (r: seq<nat>)
    requires x < |scores| && Indices(idx, scores)
    ensures Indices(r, scores)
    ensures forall i: nat :: i in r <==> i == x || i in idx
    ensures |r| == |idx| + 1
  {
    if idx == [] then [x]
    else
      assert idx[0] in idx;
      if Outranks(scores, x, idx[0]) then [x] + idx
      else
        assert idx == [idx[0]] + idx[1..];
        assert forall i | i in idx[1..] :: i in idx;
        var rest := Insert(x, idx[1..], scores);
        [idx[0]] + rest
  }

  // The first n indices, best first.
  function Ranked(scores: seq<real>, n: nat): (r: seq<nat>)
    requires n <= |scores|
    ensures |r| == n && forall i: nat :: i in r <==> i < n
  {
    if n == 0 then [] else Insert(n - 1, Ranked(scores, n - 1), scores)
  }

  function TopK(ss: seq<Signals>, w: Weights, k: nat): seq<nat> {
    var ranked := Ranked(Scores(ss, w), |ss|);
    if k < |ranked| then ranked[..k] else ranked
  }

  method TopKIndices(ss: seq<Signals>, w: Weights, k: nat) returns (idx: seq<nat>)
    ensures idx == TopK(ss, w, k)
  {
    var scores := ParkScores(ss, w);
    idx := Ranked(scores, |scores|);
    if k < |idx| {
      idx := idx[..k];
    }
  }

  ghost predicate InOrder(idx: seq<nat>, scores: seq<real>)
    requires Indices(idx, scores)
  {
    forall i, j | 0 <= i < j < |idx| :: idx[i] in idx && idx[j] in idx && Outranks(scores, idx[i], idx[j])
  }

  lemma {:induction false} InsertKeepsOrder(x: nat, idx: seq<nat>, scores: seq<real>)
    requires x < |scores| && Indices(idx, scores) && InOrder(idx, scores) && x !in idx
    ensures InOrder(Insert(x, idx, scores), scores)
    decreases |idx|
  {
    if idx == [] {
    } else {
      assert idx[0] in idx;
      if Outranks(scores, x, idx[0]) {
        FrontKeepsOrder(x, idx, scores);
      } else {
        TailInOrder(idx, scores);
        InsertKeepsOrder(x, idx[1..], scores);
        var rest := Insert(x, idx[1..], scores);
        forall j | 0 <= j < |rest| ensures rest[j] in rest && rest[j] < |scores| && Outranks(scores, idx[0], rest[j]) {
          assert rest[j] in rest;
          if rest[j] != x {
            var k :| 0 <= k < |idx[1..]| && idx[1..][k] == rest[j];
            assert idx[k + 1] == rest[j];
          }
        }
        FrontAhead(idx[0], rest, scores);
      }
    }
  }

  lemma {:induction false} TailInOrder(idx: seq<nat>, scores: seq<real>)
    requires idx != [] && Indices(idx, scores) && InOrder(idx, scores)
    ensures Indices(idx[1..], scores) && InOrder(idx[1..], scores)
  {
    forall i | i in idx[1..] ensures i in idx {
    }
    forall i, j | 0 <= i < j < |idx[1..]| ensures Outranks(scores, idx[1..][i], idx[1..][j]) {
      assert idx[i + 1] == idx[1..][i] && idx[j + 1] == idx[1..][j];
    }
  }

  lemma {:induction false} FrontAhead(x: nat, idx: seq<nat>, scores: seq<real>)
    requires x < |scores| && Indices(idx, scores) && InOrder(idx, scores)
    requires forall j | 0 <= j < |idx| :: idx[j] in idx && Outranks(scores, x, idx[j])
    ensures Indices([x] + idx, scores) && InOrder([x] + idx, scores)
  {
    var all := [x] + idx;
    forall i, j | 0 <= i < j < |all| ensures all[i] in all && all[j] in all && Outranks(scores, all[i], all[j]) {
      assert all[j] == idx[j - 1];
    }
  }

  lemma {:induction false} FrontKeepsOrder(x: nat, idx: seq<nat>, scores: seq<real>)
    requires x < |scores| && idx != [] && Indices(idx, scores) && InOrder(idx, scores)
    requires idx[0] in idx && Outranks(scores, x, idx[0])
    ensures InOrder([x] + idx, scores)
  {
    forall j | 0 <= j < |idx| ensures idx[j] in idx && Outranks(scores, x, idx[j]) {
      assert idx[j] in idx;
    }
    FrontAhead(x, idx, scores);
  }

  lemma {:induction false} RankedInOrder(scores: seq<real>, n: nat)
    requires n <= |scores|
    ensures Indices(Ranked(scores, n), scores) && InOrder(Ranked(scores, n), scores)
  {
    if n > 0 {
      RankedInOrder(scores, n - 1);
      assert n - 1 !in Ranked(scores, n - 1);
      InsertKeepsOrder(n - 1, Ranked(scores, n - 1), scores);
    }
  }

  /** The k best exactly: min(k, n) different candidates in order of score with ties by index, and
      none left out outranks one kept. */
  lemma {:induction false} TopKExactly(ss: seq<Signals>, w: Weights, k: nat)
    ensures var top, scores := TopK(ss, w, k), Scores(ss, w);
            && |top| == (if k < |ss| then k else |ss|)
            && (forall i | 0 <= i < |top| :: top[i] < |ss|)
            && (forall i, j | 0 <= i < j < |top| :: top[i] != top[j] && Outranks(scores, top[i], top[j]))
            && forall i, o | 0 <= i < |top| && 0 <= o < |ss| && o !in top :: Outranks(scores, top[i], o)
  {
    var scores := Scores(ss, w);
    var ranked, top := Ranked(scores, |ss|), TopK(ss, w, k);
    RankedInOrder(scores, |ss|);
    assert forall i | 0 <= i < |ranked| :: ranked[i] in ranked;
    forall i, o | 0 <= i < |top| && 0 <= o < |ss| && o !in top ensures Outranks(scores, top[i], o) {
      assert o in ranked;
      var p :| 0 <= p < |ranked| && ranked[p] == o;
      assert p >= |top|;
      assert top[i] == ranked[i];
    }
  }

  // ---------- shifting and scaling relevance ----------

  function Line(x: real, a: real, c: real): real {
    a * x + c
  }

  ghost predicate Affine(xs: seq<real>, ys: seq<real>, a: real, c: real) {
    |xs| == |ys| && forall i | 0 <= i < |xs| :: ys[i] == Line(xs[i], a, c)
  }

  ghost predicate Mapped(xs: seq<real>, ys: seq<real>, f: real -> real) {
    |xs| == |ys| && forall i | 0 <= i < |xs| :: ys[i] == f(xs[i])
  }

  ghost predicate Rising(f: real -> real) {
    forall x, y :: x < y <==> f(x) < f(y)
  }

  lemma {:induction false} ExtremesMapped(xs: seq<real>, ys: seq<real>, f: real -> real)
    requires xs != [] && Mapped(xs, ys, f) && Rising(f)
    ensures Lowest(ys) == f(Lowest(xs)) && Highest(ys) == f(Highest(xs))
  {
    if |xs| == 1 {
    } else {
      ExtremesMapped(xs[..|xs| - 1], ys[..|ys| - 1], f);
    }
  }

  lemma {:induction false} OrderMoves(x: real, y: real, a: real, c: real)
    requires a > 0.0
    ensures x < y <==> Line(x, a, c) < Line(y, a, c)
  {
    Distributes(a, x, y);
    TimesPositive(a, y - x);
    TimesPositive(a, x - y);
  }

  lemma {:induction false} Distributes(a: real, x: real, y: real)
    ensures a * (y - x) == a * y - a * x && a * (x - y) == a * x - a * y
  {
  }

  lemma {:induction false} TimesPositive(a: real, d: real)
    requires a > 0.0
    ensures d > 0.0 ==> a * d > 0.0
    ensures d == 0.0 ==> a * d == 0.0
  {
  }

  lemma {:induction false} NormMoved(x: real, lo: real, hi: real, fx: real, flo: real, fhi: real, a: real, c: real)
    requires a > 0.0 && hi - lo > EPSILON && fhi - flo > EPSILON
    requires fx == Line(x, a, c) && flo == Line(lo, a, c) && fhi == Line(hi, a, c)
    ensures Norm(fx, flo, fhi - flo) == Norm(x, lo, hi - lo)
  {
    var q := (x - lo) / (hi - lo);
    assert x - lo == q * (hi - lo);
    assert fx - flo == a * (x - lo);
    assert fhi - flo == a * (hi - lo);
    assert a * (x - lo) == q * (a * (hi - lo));
    Divided(fx - flo, q, fhi - flo);
  }

  ghost predicate KeepsNorm(f: real -> real, lo: real, hi: real) {
    forall x :: Norm(f(x), f(lo), f(hi) - f(lo)) == Norm(x, lo, hi - lo)
  }

  lemma {:induction false} NormalisedMapped(xs: seq<real>, ys: seq<real>, f: real -> real)
    requires xs != [] && Mapped(xs, ys, f) && Rising(f) && KeepsNorm(f, Lowest(xs), Highest(xs))
    ensures Normalised(ys) == Normalised(xs)
  {
    ExtremesMapped(xs, ys, f);
    forall i | 0 <= i < |xs| ensures Normalised(ys)[i] == Normalised(xs)[i] {
      assert ys[i] == f(xs[i]);
    }
  }

  lemma {:induction false} LineRises(f: real -> real, a: real, c: real)
    requires a > 0.0 && forall x :: f(x) == Line(x, a, c)
    ensures Rising(f)
  {
    forall x, y ensures x < y <==> f(x) < f(y) {
      OrderMoves(x, y, a, c);
    }
  }

  lemma {:induction false} LineKeepsNorm(f: real -> real, a: real, c: real, lo: real, hi: real)
    requires a > 0.0 && (forall x :: f(x) == Line(x, a, c)) && (hi - lo > EPSILON <==> f(hi) - f(lo) > EPSILON)
    ensures KeepsNorm(f, lo, hi)
  {
    if hi - lo > EPSILON {
      forall x ensures Norm(f(x), f(lo), f(hi) - f(lo)) == Norm(x, lo, hi - lo) {
        NormMoved(x, lo, hi, f(x), f(lo), f(hi), a, c);
      }
    }
  }

  lemma {:induction false} NormalisedKept(xs: seq<real>, ys: seq<real>, a: real, c: real)
    requires a > 0.0 && Affine(xs, ys, a, c) && (Spread(xs) > EPSILON <==> Spread(ys) > EPSILON)
    ensures Normalised(ys) == Normalised(xs)
  {
    if xs != [] {
      var f := x => Line(x, a, c);
      LineRises(f, a, c);
      ExtremesMapped(xs, ys, f);
      LineKeepsNorm(f, a, c, Lowest(xs), Highest(xs));
      NormalisedMapped(xs, ys, f);
    }
  }

  ghost predicate RelevanceMoved(ss: seq<Signals>, ts: seq<Signals>, a: real, c: real) {
    |ss| == |ts| && forall i | 0 <= i < |ss| :: ts[i] == ss[i].(relevance := Line(ss[i].relevance, a, c))
  }

  /** Scaling every relevance by a positive factor and adding a constant changes no score and no ranking,
      as long as the spread exceeds epsilon before and after, or neither time. */
  lemma {:induction false} RankingIsScaleFree(ss: seq<Signals>, ts: seq<Signals>, a: real, c: real, w: Weights, k: nat)
    requires a > 0.0 && RelevanceMoved(ss, ts, a, c)
    requires Spread(Relevances(ss)) > EPSILON <==> Spread(Relevances(ts)) > EPSILON
    ensures Scores(ts, w) == Scores(ss, w) && TopK(ts, w, k) == TopK(ss, w, k)
  {
    assert Affine(Relevances(ss), Relevances(ts), a, c);
    NormalisedKept(Relevances(ss), Relevances(ts), a, c);
    assert Recencies(ts) == Recencies(ss);
    assert Scores(ts, w) == Scores(ss, w);
  }

  lemma {:induction false} SpreadShifts(xs: seq<real>, ys: seq<real>, c: real)
    requires Affine(xs, ys, 1.0, c)
    ensures Spread(ys) == Spread(xs)
  {
    if xs != [] {
      ExtremesMapped(xs, ys, x => x + c);
    }
  }

  /** A plain shift always leaves the ranking alone. */
  lemma {:induction false} RankingIsShiftProof(ss: seq<Signals>, ts: seq<Signals>, c: real, w: Weights, k: nat)
    requires RelevanceMoved(ss, ts, 1.0, c)
    ensures Scores(ts, w) == Scores(ss, w) && TopK(ts, w, k) == TopK(ss, w, k)
  {
    SpreadShifts(Relevances(ss), Relevances(ts), c);
    RankingIsScaleFree(ss, ts, 1.0, c, w, k);
  }

  // Both spreads carry information, or neither does.
  predicate SameSide(ss: seq<Signals>, ts: seq<Signals>) {
    Spread(Relevances(ss)) > EPSILON <==> Spread(Relevances(ts)) > EPSILON
  }

  lemma {:induction false} TimesDiffers(b: real, x: real, y: real)
    requires b != 0.0 && x != y
    ensures b * x != b * y
  {
    Distributes(b, x, y);
    if b > 0.0 {
      TimesPositive(b, y - x);
      TimesPositive(b, x - y);
    } else {
      TimesPositive(-b, y - x);
      TimesPositive(-b, x - y);
      assert -b * (y - x) == -(b * (y - x)) && -b * (x - y) == -(b * (x - y));
    }
  }

  lemma {:induction false} OneScoreDiffers(ss: seq<Signals>, ts: seq<Signals>, w: Weights, i: nat)
    requires i < |ss| == |ts| && w.beta != 0.0 && ss[i].importance == ts[i].importance
    requires Normalised(Recencies(ss)) == Normalised(Recencies(ts))
    requires Normalised(Relevances(ss))[i] != Normalised(Relevances(ts))[i]
    ensures Scores(ss, w) != Scores(ts, w)
  {
    TimesDiffers(w.beta, Normalised(Relevances(ss))[i], Normalised(Relevances(ts))[i]);
    assert Scores(ss, w)[i] != Scores(ts, w)[i];
  }

  // With a spread the lowest candidate is normalised to 0, without one to a half.
  lemma {:induction false} LowestTellsSides(xs: seq<real>, ys: seq<real>) returns (i: nat)
    requires |xs| == |ys| && Spread(xs) > EPSILON && Spread(ys) <= EPSILON
    ensures i < |xs| && Normalised(xs)[i] == 0.0 && Normalised(ys)[i] == 0.5
  {
    ExtremesExactly(xs);
    i :| 0 <= i < |xs| && xs[i] == Lowest(xs);
    NormalisedExactly(xs, i, i);
    NormalisedExactly(ys, i, i);
  }

  lemma {:induction false} RelevanceIgnored(ss: seq<Signals>, ts: seq<Signals>, a: real, c: real, w: Weights)
    requires RelevanceMoved(ss, ts, a, c) && w.beta == 0.0
    ensures Scores(ts, w) == Scores(ss, w)
  {
    assert Recencies(ts) == Recencies(ss);
    forall i | 0 <= i < |ss| ensures Scores(ts, w)[i] == Scores(ss, w)[i] {
      NoRelevance(Normalised(Recencies(ss))[i], Normalised(Relevances(ss))[i], Normalised(Relevances(ts))[i],
                  ss[i].importance, w);
    }
  }

  lemma {:induction false} NoRelevance(r: real, x: real, y: real, m: real, w: Weights)
    requires w.beta == 0.0
    ensures Score(r, x, m, w) == Score(r, y, m, w)
  {
  }

  /** Scaling and shifting all relevances keeps the scores if and only if relevance has no weight or both
      spreads lie on one side of epsilon. */
  lemma {:induction false} ScoresKeptExactly(ss: seq<Signals>, ts: seq<Signals>, a: real, c: real, w: Weights)
    requires a > 0.0 && RelevanceMoved(ss, ts, a, c)
    ensures Scores(ts, w) == Scores(ss, w) <==> w.beta == 0.0 || SameSide(ss, ts)
  {
    assert Recencies(ts) == Recencies(ss);
    if w.beta == 0.0 {
      RelevanceIgnored(ss, ts, a, c, w);
    } else if SameSide(ss, ts) {
      RankingIsScaleFree(ss, ts, a, c, w, 0);
    } else if Spread(Relevances(ss)) > EPSILON {
      var i := LowestTellsSides(Relevances(ss), Relevances(ts));
      OneScoreDiffers(ss, ts, w, i);
    } else {
      var i := LowestTellsSides(Relevances(ts), Relevances(ss));
      OneScoreDiffers(ts, ss, w, i);
    }
  }

  lemma {:induction false} RankedIsTopK(ss: seq<Signals>, w: Weights)
    ensures TopK(ss, w, |ss|) == Ranked(Scores(ss, w), |ss|)
  {
  }

  // One full ranking holds one order.
  lemma {:induction false} SameOrder(ss: seq<Signals>, ts: seq<Signals>, w: Weights, x: nat, y: nat)
    requires |ss| == |ts| && TopK(ss, w, |ss|) == TopK(ts, w, |ts|) && x < |ss| && y < |ss|
    requires Outranks(Scores(ss, w), x, y)
    ensures Outranks(Scores(ts, w), x, y)
  {
    var top := TopK(ss, w, |ss|);
    RankedIsTopK(ss, w);
    TopKExactly(ss, w, |ss|);
    TopKExactly(ts, w, |ts|);
    assert x in top && y in top;
    var p :| 0 <= p < |top| && top[p] == x;
    var q :| 0 <= q < |top| && top[q] == y;
    assert p < q;
  }

  // For one of the two weights the ranking by relevance alone is not the ranking by index.
  lemma {:induction false} SidesReorder(us: seq<Signals>, vs: seq<Signals>)
    requires |us| == |vs| && Spread(Relevances(us)) > EPSILON && Spread(Relevances(vs)) <= EPSILON
    ensures exists b: real ::
              TopK(us, Weights(0.0, b, 0.0), |us|) != TopK(vs, Weights(0.0, b, 0.0), |vs|)
  {
    var i, j := EndsFound(Relevances(us));
    var up, down := Weights(0.0, 1.0, 0.0), Weights(0.0, -1.0, 0.0);
    Alone(us, 1.0, i);
    Alone(us, 1.0, j);
    Alone(us, -1.0, i);
    Alone(us, -1.0, j);
    NormalisedExactly(Relevances(vs), i, j);
    NormalisedExactly(Relevances(vs), j, i);
    Alone(vs, 1.0, i);
    Alone(vs, 1.0, j);
    Alone(vs, -1.0, i);
    Alone(vs, -1.0, j);
    if TopK(us, up, |us|) == TopK(vs, up, |vs|) && TopK(us, down, |us|) == TopK(vs, down, |vs|) {
      SameOrder(us, vs, up, j, i);
      SameOrder(us, vs, down, i, j);
      assert false;
    }
  }

  lemma {:induction false} EndsFound(xs: seq<real>) returns (i: nat, j: nat)
    requires Spread(xs) > EPSILON
    ensures i < |xs| && j < |xs| && Normalised(xs)[i] == 0.0 && Normalised(xs)[j] == 1.0
  {
    ExtremesExactly(xs);
    i :| 0 <= i < |xs| && xs[i] == Lowest(xs);
    j :| 0 <= j < |xs| && xs[j] == Highest(xs);
    NormalisedExactly(xs, i, j);
    NormalisedExactly(xs, j, i);
  }

  lemma {:induction false} Alone(ss: seq<Signals>, b: real, i: nat)
    requires i < |ss|
    ensures Scores(ss, Weights(0.0, b, 0.0))[i] == b * Normalised(Relevances(ss))[i]
  {
  }

  /** Scaling and shifting all relevances keeps every ranking, whatever the weights and the number kept, if
      and only if both spreads lie on one side of epsilon. */
  lemma {:induction false} RankingsKeptExactly(ss: seq<Signals>, ts: seq<Signals>, a: real, c: real)
    requires a > 0.0 && RelevanceMoved(ss, ts, a, c)
    ensures (forall w, k :: TopK(ts, w, k) == TopK(ss, w, k)) <==> SameSide(ss, ts)
  {
    if SameSide(ss, ts) {
      forall w, k ensures TopK(ts, w, k) == TopK(ss, w, k) {
        RankingIsScaleFree(ss, ts, a, c, w, k);
      }
    } else if Spread(Relevances(ss)) > EPSILON {
      SidesReorder(ss, ts);
      var b: real :| TopK(ss, Weights(0.0, b, 0.0), |ss|) != TopK(ts, Weights(0.0, b, 0.0), |ts|);
    } else {
      SidesReorder(ts, ss);
      var b: real :| TopK(ts, Weights(0.0, b, 0.0), |ts|) != TopK(ss, Weights(0.0, b, 0.0), |ss|);
    }
  }

  lemma {:induction false} SpreadOfTwo(xs: seq<real>)
    requires |xs| == 2 && xs[0] <= xs[1]
    ensures Lowest(xs) == xs[0] && Highest(xs) == xs[1] && Spread(xs) == xs[1] - xs[0]
  {
    assert Lowest(xs[..1]) == xs[0] && Highest(xs[..1]) == xs[0];
  }

  lemma {:induction false} FirstOfTwo(ss: seq<Signals>, w: Weights)
    requires |ss| == 2
    ensures TopK(ss, w, 1) == [if Scores(ss, w)[1] > Scores(ss, w)[0] then 1 else 0]
  {
    TopKExactly(ss, w, 1);
    var top := TopK(ss, w, 1);
    assert top == [top[0]];
    var other := 1 - top[0];
    assert other !in top && Outranks(Scores(ss, w), top[0], other);
  }

  lemma {:induction false} TwoByRelevance(ss: seq<Signals>, w: Weights, high: real)
    requires high > 0.0 && ss == [Signals(0.0, 0.0, 0.0), Signals(0.0, high, 0.0)] && w == Weights(0.0, 1.0, 0.0)
    ensures TopK(ss, w, 1) == [if high > EPSILON then 1 else 0]
  {
    var xs := Relevances(ss);
    SpreadOfTwo(xs);
    NormalisedExactly(xs, 0, 1);
    NormalisedExactly(xs, 1, 0);
    Alone(ss, 1.0, 0);
    Alone(ss, 1.0, 1);
    FirstOfTwo(ss, w);
  }

  /** Across epsilon a scaling can turn a ranking round: what relevance decided becomes a tie. */
  lemma {:induction false} ScalingAcrossEpsilonReorders() returns (ss: seq<Signals>, ts: seq<Signals>, w: Weights)
    ensures RelevanceMoved(ss, ts, EPSILON, 0.0) && TopK(ss, w, 1) == [1] && TopK(ts, w, 1) == [0]
  {
    ss := [Signals(0.0, 0.0, 0.0), Signals(0.0, 1.0, 0.0)];
    ts := [Signals(0.0, 0.0, 0.0), Signals(0.0, EPSILON, 0.0)];
    w := Weights(0.0, 1.0, 0.0);
    TwoByRelevance(ss, w, 1.0);
    TwoByRelevance(ts, w, EPSILON);
  }
}
