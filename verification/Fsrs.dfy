// FSRS-6 spaced repetition and the dual-strength model (mypalace/dynamics/fsrs.py), over the
// reals. exp and pow are parameters; Laws lists the facts about them that are used.
module Fsrs {
  import opened Prelude

  datatype Math = Math(exp: real -> real, pow: (real, real) -> real)

  ghost predicate Laws(m: Math) {
    && (forall x :: m.exp(x) > 0.0)
    && (forall x :: x >= 0.0 ==> m.exp(x) >= 1.0)
    && (forall b, e :: b > 0.0 ==> m.pow(b, e) > 0.0)
    && (forall b, e :: b >= 1.0 && e >= 0.0 ==> m.pow(b, e) >= 1.0)
    && (forall b, e :: b >= 1.0 && e <= 0.0 ==> m.pow(b, e) <= 1.0)
    && (forall b, e :: 0.0 < b <= 1.0 && e <= 0.0 ==> m.pow(b, e) >= 1.0)
    && (forall a, b, e {:trigger m.pow(a, e), m.pow(b, e)} ::
        0.0 < a <= b && e <= 0.0 ==> m.pow(b, e) <= m.pow(a, e))
    && (forall b, d, e {:trigger m.pow(m.pow(b, d), e)} :: b > 0.0 && d * e == 1.0 ==> m.pow(m.pow(b, d), e) == b)
  }

  datatype Grade = Again | Hard | Good | Easy

  function GradeValue(g: Grade): int {
    match g case Again => 1 case Hard => 2 case Good => 3 case Easy => 4
  }

  // The default parameters, by their place in the source's tuple.
  const W0 := 0.212
  const W1 := 1.2931
  const W2 := 2.3065
  const W3 := 8.2956
  const W4 := 6.4133
  const W5 := 0.8334
  const W6 := 3.0194
  const W7 := 0.001
  const W8 := 1.8722
  const W9 := 0.1666
  const W10 := 0.796
  const W11 := 1.4835
  const W13 := 0.2629
  const W14 := 1.6483
  const W15 := 0.6014
  const W16 := 1.8729
  const W17 := 0.5425
  const W20 := 0.1542

  type Days = real

  datatype MemoryState = MemoryState(
    stability: real, difficulty: real, retrieval: real, storage: real,
    lastReview: Option<Days>, reviews: int)

  const FRESH := MemoryState(1.0, 5.0, 1.0, 0.5, None, 0)

  function Min(a: real, b: real): real { if b < a then b else a }
  function Max(a: real, b: real): real { if b > a then b else a }

  function CurveBase(factor: real, elapsed: Days, stability: real): real
    requires stability != 0.0
  {
    1.0 + factor * elapsed / stability
  }

  function Retrievability(m: Math, elapsed: Days, stability: real): real {
    if elapsed <= 0.0 then 1.0
    else if stability <= 0.0 then 0.0
    else
      var factor := m.pow(0.9, -1.0 / W20) - 1.0;
      m.pow(CurveBase(factor, elapsed, stability), -W20)
  }

  function InitialStability(g: Grade): real {
    match g case Again => W0 case Hard => W1 case Good => W2 case Easy => W3
  }

  function ConstrainDifficulty(d: real): real { Max(1.0, Min(10.0, d)) }

  function InitialDifficulty(m: Math, g: Grade): real {
    ConstrainDifficulty(W4 - m.exp(W5 * (GradeValue(g) - 1) as real) + 1.0)
  }

  function MeanReversion(d: real): real { W13 * W4 + (1.0 - W13) * d }

  function UpdateDifficulty(d: real, g: Grade): real {
    ConstrainDifficulty(MeanReversion(d + W11 * (GradeValue(g) - 3) as real))
  }

  function Growth(m: Math, stability: real, difficulty: real, r: real, g: Grade): real {
    var bonus := match g case Hard => W9 case Easy => W10 case _ => 1.0;
    m.exp(W6) * (11.0 - difficulty) * m.pow(stability, -W7) * (m.exp(W8 * (1.0 - r)) - 1.0) * bonus
  }

  function UpdateStabilitySuccess(m: Math, stability: real, difficulty: real, r: real, g: Grade): real {
    Max(0.1, stability * (1.0 + Growth(m, stability, difficulty, r, g)))
  }

  function UpdateStabilityFailure(m: Math, stability: real, difficulty: real, r: real): real {
    var relearned := W14 * m.pow(difficulty, -W15) * (m.pow(stability + 1.0, W16) - 1.0) * m.exp(W17 * (1.0 - r));
    Max(0.1, Min(relearned, stability))
  }

  // Retrieval strength just before the review; stored memories decay more slowly.
  function DecayRate(storage: real): real
    requires storage != -1.0
  {
    0.1 * (1.0 / (1.0 + storage))
  }

  function Decayed(m: Math, retrieval: real, storage: real, elapsed: Days): real
    requires storage != -1.0 // the source divides by 1 + storage
  {
    retrieval * m.exp(-DecayRate(storage) * elapsed)
  }

  function Strengthen(decayed: real, storage: real, g: Grade): (real, real) {
    if g.Again? then (0.3, storage + 0.05)
    else
      var bonus := Max(0.0, 1.0 - decayed);
      var (boost, gain) := match g
        case Hard => (0.5, 0.1 + 0.1 * bonus)
        case Good => (0.7, 0.15 + 0.15 * bonus)
        case _ => (0.9, 0.1 + 0.05 * bonus);
      (Min(1.0, decayed + boost), Min(1.0, storage + gain))
  }

  function UpdateDualStrength(m: Math, retrieval: real, storage: real, g: Grade, elapsed: Days): (real, real)
    requires storage != -1.0
  {
    Strengthen(Decayed(m, retrieval, storage, elapsed), storage, g)
  }

  datatype ReviewResult = ReviewResult(newState: MemoryState, retrievabilityBefore: real, nextReviewDays: Days)

  function Elapsed(s: MemoryState, now: Days): Days {
    if s.lastReview.None? then 0.0 else now - s.lastReview.value
  }

  function Review(m: Math, s: MemoryState, g: Grade, now: Days): ReviewResult
    requires s.storage != -1.0
  {
    var elapsed := Elapsed(s, now);
    var r := if s.reviews == 0 then 1.0 else Retrievability(m, elapsed, s.stability);
    var stability :=
      if s.reviews == 0 then InitialStability(g)
      else if g.Again? then UpdateStabilityFailure(m, s.stability, s.difficulty, r)
      else UpdateStabilitySuccess(m, s.stability, s.difficulty, r, g);
    var difficulty := if s.reviews == 0 then InitialDifficulty(m, g) else UpdateDifficulty(s.difficulty, g);
    var (retrieval, storage) := UpdateDualStrength(m, s.retrieval, s.storage, g, elapsed);
    ReviewResult(MemoryState(stability, difficulty, retrieval, storage, Some(now), s.reviews + 1), r, stability)
  }

  function CalculateMemoryScore(retrievability: real, storage: real, importance: real): real {
    (0.7 * retrievability + 0.3 * storage) * importance
  }

  // ---- What every run of reviews keeps ----

  predicate Sane(s: MemoryState) {
    && s.stability >= 0.1
    && 1.0 <= s.difficulty <= 10.0
    && 0.3 <= s.retrieval <= 1.0
    && s.storage >= 0.5
  }

  // Storage is not capped at one: each failure since the last success may add 0.05 above it.
  predicate StorageBound(s: MemoryState, failures: nat) {
    s.storage <= 1.0 + 0.05 * failures as real
  }

  function Streak(failures: nat, g: Grade): nat { if g.Again? then failures + 1 else 0 }

  lemma MulPositive(a: real, b: real)
    requires a > 0.0 && b > 0.0
    ensures a * b > 0.0
  {
  }

  lemma DecayedPositive(m: Math, retrieval: real, storage: real, elapsed: Days)
    requires Laws(m) && retrieval > 0.0 && storage != -1.0
    ensures Decayed(m, retrieval, storage, elapsed) > 0.0
  {
    var e := -DecayRate(storage) * elapsed;
    assert m.exp(e) > 0.0;
    hide Laws;
    MulPositive(retrieval, m.exp(e));
  }

  lemma StrengthRange(decayed: real, s: MemoryState, g: Grade, failures: nat)
    requires decayed > 0.0 && Sane(s) && StorageBound(s, failures)
    ensures var (retrieval, storage) := Strengthen(decayed, s.storage, g);
      && 0.3 <= retrieval <= 1.0 && 0.5 <= storage <= 1.0 + 0.05 * Streak(failures, g) as real
      && (storage > 1.0 <==> g.Again? && s.storage > 0.95)
  {
  }

  lemma StepStrength(m: Math, s: MemoryState, g: Grade, elapsed: Days, failures: nat)
    requires Laws(m) && Sane(s) && StorageBound(s, failures)
    ensures var (retrieval, storage) := UpdateDualStrength(m, s.retrieval, s.storage, g, elapsed);
      && 0.3 <= retrieval <= 1.0 && 0.5 <= storage <= 1.0 + 0.05 * Streak(failures, g) as real
      && (storage > 1.0 <==> g.Again? && s.storage > 0.95)
  {
    hide Laws, Decayed, Strengthen;
    DecayedPositive(m, s.retrieval, s.storage, elapsed);
    StrengthRange(Decayed(m, s.retrieval, s.storage, elapsed), s, g, failures);
  }

  // One review, at any time whatever, keeps a state sane. It takes storage above one exactly
  // when it is a failure of a memory stored above 0.95.
  lemma {:induction false} StepSane(m: Math, s: MemoryState, g: Grade, now: Days, failures: nat)
    requires Laws(m) && Sane(s) && StorageBound(s, failures)
    ensures var s' := Review(m, s, g, now).newState;
      && Sane(s') && StorageBound(s', Streak(failures, g))
      && (s'.storage > 1.0 <==> g.Again? && s.storage > 0.95)
  {
    StepStrength(m, s, g, Elapsed(s, now), failures);
  }

  lemma StorageExists(m: Math, s: MemoryState, g: Grade, now: Days)
    requires Laws(m) && Sane(s)
    ensures Sane(Review(m, s, g, now).newState)
  {
    var k: nat := if s.storage <= 1.0 then 0 else (20.0 * s.storage).Floor;
    StepSane(m, s, g, now, k);
  }

  function RunReviews(m: Math, s: MemoryState, log: seq<(Grade, Days)>): (e: MemoryState)
    requires Sane(s)
    requires Laws(m)
    ensures Sane(e)
    decreases |log|
  {
    if log == [] then s
    else
      assert Sane(Review(m, s, log[0].0, log[0].1).newState) by { StorageExists(m, s, log[0].0, log[0].1); }
      RunReviews(m, Review(m, s, log[0].0, log[0].1).newState, log[1..])
  }

  function FailureStreak(failures: nat, log: seq<(Grade, Days)>): nat
    decreases |log|
  {
    if log == [] then failures else FailureStreak(Streak(failures, log[0].0), log[1..])
  }

  // Every run of reviews from a new memory keeps difficulty, stability and both strengths in
  // range, and bounds the ranking score.
  lemma {:induction false} RunsStaySane(m: Math, s: MemoryState, log: seq<(Grade, Days)>, failures: nat)
    requires Laws(m) && Sane(s) && StorageBound(s, failures)
    ensures var e := RunReviews(m, s, log);
      Sane(e) && StorageBound(e, FailureStreak(failures, log)) && e.reviews == s.reviews + |log|
    decreases |log|
  {
    if log == [] {
    } else {
      StepSane(m, s, log[0].0, log[0].1, failures);
      RunsStaySane(m, Review(m, s, log[0].0, log[0].1).newState, log[1..], Streak(failures, log[0].0));
    }
  }

  // ---- The forgetting curve ----

  lemma FactorPositive(m: Math)
    requires Laws(m)
    ensures m.pow(0.9, -1.0 / W20) >= 1.0
  {
    assert -1.0 / W20 <= 0.0;
  }

  lemma PowAtMostOne(m: Math, b: real)
    requires Laws(m) && b >= 1.0
    ensures 0.0 < m.pow(b, -W20) <= 1.0
  {
  }

  // Fractions compare as their cross products do.
  lemma CrossMultiply(x: real, s: real, y: real, s': real, p: real, q: real)
    requires s > 0.0 && s' > 0.0 && p * s == x && q * s' == y
    requires x * s' <= y * s
    ensures p <= q
  {
    assert (q * s) * s' == (q * s') * s;
    if p > q {
      MulStrict(q, p, s);
      MulStrict(q * s, p * s, s');
    }
  }

  lemma RatioMono(f: real, t: real, t': real, s: real, s': real)
    requires f >= 0.0 && 0.0 < t <= t' && 0.0 < s' <= s
    ensures 0.0 <= f * t / s <= f * t' / s'
  {
    var x, y := f * t, f * t';
    MulMono(t, t', f);
    MulMono(s', s, x);
    MulMono(x, y, s);
    CrossMultiply(0.0, s, x, s, 0.0, x / s);
    CrossMultiply(x, s, y, s', x / s, y / s');
  }

  lemma RetrievabilityRange(m: Math, elapsed: Days, stability: real)
    requires Laws(m) && stability > 0.0
    ensures 0.0 < Retrievability(m, elapsed, stability) <= 1.0
  {
    if elapsed > 0.0 {
      FactorPositive(m);
      RatioMono(m.pow(0.9, -1.0 / W20) - 1.0, elapsed, elapsed, stability, stability);
      PowAtMostOne(m, CurveBase(m.pow(0.9, -1.0 / W20) - 1.0, elapsed, stability));
    }
  }

  lemma CurveMono(f: real, t: Days, t': Days, s: real, s': real)
    requires f >= 0.0 && 0.0 < t <= t' && 0.0 < s' <= s
    ensures 1.0 <= CurveBase(f, t, s) <= CurveBase(f, t', s')
  {
    RatioMono(f, t, t', s, s');
  }

  lemma PowAntitone(m: Math, a: real, b: real)
    requires Laws(m) && 0.0 < a <= b
    ensures m.pow(b, -W20) <= m.pow(a, -W20)
  {
  }

  // Recall only falls with time and only rises with stability.
  lemma RetrievabilityMonotone(m: Math, t: Days, t': Days, s: real, s': real)
    requires Laws(m) && t <= t' && 0.0 < s' <= s
    ensures Retrievability(m, t', s') <= Retrievability(m, t, s)
  {
    RetrievabilityRange(m, t', s');
    FactorPositive(m);
    hide Laws, CurveBase;
    if t > 0.0 {
      var f := m.pow(0.9, -1.0 / W20) - 1.0;
      CurveMono(f, t, t', s, s');
      PowAntitone(m, CurveBase(f, t, s), CurveBase(f, t', s'));
    }
  }

  lemma DivSelf(a: real, d: real)
    requires d > 0.0
    ensures a * d / d == a
  {
  }

  lemma InversePowers(m: Math)
    requires Laws(m)
    ensures m.pow(m.pow(0.9, -1.0 / W20), -W20) == 0.9
  {
    var d, e := -1.0 / W20, -W20;
    assert d * e == 1.0;
  }

  lemma RecallAtStability(m: Math, d: Days)
    requires Laws(m) && d > 0.0
    ensures Retrievability(m, d, d) == 0.9
  {
    var factor := m.pow(0.9, -1.0 / W20) - 1.0;
    DivSelf(factor, d);
    assert CurveBase(factor, d, d) == m.pow(0.9, -1.0 / W20);
    InversePowers(m);
  }

  // At the day the next review is due, recall is exactly 0.9.
  lemma DueAtNinetyPercent(m: Math, s: MemoryState, g: Grade, now: Days)
    requires Laws(m) && Sane(s)
    ensures var res := Review(m, s, g, now);
      Retrievability(m, res.nextReviewDays, res.newState.stability) == 0.9
  {
    StorageExists(m, s, g, now);
    RecallAtStability(m, Review(m, s, g, now).nextReviewDays);
  }

  // Forgetting is linear in time on the right scale: the curve's base at a recall is proportional to
  // the time it took, in units of stability.
  lemma CurveIsLinear(m: Math, elapsed: Days, stability: real)
    requires Laws(m) && elapsed > 0.0 && stability > 0.0
    ensures (m.pow(Retrievability(m, elapsed, stability), -1.0 / 0.1542) - 1.0) * stability
         == (m.pow(0.9, -1.0 / 0.1542) - 1.0) * elapsed
  {
    FactorPositive(m);
    var f := m.pow(0.9, -1.0 / W20) - 1.0;
    RatioMono(f, elapsed, elapsed, stability, stability);
    var d, e := -W20, -1.0 / W20;
    assert d * e == 1.0;
    var base := CurveBase(f, elapsed, stability);
    assert base > 0.0 && m.pow(m.pow(base, d), e) == base;
    hide Laws;
    assert f * elapsed / stability * stability == f * elapsed;
  }

  // ---- The time since the last review ----

  // A later review counts the days from the last one, exactly.
  lemma ReviewCountsTheDays(m: Math, s: MemoryState, g: Grade, last: Days, d: Days)
    requires s.reviews != 0 && s.storage != -1.0 && s.lastReview == Some(last)
    ensures var res := Review(m, s, g, last + d);
      var r := Retrievability(m, d, s.stability);
      && res.retrievabilityBefore == r
      && res.newState.stability == (if g == Again then UpdateStabilityFailure(m, s.stability, s.difficulty, r)
                                    else UpdateStabilitySuccess(m, s.stability, s.difficulty, r, g))
      && (res.newState.retrieval, res.newState.storage) == UpdateDualStrength(m, s.retrieval, s.storage, g, d)
      && res.newState.lastReview == Some(last + d) && res.newState.reviews == s.reviews + 1
      && res.nextReviewDays == res.newState.stability
  {
  }

  // A review on the day the last one set for it finds recall at exactly 0.9.
  lemma DueReviewFindsNinetyPercent(m: Math, s: MemoryState, g: Grade, now: Days, g': Grade)
    requires Laws(m) && Sane(s) && s.reviews >= 0
    ensures var first := Review(m, s, g, now);
      first.newState.storage != -1.0
      && Review(m, first.newState, g', now + first.nextReviewDays).retrievabilityBefore == 0.9
  {
    StorageExists(m, s, g, now);
    var first := Review(m, s, g, now);
    RecallAtStability(m, first.nextReviewDays);
    ReviewCountsTheDays(m, first.newState, g', now, first.nextReviewDays);
  }

  // A first review sets the days by its grade alone.
  lemma FirstReviewIsDue(m: Math, s: MemoryState, g: Grade, now: Days)
    requires s.reviews == 0 && s.storage != -1.0
    ensures var res := Review(m, s, g, now);
      && res.nextReviewDays == res.newState.stability
      && res.nextReviewDays == (match g case Again => 0.212 case Hard => 1.2931 case Good => 2.3065 case Easy => 8.2956)
      && res.retrievabilityBefore == 1.0 && res.newState.lastReview == Some(now) && res.newState.reviews == 1
  {
  }

  // ---- The ranking score ----

  lemma WeightedBound(r: real, storage: real, importance: real, k: nat)
    requires 0.0 <= r <= 1.0 && 0.5 <= storage <= 1.0 + 0.05 * k as real && importance >= 0.0
    ensures 0.15 * importance <= CalculateMemoryScore(r, storage, importance) <= (1.0 + 0.015 * k as real) * importance
  {
    var base := 0.7 * r + 0.3 * storage;
    MulMono(0.15, base, importance);
    MulMono(base, 1.0 + 0.015 * k as real, importance);
  }

  lemma ScoreOfState(m: Math, s: MemoryState, failures: nat, elapsed: Days, importance: real)
    requires Laws(m) && importance >= 0.0 && Sane(s) && StorageBound(s, failures)
    ensures 0.15 * importance <= CalculateMemoryScore(Retrievability(m, elapsed, s.stability), s.storage, importance)
      <= (1.0 + 0.015 * failures as real) * importance
  {
    RetrievabilityRange(m, elapsed, s.stability);
    hide Laws, CalculateMemoryScore, Retrievability;
    WeightedBound(Retrievability(m, elapsed, s.stability), s.storage, importance, failures);
  }

  // The ranking score of a memory with any review history.
  lemma ScoreBound(m: Math, log: seq<(Grade, Days)>, elapsed: Days, importance: real)
    requires Laws(m) && importance >= 0.0
    ensures var e := RunReviews(m, FRESH, log);
      var score := CalculateMemoryScore(Retrievability(m, elapsed, e.stability), e.storage, importance);
      0.15 * importance <= score <= (1.0 + 0.015 * FailureStreak(0, log) as real) * importance
  {
    hide Laws, RunReviews, FailureStreak, CalculateMemoryScore, Retrievability;
    RunsStaySane(m, FRESH, log, 0);
    hide Sane, StorageBound;
    ScoreOfState(m, RunReviews(m, FRESH, log), FailureStreak(0, log), elapsed, importance);
  }

  // ---- Success never forgets, failure never strengthens ----

  lemma ProductNonneg(a: real, b: real, c: real, d: real, e: real)
    requires a >= 0.0 && b >= 0.0 && c >= 0.0 && d >= 0.0 && e >= 0.0
    ensures a * b * c * d * e >= 0.0
  {
    assert a * b >= 0.0;
    assert a * b * c >= 0.0;
    assert a * b * c * d >= 0.0;
  }

  lemma StabilityDirection(m: Math, s: MemoryState, g: Grade, now: Days)
    requires Laws(m) && Sane(s) && s.reviews != 0
    ensures var s' := Review(m, s, g, now).newState;
      if g.Again? then s'.stability <= s.stability else s'.stability >= s.stability
  {
    if !g.Again? {
      var r := Retrievability(m, Elapsed(s, now), s.stability);
      RetrievabilityRange(m, Elapsed(s, now), s.stability);
      var bonus := match g case Hard => W9 case Easy => W10 case _ => 1.0;
      assert W8 * (1.0 - r) >= 0.0;
      assert m.exp(W8 * (1.0 - r)) >= 1.0;
      ProductNonneg(m.exp(W6), 11.0 - s.difficulty, m.pow(s.stability, -W7), m.exp(W8 * (1.0 - r)) - 1.0, bonus);
      var growth := Growth(m, s.stability, s.difficulty, r, g);
      assert s.stability * (1.0 + growth) >= s.stability;
    }
  }

  // ---- How reviews compare ----

  // What comparisons need to know about exp besides Laws.
  ghost predicate ExpGrows(m: Math) {
    m.exp(0.0) == 1.0 && forall x, y {:trigger m.exp(x), m.exp(y)} :: x < y ==> m.exp(x) < m.exp(y)
  }

  lemma ExpMono(m: Math, x: real, y: real)
    requires ExpGrows(m) && x <= y
    ensures m.exp(x) <= m.exp(y) && (x < y ==> m.exp(x) < m.exp(y))
  {
  }

  lemma ProductMono(a: real, b: real, c: real, d: real, e: real, b': real, c': real, d': real)
    requires a >= 0.0 && e >= 0.0 && 0.0 <= b' <= b && 0.0 <= c' <= c && 0.0 <= d' <= d
    ensures a * b' * c' * d' * e <= a * b * c * d * e
  {
    MulMono(b', b, a);
    MulMono(a * b', a * b, c');
    MulMono(c', c, a * b);
    MulMono(a * b' * c', a * b * c, d');
    MulMono(d', d, a * b * c);
    MulMono(a * b' * c' * d', a * b * c * d, e);
  }

  lemma ProductSign(a: real, b: real, c: real, d: real, e: real)
    requires a > 0.0 && b > 0.0 && c > 0.0 && d >= 0.0 && e > 0.0
    ensures a * b * c * d * e >= 0.0 && (a * b * c * d * e > 0.0 <==> d > 0.0)
  {
    MulPositive(a, b);
    MulPositive(a * b, c);
    if d > 0.0 {
      MulPositive(a * b * c, d);
      MulPositive(a * b * c * d, e);
    }
  }

  function Bonus(g: Grade): real { match g case Hard => 0.1666 case Easy => 0.796 case _ => 1.0 }

  lemma BonusPositive(g: Grade)
    ensures Bonus(g) > 0.0
  {
  }

  // What a recall below one adds.
  function Surprise(m: Math, r: real): real { m.exp(W8 * (1.0 - r)) - 1.0 }

  lemma SurpriseMono(m: Math, r: real, r': real)
    requires ExpGrows(m) && r <= r' <= 1.0
    ensures 0.0 <= Surprise(m, r') <= Surprise(m, r) && (Surprise(m, r') > 0.0 <==> r' < 1.0)
  {
    ExpMono(m, W8 * (1.0 - r'), W8 * (1.0 - r));
    ExpMono(m, 0.0, W8 * (1.0 - r'));
  }

  lemma GrowthFactors(m: Math, s: real, d: real, r: real, g: Grade)
    ensures Growth(m, s, d, r, g) == m.exp(W6) * (11.0 - d) * m.pow(s, -W7) * Surprise(m, r) * Bonus(g)
  {
  }

  lemma ConsolidationMono(m: Math, s: real, s': real)
    requires Laws(m) && 0.0 < s <= s'
    ensures 0.0 < m.pow(s', -W7) <= m.pow(s, -W7) && m.exp(W6) > 0.0
  {
  }

  // The growth on success falls with stability, with difficulty and with recall, and is none at full recall.
  lemma GrowthAntitone(m: Math, s: real, d: real, r: real, s': real, d': real, r': real, g: Grade)
    requires Laws(m) && ExpGrows(m) && 0.0 < s <= s' && d <= d' <= 10.0 && r <= r' <= 1.0
    ensures 0.0 <= Growth(m, s', d', r', g) <= Growth(m, s, d, r, g)
    ensures r' < 1.0 <==> Growth(m, s', d', r', g) > 0.0
  {
    hide *;
    SurpriseMono(m, r, r');
    ConsolidationMono(m, s, s');
    GrowthFactors(m, s, d, r, g);
    GrowthFactors(m, s', d', r', g);
    BonusPositive(g);
    ProductSign(m.exp(W6), 11.0 - d', m.pow(s', -W7), Surprise(m, r'), Bonus(g));
    ProductMono(m.exp(W6), 11.0 - d, m.pow(s, -W7), Surprise(m, r), Bonus(g),
                11.0 - d', m.pow(s', -W7), Surprise(m, r'));
  }

  lemma SuccessGains(m: Math, s: real, d: real, r: real, g: Grade)
    requires Laws(m) && ExpGrows(m) && s >= 0.1 && d <= 10.0 && r <= 1.0
    ensures UpdateStabilitySuccess(m, s, d, r, g) == s * (1.0 + Growth(m, s, d, r, g)) >= s
    ensures UpdateStabilitySuccess(m, s, d, r, g) > s <==> r < 1.0
  {
    GrowthAntitone(m, s, d, r, s, d, r, g);
    hide Growth, Laws, ExpGrows;
    var growth := Growth(m, s, d, r, g);
    MulMono(1.0, 1.0 + growth, s);
    if growth > 0.0 {
      MulStrict(1.0, 1.0 + growth, s);
    }
  }

  lemma RelativeGain(s: real, x: real, u: real, s': real, x': real, u': real)
    requires s > 0.0 && s' > 0.0 && x' <= x && u == s * (1.0 + x) && u' == s' * (1.0 + x')
    ensures u' * s <= u * s'
  {
    MulPositive(s, s');
    MulMono(x', x, s * s');
    assert u' * s == s * s' + x' * (s * s');
    assert u * s' == s * s' + x * (s * s');
  }

  // Relative to what it was, stability gains the more from a success the lower stability, difficulty
  // and recall were; and it gains at all exactly when recall was below one.
  lemma SuccessDirections(m: Math, s: real, d: real, r: real, s': real, d': real, r': real, g: Grade)
    requires Laws(m) && ExpGrows(m) && 0.1 <= s <= s' && d <= d' <= 10.0 && r <= r' <= 1.0
    ensures UpdateStabilitySuccess(m, s', d', r', g) * s <= UpdateStabilitySuccess(m, s, d, r, g) * s'
    ensures UpdateStabilitySuccess(m, s', d', r', g) > s' <==> r' < 1.0
  {
    hide *;
    GrowthAntitone(m, s, d, r, s', d', r', g);
    SuccessGains(m, s, d, r, g);
    SuccessGains(m, s', d', r', g);
    RelativeGain(s, Growth(m, s, d, r, g), UpdateStabilitySuccess(m, s, d, r, g),
                 s', Growth(m, s', d', r', g), UpdateStabilitySuccess(m, s', d', r', g));
  }

  lemma ByBonus(x: real)
    requires x * Bonus(Good) >= 0.0
    ensures x * Bonus(Hard) <= x * Bonus(Easy) <= x * Bonus(Good)
    ensures x * Bonus(Easy) < x * Bonus(Good) <==> x * Bonus(Good) > 0.0
  {
  }

  lemma GrowthByGrade(m: Math, s: real, d: real, r: real)
    requires Laws(m) && ExpGrows(m) && s > 0.0 && d <= 10.0 && r <= 1.0
    ensures Growth(m, s, d, r, Hard) <= Growth(m, s, d, r, Easy) <= Growth(m, s, d, r, Good)
    ensures Growth(m, s, d, r, Easy) < Growth(m, s, d, r, Good) <==> r < 1.0
  {
    GrowthAntitone(m, s, d, r, s, d, r, Good);
    hide Laws, ExpGrows, Growth, Surprise;
    GrowthFactors(m, s, d, r, Hard);
    GrowthFactors(m, s, d, r, Good);
    GrowthFactors(m, s, d, r, Easy);
    ByBonus(m.exp(W6) * (11.0 - d) * m.pow(s, -W7) * Surprise(m, r));
  }

  lemma GainsByGrade(m: Math, s: real, d: real, r: real)
    requires Laws(m) && ExpGrows(m) && s >= 0.1 && d <= 10.0 && r <= 1.0
    ensures var after := (g: Grade) => UpdateStabilitySuccess(m, s, d, r, g);
      && s <= after(Hard) <= after(Easy) <= after(Good)
      && (after(Easy) < after(Good) <==> r < 1.0)
  {
    hide *;
    SuccessGains(m, s, d, r, Hard);
    SuccessGains(m, s, d, r, Easy);
    SuccessGains(m, s, d, r, Good);
    GrowthByGrade(m, s, d, r);
    var h, e, g := Growth(m, s, d, r, Hard), Growth(m, s, d, r, Easy), Growth(m, s, d, r, Good);
    MulMono(1.0 + h, 1.0 + e, s);
    MulMono(1.0 + e, 1.0 + g, s);
    if r < 1.0 {
      MulStrict(1.0 + e, 1.0 + g, s);
    }
  }

  lemma ReviewGains(m: Math, s: MemoryState, g: Grade, now: Days)
    requires s.reviews > 0 && s.storage != -1.0
    ensures var r := Retrievability(m, Elapsed(s, now), s.stability);
      && Review(m, s, g, now).retrievabilityBefore == r
      && Review(m, s, g, now).newState.stability ==
           (if g == Again then UpdateStabilityFailure(m, s.stability, s.difficulty, r)
            else UpdateStabilitySuccess(m, s.stability, s.difficulty, r, g))
  {
  }

  // The source speaks of an easy bonus above one; at 0.796 it is a penalty. So after the first review
  // an easy answer makes a memory less stable than a good one, exactly when recall was below one.
  lemma StabilityByGrade(m: Math, s: MemoryState, now: Days)
    requires Laws(m) && ExpGrows(m) && Sane(s) && s.reviews > 0
    ensures var after := (g: Grade) => Review(m, s, g, now).newState.stability;
      && after(Again) <= s.stability <= after(Hard) <= after(Easy) <= after(Good)
      && (after(Easy) < after(Good) <==> Review(m, s, Good, now).retrievabilityBefore < 1.0)
  {
    RetrievabilityRange(m, Elapsed(s, now), s.stability);
    StabilityDirection(m, s, Again, now);
    ReviewGains(m, s, Hard, now);
    ReviewGains(m, s, Easy, now);
    ReviewGains(m, s, Good, now);
    GainsByGrade(m, s.stability, s.difficulty, Retrievability(m, Elapsed(s, now), s.stability));
    hide *;
  }

  // The growth on success with its numbers: an easy answer earns 0.796 of it, a hard one 0.1666.
  function DocumentedFactor(m: Math, s: real, d: real, r: real, g: Grade): real {
    var bonus := match g case Hard => 0.1666 case Easy => 0.796 case _ => 1.0;
    m.exp(3.0194) * (11.0 - d) * m.pow(s, -0.001) * (m.exp(1.8722 * (1.0 - r)) - 1.0) * bonus
  }

  // The documented formulas with their numbers: on sane states the floor of 0.1 days matters only to
  // a failure, which never lifts stability either.
  lemma DocumentedFailure(m: Math, s: MemoryState, now: Days)
    requires Sane(s) && s.reviews > 0
    ensures var res := Review(m, s, Again, now);
      var relearned := 1.6483 * m.pow(s.difficulty, -0.6014) * (m.pow(s.stability + 1.0, 1.8729) - 1.0)
        * m.exp(0.5425 * (1.0 - res.retrievabilityBefore));
      res.newState.stability ==
        (if relearned < 0.1 then 0.1 else if relearned > s.stability then s.stability else relearned)
  {
    ReviewGains(m, s, Again, now);
    hide Review, Retrievability;
  }

  lemma DocumentedGrowth(m: Math, s: real, d: real, r: real, g: Grade)
    ensures Growth(m, s, d, r, g) == DocumentedFactor(m, s, d, r, g)
  {
  }

  lemma DocumentedSuccess(m: Math, s: MemoryState, g: Grade, now: Days)
    requires Laws(m) && ExpGrows(m) && Sane(s) && s.reviews > 0 && g != Again
    ensures var res := Review(m, s, g, now);
      res.newState.stability
      == s.stability * (1.0 + DocumentedFactor(m, s.stability, s.difficulty, res.retrievabilityBefore, g))
  {
    RetrievabilityRange(m, Elapsed(s, now), s.stability);
    ReviewGains(m, s, g, now);
    var r := Retrievability(m, Elapsed(s, now), s.stability);
    hide *;
    SuccessGains(m, s.stability, s.difficulty, r, g);
    DocumentedGrowth(m, s.stability, s.difficulty, r, g);
  }

  lemma StrengthenByGrade(decayed: real, storage: real)
    requires decayed > 0.0
    ensures var after := (g: Grade) => Strengthen(decayed, storage, g);
      && after(Again).0 == 0.3 <= after(Hard).0 <= after(Good).0 <= after(Easy).0
      && after(Again).1 == storage + 0.05 && after(Easy).1 <= after(Hard).1 <= after(Good).1
  {
  }

  lemma ReversionMono(d: real, x: real, y: real)
    requires x <= y
    ensures ConstrainDifficulty(MeanReversion(d + W11 * x)) <= ConstrainDifficulty(MeanReversion(d + W11 * y))
  {
    assert MeanReversion(d + W11 * y) - MeanReversion(d + W11 * x) == (1.0 - W13) * W11 * (y - x);
  }

  lemma DifficultyByGrade(d: real)
    ensures var after := (g: Grade) => UpdateDifficulty(d, g);
      after(Again) <= after(Hard) <= after(Good) <= after(Easy)
  {
    hide ConstrainDifficulty, MeanReversion;
    ReversionMono(d, (GradeValue(Again) - 3) as real, (GradeValue(Hard) - 3) as real);
    ReversionMono(d, (GradeValue(Hard) - 3) as real, (GradeValue(Good) - 3) as real);
    ReversionMono(d, (GradeValue(Good) - 3) as real, (GradeValue(Easy) - 3) as real);
  }

  lemma FirstDifficultyByGrade(m: Math)
    requires ExpGrows(m)
    ensures var first := (g: Grade) => InitialDifficulty(m, g);
      first(Easy) <= first(Good) <= first(Hard) <= first(Again) == 6.4133
  {
    ExpMono(m, 0.0, W5);
    ExpMono(m, W5, W5 * 2.0);
    ExpMono(m, W5 * 2.0, W5 * 3.0);
  }

  // The better the answer, the better the memory can be retrieved afterwards. What is stored grows most
  // with a good answer, and of the successes least with an easy one. A better first answer makes the
  // memory count as easier; from then on a better answer makes it count as more difficult.
  lemma StrengthsByGrade(m: Math, s: MemoryState, now: Days)
    requires Laws(m) && ExpGrows(m) && Sane(s)
    ensures var after := (g: Grade) => Review(m, s, g, now).newState;
      && (if s.reviews == 0 then
            after(Easy).difficulty <= after(Good).difficulty <= after(Hard).difficulty <= after(Again).difficulty
          else
            after(Again).difficulty <= after(Hard).difficulty <= after(Good).difficulty <= after(Easy).difficulty)
      && after(Again).retrieval == 0.3 <= after(Hard).retrieval <= after(Good).retrieval <= after(Easy).retrieval
      && after(Again).storage == s.storage + 0.05
      && after(Easy).storage <= after(Hard).storage <= after(Good).storage
  {
    DecayedPositive(m, s.retrieval, s.storage, Elapsed(s, now));
    StrengthenByGrade(Decayed(m, s.retrieval, s.storage, Elapsed(s, now)), s.storage);
    DifficultyByGrade(s.difficulty);
    FirstDifficultyByGrade(m);
    hide Laws, Decayed, Strengthen, UpdateDifficulty, InitialDifficulty, Retrievability, UpdateStabilityFailure,
         UpdateStabilitySuccess;
  }

  lemma RateMono(storage: real, storage': real)
    requires 0.5 <= storage <= storage'
    ensures 0.0 < DecayRate(storage') <= DecayRate(storage)
  {
    var p, q := 1.0 / (1.0 + storage'), 1.0 / (1.0 + storage);
    CrossMultiply(1.0, 1.0 + storage', 1.0, 1.0 + storage, p, q);
    if p <= 0.0 {
      MulMono(p, 0.0, 1.0 + storage');
    }
  }

  lemma Flatter(m: Math, retrieval: real, x: real, y: real)
    requires ExpGrows(m) && retrieval > 0.0 && x <= y
    ensures retrieval * m.exp(x) <= retrieval * m.exp(y)
  {
    ExpMono(m, x, y);
    MulMono(m.exp(x), m.exp(y), retrieval);
  }

  // Retrieval strength falls with time.
  lemma DecayedMono(m: Math, retrieval: real, storage: real, t: Days, t': Days)
    requires ExpGrows(m) && retrieval > 0.0 && storage >= 0.5 && t <= t'
    ensures Decayed(m, retrieval, storage, t') <= Decayed(m, retrieval, storage, t)
  {
    RateMono(storage, storage);
    hide ExpGrows, DecayRate;
    MulMono(t, t', DecayRate(storage));
    Flatter(m, retrieval, -DecayRate(storage) * t', -DecayRate(storage) * t);
  }

  // The more is stored, the more slowly.
  lemma StoredDecaysSlowly(m: Math, retrieval: real, storage: real, storage': real, t: Days)
    requires ExpGrows(m) && retrieval > 0.0 && 0.5 <= storage <= storage' && t >= 0.0
    ensures Decayed(m, retrieval, storage, t) <= Decayed(m, retrieval, storage', t)
  {
    RateMono(storage, storage');
    hide ExpGrows, DecayRate;
    MulMono(DecayRate(storage'), DecayRate(storage), t);
    Flatter(m, retrieval, -DecayRate(storage) * t, -DecayRate(storage') * t);
  }

  lemma StrengthenMono(decayed: real, decayed': real, storage: real, g: Grade)
    requires decayed' <= decayed
    ensures Strengthen(decayed', storage, g).0 <= Strengthen(decayed, storage, g).0
    ensures Strengthen(decayed', storage, g).1 >= Strengthen(decayed, storage, g).1
  {
  }

  function Relearned(m: Math, s: real, d: real): real {
    W14 * m.pow(d, -W15) * (m.pow(s + 1.0, W16) - 1.0)
  }

  lemma RelearnedNonnegative(m: Math, s: real, d: real)
    requires Laws(m) && s >= 0.1 && d >= 1.0
    ensures Relearned(m, s, d) >= 0.0
  {
    assert m.pow(d, -W15) > 0.0 && m.pow(s + 1.0, W16) >= 1.0;
    hide Laws;
    MulPositive(W14, m.pow(d, -W15));
    MulMono(0.0, m.pow(s + 1.0, W16) - 1.0, W14 * m.pow(d, -W15));
  }

  lemma FailureForm(m: Math, s: real, d: real, r: real)
    ensures UpdateStabilityFailure(m, s, d, r) == Max(0.1, Min(Relearned(m, s, d) * m.exp(W17 * (1.0 - r)), s))
  {
  }

  lemma RelearnedMono(m: Math, s: real, d: real, r: real, r': real)
    requires Laws(m) && ExpGrows(m) && s >= 0.1 && d >= 1.0 && r' <= r
    ensures UpdateStabilityFailure(m, s, d, r) <= UpdateStabilityFailure(m, s, d, r')
  {
    hide Laws, ExpGrows, Relearned, UpdateStabilityFailure;
    FailureForm(m, s, d, r);
    FailureForm(m, s, d, r');
    RelearnedNonnegative(m, s, d);
    ExpMono(m, W17 * (1.0 - r), W17 * (1.0 - r'));
    MulMono(m.exp(W17 * (1.0 - r)), m.exp(W17 * (1.0 - r')), Relearned(m, s, d));
  }

  lemma LaterStability(m: Math, s: MemoryState, g: Grade, r: real, r': real)
    requires Laws(m) && ExpGrows(m) && Sane(s) && r' <= r <= 1.0
    ensures UpdateStabilityFailure(m, s.stability, s.difficulty, r)
         <= UpdateStabilityFailure(m, s.stability, s.difficulty, r')
    ensures UpdateStabilitySuccess(m, s.stability, s.difficulty, r, g)
         <= UpdateStabilitySuccess(m, s.stability, s.difficulty, r', g)
  {
    hide Laws, ExpGrows, Growth, UpdateStabilityFailure, UpdateStabilitySuccess;
    RelearnedMono(m, s.stability, s.difficulty, r, r');
    GrowthAntitone(m, s.stability, s.difficulty, r', s.stability, s.difficulty, r, g);
    SuccessGains(m, s.stability, s.difficulty, r, g);
    SuccessGains(m, s.stability, s.difficulty, r', g);
    MulMono(1.0 + Growth(m, s.stability, s.difficulty, r, g), 1.0 + Growth(m, s.stability, s.difficulty, r', g),
            s.stability);
  }

  // The longer a review waits, whatever its answer, the lower the recall and the retrieval strength it
  // finds, and the more stability and storage it leaves.
  lemma WaitingPays(m: Math, s: MemoryState, g: Grade, now: Days, later: Days)
    requires Laws(m) && ExpGrows(m) && Sane(s) && s.reviews > 0 && now <= later
    ensures var a, b := Review(m, s, g, now), Review(m, s, g, later);
      && b.retrievabilityBefore <= a.retrievabilityBefore
      && b.newState.stability >= a.newState.stability && b.newState.storage >= a.newState.storage
      && b.newState.retrieval <= a.newState.retrieval && b.newState.difficulty == a.newState.difficulty
  {
    var t, t' := Elapsed(s, now), Elapsed(s, later);
    var r, r' := Retrievability(m, t, s.stability), Retrievability(m, t', s.stability);
    RetrievabilityRange(m, t, s.stability);
    RetrievabilityMonotone(m, t, t', s.stability, s.stability);
    LaterStability(m, s, g, r, r');
    DecayedMono(m, s.retrieval, s.storage, t, t');
    StrengthenMono(Decayed(m, s.retrieval, s.storage, t), Decayed(m, s.retrieval, s.storage, t'), s.storage, g);
    hide Laws, ExpGrows, Decayed, Strengthen, UpdateDifficulty, Retrievability, UpdateStabilityFailure,
         UpdateStabilitySuccess;
  }

  // ---- Difficulty is a contraction ----

  function Abs(x: real): real { if x < 0.0 then -x else x }

  // x times (1 - w13) to the power n.
  function Shrunk(n: nat, x: real): real { if n == 0 then x else (1.0 - W13) * Shrunk(n - 1, x) }

  lemma {:induction false} ShrunkMono(n: nat, x: real, y: real)
    requires x <= y
    ensures Shrunk(n, x) <= Shrunk(n, y)
  {
    if n == 0 {
    } else {
      ShrunkMono(n - 1, x, y);
    }
  }

  lemma {:induction false} ShrunkCommutes(n: nat, x: real)
    ensures Shrunk(n, (1.0 - W13) * x) == (1.0 - W13) * Shrunk(n, x)
  {
    if n == 0 {
    } else {
      ShrunkCommutes(n - 1, x);
    }
  }

  function RunDifficulty(d: real, grades: seq<Grade>): real
    decreases |grades|
  {
    if grades == [] then d else RunDifficulty(UpdateDifficulty(d, grades[0]), grades[1..])
  }

  lemma ReviewContracts(d: real, d': real, g: Grade)
    ensures Abs(UpdateDifficulty(d, g) - UpdateDifficulty(d', g)) <= (1.0 - W13) * Abs(d - d')
  {
    var delta := W11 * (GradeValue(g) - 3) as real;
    var x, y := MeanReversion(d + delta), MeanReversion(d' + delta);
    assert x - y == (1.0 - W13) * (d - d');
    assert Abs(ConstrainDifficulty(x) - ConstrainDifficulty(y)) <= Abs(x - y);
  }

  // Two memories given the same grades forget how their difficulties differed, geometrically.
  lemma {:induction false} DifficultyContracts(d: real, d': real, grades: seq<Grade>)
    ensures Abs(RunDifficulty(d, grades) - RunDifficulty(d', grades)) <= Shrunk(|grades|, Abs(d - d'))
    decreases |grades|
  {
    if grades == [] {
    } else {
      var e, e' := UpdateDifficulty(d, grades[0]), UpdateDifficulty(d', grades[0]);
      var n := |grades| - 1;
      ReviewContracts(d, d', grades[0]);
      DifficultyContracts(e, e', grades[1..]);
      ShrunkMono(n, Abs(e - e'), (1.0 - W13) * Abs(d - d'));
      ShrunkCommutes(n, Abs(d - d'));
    }
  }

  function Grades(log: seq<(Grade, Days)>): seq<Grade> {
    if log == [] then [] else [log[0].0] + Grades(log[1..])
  }

  // After the first review, difficulty runs on by itself: times and stability do not matter.
  lemma {:induction false} ReviewsRunDifficulty(m: Math, s: MemoryState, log: seq<(Grade, Days)>)
    requires Laws(m) && Sane(s) && s.reviews > 0
    ensures RunReviews(m, s, log).difficulty == RunDifficulty(s.difficulty, Grades(log))
    decreases |log|
  {
    hide Retrievability, Growth, UpdateDualStrength, ConstrainDifficulty;
    if log == [] {
    } else {
      StorageExists(m, s, log[0].0, log[0].1);
      ReviewsRunDifficulty(m, Review(m, s, log[0].0, log[0].1).newState, log[1..]);
      assert Grades(log)[1..] == Grades(log[1..]);
    }
  }

  // Two reviewed memories given the same grades, whenever and whatever else their state.
  lemma ReviewsForgetDifficulty(m: Math, s: MemoryState, s': MemoryState, log: seq<(Grade, Days)>,
                                log': seq<(Grade, Days)>)
    requires Laws(m) && Sane(s) && Sane(s') && s.reviews > 0 && s'.reviews > 0 && Grades(log) == Grades(log')
    ensures Abs(RunReviews(m, s, log).difficulty - RunReviews(m, s', log').difficulty)
      <= Shrunk(|Grades(log)|, Abs(s.difficulty - s'.difficulty))
  {
    hide *;
    ReviewsRunDifficulty(m, s, log);
    ReviewsRunDifficulty(m, s', log');
    DifficultyContracts(s.difficulty, s'.difficulty, Grades(log));
  }

  lemma {:induction false} MeanIsFixed(n: nat)
    ensures RunDifficulty(W4, seq(n, _ => Good)) == W4
  {
    if n == 0 {
    } else {
      MeanIsFixed(n - 1);
      assert seq(n, _ => Good)[1..] == seq(n - 1, _ => Good);
      assert UpdateDifficulty(W4, Good) == W4;
    }
  }

  // Steady good answers pull difficulty to the mean, w4.
  lemma GoodConvergesToMean(d: real, n: nat)
    ensures Abs(RunDifficulty(d, seq(n, _ => Good)) - W4) <= Shrunk(n, Abs(d - W4))
  {
    DifficultyContracts(d, W4, seq(n, _ => Good));
    MeanIsFixed(n);
  }

  lemma {:induction false} FailuresAdd(m: Math, s: MemoryState, n: nat)
    requires Laws(m) && Sane(s)
    ensures RunReviews(m, s, seq(n, _ => (Again, 0.0))).storage == s.storage + 0.05 * n as real
    decreases n
  {
    if n == 0 {
    } else {
      var s' := Review(m, s, Again, 0.0).newState;
      StorageExists(m, s, Again, 0.0);
      FailuresAdd(m, s', n - 1);
      assert seq(n, _ => (Again, 0.0))[1..] == seq(n - 1, _ => (Again, 0.0));
    }
  }

  // Eleven failures in a row: storage strength passes one, outside its documented range.
  lemma ElevenFailures(m: Math)
    requires Laws(m)
    ensures var log := seq(11, _ => (Again, 0.0));
      RunReviews(m, FRESH, log).storage == 1.05
  {
    FailuresAdd(m, FRESH, 11);
  }
}
