/**
 The validator policy: a fitness from ledger metrics and validator scores, and the tier it
 earns. The Sharpe ratio, the significance `phi` = Phi(t) and the power 0.75 are parameters.
 */
module ValidatorGate {
  import opened Options
  import opened LedgerMetrics

  const N_HARD: nat := 10
  const N_FULL: nat := 100
  const DEPLOY_THRESHOLD: real := 35.0

  /** Walk-forward, Monte-Carlo and regime scores, and the overfit probability, where known. */
  datatype Scores = Scores(
    walkForward: Option<real>, monteCarlo: Option<real>, regime: Option<real>, overfit: Option<real>)

  /** What is computed outside this model. */
  datatype Inputs = Inputs(sharpe: real, phi: real, span: real, power: real -> real)

  datatype Fitness = Fitness(research: real, deploy: real, n: nat, overfit: Option<real>, gross: real)

  datatype Status = Pending | Elite | Validated | ResearchCandidate | Rejected

  function Clip01(x: real): (r: real)
    ensures 0.0 <= r <= 1.0
  {
    Clip(x, 0.0, 1.0)
  }

  function OrZero(x: Option<real>): real {
    if x.Some? then x.value else 0.0
  }

  /** The performance part of the quality score. */
  function Performance(m: Metrics, sharpe: real): real {
    (0.22 * Clip01(sharpe / 2.0) + 0.16 * Clip01(m.profitFactor - 1.0)
     + 0.12 * Clip01(m.expectancy / 0.001) + 0.10 * Clip01(1.0 + m.maxDrawdown / 0.25)) / 0.60
  }

  function Robustness(s: Scores): real {
    (0.18 * OrZero(s.walkForward) + 0.12 * OrZero(s.monteCarlo) + 0.10 * OrZero(s.regime)) / 0.40
  }

  function Quality(m: Metrics, s: Scores, sharpe: real): real {
    0.60 * Performance(m, sharpe) + 0.40 * Robustness(s)
  }

  /** None below 10 trades, growing to full weight at 100. */
  function SampleGate(n: nat): real {
    if n < N_HARD then 0.0 else Clip01((n - N_HARD) as real / (N_FULL - N_HARD) as real)
  }

  function Significance(n: nat, phi: real): real {
    SampleGate(n) * Clip01((phi - 0.5) / 0.45)
  }

  function OverfitGate(overfit: Option<real>): (r: real)
    ensures 0.0 <= r <= 1.0
  {
    if overfit.None? then 0.3 else Clip01(1.0 - overfit.value / 0.5)
  }

  function Retention(m: Metrics): (r: real)
    ensures 0.0 <= r <= 1.0
  {
    if m.grossEdge <= 0.0 then 0.0 else Clip01(m.totalReturn / m.grossEdge)
  }

  /** Turnover above 20 trades a day is penalised, down to nothing at 200. */
  function ChurnGate(n: nat, span: real): (r: real)
    requires span > 0.0
    ensures 0.0 <= r <= 1.0
  {
    var perDay := n as real / span;
    if perDay > 20.0 then Clip01(1.0 - (perDay - 20.0) / 180.0) else 1.0
  }

  function Times(a: real, b: real): real {
    a * b
  }

  function Combined(sig: real, og: real, retained: real, churn: real): real {
    Times(Times(Times(sig, og), retained), churn)
  }

  /** The factor between the research and the deploy score. */
  function Multiplier(m: Metrics, s: Scores, x: Inputs): real
    requires x.span > 0.0
  {
    Combined(Significance(m.count, x.phi), OverfitGate(s.overfit), x.power(Retention(m)), ChurnGate(m.count, x.span))
  }

  function DeployScore(quality: real, multiplier: real): real {
    100.0 * quality * multiplier
  }

  /** `fit`: none for fewer than two trades. */
  function Fit(m: Metrics, s: Scores, x: Inputs): Option<Fitness>
    requires x.span > 0.0
  {
    if m.count < 2 then None
    else
      var q := Quality(m, s, x.sharpe);
      Some(Fitness(100.0 * q, DeployScore(q, Multiplier(m, s, x)), m.count, s.overfit, m.grossEdge))
  }

  function Classify(f: Fitness, covered: bool, minFloor: int, prodFloor: int, eliteBand: real,
                    researchBand: real): Status {
    if !covered then Pending
    else
      var significant := f.n >= minFloor;
      if f.deploy >= eliteBand && f.n >= prodFloor && significant then Elite
      else if f.deploy >= DEPLOY_THRESHOLD && significant then Validated
      else if f.research >= researchBand then ResearchCandidate
      else Rejected
  }

  predicate Promoted(s: Status) {
    s == Elite || s == Validated
  }

  /** The power function of the retention: it keeps the unit interval and sends 0 to 0. */
  ghost predicate PowerLike(power: real -> real) {
    power(0.0) == 0.0 && forall x :: 0.0 <= x <= 1.0 ==> 0.0 <= power(x) <= 1.0
  }

  predicate InUnit(o: Option<real>) {
    o.Some? ==> 0.0 <= o.value <= 1.0
  }

  predicate ScoresInUnit(s: Scores) {
    InUnit(s.walkForward) && InUnit(s.monteCarlo) && InUnit(s.regime)
  }

  /** Likely overfit, not profitable before costs, or too few trades. */
  predicate Junk(f: Fitness) {
    (f.overfit.Some? && f.overfit.value >= 0.5) || f.gross <= 0.0 || f.n < N_HARD
  }

  // ---------------------------------------------------------------- main results

  lemma ProductNotNegative(a: real, b: real)
    requires 0.0 <= a && 0.0 <= b
    ensures 0.0 <= a * b
  {
  }

  lemma UnitProduct(a: real, b: real)
    requires 0.0 <= a <= 1.0 && 0.0 <= b <= 1.0
    ensures 0.0 <= Times(a, b) <= 1.0 && Times(a, b) <= a && Times(a, b) <= b
  {
    ProductNotNegative(a, b);
    ProductNotNegative(a, 1.0 - b);
    ProductNotNegative(b, 1.0 - a);
  }

  lemma SignificanceBounds(n: nat, phi: real)
    ensures 0.0 <= Significance(n, phi) <= 1.0
  {
    UnitProduct(SampleGate(n), Clip01((phi - 0.5) / 0.45));
  }

  lemma MultiplierBounds(m: Metrics, s: Scores, x: Inputs)
    requires x.span > 0.0 && PowerLike(x.power)
    ensures 0.0 <= Multiplier(m, s, x) <= OverfitGate(s.overfit) <= 1.0
  {
    SignificanceBounds(m.count, x.phi);
    FourFactors(Significance(m.count, x.phi), OverfitGate(s.overfit), x.power(Retention(m)),
                ChurnGate(m.count, x.span));
  }

  lemma FourFactors(a: real, b: real, c: real, d: real)
    requires 0.0 <= a <= 1.0 && 0.0 <= b <= 1.0 && 0.0 <= c <= 1.0 && 0.0 <= d <= 1.0
    ensures 0.0 <= Combined(a, b, c, d) <= b
  {
    UnitProduct(a, b);
    UnitProduct(Times(a, b), c);
    UnitProduct(Times(Times(a, b), c), d);
  }

  lemma QualityBounds(m: Metrics, s: Scores, sharpe: real)
    requires ScoresInUnit(s)
    ensures 0.0 <= Quality(m, s, sharpe) <= 1.0
  {
  }

  /** No factor of the multiplier survives a zero. */
  lemma JunkMultiplier(m: Metrics, s: Scores, x: Inputs)
    requires x.span > 0.0 && PowerLike(x.power)
    requires (s.overfit.Some? && s.overfit.value >= 0.5) || m.grossEdge <= 0.0 || m.count < N_HARD
    ensures Multiplier(m, s, x) == 0.0
  {
    var sig, og, ret, churn := Significance(m.count, x.phi), OverfitGate(s.overfit),
                               x.power(Retention(m)), ChurnGate(m.count, x.span);
    if s.overfit.Some? && s.overfit.value >= 0.5 {
      assert og == 0.0;
      assert Times(sig, og) == 0.0;
    } else if m.grossEdge <= 0.0 {
      assert ret == 0.0;
    } else {
      assert SampleGate(m.count) == 0.0;
      assert sig == 0.0;
    }
  }

  /**
   Whatever the trades and scores, junk reaches a promoted tier only through an elite band
   that is not positive.
   */
  lemma JunkPromotedIff(m: Metrics, s: Scores, x: Inputs, covered: bool,
                        minFloor: int, prodFloor: int, eliteBand: real, researchBand: real)
    requires x.span > 0.0 && PowerLike(x.power)
    requires Fit(m, s, x).Some? && Junk(Fit(m, s, x).value)
    ensures Promoted(Classify(Fit(m, s, x).value, covered, minFloor, prodFloor, eliteBand, researchBand)) <==>
            covered && eliteBand <= 0.0 && m.count >= prodFloor && m.count >= minFloor
  {
    JunkMultiplier(m, s, x);
    assert Fit(m, s, x).value.deploy == 0.0;
  }

  /** Fewer trades than the floor, or missing coverage, never reach a promoted tier. */
  lemma PromotionNeedsFloorAndCoverage(f: Fitness, covered: bool, minFloor: int, prodFloor: int, eliteBand: real,
                                       researchBand: real)
    ensures Promoted(Classify(f, covered, minFloor, prodFloor, eliteBand, researchBand)) <==>
            && covered && f.n >= minFloor
            && (f.deploy >= DEPLOY_THRESHOLD || (f.deploy >= eliteBand && f.n >= prodFloor))
  {
  }

  /** With scores in the unit interval, 0 <= deploy <= research <= 100. */
  lemma ScoreBounds(m: Metrics, s: Scores, x: Inputs)
    requires x.span > 0.0 && PowerLike(x.power) && ScoresInUnit(s) && Fit(m, s, x).Some?
    ensures var f := Fit(m, s, x).value;
      0.0 <= f.deploy <= f.research <= 100.0
  {
    MultiplierBounds(m, s, x);
    QualityBounds(m, s, x.sharpe);
    Percent(Quality(m, s, x.sharpe), Multiplier(m, s, x));
  }

  /** An unknown overfit probability caps the deploy score at 30, below the threshold of 35. */
  lemma UnknownOverfitIsCapped(m: Metrics, s: Scores, x: Inputs, covered: bool,
                               minFloor: int, prodFloor: int, eliteBand: real, researchBand: real)
    requires x.span > 0.0 && PowerLike(x.power) && ScoresInUnit(s) && s.overfit.None?
    requires Fit(m, s, x).Some? && eliteBand > 30.0
    ensures Fit(m, s, x).value.deploy <= 30.0
    ensures !Promoted(Classify(Fit(m, s, x).value, covered, minFloor, prodFloor, eliteBand, researchBand))
  {
    DeployBound(m, s, x);
    PromotionNeedsFloorAndCoverage(Fit(m, s, x).value, covered, minFloor, prodFloor, eliteBand, researchBand);
  }

  /** The deploy score is at most a hundred times the overfit gate. */
  lemma DeployBound(m: Metrics, s: Scores, x: Inputs)
    requires x.span > 0.0 && PowerLike(x.power) && ScoresInUnit(s) && m.count >= 2
    ensures Fit(m, s, x).value.deploy <= 100.0 * OverfitGate(s.overfit)
  {
    MultiplierBounds(m, s, x);
    QualityBounds(m, s, x.sharpe);
    Percent(Quality(m, s, x.sharpe), Multiplier(m, s, x));
  }

  /** A larger overfit probability never raises the deploy score. */
  lemma DeployFallsWithOverfit(m: Metrics, s: Scores, x: Inputs, p: real, p': real)
    requires x.span > 0.0 && PowerLike(x.power) && ScoresInUnit(s) && m.count >= 2 && p <= p'
    ensures Fit(m, s.(overfit := Some(p')), x).value.deploy <= Fit(m, s.(overfit := Some(p)), x).value.deploy
  {
    QualityBounds(m, s, x.sharpe);
    SignificanceBounds(m.count, x.phi);
    var q, sig, ret, churn := Quality(m, s, x.sharpe), Significance(m.count, x.phi),
                              x.power(Retention(m)), ChurnGate(m.count, x.span);
    assert 0.0 <= sig && 0.0 <= ret && 0.0 <= churn;
    GateOrder(q, sig, OverfitGate(Some(p')), OverfitGate(Some(p)), ret, churn);
  }

  lemma GateOrder(q: real, sig: real, og': real, og: real, ret: real, churn: real)
    requires 0.0 <= q && 0.0 <= sig && 0.0 <= ret && 0.0 <= churn && og' <= og
    ensures DeployScore(q, Combined(sig, og', ret, churn)) <= DeployScore(q, Combined(sig, og, ret, churn))
  {
    ScaledOrder(og', og, sig);
    ScaledOrder(Times(sig, og'), Times(sig, og), ret);
    ScaledOrder(Times(Times(sig, og'), ret), Times(Times(sig, og), ret), churn);
    ScaledOrder(Combined(sig, og', ret, churn), Combined(sig, og, ret, churn), 100.0 * q);
  }

  /** A score as a percentage, and the part of it that a factor leaves. */
  lemma Percent(q: real, w: real)
    requires 0.0 <= q <= 1.0 && 0.0 <= w <= 1.0
    ensures 0.0 <= DeployScore(q, w) <= 100.0 * q <= 100.0
    ensures DeployScore(q, w) <= 100.0 * w
  {
    UnitProduct(q, w);
    assert DeployScore(q, w) == 100.0 * Times(q, w);
  }

  lemma ScaledOrder(a: real, b: real, c: real)
    requires a <= b && 0.0 <= c
    ensures Times(a, c) <= Times(b, c) && Times(c, a) <= Times(c, b)
  {
  }

  // ------------------------------------------------------ what a strategy earns

  /** The share of the gross edge that the costs leave, kept between 0 and 1. */
  ghost predicate IsRetained(m: Metrics, r: real) {
    && (m.grossEdge <= 0.0 || m.totalReturn <= 0.0 ==> r == 0.0)
    && (0.0 < m.grossEdge <= m.totalReturn ==> r == 1.0)
    && (0.0 < m.totalReturn < m.grossEdge ==> r == m.totalReturn / m.grossEdge)
  }

  /** Nothing up to 10 trades, everything from 100 on, and in proportion between. */
  ghost predicate IsSampleShare(n: nat, g: real) {
    (n <= 10 ==> g == 0.0) && (n >= 100 ==> g == 1.0) && (10 < n < 100 ==> g == (n - 10) as real / 90.0)
  }

  /** Nothing up to even odds, everything from 0.95 on, and in proportion between. */
  ghost predicate IsCertainty(phi: real, c: real) {
    (phi <= 0.5 ==> c == 0.0) && (phi >= 0.95 ==> c == 1.0) && (0.5 < phi < 0.95 ==> c == (phi - 0.5) / 0.45)
  }

  /** Everything for a probability of zero, nothing from one half on, and 0.3 where it is unknown. */
  ghost predicate IsOverfitShare(overfit: Option<real>, o: real) {
    && (overfit.None? ==> o == 0.3)
    && (overfit.Some? && overfit.value <= 0.0 ==> o == 1.0)
    && (overfit.Some? && overfit.value >= 0.5 ==> o == 0.0)
    && (overfit.Some? && 0.0 < overfit.value < 0.5 ==> o == 1.0 - 2.0 * overfit.value)
  }

  /** Everything up to 20 trades a day, nothing from 200 on. */
  ghost predicate IsTurnoverShare(perDay: real, t: real) {
    (perDay <= 20.0 ==> t == 1.0) && (perDay >= 200.0 ==> t == 0.0)
    && (20.0 < perDay < 200.0 ==> t == (200.0 - perDay) / 180.0)
  }

  /** The product of a score with five shares. */
  function Discounted(research: real, g: real, c: real, o: real, p: real, t: real): real {
    Times(Times(Times(Times(Times(research, g), c), o), p), t)
  }

  /** The deploy score is the research score times five shares, each given by its breakpoints. */
  lemma DeployIsShareOfResearch(m: Metrics, s: Scores, x: Inputs, f: Fitness,
                                r: real, g: real, c: real, o: real, t: real)
    requires x.span > 0.0 && Fit(m, s, x) == Some(f)
    requires IsRetained(m, r) && IsSampleShare(m.count, g) && IsCertainty(x.phi, c)
    requires IsOverfitShare(s.overfit, o) && IsTurnoverShare(m.count as real / x.span, t)
    ensures f.deploy == Discounted(f.research, g, c, o, x.power(r), t)
  {
    SharesAreGates(m, s, x, r, g, c, o, t);
    DeployDiscounts(m, s, x, f);
  }

  lemma DeployDiscounts(m: Metrics, s: Scores, x: Inputs, f: Fitness)
    requires x.span > 0.0 && Fit(m, s, x) == Some(f)
    ensures f.deploy == Discounted(f.research, SampleGate(m.count), Clip01((x.phi - 0.5) / 0.45),
                                   OverfitGate(s.overfit), x.power(Retention(m)), ChurnGate(m.count, x.span))
  {
    FactorsRegrouped(f.research, Quality(m, s, x.sharpe), Significance(m.count, x.phi), SampleGate(m.count),
                     Clip01((x.phi - 0.5) / 0.45), OverfitGate(s.overfit), x.power(Retention(m)),
                     ChurnGate(m.count, x.span));
  }

  lemma SharesAreGates(m: Metrics, s: Scores, x: Inputs, r: real, g: real, c: real, o: real, t: real)
    requires x.span > 0.0
    requires IsRetained(m, r) && IsSampleShare(m.count, g) && IsCertainty(x.phi, c)
    requires IsOverfitShare(s.overfit, o) && IsTurnoverShare(m.count as real / x.span, t)
    ensures r == Retention(m) && g == SampleGate(m.count) && c == Clip01((x.phi - 0.5) / 0.45)
    ensures o == OverfitGate(s.overfit) && t == ChurnGate(m.count, x.span)
  {
    RetainedIsRetention(m, r);
  }

  lemma RetainedIsRetention(m: Metrics, r: real)
    requires IsRetained(m, r)
    ensures r == Retention(m)
  {
    if m.grossEdge > 0.0 {
      QuotientSide(m.totalReturn, m.grossEdge);
    }
  }

  lemma QuotientSide(a: real, b: real)
    requires b > 0.0
    ensures (a / b <= 0.0 <==> a <= 0.0) && (a / b >= 1.0 <==> a >= b)
  {
    SignOfQuotient(a, b);
    if a < b {
      RatioBelowOne(a, b);
    }
  }

  lemma FactorsRegrouped(research: real, q: real, sig: real, g: real, c: real, o: real, p: real, t: real)
    requires research == 100.0 * q && sig == g * c
    ensures DeployScore(q, Combined(sig, o, p, t)) == Discounted(research, g, c, o, p, t)
  {
    assert DeployScore(q, Combined(sig, o, p, t)) == research * (g * c * o * p * t);
  }

  /**
   A significant strategy that is certainly not overfit and trades at most 20 times a day is
   only discounted by its costs and by a small sample.
   */
  lemma CleanDeploy(m: Metrics, s: Scores, x: Inputs, f: Fitness, r: real, g: real)
    requires x.span > 0.0 && Fit(m, s, x) == Some(f) && IsRetained(m, r) && IsSampleShare(m.count, g)
    requires x.phi >= 0.95 && s.overfit == Some(0.0) && m.count as real / x.span <= 20.0
    ensures f.deploy == Times(Times(f.research, x.power(r)), g)
  {
    DeployIsShareOfResearch(m, s, x, f, r, g, 1.0, 1.0, 1.0);
    TwoFactors(f.research, x.power(r), g);
  }

  lemma TwoFactors(research: real, p: real, g: real)
    ensures Discounted(research, g, 1.0, 1.0, p, 1.0) == Times(Times(research, p), g)
  {
  }

  /** Exactly what earns a strategy a deploy score at all. */
  lemma DeployPositiveIff(m: Metrics, s: Scores, x: Inputs)
    requires x.span > 0.0 && m.count >= 2 && PowerLike(x.power) && ScoresInUnit(s)
    requires forall v :: 0.0 < v <= 1.0 ==> x.power(v) > 0.0
    ensures Fit(m, s, x).value.deploy > 0.0 <==>
            && m.count > 10 && x.phi > 0.5 && (s.overfit.None? || s.overfit.value < 0.5)
            && m.grossEdge > 0.0 && m.totalReturn > 0.0 && m.count as real / x.span < 200.0
            && Fit(m, s, x).value.research > 0.0
  {
    var sig, og, ret, churn := Significance(m.count, x.phi), OverfitGate(s.overfit),
                               x.power(Retention(m)), ChurnGate(m.count, x.span);
    SignificanceBounds(m.count, x.phi);
    QualityBounds(m, s, x.sharpe);
    PositiveFactorsIff(SampleGate(m.count), Clip01((x.phi - 0.5) / 0.45));
    PositiveFactorsIff(sig, og);
    PositiveFactorsIff(Times(sig, og), ret);
    PositiveFactorsIff(Times(Times(sig, og), ret), churn);
    PositiveFactorsIff(100.0 * Quality(m, s, x.sharpe), Combined(sig, og, ret, churn));
    RetentionPositiveIff(m);
  }

  lemma PositiveFactorsIff(a: real, b: real)
    requires 0.0 <= a && 0.0 <= b
    ensures Times(a, b) >= 0.0 && (Times(a, b) > 0.0 <==> a > 0.0 && b > 0.0)
  {
  }

  lemma RetentionPositiveIff(m: Metrics)
    ensures Retention(m) > 0.0 <==> m.grossEdge > 0.0 && m.totalReturn > 0.0
  {
    if m.grossEdge > 0.0 {
      SignOfQuotient(m.totalReturn, m.grossEdge);
    }
  }

  /** At the same turnover, more trades never lower the deploy score. */
  lemma DeployGrowsWithSample(m: Metrics, s: Scores, x: Inputs, n: nat, span: real)
    requires x.span > 0.0 && span > 0.0 && PowerLike(x.power) && ScoresInUnit(s)
    requires 2 <= m.count <= n && n as real / span == m.count as real / x.span
    ensures Fit(m, s, x).value.deploy <= Fit(m.(count := n), s, x.(span := span)).value.deploy
  {
    var q, og, ret, churn := Quality(m, s, x.sharpe), OverfitGate(s.overfit),
                             x.power(Retention(m)), ChurnGate(m.count, x.span);
    QualityBounds(m, s, x.sharpe);
    SameQuality(m, s, x.sharpe, n);
    assert ChurnGate(n, span) == churn;
    SignificanceGrows(m.count, n, x.phi);
    SignificanceOrder(q, Significance(m.count, x.phi), Significance(n, x.phi), og, ret, churn);
  }

  lemma SameQuality(m: Metrics, s: Scores, sharpe: real, n: nat)
    ensures Quality(m.(count := n), s, sharpe) == Quality(m, s, sharpe)
    ensures Retention(m.(count := n)) == Retention(m)
  {
  }

  lemma SignificanceGrows(n: nat, n': nat, phi: real)
    requires n <= n'
    ensures Significance(n, phi) <= Significance(n', phi)
  {
    assert SampleGate(n) <= SampleGate(n');
    ScaledOrder(SampleGate(n), SampleGate(n'), Clip01((phi - 0.5) / 0.45));
  }

  lemma SignificanceOrder(q: real, sig: real, sig': real, og: real, ret: real, churn: real)
    requires 0.0 <= q && sig <= sig' && 0.0 <= og && 0.0 <= ret && 0.0 <= churn
    ensures DeployScore(q, Combined(sig, og, ret, churn)) <= DeployScore(q, Combined(sig', og, ret, churn))
  {
    ScaledOrder(sig, sig', og);
    ScaledOrder(Times(sig, og), Times(sig', og), ret);
    ScaledOrder(Times(Times(sig, og), ret), Times(Times(sig', og), ret), churn);
    ScaledOrder(Combined(sig, og, ret, churn), Combined(sig', og, ret, churn), 100.0 * q);
  }

  /**
   With scores in the unit interval, the research score is full exactly when every figure
   reaches its target and every validator scores 1, and nothing exactly when none of them counts.
   */
  lemma ResearchExtremes(m: Metrics, s: Scores, x: Inputs)
    requires x.span > 0.0 && m.count >= 2 && ScoresInUnit(s)
    ensures Fit(m, s, x).value.research == 100.0 <==>
            && x.sharpe >= 2.0 && m.profitFactor >= 2.0 && m.expectancy >= 0.001 && m.maxDrawdown >= 0.0
            && s.walkForward == Some(1.0) && s.monteCarlo == Some(1.0) && s.regime == Some(1.0)
    ensures Fit(m, s, x).value.research == 0.0 <==>
            && x.sharpe <= 0.0 && m.profitFactor <= 1.0 && m.expectancy <= 0.0 && m.maxDrawdown <= -0.25
            && s.walkForward in {None, Some(0.0)} && s.monteCarlo in {None, Some(0.0)}
            && s.regime in {None, Some(0.0)}
  {
    ResearchIsWeightedSum(m, s, x);
  }

  /** The weights of the research score: 60 points for performance and 40 for the validators. */
  lemma ResearchIsWeightedSum(m: Metrics, s: Scores, x: Inputs)
    requires x.span > 0.0 && m.count >= 2
    ensures Fit(m, s, x).value.research ==
            22.0 * Clip01(x.sharpe / 2.0) + 16.0 * Clip01(m.profitFactor - 1.0)
            + 12.0 * Clip01(1000.0 * m.expectancy) + 10.0 * Clip01(1.0 + 4.0 * m.maxDrawdown)
            + 18.0 * OrZero(s.walkForward) + 12.0 * OrZero(s.monteCarlo) + 10.0 * OrZero(s.regime)
  {
  }

  /** The tiers, each by its own conditions. */
  lemma TiersExact(f: Fitness, covered: bool, minFloor: int, prodFloor: int, eliteBand: real, researchBand: real)
    ensures var tier := Classify(f, covered, minFloor, prodFloor, eliteBand, researchBand);
      var elite := f.n >= minFloor && f.n >= prodFloor && f.deploy >= eliteBand;
      var deployable := f.n >= minFloor && f.deploy >= 35.0;
      && (tier == Pending <==> !covered)
      && (tier == Elite <==> covered && elite)
      && (tier == Validated <==> covered && deployable && !elite)
      && (tier == ResearchCandidate <==> covered && f.research >= researchBand && !elite && !deployable)
      && (tier == Rejected <==> covered && f.research < researchBand && !elite && !deployable)
  {
  }

  function Rank(s: Status): nat {
    match s
    case Pending => 0
    case Rejected => 1
    case ResearchCandidate => 2
    case Validated => 3
    case Elite => 4
  }

  /** More trades at the same turnover never lower the tier. */
  lemma TierGrowsWithSample(m: Metrics, s: Scores, x: Inputs, n: nat, span: real, covered: bool,
                            minFloor: int, prodFloor: int, eliteBand: real, researchBand: real)
    requires x.span > 0.0 && span > 0.0 && PowerLike(x.power) && ScoresInUnit(s)
    requires 2 <= m.count <= n && n as real / span == m.count as real / x.span
    ensures Rank(Classify(Fit(m, s, x).value, covered, minFloor, prodFloor, eliteBand, researchBand)) <=
            Rank(Classify(Fit(m.(count := n), s, x.(span := span)).value, covered, minFloor, prodFloor,
                          eliteBand, researchBand))
  {
    DeployGrowsWithSample(m, s, x, n, span);
  }

  /** A clean strategy with 100 trades or more is promoted exactly when its research score survives its costs. */
  lemma CleanStrategyTier(m: Metrics, s: Scores, x: Inputs, f: Fitness, r: real, covered: bool,
                          minFloor: int, prodFloor: int, eliteBand: real, researchBand: real)
    requires x.span > 0.0 && Fit(m, s, x) == Some(f) && m.count >= 100 && IsRetained(m, r) && 35.0 <= eliteBand
    requires x.phi >= 0.95 && s.overfit == Some(0.0) && m.count as real / x.span <= 20.0
    ensures var tier := Classify(f, covered, minFloor, prodFloor, eliteBand, researchBand);
      && (Promoted(tier) <==> covered && m.count >= minFloor && Times(f.research, x.power(r)) >= 35.0)
      && (tier == Elite <==>
          covered && m.count >= minFloor && m.count >= prodFloor && Times(f.research, x.power(r)) >= eliteBand)
  {
    CleanDeploy(m, s, x, f, r, 1.0);
    TiersExact(f, covered, minFloor, prodFloor, eliteBand, researchBand);
  }
}
