/**
 CGR-v1: a Beta posterior per certification agent, from a capability prior, resolved invoice outcomes and
 the ratings of reviewers who are themselves calibrated on resolved invoices. Floats are reals.
 */
module EvidenceScoring {
  import opened Sorting

  const K_PRIOR: real := 4.0
  const DEFAULT_WEIGHT: real := 0.05
  const CALIBRATION_SIZE: nat := 5

  datatype Decision = Decision(invoice: string, agent: nat, certify: bool)

  datatype Review = Review(invoice: string, agent: nat, reviewer: nat, rating: real)

  /** Paid (true) or defaulted, by invoice. */
  type Outcomes = map<string, bool>

  function Good(paid: bool): real { if paid then 1.0 else 0.0 }

  function Certified(decisions: seq<Decision>): (r: seq<Decision>)
    ensures forall d :: d in r <==> d in decisions && d.certify
  {
    if decisions == [] then []
    else (if decisions[0].certify then [decisions[0]] else []) + Certified(decisions[1..])
  }

  /** `certified[:int(len(certified) * fraction)]` */
  function ResolvedDecisions(certified: seq<Decision>, fraction: real): seq<Decision>
    requires fraction >= 0.0
  {
    var n := (|certified| as real * fraction).Floor;
    if n <= |certified| then certified[..Clamp(n)] else certified
  }

  function Clamp(n: int): nat { if n < 0 then 0 else n }

  function EvidenceOf(decisions: seq<Decision>, outcomes: Outcomes, reviews: seq<Review>, fraction: real): Evidence
    requires fraction >= 0.0
  {
    Evidence(ResolvedDecisions(Certified(decisions), fraction), outcomes, reviews)
  }

  function Invoices(ds: seq<Decision>): set<string> { set d | d in ds :: d.invoice }

  // ----- Sums over reviews and decisions -----

  function SumBy<T>(f: T -> real, xs: seq<T>): real {
    if xs == [] then 0.0 else SumBy(f, xs[..|xs| - 1]) + f(xs[|xs| - 1])
  }

  lemma SumSnoc<T>(f: T -> real, xs: seq<T>, k: nat)
    requires k < |xs|
    ensures SumBy(f, xs[..k + 1]) == SumBy(f, xs[..k]) + f(xs[k])
  {
    assert xs[..k + 1][..k] == xs[..k];
  }

  lemma {:induction false} SumAppend<T>(f: T -> real, xs: seq<T>, ys: seq<T>)
    ensures SumBy(f, xs + ys) == SumBy(f, xs) + SumBy(f, ys)
    decreases |ys|
  {
    if ys == [] {
      assert xs + ys == xs;
    } else {
      assert (xs + ys)[..|xs + ys| - 1] == xs + ys[..|ys| - 1];
      SumAppend(f, xs, ys[..|ys| - 1]);
    }
  }

  lemma SumPullOut<T>(f: T -> real, xs: seq<T>, k: nat)
    requires k < |xs|
    ensures SumBy(f, xs) == SumBy(f, xs[..k] + xs[k + 1..]) + f(xs[k])
  {
    assert xs == xs[..k + 1] + xs[k + 1..];
    SumAppend(f, xs[..k + 1], xs[k + 1..]);
    SumAppend(f, xs[..k], xs[k + 1..]);
    SumSnoc(f, xs, k);
  }

  lemma {:induction false} SumPermuted<T>(f: T -> real, xs: seq<T>, ys: seq<T>)
    requires multiset(xs) == multiset(ys)
    ensures SumBy(f, xs) == SumBy(f, ys)
    decreases |xs|
  {
    assert |xs| == |multiset(xs)| && |ys| == |multiset(ys)|;
    if xs != [] {
      var last := |xs| - 1;
      assert xs[last] in multiset(ys);
      var k :| 0 <= k < |ys| && ys[k] == xs[last];
      Without(xs, last);
      Without(ys, k);
      assert xs[..last] + xs[last + 1..] == xs[..last];
      SumPullOut(f, ys, k);
      SumPermuted(f, xs[..last], ys[..k] + ys[k + 1..]);
    }
  }

  lemma {:induction false} SumSame<T>(f: T -> real, g: T -> real, xs: seq<T>)
    requires forall x :: x in xs ==> f(x) == g(x)
    ensures SumBy(f, xs) == SumBy(g, xs)
  {
    if xs != [] {
      SumSame(f, g, xs[..|xs| - 1]);
    }
  }

  lemma {:induction false} SumOfSums<T>(f: T -> real, g: T -> real, h: T -> real, xs: seq<T>)
    requires forall x :: x in xs ==> h(x) == f(x) + g(x)
    ensures SumBy(h, xs) == SumBy(f, xs) + SumBy(g, xs)
  {
    if xs != [] {
      SumOfSums(f, g, h, xs[..|xs| - 1]);
    }
  }

  lemma {:induction false} SumBounds<T>(f: T -> real, xs: seq<T>, top: real)
    requires forall x :: x in xs ==> 0.0 <= f(x) <= top
    ensures 0.0 <= SumBy(f, xs) <= top * |xs| as real
  {
    if xs != [] {
      SumBounds(f, xs[..|xs| - 1], top);
    }
  }

  // ----- Reviewer calibration -----

  /** The evidence a scoring run has: resolved decisions, their outcomes and all reviews. */
  datatype Evidence = Evidence(resolved: seq<Decision>, outcomes: Outcomes, reviews: seq<Review>) {
    ghost predicate Valid() {
      && (forall d :: d in resolved ==> d.invoice in outcomes)
      && (forall r :: r in reviews ==> 0.0 <= r.rating <= 1.0)
    }

    predicate IsResolved(r: Review) { r.invoice in Invoices(resolved) }
  }

  function Squared(x: real): real { x * x }

  function Outcome(e: Evidence, invoice: string): real {
    if invoice in e.outcomes then Good(e.outcomes[invoice]) else 0.0
  }

  /** Does the review calibrate reviewer j? */
  predicate Calibrates(e: Evidence, j: nat, r: Review) { r.reviewer == j && e.IsResolved(r) }

  function CountTerm(e: Evidence, j: nat): Review -> real {
    (r: Review) => if Calibrates(e, j, r) then 1.0 else 0.0
  }

  function ErrorTerm(e: Evidence, j: nat): Review -> real {
    (r: Review) => if Calibrates(e, j, r) then Squared(r.rating - Outcome(e, r.invoice)) else 0.0
  }

  function Clip(x: real): (r: real)
    ensures 0.0 <= r <= 1.0
  {
    if x < 0.0 then 0.0 else if x > 1.0 then 1.0 else x
  }

  /** One minus the mean squared error over a quarter, clipped; a token weight for the uncalibrated. */
  function WeightFrom(count: real, error: real): (w: real)
    ensures 0.0 <= w <= 1.0
  {
    if count >= CALIBRATION_SIZE as real then Clip(1.0 - (error / count) / 0.25) else DEFAULT_WEIGHT
  }

  function Weight(e: Evidence, j: nat): (w: real)
    ensures 0.0 <= w <= 1.0
  {
    WeightFrom(SumBy(CountTerm(e, j), e.reviews), SumBy(ErrorTerm(e, j), e.reviews))
  }

  // ----- The posterior -----

  predicate Counts(e: Evidence, a: nat, r: Review) { r.agent == a && !e.IsResolved(r) }

  function ForTerm(e: Evidence, a: nat): Review -> real {
    (r: Review) => if Counts(e, a, r) then Weight(e, r.reviewer) * r.rating else 0.0
  }

  function AgainstTerm(e: Evidence, a: nat): Review -> real {
    (r: Review) => if Counts(e, a, r) then Weight(e, r.reviewer) * (1.0 - r.rating) else 0.0
  }

  function WeightTerm(e: Evidence, a: nat): Review -> real {
    (r: Review) => if Counts(e, a, r) then Weight(e, r.reviewer) else 0.0
  }

  function PaidTerm(e: Evidence, a: nat): Decision -> real {
    (d: Decision) => if d.agent == a then Outcome(e, d.invoice) else 0.0
  }

  function DefaultTerm(e: Evidence, a: nat): Decision -> real {
    (d: Decision) => if d.agent == a then 1.0 - Outcome(e, d.invoice) else 0.0
  }

  function OwnTerm(a: nat): Decision -> real {
    (d: Decision) => if d.agent == a then 1.0 else 0.0
  }

  function Alpha(e: Evidence, tier: real, a: nat): real {
    1.0 + K_PRIOR * tier + SumBy(PaidTerm(e, a), e.resolved) + SumBy(ForTerm(e, a), e.reviews)
  }

  function Beta(e: Evidence, tier: real, a: nat): real {
    1.0 + K_PRIOR * (1.0 - tier) + SumBy(DefaultTerm(e, a), e.resolved) + SumBy(AgainstTerm(e, a), e.reviews)
  }

  /** How many resolved certifications the agent has, and how much its unresolved reviews weigh. */
  function ResolvedCount(e: Evidence, a: nat): real { SumBy(OwnTerm(a), e.resolved) }

  function ReviewWeight(e: Evidence, a: nat): real { SumBy(WeightTerm(e, a), e.reviews) }

  /** Evidence mass: two for the flat prior, four for the tier, one per outcome, its weight per review. */
  lemma ScoreMass(e: Evidence, tier: real, a: nat)
    ensures Alpha(e, tier, a) + Beta(e, tier, a) == 6.0 + ResolvedCount(e, a) + ReviewWeight(e, a)
  {
    SumOfSums(PaidTerm(e, a), DefaultTerm(e, a), OwnTerm(a), e.resolved);
    forall r: Review
      ensures WeightTerm(e, a)(r) == ForTerm(e, a)(r) + AgainstTerm(e, a)(r)
    {
      Complement(Weight(e, r.reviewer), r.rating);
    }
    SumOfSums(ForTerm(e, a), AgainstTerm(e, a), WeightTerm(e, a), e.reviews);
  }

  lemma Complement(w: real, x: real)
    ensures w * x + w * (1.0 - x) == w
  {
  }

  lemma ProductPositive(w: real, x: real)
    requires 0.0 <= w && 0.0 <= x
    ensures 0.0 <= w * x
  {
  }

  lemma ReviewTerm(e: Evidence, a: nat, r: Review, top: real)
    requires 0.0 <= r.rating <= 1.0 && Weight(e, r.reviewer) <= top
    ensures 0.0 <= ForTerm(e, a)(r) && 0.0 <= AgainstTerm(e, a)(r)
    ensures WeightTerm(e, a)(r) == ForTerm(e, a)(r) + AgainstTerm(e, a)(r)
    ensures 0.0 <= WeightTerm(e, a)(r) && (0.0 <= top ==> WeightTerm(e, a)(r) <= top)
  {
    ProductPositive(Weight(e, r.reviewer), r.rating);
    ProductPositive(Weight(e, r.reviewer), 1.0 - r.rating);
    Complement(Weight(e, r.reviewer), r.rating);
  }

  lemma {:induction false} SumNonNegative<T>(f: T -> real, xs: seq<T>)
    requires forall x :: x in xs ==> 0.0 <= f(x)
    ensures 0.0 <= SumBy(f, xs)
  {
    if xs != [] {
      SumNonNegative(f, xs[..|xs| - 1]);
    }
  }

  lemma OutcomesPositive(e: Evidence, a: nat)
    ensures 0.0 <= SumBy(PaidTerm(e, a), e.resolved) && 0.0 <= SumBy(DefaultTerm(e, a), e.resolved)
  {
    SumNonNegative(PaidTerm(e, a), e.resolved);
    SumNonNegative(DefaultTerm(e, a), e.resolved);
  }

  lemma ReviewsPositive(e: Evidence, a: nat)
    requires e.Valid()
    ensures 0.0 <= SumBy(ForTerm(e, a), e.reviews) && 0.0 <= SumBy(AgainstTerm(e, a), e.reviews)
  {
    forall r | r in e.reviews
      ensures 0.0 <= ForTerm(e, a)(r) && 0.0 <= AgainstTerm(e, a)(r)
    {
      ReviewTerm(e, a, r, 1.0);
    }
    SumNonNegative(ForTerm(e, a), e.reviews);
    SumNonNegative(AgainstTerm(e, a), e.reviews);
  }

  /** All four sums are non-negative, so both parameters are at least one. */
  lemma Positive(e: Evidence, tier: real, a: nat)
    requires e.Valid() && 0.0 <= tier <= 1.0
    ensures Alpha(e, tier, a) >= 1.0 && Beta(e, tier, a) >= 1.0
  {
    OutcomesPositive(e, a);
    ReviewsPositive(e, a);
  }

  function Score(e: Evidence, tier: real, a: nat): real
    requires Alpha(e, tier, a) + Beta(e, tier, a) > 0.0
  {
    Alpha(e, tier, a) / (Alpha(e, tier, a) + Beta(e, tier, a))
  }

  lemma Divide(x: real, y: real, d: real)
    requires d > 0.0 && x <= y
    ensures x / d <= y / d
    ensures x < y ==> x / d < y / d
  {
  }

  lemma Proportion(x: real, m: real)
    requires 0.0 < x < m
    ensures 0.0 < x / m < 1.0
  {
    Divide(0.0, x, m);
    Divide(x, m, m);
    assert m / m == 1.0 && 0.0 / m == 0.0;
  }

  /** A score is never certain, in either direction. */
  lemma ScoreStrictlyInside(e: Evidence, tier: real, a: nat)
    requires e.Valid() && 0.0 <= tier <= 1.0
    ensures Alpha(e, tier, a) + Beta(e, tier, a) > 0.0 && 0.0 < Score(e, tier, a) < 1.0
  {
    Positive(e, tier, a);
    Proportion(Alpha(e, tier, a), Alpha(e, tier, a) + Beta(e, tier, a));
  }

  // ----- Order of the reviews -----

  lemma WeightPermuted(e: Evidence, f: Evidence, j: nat)
    requires f == e.(reviews := f.reviews) && multiset(e.reviews) == multiset(f.reviews)
    ensures Weight(e, j) == Weight(f, j)
  {
    SumPermuted(CountTerm(e, j), e.reviews, f.reviews);
    SumPermuted(ErrorTerm(e, j), e.reviews, f.reviews);
    SumSame(CountTerm(e, j), CountTerm(f, j), f.reviews);
    SumSame(ErrorTerm(e, j), ErrorTerm(f, j), f.reviews);
  }

  lemma SamePosterior(e: Evidence, f: Evidence, a: nat)
    requires f == e.(reviews := f.reviews)
    requires forall j: nat :: Weight(e, j) == Weight(f, j)
    ensures SumBy(PaidTerm(e, a), e.resolved) == SumBy(PaidTerm(f, a), e.resolved)
    ensures SumBy(DefaultTerm(e, a), e.resolved) == SumBy(DefaultTerm(f, a), e.resolved)
    ensures SumBy(ForTerm(e, a), e.reviews) == SumBy(ForTerm(f, a), e.reviews)
    ensures SumBy(AgainstTerm(e, a), e.reviews) == SumBy(AgainstTerm(f, a), e.reviews)
  {
    SumSame(PaidTerm(e, a), PaidTerm(f, a), e.resolved);
    SumSame(DefaultTerm(e, a), DefaultTerm(f, a), e.resolved);
    SumSame(ForTerm(e, a), ForTerm(f, a), e.reviews);
    SumSame(AgainstTerm(e, a), AgainstTerm(f, a), e.reviews);
  }

  /** The posterior does not depend on the order the reviews came in. */
  lemma ReviewOrderIrrelevant(e: Evidence, f: Evidence, tier: real, a: nat)
    requires f == e.(reviews := f.reviews) && multiset(e.reviews) == multiset(f.reviews)
    ensures Alpha(e, tier, a) == Alpha(f, tier, a) && Beta(e, tier, a) == Beta(f, tier, a)
    ensures Alpha(e, tier, a) + Beta(e, tier, a) > 0.0 ==> Score(e, tier, a) == Score(f, tier, a)
  {
    forall j: nat
      ensures Weight(e, j) == Weight(f, j)
    {
      WeightPermuted(e, f, j);
    }
    SamePosterior(e, f, a);
    SumPermuted(ForTerm(f, a), e.reviews, f.reviews);
    SumPermuted(AgainstTerm(f, a), e.reviews, f.reviews);
  }

  // ----- What fresh reviewers can move -----

  /** Reviews of unresolved invoices by reviewers that are not calibrated yet. */
  ghost predicate Fresh(e: Evidence, extra: seq<Review>) {
    forall r :: r in extra ==>
                  && !e.IsResolved(r) && 0.0 <= r.rating <= 1.0
                  && SumBy(CountTerm(e, r.reviewer), e.reviews) < CALIBRATION_SIZE as real
  }

  lemma {:induction false} SumZero<T>(f: T -> real, xs: seq<T>)
    requires forall x :: x in xs ==> f(x) == 0.0
    ensures SumBy(f, xs) == 0.0
  {
    if xs != [] {
      SumZero(f, xs[..|xs| - 1]);
    }
  }

  /** Fresh reviews calibrate nobody: every weight stays what it was. */
  lemma WeightKept(e: Evidence, f: Evidence, extra: seq<Review>, j: nat)
    requires Fresh(e, extra) && f == e.(reviews := e.reviews + extra)
    ensures Weight(f, j) == Weight(e, j)
  {
    UnresolvedCalibratesNobody(e, f, extra, j);
  }

  /** What the extra reviews add: at most the token weight each, all of it to one side or the other. */
  lemma FreshEvidence(e: Evidence, f: Evidence, extra: seq<Review>, tier: real, a: nat)
    requires Fresh(e, extra) && f == e.(reviews := e.reviews + extra)
    ensures var up, down := Alpha(f, tier, a) - Alpha(e, tier, a), Beta(f, tier, a) - Beta(e, tier, a);
      0.0 <= up && 0.0 <= down && up + down <= DEFAULT_WEIGHT * |extra| as real
  {
    forall j: nat
      ensures Weight(f, j) == Weight(e, j)
    {
      WeightKept(e, f, extra, j);
    }
    SumAppend(ForTerm(f, a), e.reviews, extra);
    SumAppend(AgainstTerm(f, a), e.reviews, extra);
    SamePosterior(e, f, a);
    TokenWeights(f, extra, a, ForTerm(f, a), AgainstTerm(f, a), WeightTerm(f, a));
  }

  lemma TokenWeights(f: Evidence, extra: seq<Review>, a: nat, up: Review -> real, down: Review -> real,
                     both: Review -> real)
    requires forall r :: r in extra ==> 0.0 <= r.rating <= 1.0 && Weight(f, r.reviewer) <= DEFAULT_WEIGHT
    requires up == ForTerm(f, a) && down == AgainstTerm(f, a) && both == WeightTerm(f, a)
    ensures 0.0 <= SumBy(up, extra) && 0.0 <= SumBy(down, extra)
    ensures SumBy(up, extra) + SumBy(down, extra) <= DEFAULT_WEIGHT * |extra| as real
  {
    forall r | r in extra
      ensures 0.0 <= up(r) && 0.0 <= down(r) && 0.0 <= both(r) <= DEFAULT_WEIGHT && both(r) == up(r) + down(r)
    {
      ReviewTerm(f, a, r, DEFAULT_WEIGHT);
    }
    SumsWithin(up, down, both, extra, DEFAULT_WEIGHT);
  }

  lemma SumsWithin(up: Review -> real, down: Review -> real, both: Review -> real, extra: seq<Review>, top: real)
    requires forall r :: r in extra ==>
                           0.0 <= up(r) && 0.0 <= down(r) && 0.0 <= both(r) <= top && both(r) == up(r) + down(r)
    ensures 0.0 <= SumBy(up, extra) && 0.0 <= SumBy(down, extra)
    ensures SumBy(up, extra) + SumBy(down, extra) <= top * |extra| as real
  {
    SumNonNegative(up, extra);
    SumNonNegative(down, extra);
    SumBounds(both, extra, top);
    SumOfSums(up, down, both, extra);
  }

  lemma CrossMultiply(x: real, y: real, c: real, d: real)
    requires c > 0.0 && d > 0.0 && x * d <= y * c
    ensures x / c <= y / d
  {
    Divide(x * d, y * c, c * d);
    assert c * d == d * c > 0.0;
  }

  /** Adding up and down to the two sides of a proportion alpha / m moves it by at most w / (m + w). */
  lemma ProportionMoves(alpha: real, m: real, up: real, down: real, w: real)
    requires 0.0 < alpha < m && 0.0 <= up && 0.0 <= down && up + down <= w
    ensures (alpha + up) / (m + (up + down)) - alpha / m <= w / (m + w)
    ensures alpha / m - (alpha + up) / (m + (up + down)) <= w / (m + w)
  {
    var t := up + down;
    assert (alpha + up) / (m + t) <= alpha / m + t / (m + t) by {
      ShiftedUp(alpha, m, up, t);
    }
    assert alpha / m <= (alpha + up) / (m + t) + t / (m + t) by {
      ShiftedDown(alpha, m, up, t);
    }
    assert t / (m + t) <= w / (m + w) by {
      MoreMoves(m, t, w);
    }
  }

  lemma MoreMoves(m: real, t: real, w: real)
    requires 0.0 < m && 0.0 <= t <= w
    ensures t / (m + t) <= w / (m + w)
  {
    assert t * m <= w * m;
    assert t * (m + w) <= w * (m + t);
    CrossMultiply(t, w, m + t, m + w);
  }

  lemma DivideSum(x: real, y: real, d: real)
    requires d > 0.0
    ensures (x + y) / d == x / d + y / d
  {
  }

  lemma ShiftedUp(alpha: real, m: real, up: real, t: real)
    requires 0.0 < alpha < m && 0.0 <= up <= t
    ensures (alpha + up) / (m + t) <= alpha / m + t / (m + t)
  {
    DivideSum(alpha, up, m + t);
    Divide(up, t, m + t);
    assert alpha / (m + t) <= alpha / m by {
      assert alpha * m <= alpha * (m + t);
      CrossMultiply(alpha, alpha, m + t, m);
    }
  }

  lemma ShiftedDown(alpha: real, m: real, up: real, t: real)
    requires 0.0 < alpha < m && 0.0 <= up <= t
    ensures alpha / m <= (alpha + up) / (m + t) + t / (m + t)
  {
    assert (alpha + t) / (m + t) == alpha / (m + t) + t / (m + t) by {
      DivideSum(alpha, t, m + t);
    }
    assert alpha / (m + t) <= (alpha + up) / (m + t) by {
      Divide(alpha, alpha + up, m + t);
    }
    assert alpha / m <= (alpha + t) / (m + t) by {
      Mediant(alpha, m, t);
    }
  }

  lemma Mediant(alpha: real, m: real, t: real)
    requires 0.0 < alpha < m && 0.0 <= t
    ensures alpha / m <= (alpha + t) / (m + t)
  {
    assert alpha * t <= m * t;
    assert alpha * (m + t) <= (alpha + t) * m;
    CrossMultiply(alpha, alpha + t, m, m + t);
  }

  /**
   However many accounts are made for it and whatever they say, k extra reviews of unresolved invoices by
   reviewers with fewer than five resolved ratings move a score by at most 0.05 k / (mass + 0.05 k).
   */
  lemma FreshInfluenceBounded(e: Evidence, f: Evidence, extra: seq<Review>, tier: real, a: nat)
    requires e.Valid() && 0.0 <= tier <= 1.0
    requires Fresh(e, extra) && f == e.(reviews := e.reviews + extra)
    ensures var mass, w := Alpha(e, tier, a) + Beta(e, tier, a), DEFAULT_WEIGHT * |extra| as real;
      && mass > 0.0 && mass + w > 0.0 && Alpha(f, tier, a) + Beta(f, tier, a) > 0.0
      && Score(f, tier, a) - Score(e, tier, a) <= w / (mass + w)
      && Score(e, tier, a) - Score(f, tier, a) <= w / (mass + w)
  {
    Positive(e, tier, a);
    FreshEvidence(e, f, extra, tier, a);
    ProportionMoves(Alpha(e, tier, a), Alpha(e, tier, a) + Beta(e, tier, a),
                    Alpha(f, tier, a) - Alpha(e, tier, a), Beta(f, tier, a) - Beta(e, tier, a),
                    DEFAULT_WEIGHT * |extra| as real);
  }

  // ----- Which side the evidence goes to -----

  function CountIf<T>(p: T -> bool, xs: seq<T>): nat {
    if xs == [] then 0 else CountIf(p, xs[..|xs| - 1]) + (if p(xs[|xs| - 1]) then 1 else 0)
  }

  /** The agent's certifications that ended as given. */
  function Ended(e: Evidence, a: nat, paid: bool): Decision -> bool {
    (d: Decision) => d.agent == a && d.invoice in e.outcomes && e.outcomes[d.invoice] == paid
  }

  lemma {:induction false} SumIsCount<T>(f: T -> real, p: T -> bool, xs: seq<T>)
    requires forall x :: x in xs ==> f(x) == if p(x) then 1.0 else 0.0
    ensures SumBy(f, xs) == CountIf(p, xs) as real
  {
    if xs != [] {
      SumIsCount(f, p, xs[..|xs| - 1]);
    }
  }

  /** Prior and outcomes: alpha gets four parts of the tier and each paid invoice, beta the rest and each default. */
  lemma PosteriorCounts(e: Evidence, tier: real, a: nat)
    requires e.Valid()
    ensures Alpha(e, tier, a) - SumBy(ForTerm(e, a), e.reviews)
         == 1.0 + 4.0 * tier + CountIf(Ended(e, a, true), e.resolved) as real
    ensures Beta(e, tier, a) - SumBy(AgainstTerm(e, a), e.reviews)
         == 1.0 + 4.0 * (1.0 - tier) + CountIf(Ended(e, a, false), e.resolved) as real
    ensures ResolvedCount(e, a)
         == (CountIf(Ended(e, a, true), e.resolved) + CountIf(Ended(e, a, false), e.resolved)) as real
  {
    SumIsCount(PaidTerm(e, a), Ended(e, a, true), e.resolved);
    SumIsCount(DefaultTerm(e, a), Ended(e, a, false), e.resolved);
    SumOfSums(PaidTerm(e, a), DefaultTerm(e, a), OwnTerm(a), e.resolved);
  }

  /** The invoice of the review is among the resolved certifications. */
  ghost predicate OnResolved(e: Evidence, r: Review) { exists d :: d in e.resolved && d.invoice == r.invoice }

  /** Reviews of unresolved invoices calibrate nobody. */
  lemma UnresolvedCalibratesNobody(e: Evidence, f: Evidence, extra: seq<Review>, j: nat)
    requires (forall r :: r in extra ==> !OnResolved(e, r)) && f == e.(reviews := e.reviews + extra)
    ensures Weight(f, j) == Weight(e, j)
  {
    SumAppend(CountTerm(f, j), e.reviews, extra);
    SumAppend(ErrorTerm(f, j), e.reviews, extra);
    SumSame(CountTerm(e, j), CountTerm(f, j), e.reviews);
    SumSame(ErrorTerm(e, j), ErrorTerm(f, j), e.reviews);
    SumZero(CountTerm(f, j), extra);
    SumZero(ErrorTerm(f, j), extra);
  }

  /** One more review: it adds its rating to one side and the rest to the other, as much as its reviewer weighs. */
  lemma OneMoreReview(e: Evidence, f: Evidence, r: Review, tier: real, a: nat)
    requires f == e.(reviews := e.reviews + [r])
    requires !OnResolved(e, r) || forall j: nat :: Weight(f, j) == Weight(e, j)
    ensures var w := if r.agent == a && !OnResolved(e, r) then Weight(e, r.reviewer) else 0.0;
      && Alpha(f, tier, a) == Alpha(e, tier, a) + w * r.rating
      && Beta(f, tier, a) == Beta(e, tier, a) + w * (1.0 - r.rating)
  {
    forall j: nat
      ensures Weight(f, j) == Weight(e, j)
    {
      if !OnResolved(e, r) {
        UnresolvedCalibratesNobody(e, f, [r], j);
      }
    }
    assert (e.reviews + [r])[..|e.reviews|] == e.reviews;
    SamePosterior(e, f, a);
  }

  // ----- What a weight is made of -----

  /** The squared errors of reviewer j on resolved invoices, in order. */
  function Errors(e: Evidence, j: nat, reviews: seq<Review>): seq<real> {
    if reviews == [] then []
    else
      var rest, r := Errors(e, j, reviews[..|reviews| - 1]), reviews[|reviews| - 1];
      if r.reviewer == j && r.invoice in e.outcomes && r.invoice in Invoices(e.resolved) then
        rest + [if e.outcomes[r.invoice] then (r.rating - 1.0) * (r.rating - 1.0) else r.rating * r.rating]
      else rest
  }

  lemma {:induction false} ErrorsAgree(e: Evidence, j: nat, reviews: seq<Review>)
    requires forall d :: d in e.resolved ==> d.invoice in e.outcomes
    ensures HitsAgree(e, j, Errors(e, j, reviews), reviews) && 0.0 <= SumBy(Identity(), Errors(e, j, reviews))
  {
    if reviews != [] {
      var front, r := reviews[..|reviews| - 1], reviews[|reviews| - 1];
      var before, after := Errors(e, j, front), Errors(e, j, reviews);
      ErrorsAgree(e, j, front);
      SquaredError(r.rating);
      assert after != before ==> after[..|after| - 1] == before;
    }
  }

  lemma SquaredError(x: real)
    ensures Squared(x) == Squared(x - 0.0) == x * x >= 0.0
    ensures Squared(x - 1.0) == (x - 1.0) * (x - 1.0) >= 0.0
  {
  }

  function MeanError(e: Evidence, j: nat): real
    requires Errors(e, j, e.reviews) != []
  {
    SumBy(Identity(), Errors(e, j, e.reviews)) / |Errors(e, j, e.reviews)| as real
  }

  /** A reviewer with five resolved ratings loses four times the mean squared error, down to nothing. */
  lemma WeightExact(e: Evidence, j: nat)
    requires e.Valid()
    ensures var v := Errors(e, j, e.reviews);
      if |v| < 5 then Weight(e, j) == 0.05
      else 0.0 <= MeanError(e, j) && Weight(e, j) == if MeanError(e, j) < 0.25 then 1.0 - 4.0 * MeanError(e, j) else 0.0
  {
    var v := Errors(e, j, e.reviews);
    ErrorsAgree(e, j, e.reviews);
    if |v| >= 5 {
      Divide(0.0, SumBy(Identity(), v), |v| as real);
      assert MeanError(e, j) / 0.25 == 4.0 * MeanError(e, j);
    }
  }

  /** Of two calibrated reviewers the one with the smaller mean squared error weighs at least as much. */
  lemma BetterCalibrated(e: Evidence, i: nat, j: nat)
    requires e.Valid() && |Errors(e, i, e.reviews)| >= 5 && |Errors(e, j, e.reviews)| >= 5
    requires MeanError(e, i) <= MeanError(e, j)
    ensures Weight(e, i) >= Weight(e, j)
    ensures MeanError(e, i) < MeanError(e, j) && MeanError(e, i) < 0.25 ==> Weight(e, i) > Weight(e, j)
  {
    WeightExact(e, i);
    WeightExact(e, j);
  }

  // ----- Better evidence, better score -----

  lemma {:induction false} SumGrows<T>(f: T -> real, g: T -> real, xs: seq<T>, x: T)
    requires (forall y :: y in xs ==> f(y) <= g(y)) && x in xs && f(x) < g(x)
    ensures SumBy(f, xs) < SumBy(g, xs)
  {
    var last := |xs| - 1;
    assert xs == xs[..last] + [xs[last]];
    if x in xs[..last] {
      SumGrows(f, g, xs[..last], x);
    } else {
      SumAtMost(f, g, xs[..last]);
    }
  }

  lemma {:induction false} SumAtMost<T>(f: T -> real, g: T -> real, xs: seq<T>)
    requires forall y :: y in xs ==> f(y) <= g(y)
    ensures SumBy(f, xs) <= SumBy(g, xs)
  {
    if xs != [] {
      SumAtMost(f, g, xs[..|xs| - 1]);
    }
  }

  lemma {:induction false} SumUpdate<T>(f: T -> real, xs: seq<T>, k: nat, y: T)
    requires k < |xs|
    ensures SumBy(f, xs[k := y]) == SumBy(f, xs) - f(xs[k]) + f(y)
  {
    SumPullOut(f, xs, k);
    SumPullOut(f, xs[k := y], k);
    assert xs[k := y][..k] == xs[..k] && xs[k := y][k + 1..] == xs[k + 1..];
  }

  lemma MoreAlpha(x: real, y: real, m: real)
    requires 0.0 < m && x <= y
    ensures x / m <= y / m && (x < y ==> x / m < y / m)
  {
    Divide(x, y, m);
  }

  lemma WeightsWithout(e: Evidence, f: Evidence, invoice: string, j: nat)
    requires f == e.(outcomes := e.outcomes[invoice := true]) && forall r :: r in e.reviews ==> r.invoice != invoice
    ensures Weight(e, j) == Weight(f, j)
  {
    SumSame(CountTerm(e, j), CountTerm(f, j), e.reviews);
    SumSame(ErrorTerm(e, j), ErrorTerm(f, j), e.reviews);
  }

  /** Had an invoice the agent certified been paid instead of defaulting, the agent would score strictly higher. */
  lemma PaidRaisesScore(e: Evidence, f: Evidence, d: Decision, tier: real, a: nat)
    requires e.Valid() && 0.0 <= tier <= 1.0 && d in e.resolved && d.agent == a && !e.outcomes[d.invoice]
    requires f == e.(outcomes := e.outcomes[d.invoice := true]) && forall r :: r in e.reviews ==> r.invoice != d.invoice
    ensures Alpha(e, tier, a) + Beta(e, tier, a) == Alpha(f, tier, a) + Beta(f, tier, a) > 0.0
    ensures Score(e, tier, a) < Score(f, tier, a)
  {
    forall j: nat
      ensures Weight(e, j) == Weight(f, j)
    {
      WeightsWithout(e, f, d.invoice, j);
    }
    SumSame(ForTerm(e, a), ForTerm(f, a), e.reviews);
    SumSame(WeightTerm(e, a), WeightTerm(f, a), e.reviews);
    SumGrows(PaidTerm(e, a), PaidTerm(f, a), e.resolved, d);
    ScoreMass(e, tier, a);
    ScoreMass(f, tier, a);
    Positive(e, tier, a);
    MoreAlpha(Alpha(e, tier, a), Alpha(f, tier, a), Alpha(e, tier, a) + Beta(e, tier, a));
  }

  lemma WeightsRerated(e: Evidence, f: Evidence, k: nat, r: Review, j: nat)
    requires k < |e.reviews| && f == e.(reviews := e.reviews[k := r])
    requires !OnResolved(e, e.reviews[k]) && !OnResolved(e, r)
    ensures Weight(e, j) == Weight(f, j)
  {
    SumSame(CountTerm(e, j), CountTerm(f, j), f.reviews);
    SumSame(ErrorTerm(e, j), ErrorTerm(f, j), f.reviews);
    SumUpdate(CountTerm(e, j), e.reviews, k, r);
    SumUpdate(ErrorTerm(e, j), e.reviews, k, r);
  }

  lemma TermRerated(e: Evidence, a: nat, r: Review, rating: real)
    requires r.agent == a && !OnResolved(e, r) && r.rating <= rating
    ensures ForTerm(e, a)(r) <= ForTerm(e, a)(r.(rating := rating))
    ensures Weight(e, r.reviewer) > 0.0 && r.rating < rating ==> ForTerm(e, a)(r) < ForTerm(e, a)(r.(rating := rating))
    ensures WeightTerm(e, a)(r.(rating := rating)) == WeightTerm(e, a)(r)
  {
    MoreWeighted(Weight(e, r.reviewer), r.rating, rating);
  }

  lemma MoreWeighted(w: real, x: real, y: real)
    requires 0.0 <= w && x <= y
    ensures w * x <= w * y && (0.0 < w && x < y ==> w * x < w * y)
  {
  }

  lemma SumsRerated(e: Evidence, f: Evidence, k: nat, rating: real, a: nat)
    requires k < |e.reviews| && !OnResolved(e, e.reviews[k])
    requires f == e.(reviews := e.reviews[k := e.reviews[k].(rating := rating)])
    ensures var r := e.reviews[k].(rating := rating);
      && SumBy(ForTerm(f, a), f.reviews) == SumBy(ForTerm(e, a), e.reviews) - ForTerm(e, a)(e.reviews[k]) + ForTerm(e, a)(r)
      && SumBy(WeightTerm(f, a), f.reviews)
           == SumBy(WeightTerm(e, a), e.reviews) - WeightTerm(e, a)(e.reviews[k]) + WeightTerm(e, a)(r)
  {
    var r := e.reviews[k].(rating := rating);
    forall j: nat
      ensures Weight(e, j) == Weight(f, j)
    {
      WeightsRerated(e, f, k, r, j);
    }
    SumSame(ForTerm(e, a), ForTerm(f, a), f.reviews);
    SumSame(WeightTerm(e, a), WeightTerm(f, a), f.reviews);
    SumUpdate(ForTerm(e, a), e.reviews, k, r);
    SumUpdate(WeightTerm(e, a), e.reviews, k, r);
  }

  lemma RatingMoves(e: Evidence, f: Evidence, k: nat, rating: real, tier: real, a: nat)
    requires k < |e.reviews| && e.reviews[k].agent == a && !OnResolved(e, e.reviews[k]) && e.reviews[k].rating <= rating
    requires f == e.(reviews := e.reviews[k := e.reviews[k].(rating := rating)])
    ensures Alpha(e, tier, a) <= Alpha(f, tier, a)
    ensures Weight(e, e.reviews[k].reviewer) > 0.0 && e.reviews[k].rating < rating ==> Alpha(e, tier, a) < Alpha(f, tier, a)
    ensures Alpha(f, tier, a) + Beta(f, tier, a) == Alpha(e, tier, a) + Beta(e, tier, a)
  {
    SumsRerated(e, f, k, rating, a);
    TermRerated(e, a, e.reviews[k], rating);
    SumSame(PaidTerm(e, a), PaidTerm(f, a), e.resolved);
    ScoreMass(e, tier, a);
    ScoreMass(f, tier, a);
  }

  /** A better rating of an unresolved certification never lowers the score, and raises it if the reviewer weighs anything. */
  lemma RatingRaisesScore(e: Evidence, f: Evidence, k: nat, rating: real, tier: real, a: nat)
    requires e.Valid() && 0.0 <= tier <= 1.0 && k < |e.reviews| && e.reviews[k].rating <= rating <= 1.0
    requires e.reviews[k].agent == a && !OnResolved(e, e.reviews[k])
    requires f == e.(reviews := e.reviews[k := e.reviews[k].(rating := rating)])
    ensures Alpha(e, tier, a) + Beta(e, tier, a) == Alpha(f, tier, a) + Beta(f, tier, a) > 0.0
    ensures Score(e, tier, a) <= Score(f, tier, a)
    ensures Weight(e, e.reviews[k].reviewer) > 0.0 && e.reviews[k].rating < rating ==> Score(e, tier, a) < Score(f, tier, a)
  {
    RatingMoves(e, f, k, rating, tier, a);
    Positive(e, tier, a);
    MoreAlpha(Alpha(e, tier, a), Alpha(f, tier, a), Alpha(e, tier, a) + Beta(e, tier, a));
  }

  // ----- Which decisions are resolved -----

  /** The certifications, in order, each as often as it was decided. */
  lemma {:induction false} CertifiedAppend(xs: seq<Decision>, ys: seq<Decision>)
    ensures Certified(xs + ys) == Certified(xs) + Certified(ys)
  {
    if xs == [] {
      assert xs + ys == ys;
    } else {
      assert (xs + ys)[1..] == xs[1..] + ys;
      CertifiedAppend(xs[1..], ys);
    }
  }

  lemma CertifiedOne(d: Decision)
    ensures Certified([d]) == if d.certify then [d] else []
  {
  }

  /** The share is rounded down, and is everything from one on. */
  lemma {:induction false} ResolvedShare(certified: seq<Decision>, fraction: real)
    requires fraction >= 0.0
    ensures ResolvedDecisions(certified, fraction) <= certified
    ensures fraction >= 1.0 ==> ResolvedDecisions(certified, fraction) == certified
    ensures fraction <= 1.0 ==>
      var n := |ResolvedDecisions(certified, fraction)|;
      n as real <= |certified| as real * fraction < (n + 1) as real
  {
    ShareBounds(|certified| as real, fraction);
    ResolvedTake(certified, fraction, |certified| as real * fraction);
  }

  lemma {:induction false} ResolvedTake(certified: seq<Decision>, fraction: real, share: real)
    requires fraction >= 0.0 && share == |certified| as real * fraction && 0.0 <= share
    ensures ResolvedDecisions(certified, fraction) <= certified
    ensures share >= |certified| as real ==> ResolvedDecisions(certified, fraction) == certified
    ensures share <= |certified| as real ==>
      var n := |ResolvedDecisions(certified, fraction)|; n as real <= share < (n + 1) as real
  {
    RoundedDown(|certified|, share);
    assert certified[..|certified|] == certified;
  }

  lemma ShareBounds(c: real, fraction: real)
    requires 0.0 <= c && 0.0 <= fraction
    ensures fraction >= 1.0 ==> c * fraction >= c
    ensures fraction <= 1.0 ==> 0.0 <= c * fraction <= c
  {
  }

  lemma RoundedDown(n: nat, x: real)
    ensures 0.0 <= x ==> 0 <= x.Floor
    ensures x.Floor as real <= x < (x.Floor + 1) as real
    ensures x <= n as real ==> x.Floor <= n
    ensures x >= n as real ==> x.Floor >= n
  {
  }

  // ----- The scoring run -----

  function Identity(): real -> real { (x: real) => x }

  /** Collects the squared errors of every reviewer on resolved invoices and turns them into weights. */
  method CalibrateReviewers(e: Evidence, reviewers: nat) returns (revW: seq<real>)
    requires e.Valid() && forall r :: r in e.reviews ==> r.reviewer < reviewers
    ensures |revW| == reviewers && forall j :: 0 <= j < reviewers ==> revW[j] == Weight(e, j)
  {
    var resolvedRefs: set<string> := {};
    for i := 0 to |e.resolved|
      invariant resolvedRefs == Invoices(e.resolved[..i])
    {
      resolvedRefs := resolvedRefs + {e.resolved[i].invoice};
      assert e.resolved[..i + 1] == e.resolved[..i] + [e.resolved[i]];
    }
    assert e.resolved[..|e.resolved|] == e.resolved;
    var revHit: seq<seq<real>> := seq(reviewers, _ => []);
    for i := 0 to |e.reviews|
      invariant |revHit| == reviewers
      invariant forall j :: 0 <= j < reviewers ==> HitsAgree(e, j, revHit[j], e.reviews[..i])
    {
      var r := e.reviews[i];
      ghost var before := revHit;
      if r.invoice in resolvedRefs {
        var good := Good(e.outcomes[r.invoice]);
        revHit := revHit[r.reviewer := revHit[r.reviewer] + [Squared(r.rating - good)]];
      }
      forall j | 0 <= j < reviewers
        ensures HitsAgree(e, j, revHit[j], e.reviews[..i + 1])
      {
        HitsStep(e, j, before[j], i, revHit[j]);
      }
    }
    assert e.reviews[..|e.reviews|] == e.reviews;
    revW := [];
    for j := 0 to reviewers
      invariant |revW| == j && forall k :: 0 <= k < j ==> revW[k] == Weight(e, k)
    {
      assert HitsAgree(e, j, revHit[j], e.reviews);
      var v := revHit[j];
      var w := if |v| >= CALIBRATION_SIZE
      then Clip(1.0 - (SumBy(Identity(), v) / |v| as real) / 0.25)
      else DEFAULT_WEIGHT;
      revW := revW + [w];
    }
  }

  ghost predicate HitsAgree(e: Evidence, j: nat, hits: seq<real>, reviews: seq<Review>) {
    && |hits| as real == SumBy(CountTerm(e, j), reviews)
    && SumBy(Identity(), hits) == SumBy(ErrorTerm(e, j), reviews)
  }

  lemma HitsStep(e: Evidence, j: nat, hits: seq<real>, i: nat, after: seq<real>)
    requires i < |e.reviews| && HitsAgree(e, j, hits, e.reviews[..i])
    requires var r := e.reviews[i];
      after == if Calibrates(e, j, r) then hits + [Squared(r.rating - Outcome(e, r.invoice))] else hits
    ensures HitsAgree(e, j, after, e.reviews[..i + 1])
  {
    SumSnoc(CountTerm(e, j), e.reviews, i);
    SumSnoc(ErrorTerm(e, j), e.reviews, i);
    assert after != hits ==> after[..|after| - 1] == hits;
  }

  method CgrScores(decisions: seq<Decision>, outcomes: Outcomes, reviews: seq<Review>, tiers: seq<real>,
                   reviewers: nat, fraction: real)
    returns (scores: seq<real>, ndata: seq<nat>)
    requires fraction >= 0.0 && EvidenceOf(decisions, outcomes, reviews, fraction).Valid()
    requires forall r :: r in reviews ==> r.reviewer < reviewers
    requires forall a :: 0 <= a < |tiers| ==> 0.0 <= tiers[a] <= 1.0
    ensures |scores| == |ndata| == |tiers|
    ensures forall a :: 0 <= a < |tiers| ==>
      Scored(EvidenceOf(decisions, outcomes, reviews, fraction), tiers[a], a, scores[a], ndata[a])
  {
    var certified := Certified(decisions);
    var resolved := ResolvedDecisions(certified, fraction);
    var evidence := Evidence(resolved, outcomes, reviews);
    var revW := CalibrateReviewers(evidence, reviewers);
    scores, ndata := [], [];
    for a := 0 to |tiers|
      invariant |scores| == |ndata| == a
      invariant forall b :: 0 <= b < a ==> Scored(evidence, tiers[b], b, scores[b], ndata[b])
    {
      var score, n := AgentScore(evidence, revW, tiers[a], a);
      scores := scores + [score];
      ndata := ndata + [n];
    }
  }

  ghost predicate Scored(e: Evidence, tier: real, a: nat, score: real, n: nat) {
    && Alpha(e, tier, a) + Beta(e, tier, a) > 0.0
    && score == Score(e, tier, a)
    && n as real == ResolvedCount(e, a)
  }

  method AgentScore(e: Evidence, revW: seq<real>, tier: real, a: nat) returns (score: real, n: nat)
    requires e.Valid() && (forall r :: r in e.reviews ==> r.reviewer < |revW|) && 0.0 <= tier <= 1.0
    requires forall j :: 0 <= j < |revW| ==> revW[j] == Weight(e, j)
    ensures Scored(e, tier, a, score, n)
  {
    var alpha, beta;
    alpha, beta, n := AgentPosterior(e, revW, tier, a);
    Positive(e, tier, a);
    score := alpha / (alpha + beta);
  }

  method AgentPosterior(e: Evidence, revW: seq<real>, tier: real, a: nat) returns (alpha: real, beta: real, n: nat)
    requires e.Valid() && forall r :: r in e.reviews ==> r.reviewer < |revW|
    requires forall j :: 0 <= j < |revW| ==> revW[j] == Weight(e, j)
    ensures alpha == Alpha(e, tier, a) && beta == Beta(e, tier, a) && n as real == ResolvedCount(e, a)
  {
    alpha, beta, n := 1.0 + K_PRIOR * tier, 1.0 + K_PRIOR * (1.0 - tier), 0;
    for i := 0 to |e.resolved|
      invariant alpha == 1.0 + K_PRIOR * tier + SumBy(PaidTerm(e, a), e.resolved[..i])
      invariant beta == 1.0 + K_PRIOR * (1.0 - tier) + SumBy(DefaultTerm(e, a), e.resolved[..i])
      invariant n as real == SumBy(OwnTerm(a), e.resolved[..i])
    {
      SumSnoc(PaidTerm(e, a), e.resolved, i);
      SumSnoc(DefaultTerm(e, a), e.resolved, i);
      SumSnoc(OwnTerm(a), e.resolved, i);
      var d := e.resolved[i];
      if d.agent == a {
        var good := Good(e.outcomes[d.invoice]);
        alpha, beta, n := alpha + good, beta + (1.0 - good), n + 1;
      }
    }
    assert e.resolved[..|e.resolved|] == e.resolved;
    alpha, beta := AddReviews(e, revW, a, alpha, beta);
  }

  method AddReviews(e: Evidence, revW: seq<real>, a: nat, alpha0: real, beta0: real) returns (alpha: real, beta: real)
    requires forall r :: r in e.reviews ==> r.reviewer < |revW|
    requires forall j :: 0 <= j < |revW| ==> revW[j] == Weight(e, j)
    ensures alpha == alpha0 + SumBy(ForTerm(e, a), e.reviews)
    ensures beta == beta0 + SumBy(AgainstTerm(e, a), e.reviews)
  {
    alpha, beta := alpha0, beta0;
    for i := 0 to |e.reviews|
      invariant alpha == alpha0 + SumBy(ForTerm(e, a), e.reviews[..i])
      invariant beta == beta0 + SumBy(AgainstTerm(e, a), e.reviews[..i])
    {
      SumSnoc(ForTerm(e, a), e.reviews, i);
      SumSnoc(AgainstTerm(e, a), e.reviews, i);
      var r := e.reviews[i];
      if r.agent == a && r.invoice !in Invoices(e.resolved) {
        var w := revW[r.reviewer];
        var up, down := w * r.rating, w * (1.0 - r.rating);
        assert ForTerm(e, a)(r) == up && AgainstTerm(e, a)(r) == down;
        alpha, beta := alpha + up, beta + down;
      }
    }
    assert e.reviews[..|e.reviews|] == e.reviews;
  }
}
