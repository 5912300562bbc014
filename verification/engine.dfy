/** The credit decision engine: risk tiering, the three-way decision
    cascade, the approved-amount and interest-rate tables, the rejection
    explainer, and the assembly of the credit-check response. */
module Engine {
  import opened Wrappers
  import opened Decimals
  import opened Records
  import opened History

  // ---------------------------------------------------------------------------
  // Risk tier

  /** `determineRiskLevel` */
  function DetermineRiskLevel(score: int): (r: RiskLevel)
    ensures r == Low <==> score >= 700
    ensures r == Medium <==> 600 <= score < 700
    ensures r == High <==> score < 600
  {
    if score >= 700 then Low
    else if score >= 600 then Medium
    else High
  }

  // ---------------------------------------------------------------------------
  // Decision cascade

  /** `new BigDecimal("0.4")` */
  const RatioThreshold: Decimal := Decimal(4, 1)

  /** `makeDecision`. The ratio is computed only in the middle tier, so only
      there can a missing or vanishing income make the decision fail. */
  function MakeDecision(score: int, hs: seq<CreditHistory>, request: CreditCheckRequest): (r: Result<Decision, RatioError>)
    ensures score >= 700 ==> r == Success(Approved)
    ensures score < 600 ==> r == Success(Rejected)
    ensures 600 <= score < 700 ==>
      var ratio := DebtToIncomeRatio(hs, request.annualIncome);
      && (r.Failure? <==> ratio.Failure?)
      && (ratio.Success? ==> (r == Success(Approved) <==> ratio.value.unscaled <= 40))
      && (ratio.Success? ==> (r == Success(ManualReview) <==> ratio.value.unscaled > 40))
  {
    if score >= 700 then Success(Approved)
    else if score >= 600 then
      match DebtToIncomeRatio(hs, request.annualIncome)
      case Failure(e) => Failure(e)
      case Success(ratio) =>
        CmpAtScale(ratio, RatioThreshold, 2);
        if Cmp(ratio, RatioThreshold) <= 0 then Success(Approved) else Success(ManualReview)
    else Success(Rejected)
  }

  function DecisionRank(d: Decision): nat {
    match d
    case Rejected => 0
    case ManualReview => 1
    case Approved => 2
  }

  /** A higher score never yields a worse decision for the same history and
      request. */
  lemma DecisionMonotoneInScore(s1: int, s2: int, hs: seq<CreditHistory>, request: CreditCheckRequest)
    requires s1 <= s2
    requires MakeDecision(s1, hs, request).Success? && MakeDecision(s2, hs, request).Success?
    ensures DecisionRank(MakeDecision(s1, hs, request).value) <= DecisionRank(MakeDecision(s2, hs, request).value)
  {
  }

  /** The risk tier and the decision agree: LOW always approves, HIGH
      exactly when the decision is a rejection. */
  lemma RiskTierAgreesWithDecision(score: int, hs: seq<CreditHistory>, request: CreditCheckRequest)
    requires MakeDecision(score, hs, request).Success?
    ensures DetermineRiskLevel(score) == Low ==> MakeDecision(score, hs, request).value == Approved
    ensures DetermineRiskLevel(score) == High <==> MakeDecision(score, hs, request).value == Rejected
    ensures DetermineRiskLevel(score) == Medium ==> MakeDecision(score, hs, request).value != Rejected
  {
  }

  /** HALF_UP rounding of `n / d` stays at or below `k` exactly when the
      exact fraction lies below `k + 1/2`. */
  lemma HalfUpAtMost(n: int, d: int, q: int, k: int)
    requires d > 0 && k >= 0
    requires IsHalfUp(n, d, q)
    ensures q <= k <==> 2 * n < (2 * k + 1) * d
  {
    if n >= 0 {
      if q <= k {
        MulMonotone(q, k, 2 * d);
        assert 2 * d * q <= 2 * d * k;
      } else {
        MulMonotone(k + 1, q, 2 * d);
        assert 2 * d * (k + 1) <= 2 * d * q;
      }
    } else {
      if q >= 1 {
        MulMonotone(1, q, 2 * d);
      }
      MulMonotone(0, 2 * k + 1, d);
    }
  }

  /** The 0.4 cut-off is applied to the ratio after HALF_UP rounding to two
      places, so for a positive monthly income the middle tier approves
      exactly when the exact ratio debt/income is below 0.405, that is when
      200 * debt < 81 * monthly income. */
  lemma MiddleTierExactThreshold(score: int, hs: seq<CreditHistory>, request: CreditCheckRequest)
    requires 600 <= score < 700
    requires request.annualIncome.Some? && MonthlyIncome(request.annualIncome.value).unscaled > 0
    ensures
      var t, m := TotalDebt(hs), MonthlyIncome(request.annualIncome.value);
      MakeDecision(score, hs, request) == Success(Approved) <==>
        200 * (t.unscaled * Pow10(m.scale)) < 81 * (m.unscaled * Pow10(t.scale))
  {
    var annual := request.annualIncome.value;
    var t, m := TotalDebt(hs), MonthlyIncome(annual);
    MonthlyIncomeVanishes(annual);
    var ratio := DebtToIncomeRatio(hs, request.annualIncome);
    assert ratio.Success?;
    var x := t.unscaled * Pow10(m.scale);
    var n, d := t.unscaled * Pow10(m.scale + 2), m.unscaled * Pow10(t.scale);
    assert IsHalfUp(n, d, ratio.value.unscaled);
    MulMonotone(0, m.unscaled, Pow10(t.scale));
    assert d > 0;
    HalfUpAtMost(n, d, ratio.value.unscaled, 40);
    assert n == 100 * x by {
      Pow10Add(m.scale, 2);
      assert Pow10(2) == 100;
      assert Pow10(m.scale + 2) == Pow10(m.scale) * 100;
      MulAssoc(t.unscaled, Pow10(m.scale), 100);
    }
    assert MakeDecision(score, hs, request) == Success(Approved) <==> ratio.value.unscaled <= 40;
  }

  lemma MulAssoc(a: int, b: int, c: int)
    ensures a * (b * c) == (a * b) * c
  {
  }

  // ---------------------------------------------------------------------------
  // Offer tables

  /** `calculateApprovedAmount` */
  function ApprovedAmount(score: int, requested: Decimal): (r: Decimal)
    ensures r.scale <= requested.scale + 2
    ensures r.unscaled == 0 <==> score < 600 || requested.unscaled == 0
    ensures requested.unscaled >= 0 ==> r.unscaled >= 0
    ensures score >= 750 ==> r == requested
    ensures score < 600 ==> r == Zero
    ensures 600 <= score < 750 ==> r.scale == requested.scale + (if 650 <= score < 700 then 2 else 1)
  {
    if score >= 750 then requested
    else if score >= 700 then Multiply(requested, Decimal(9, 1))
    else if score >= 650 then Multiply(requested, Decimal(75, 2))
    else if score >= 600 then Multiply(requested, Decimal(5, 1))
    else Zero
  }

  /** The share of the requested amount granted, in percent. */
  function ApprovedPercent(score: int): nat {
    if score >= 750 then 100
    else if score >= 700 then 90
    else if score >= 650 then 75
    else if score >= 600 then 50
    else 0
  }

  /** The branches of `calculateApprovedAmount` multiply exactly: written two
      places finer than the request, the approved amount is the request
      times its percentage. */
  lemma ApprovedAmountExact(score: int, requested: Decimal)
    ensures Scaled(ApprovedAmount(score, requested), requested.scale + 2) == requested.unscaled * ApprovedPercent(score)
  {
    var s := requested.scale;
    assert Pow10(2) == 100;
    assert Pow10(1) == 10;
    if score >= 750 {
      assert s + 2 - s == 2;
    } else if score >= 700 {
      assert s + 2 - (s + 1) == 1;
    } else if score >= 650 {
      assert s + 2 - (s + 2) == 0;
    } else if score >= 600 {
      assert s + 2 - (s + 1) == 1;
    }
  }

  /** For a non-negative request the approved amount lies between zero and
      the requested amount. */
  lemma ApprovedAmountBounds(score: int, requested: Decimal)
    requires requested.unscaled >= 0
    ensures Cmp(Zero, ApprovedAmount(score, requested)) <= 0
    ensures Cmp(ApprovedAmount(score, requested), requested) <= 0
  {
    var a, t := ApprovedAmount(score, requested), requested.scale + 2;
    ApprovedAmountExact(score, requested);
    CmpAtScale(Zero, a, t);
    CmpAtScale(a, requested, t);
    assert Scaled(requested, t) == requested.unscaled * 100 by {
      assert Pow10(2) == 100;
      assert t - requested.scale == 2;
    }
    MulMonotone(0, requested.unscaled, ApprovedPercent(score) + 1);
    MulMonotone2(requested.unscaled, ApprovedPercent(score), 100);
  }

  lemma MulMonotone2(x: int, a: int, b: int)
    requires x >= 0 && 0 <= a <= b
    ensures 0 <= x * a <= x * b
  {
  }

  /** For a non-negative request the approved amount never decreases as the
      score rises. */
  lemma ApprovedAmountMonotone(s1: int, s2: int, requested: Decimal)
    requires s1 <= s2 && requested.unscaled >= 0
    ensures Cmp(ApprovedAmount(s1, requested), ApprovedAmount(s2, requested)) <= 0
  {
    ApprovedAmountExact(s1, requested);
    ApprovedAmountExact(s2, requested);
    CmpAtScale(ApprovedAmount(s1, requested), ApprovedAmount(s2, requested), requested.scale + 2);
    MulMonotone2(requested.unscaled, ApprovedPercent(s1), ApprovedPercent(s2));
  }

  /** For a non-zero request nothing is approved exactly below 600. */
  lemma ApprovedAmountZeroIff(score: int, requested: Decimal)
    requires requested.unscaled != 0
    ensures Cmp(ApprovedAmount(score, requested), Zero) == 0 <==> score < 600
  {
    ApprovedAmountExact(score, requested);
    CmpAtScale(ApprovedAmount(score, requested), Zero, requested.scale + 2);
    if ApprovedPercent(score) != 0 {
      NonZeroProduct(requested.unscaled, ApprovedPercent(score));
    }
  }

  /** `calculateInterestRate`: a flat annual percentage per score tier; the
      requested amount plays no part. */
  function InterestRate(score: int): (r: Decimal)
    ensures r.scale == 1
    ensures 35 <= r.unscaled <= 180
    ensures r == Decimal(RateTenths[OfferBand(score)], 1)
  {
    if score >= 750 then Decimal(35, 1)
    else if score >= 700 then Decimal(50, 1)
    else if score >= 650 then Decimal(75, 1)
    else if score >= 600 then Decimal(120, 1)
    else Decimal(180, 1)
  }

  /** The rate always lies between 3.5 and 18.0 percent. */
  lemma InterestRateBounds(score: int)
    ensures Cmp(Decimal(35, 1), InterestRate(score)) <= 0
    ensures Cmp(InterestRate(score), Decimal(180, 1)) <= 0
  {
    CmpAtScale(Decimal(35, 1), InterestRate(score), 1);
    CmpAtScale(InterestRate(score), Decimal(180, 1), 1);
  }

  /** A higher score never yields a higher rate. */
  lemma InterestRateMonotone(s1: int, s2: int)
    requires s1 <= s2
    ensures Cmp(InterestRate(s2), InterestRate(s1)) <= 0
  {
    CmpAtScale(InterestRate(s2), InterestRate(s1), 1);
  }

  /** The rate of each band in tenths of a percent, from band 0 (below 600)
      to band 4 (750 and above): 18.0, 12.0, 7.5, 5.0, 3.5. */
  const RateTenths: seq<int> := [180, 120, 75, 50, 35]

  /** The score bands shared by both offer tables: 0 for below 600, then
      one band per breakpoint 600, 650, 700, 750. */
  function OfferBand(score: int): (b: nat)
    ensures b < |RateTenths|
  {
    if score >= 750 then 4
    else if score >= 700 then 3
    else if score >= 650 then 2
    else if score >= 600 then 1
    else 0
  }

  /** Both tables change exactly at the same breakpoints: the rate and the
      amount depend on the score only through its band, and every band has
      its own rate. */
  lemma OfferTablesShareBreakpoints(s1: int, s2: int, requested: Decimal)
    ensures OfferBand(s1) == OfferBand(s2) ==>
      ApprovedAmount(s1, requested) == ApprovedAmount(s2, requested) && InterestRate(s1) == InterestRate(s2)
    ensures InterestRate(s1) == InterestRate(s2) ==> OfferBand(s1) == OfferBand(s2)
  {
  }

  // ---------------------------------------------------------------------------
  // Rejection explainer

  datatype RejectionReason = ScoreTooLow | TooManyDelinquentAccounts | DoesNotMeetCriteria

  function Message(reason: RejectionReason): string {
    match reason
    case ScoreTooLow => "Credit score too low"
    case TooManyDelinquentAccounts => "Too many delinquent accounts"
    case DoesNotMeetCriteria => "Credit profile does not meet lending criteria"
  }

  /** `generateRejectionReason`: the first matching rule wins; an account
      counts as delinquent unless its status is exactly CURRENT. */
  function GenerateRejectionReason(score: int, hs: seq<CreditHistory>): (r: RejectionReason)
    ensures r == ScoreTooLow <==> score < 500
    ensures r == TooManyDelinquentAccounts <==>
      score >= 500 && |hs| - multiset(Statuses(hs))[Some(Current)] > 2
    ensures r == DoesNotMeetCriteria <==>
      score >= 500 && |hs| - multiset(Statuses(hs))[Some(Current)] <= 2
  {
    DelinquentCountByStatus(hs);
    if score < 500 then ScoreTooLow
    else if DelinquentCount(hs) > 2 then TooManyDelinquentAccounts
    else DoesNotMeetCriteria
  }

  /** Distinct reasons have distinct messages. */
  lemma MessageInjective(a: RejectionReason, b: RejectionReason)
    ensures Message(a) == Message(b) ==> a == b
  {
    if a != b {
      assert Message(a)[0] != Message(b)[0] || |Message(a)| != |Message(b)|;
    }
  }

  // ---------------------------------------------------------------------------
  // Response assembly

  function Summarize(h: CreditHistory): CreditHistorySummary {
    CreditHistorySummary(h.accountType, h.creditorName, h.currentBalance, h.paymentStatus, h.daysLate)
  }

  function Summaries(hs: seq<CreditHistory>): (r: seq<CreditHistorySummary>)
    ensures |r| == |hs|
    ensures forall i :: 0 <= i < |hs| ==> r[i] == Summarize(hs[i])
  {
    seq(|hs|, i requires 0 <= i < |hs| => Summarize(hs[i]))
  }

  /** `buildCreditCheckResponse`: the decision, the offer computed from the
      score alone, the rejection reason only for a rejection, and the risk
      level as stored on the score record (not recomputed). Fails only when
      the decision does, that is when the ratio is needed and cannot be
      computed. */
  function BuildCreditCheckResponse(cs: CreditScore, hs: seq<CreditHistory>, request: CreditCheckRequest, now: Instant)
    : (r: Result<CreditCheckResponse, RatioError>)
    ensures r.Failure? <==> 600 <= cs.score < 700 && DebtToIncomeRatio(hs, request.annualIncome).Failure?
    ensures r.Success? ==> (r.value.isApproved <==> r.value.decision == Approved)
    ensures r.Success? ==> (r.value.rejectionReason.Some? <==> r.value.decision == Rejected)
    ensures r.Success? && r.value.decision == Rejected ==>
      r.value.approvedAmount.unscaled == 0 && r.value.recommendedInterestRate == Decimal(180, 1)
    ensures r.Success? ==>
      && r.value.riskLevel == cs.riskLevel
      && r.value.creditScore == cs.score
      && r.value.ssn == cs.ssn
      && r.value.checkDate == now
      && |r.value.creditHistory| == |hs|
    ensures r.Success? ==>
      && MakeDecision(cs.score, hs, request) == Success(r.value.decision)
      && r.value.approvedAmount == ApprovedAmount(cs.score, request.requestedAmount)
      && r.value.recommendedInterestRate == InterestRate(cs.score)
      && r.value.firstName == cs.firstName
      && r.value.lastName == cs.lastName
      && r.value.creditHistory == Summaries(hs)
    ensures r.Success? && r.value.decision == Rejected ==>
      r.value.rejectionReason == Some(Message(GenerateRejectionReason(cs.score, hs)))
  {
    match MakeDecision(cs.score, hs, request)
    case Failure(e) => Failure(e)
    case Success(decision) =>
      Success(CreditCheckResponse(
        ssn := cs.ssn,
        firstName := cs.firstName,
        lastName := cs.lastName,
        creditScore := cs.score,
        riskLevel := cs.riskLevel,
        isApproved := decision == Approved,
        decision := decision,
        rejectionReason :=
          if decision == Rejected then Some(Message(GenerateRejectionReason(cs.score, hs))) else None,
        approvedAmount := ApprovedAmount(cs.score, request.requestedAmount),
        recommendedInterestRate := InterestRate(cs.score),
        creditHistory := Summaries(hs),
        checkDate := now))
  }

  /** The offer is carried whatever the decision: a case sent to manual
      review still shows the amount and rate that approval would give. */
  lemma ManualReviewCarriesOffer(cs: CreditScore, hs: seq<CreditHistory>, request: CreditCheckRequest, now: Instant)
    requires request.requestedAmount.unscaled != 0
    requires BuildCreditCheckResponse(cs, hs, request, now).Success?
    requires BuildCreditCheckResponse(cs, hs, request, now).value.decision == ManualReview
    ensures var resp := BuildCreditCheckResponse(cs, hs, request, now).value;
      && Cmp(resp.approvedAmount, Zero) != 0
      && (resp.recommendedInterestRate == Decimal(75, 1) || resp.recommendedInterestRate == Decimal(120, 1))
  {
    ApprovedAmountZeroIff(cs.score, request.requestedAmount);
  }

  /** When the stored risk level is the one the score determines, it agrees
      with the decision of the same response. */
  lemma ConsistentRiskLevelAgrees(cs: CreditScore, hs: seq<CreditHistory>, request: CreditCheckRequest, now: Instant)
    requires cs.riskLevel == DetermineRiskLevel(cs.score)
    requires BuildCreditCheckResponse(cs, hs, request, now).Success?
    ensures var resp := BuildCreditCheckResponse(cs, hs, request, now).value;
      && (resp.riskLevel == Low ==> resp.decision == Approved)
      && (resp.riskLevel == High <==> resp.decision == Rejected)
  {
    RiskTierAgreesWithDecision(cs.score, hs, request);
  }

  /** Evaluating twice on the same inputs gives the same response, apart
      from the evaluation timestamp. */
  lemma ResponseDeterministic(cs: CreditScore, hs: seq<CreditHistory>, request: CreditCheckRequest, t1: Instant, t2: Instant)
    ensures var r1, r2 := BuildCreditCheckResponse(cs, hs, request, t1), BuildCreditCheckResponse(cs, hs, request, t2);
      && (r1.Success? <==> r2.Success?)
      && (r1.Success? ==> r1.value.(checkDate := t2) == r2.value)
  {
  }

  /** Reordering the history records changes nothing in the response except
      the order of the echoed history summaries. */
  lemma ResponseOrderIndependent(cs: CreditScore, xs: seq<CreditHistory>, ys: seq<CreditHistory>, request: CreditCheckRequest, now: Instant)
    requires multiset(xs) == multiset(ys)
    ensures var r1, r2 := BuildCreditCheckResponse(cs, xs, request, now), BuildCreditCheckResponse(cs, ys, request, now);
      && (r1.Success? <==> r2.Success?)
      && (r1.Success? ==> r1.value.(creditHistory := Summaries(ys)) == r2.value)
  {
    RatioOrderIndependent(xs, ys, request.annualIncome);
    PermutationInvariant(xs, ys, 0);
  }
}
