/** How records are created and merged with update requests: every field
    takes the request's value when it is non-null and keeps the existing
    value otherwise; identity fields are never touched; the risk level of a
    score record follows its own three-way fallback. */
module Updates {
  import opened Wrappers
  import opened Records
  import opened Engine

  // ---------------------------------------------------------------------------
  // Score records

  /** The risk level of a new score record: the explicit request value, or
      the one its score determines. */
  function InitialRiskLevel(score: int, explicit: Option<RiskLevel>): (r: RiskLevel)
    ensures explicit.Some? ==> r == explicit.value
    ensures explicit.None? ==> r == DetermineRiskLevel(score)
  {
    explicit.ValueOr(DetermineRiskLevel(score))
  }

  /** A score record whose risk level is the one its score determines. */
  predicate RiskConsistent(cs: CreditScore) {
    cs.riskLevel == DetermineRiskLevel(cs.score)
  }

  /** The new-record branch of `createCreditScore`; the store assigns `id`. */
  function NewCreditScore(request: CreateCreditScoreRequest, now: Instant): (r: CreditScore)
    ensures r.id.None? && r.ssn == request.ssn && r.score == request.score
    ensures r.createdAt == now && r.lastUpdated == now
    ensures request.riskLevel.Some? ==> r.riskLevel == request.riskLevel.value
    ensures request.riskLevel.None? ==> RiskConsistent(r)
  {
    CreditScore(
      id := None,
      ssn := request.ssn,
      firstName := request.firstName,
      lastName := request.lastName,
      score := request.score,
      riskLevel := InitialRiskLevel(request.score, request.riskLevel),
      lastUpdated := now,
      createdAt := now)
  }

  /** `updateExistingCreditScore`: creating a score for an SSN that already
      has one overwrites every non-identity field with the request, null
      names included. */
  function UpdateExistingCreditScore(existing: CreditScore, request: CreateCreditScoreRequest, now: Instant): (r: CreditScore)
    ensures r.id == existing.id && r.ssn == existing.ssn && r.createdAt == existing.createdAt
    ensures r.firstName == request.firstName && r.lastName == request.lastName
    ensures r.score == request.score && r.lastUpdated == now
    ensures request.riskLevel.Some? ==> r.riskLevel == request.riskLevel.value
    ensures request.riskLevel.None? ==> RiskConsistent(r)
  {
    CreditScore(
      id := existing.id,
      ssn := existing.ssn,
      firstName := request.firstName,
      lastName := request.lastName,
      score := request.score,
      riskLevel := InitialRiskLevel(request.score, request.riskLevel),
      lastUpdated := now,
      createdAt := existing.createdAt)
  }

  /** The overwrite path differs from the new-record path only in keeping
      the existing record's identity and creation time: nothing else of the
      existing record survives. */
  lemma OverwriteIsCreateWithIdentity(existing: CreditScore, request: CreateCreditScoreRequest, now: Instant)
    ensures UpdateExistingCreditScore(existing, request, now) ==
      NewCreditScore(request, now).(id := existing.id, ssn := existing.ssn, createdAt := existing.createdAt)
  {
  }

  /** The three-way fallback of `updateCreditScore` for the risk level: an
      explicit value, else the level a new score determines, else the
      existing level. */
  function UpdatedRiskLevel(existing: CreditScore, request: UpdateCreditScoreRequest): (r: RiskLevel)
    ensures request.riskLevel.Some? ==> r == request.riskLevel.value
    ensures request.riskLevel.None? && request.score.Some? ==> r == DetermineRiskLevel(request.score.value)
    ensures request.riskLevel.None? && request.score.None? ==> r == existing.riskLevel
  {
    if request.riskLevel.Some? then request.riskLevel.value
    else if request.score.Some? then DetermineRiskLevel(request.score.value)
    else existing.riskLevel
  }

  /** `updateCreditScore` on the record found for the SSN. */
  function UpdateCreditScore(existing: CreditScore, request: UpdateCreditScoreRequest, now: Instant): (r: CreditScore)
    ensures r.id == existing.id && r.ssn == existing.ssn && r.createdAt == existing.createdAt
    ensures r.lastUpdated == now
    ensures request.firstName.Some? ==> r.firstName == request.firstName
    ensures request.firstName.None? ==> r.firstName == existing.firstName
    ensures request.lastName.Some? ==> r.lastName == request.lastName
    ensures request.lastName.None? ==> r.lastName == existing.lastName
    ensures request.score.Some? ==> r.score == request.score.value
    ensures request.score.None? ==> r.score == existing.score
    ensures r.riskLevel == UpdatedRiskLevel(existing, request)
  {
    CreditScore(
      id := existing.id,
      ssn := existing.ssn,
      firstName := Or(request.firstName, existing.firstName),
      lastName := Or(request.lastName, existing.lastName),
      score := request.score.ValueOr(existing.score),
      riskLevel := UpdatedRiskLevel(existing, request),
      lastUpdated := now,
      createdAt := existing.createdAt)
  }

  /** Without an explicit risk level an update keeps a consistent record
      consistent, whether or not it changes the score. */
  lemma UpdatePreservesRiskConsistency(existing: CreditScore, request: UpdateCreditScoreRequest, now: Instant)
    requires RiskConsistent(existing) && request.riskLevel.None?
    ensures RiskConsistent(UpdateCreditScore(existing, request, now))
  {
  }

  /** An update with every field null changes nothing but the timestamp. */
  lemma EmptyScoreUpdateIsIdentity(existing: CreditScore, now: Instant)
    ensures UpdateCreditScore(existing, UpdateCreditScoreRequest(None, None, None, None), now) ==
      existing.(lastUpdated := now)
  {
  }

  /** Two successive score updates, as one: later non-null fields win, and a
      later new score (without an explicit level) discards an earlier
      explicit risk level. */
  function ThenScore(first: UpdateCreditScoreRequest, second: UpdateCreditScoreRequest): UpdateCreditScoreRequest {
    UpdateCreditScoreRequest(
      firstName := Or(second.firstName, first.firstName),
      lastName := Or(second.lastName, first.lastName),
      score := Or(second.score, first.score),
      riskLevel :=
        if second.riskLevel.Some? then second.riskLevel
        else if second.score.Some? then None
        else first.riskLevel)
  }

  lemma ScoreUpdatesCompose(existing: CreditScore, first: UpdateCreditScoreRequest, second: UpdateCreditScoreRequest, t1: Instant, t2: Instant)
    ensures UpdateCreditScore(UpdateCreditScore(existing, first, t1), second, t2) ==
      UpdateCreditScore(existing, ThenScore(first, second), t2)
  {
  }

  /** Applying the same update twice is the same as applying it once. */
  lemma ScoreUpdateIdempotent(existing: CreditScore, request: UpdateCreditScoreRequest, t1: Instant, t2: Instant)
    ensures UpdateCreditScore(UpdateCreditScore(existing, request, t1), request, t2) ==
      UpdateCreditScore(existing, request, t2)
  {
    ScoreUpdatesCompose(existing, request, request, t1, t2);
    assert ThenScore(request, request) == request;
  }

  // ---------------------------------------------------------------------------
  // History records

  /** `createCreditHistory`: `daysLate` defaults to 0 and `isActive` to true;
      the store assigns `id`. */
  function CreateCreditHistory(request: CreateCreditHistoryRequest, now: Instant): (r: CreditHistory)
    ensures r.id.None? && r.ssn == request.ssn && r.reportedDate == Some(now)
    ensures r.daysLate.Some? && r.isActive.Some?
    ensures request.daysLate.None? ==> r.daysLate == Some(0)
    ensures request.daysLate.Some? ==> r.daysLate == request.daysLate
    ensures request.isActive.None? ==> r.isActive == Some(true)
    ensures request.isActive.Some? ==> r.isActive == request.isActive
    ensures r.accountType == request.accountType
    ensures r.creditorName == request.creditorName
    ensures r.originalAmount == request.originalAmount
    ensures r.currentBalance == request.currentBalance
    ensures r.creditLimit == request.creditLimit
    ensures r.paymentStatus == request.paymentStatus
    ensures r.accountOpenDate == request.accountOpenDate
    ensures r.lastPaymentDate == request.lastPaymentDate
  {
    CreditHistory(
      id := None,
      ssn := request.ssn,
      accountType := request.accountType,
      creditorName := request.creditorName,
      originalAmount := request.originalAmount,
      currentBalance := request.currentBalance,
      creditLimit := request.creditLimit,
      paymentStatus := request.paymentStatus,
      daysLate := Some(request.daysLate.ValueOr(0)),
      accountOpenDate := request.accountOpenDate,
      lastPaymentDate := request.lastPaymentDate,
      reportedDate := Some(now),
      isActive := Some(request.isActive.ValueOr(true)))
  }

  /** `updateCreditHistory` on the record found for the id. */
  function UpdateCreditHistory(existing: CreditHistory, request: UpdateCreditHistoryRequest, now: Instant): (r: CreditHistory)
    ensures r.id == existing.id && r.ssn == existing.ssn && r.reportedDate == Some(now)
    ensures request.accountType.Some? ==> r.accountType == request.accountType
    ensures request.accountType.None? ==> r.accountType == existing.accountType
    ensures request.creditorName.Some? ==> r.creditorName == request.creditorName
    ensures request.creditorName.None? ==> r.creditorName == existing.creditorName
    ensures request.originalAmount.Some? ==> r.originalAmount == request.originalAmount
    ensures request.originalAmount.None? ==> r.originalAmount == existing.originalAmount
    ensures request.currentBalance.Some? ==> r.currentBalance == request.currentBalance
    ensures request.currentBalance.None? ==> r.currentBalance == existing.currentBalance
    ensures request.creditLimit.Some? ==> r.creditLimit == request.creditLimit
    ensures request.creditLimit.None? ==> r.creditLimit == existing.creditLimit
    ensures request.paymentStatus.Some? ==> r.paymentStatus == request.paymentStatus
    ensures request.paymentStatus.None? ==> r.paymentStatus == existing.paymentStatus
    ensures request.daysLate.Some? ==> r.daysLate == request.daysLate
    ensures request.daysLate.None? ==> r.daysLate == existing.daysLate
    ensures request.accountOpenDate.Some? ==> r.accountOpenDate == request.accountOpenDate
    ensures request.accountOpenDate.None? ==> r.accountOpenDate == existing.accountOpenDate
    ensures request.lastPaymentDate.Some? ==> r.lastPaymentDate == request.lastPaymentDate
    ensures request.lastPaymentDate.None? ==> r.lastPaymentDate == existing.lastPaymentDate
    ensures request.isActive.Some? ==> r.isActive == request.isActive
    ensures request.isActive.None? ==> r.isActive == existing.isActive
  {
    CreditHistory(
      id := existing.id,
      ssn := existing.ssn,
      accountType := Or(request.accountType, existing.accountType),
      creditorName := Or(request.creditorName, existing.creditorName),
      originalAmount := Or(request.originalAmount, existing.originalAmount),
      currentBalance := Or(request.currentBalance, existing.currentBalance),
      creditLimit := Or(request.creditLimit, existing.creditLimit),
      paymentStatus := Or(request.paymentStatus, existing.paymentStatus),
      daysLate := Or(request.daysLate, existing.daysLate),
      accountOpenDate := Or(request.accountOpenDate, existing.accountOpenDate),
      lastPaymentDate := Or(request.lastPaymentDate, existing.lastPaymentDate),
      reportedDate := Some(now),
      isActive := Or(request.isActive, existing.isActive))
  }

  const EmptyHistoryUpdate: UpdateCreditHistoryRequest :=
    UpdateCreditHistoryRequest(None, None, None, None, None, None, None, None, None, None)

  /** A history update with every field null leaves every field except the
      reported date unchanged. */
  lemma EmptyHistoryUpdateIsIdentity(existing: CreditHistory, now: Instant)
    ensures UpdateCreditHistory(existing, EmptyHistoryUpdate, now) == existing.(reportedDate := Some(now))
  {
  }

  /** Two successive history updates, as one: later non-null fields win. */
  function ThenHistory(first: UpdateCreditHistoryRequest, second: UpdateCreditHistoryRequest): UpdateCreditHistoryRequest {
    UpdateCreditHistoryRequest(
      accountType := Or(second.accountType, first.accountType),
      creditorName := Or(second.creditorName, first.creditorName),
      originalAmount := Or(second.originalAmount, first.originalAmount),
      currentBalance := Or(second.currentBalance, first.currentBalance),
      creditLimit := Or(second.creditLimit, first.creditLimit),
      paymentStatus := Or(second.paymentStatus, first.paymentStatus),
      daysLate := Or(second.daysLate, first.daysLate),
      accountOpenDate := Or(second.accountOpenDate, first.accountOpenDate),
      lastPaymentDate := Or(second.lastPaymentDate, first.lastPaymentDate),
      isActive := Or(second.isActive, first.isActive))
  }

  lemma HistoryUpdatesCompose(existing: CreditHistory, first: UpdateCreditHistoryRequest, second: UpdateCreditHistoryRequest, t1: Instant, t2: Instant)
    ensures UpdateCreditHistory(UpdateCreditHistory(existing, first, t1), second, t2) ==
      UpdateCreditHistory(existing, ThenHistory(first, second), t2)
  {
  }

  /** Applying the same history update twice is the same as applying it once. */
  lemma HistoryUpdateIdempotent(existing: CreditHistory, request: UpdateCreditHistoryRequest, t1: Instant, t2: Instant)
    ensures UpdateCreditHistory(UpdateCreditHistory(existing, request, t1), request, t2) ==
      UpdateCreditHistory(existing, request, t2)
  {
    HistoryUpdatesCompose(existing, request, request, t1, t2);
    assert ThenHistory(request, request) == request;
  }

  /** The create request with the update's non-null fields laid over it. */
  function PatchCreate(c: CreateCreditHistoryRequest, u: UpdateCreditHistoryRequest): CreateCreditHistoryRequest {
    CreateCreditHistoryRequest(
      ssn := c.ssn,
      accountType := Or(u.accountType, c.accountType),
      creditorName := Or(u.creditorName, c.creditorName),
      originalAmount := Or(u.originalAmount, c.originalAmount),
      currentBalance := Or(u.currentBalance, c.currentBalance),
      creditLimit := Or(u.creditLimit, c.creditLimit),
      paymentStatus := Or(u.paymentStatus, c.paymentStatus),
      daysLate := Or(u.daysLate, c.daysLate),
      accountOpenDate := Or(u.accountOpenDate, c.accountOpenDate),
      lastPaymentDate := Or(u.lastPaymentDate, c.lastPaymentDate),
      isActive := Or(u.isActive, c.isActive))
  }

  /** Creating a record and then updating it gives the record that the
      combined request would have created: the defaults for `daysLate` and
      `isActive` apply exactly when neither request sets the field. */
  lemma CreateThenUpdate(c: CreateCreditHistoryRequest, u: UpdateCreditHistoryRequest, t1: Instant, t2: Instant)
    ensures UpdateCreditHistory(CreateCreditHistory(c, t1), u, t2) == CreateCreditHistory(PatchCreate(c, u), t2)
  {
  }
}
