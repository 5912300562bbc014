/** The operations of `CreditBureauService` over an abstract store: score
    records keyed by SSN, history records keyed by id. A lookup that finds
    nothing is a `Failure`; a save is the store with one entry replaced.
    The random score `CreditBureauService` draws for an unknown SSN is
    passed in as `mockScore`, and clock reads as `now`. */
module Service {
  import opened Wrappers
  import opened Decimals
  import opened Records
  import opened History
  import opened Engine
  import opened Updates

  type ScoreStore = map<string, CreditScore>
  type HistoryStore = map<int, CreditHistory>

  /** The "not found" RuntimeExceptions of the score and history lookups. */
  datatype NotFound = ScoreNotFound(ssn: string) | HistoryNotFound(id: int)

  /** `getCreditScoreBySSN` */
  function GetCreditScore(store: ScoreStore, ssn: string): (r: Result<CreditScore, NotFound>)
    ensures r.Success? <==> ssn in store
    ensures r.Success? ==> r.value == store[ssn]
    ensures r.Failure? ==> r.error == ScoreNotFound(ssn)
  {
    if ssn in store then Success(store[ssn]) else Failure(ScoreNotFound(ssn))
  }

  /** `generateMockCreditScore`, with the random draw
      `300 + (int) (Math.random() * 550)` supplied as `mockScore`. */
  function MockCreditScore(request: CreditCheckRequest, mockScore: int, now: Instant): (r: CreditScore)
    requires 300 <= mockScore < 850
    ensures r.ssn == request.ssn && r.score == mockScore
    ensures RiskConsistent(r)
    ensures r.id.None? && r.firstName == request.firstName && r.lastName == request.lastName
    ensures r.lastUpdated == now && r.createdAt == now
  {
    CreditScore(
      id := None,
      ssn := request.ssn,
      firstName := request.firstName,
      lastName := request.lastName,
      score := mockScore,
      riskLevel := DetermineRiskLevel(mockScore),
      lastUpdated := now,
      createdAt := now)
  }

  /** `performCreditCheck`: the stored score record for the SSN, or else a
      generated one that is saved first; then the engine on the active
      history the store returns for the SSN. Returns the store after the
      save together with the response. */
  function PerformCreditCheck(store: ScoreStore, activeHistory: seq<CreditHistory>, request: CreditCheckRequest, mockScore: int, now: Instant)
    : (r: (ScoreStore, Result<CreditCheckResponse, RatioError>))
    requires 300 <= mockScore < 850
    ensures request.ssn in store ==> r.0 == store
    ensures request.ssn !in store ==>
      && r.0.Keys == store.Keys + {request.ssn}
      && (forall k :: k in store ==> r.0[k] == store[k])
      && RiskConsistent(r.0[request.ssn])
    ensures r.1.Success? ==> r.1.value.creditScore == r.0[request.ssn].score
    ensures r.1.Success? && request.ssn !in store ==>
      r.1.value.creditScore == mockScore && r.1.value.riskLevel == DetermineRiskLevel(mockScore)
    ensures request.ssn in store ==> r.1 == BuildCreditCheckResponse(store[request.ssn], activeHistory, request, now)
    ensures request.ssn !in store ==>
      r.0[request.ssn] == MockCreditScore(request, mockScore, now)
    ensures r.1 == BuildCreditCheckResponse(r.0[request.ssn], activeHistory, request, now)
  {
    var cs := if request.ssn in store then store[request.ssn] else MockCreditScore(request, mockScore, now);
    var saved := store[request.ssn := cs];
    (saved, BuildCreditCheckResponse(cs, activeHistory, request, now))
  }

  /** `createCreditScore`: overwrite the record already stored for the SSN,
      or create a new one. */
  function CreateCreditScore(store: ScoreStore, request: CreateCreditScoreRequest, now: Instant): (r: (ScoreStore, CreditScore))
    ensures r.0 == store[request.ssn := r.1]
    ensures r.1.score == request.score
    ensures request.ssn in store ==>
      r.1.id == store[request.ssn].id && r.1.createdAt == store[request.ssn].createdAt
    ensures request.ssn !in store ==> r.1.createdAt == now
    ensures request.riskLevel.None? ==> RiskConsistent(r.1)
    ensures request.riskLevel.Some? ==> r.1.riskLevel == request.riskLevel.value
    ensures r.1.lastUpdated == now && (request.ssn !in store ==> r.1.ssn == request.ssn)
    ensures r.1.firstName == request.firstName && r.1.lastName == request.lastName
    ensures request.ssn in store ==> r.1 == UpdateExistingCreditScore(store[request.ssn], request, now)
    ensures request.ssn !in store ==> r.1 == NewCreditScore(request, now)
  {
    var cs :=
      if request.ssn in store then UpdateExistingCreditScore(store[request.ssn], request, now)
      else NewCreditScore(request, now);
    (store[request.ssn := cs], cs)
  }

  /** `updateCreditScore`: fails when no record is stored for the SSN. */
  function UpdateCreditScoreIn(store: ScoreStore, ssn: string, request: UpdateCreditScoreRequest, now: Instant)
    : (r: Result<(ScoreStore, CreditScore), NotFound>)
    ensures r.Failure? <==> ssn !in store
    ensures r.Failure? ==> r.error == ScoreNotFound(ssn)
    ensures r.Success? ==>
      && r.value.0.Keys == store.Keys
      && r.value.0[ssn] == r.value.1
      && (forall k :: k in store && k != ssn ==> r.value.0[k] == store[k])
      && r.value.1.createdAt == store[ssn].createdAt
      && r.value.1 == UpdateCreditScore(store[ssn], request, now)
  {
    if ssn !in store then Failure(ScoreNotFound(ssn))
    else
      var updated := UpdateCreditScore(store[ssn], request, now);
      Success((store[ssn := updated], updated))
  }

  /** `updateCreditHistory`: fails when no record has the id. */
  function UpdateCreditHistoryIn(store: HistoryStore, id: int, request: UpdateCreditHistoryRequest, now: Instant)
    : (r: Result<(HistoryStore, CreditHistory), NotFound>)
    ensures r.Failure? <==> id !in store
    ensures r.Failure? ==> r.error == HistoryNotFound(id)
    ensures r.Success? ==>
      && r.value.0.Keys == store.Keys
      && r.value.0[id] == r.value.1
      && (forall k :: k in store && k != id ==> r.value.0[k] == store[k])
      && r.value.1.ssn == store[id].ssn
      && r.value.1 == UpdateCreditHistory(store[id], request, now)
  {
    if id !in store then Failure(HistoryNotFound(id))
    else
      var updated := UpdateCreditHistory(store[id], request, now);
      Success((store[id := updated], updated))
  }

  /** The risk level in a credit-check response is the stored one, not one
      recomputed from the score: a record created with an explicit HIGH
      level and a score of 800 is approved while reporting HIGH risk. */
  lemma ExplicitRiskLevelEchoed(store: ScoreStore, request: CreditCheckRequest, mockScore: int, now: Instant)
    requires 300 <= mockScore < 850
    ensures
      var created := CreateCreditScore(store, CreateCreditScoreRequest(request.ssn, None, None, 800, Some(High)), now).0;
      var response := PerformCreditCheck(created, [], request, mockScore, now).1;
      && response.Success?
      && response.value.riskLevel == High
      && response.value.decision == Approved
      && response.value.riskLevel != DetermineRiskLevel(response.value.creditScore)
  {
  }
}
