/** The stored records, the request bodies and the credit-check response of
    the credit bureau. Every Java field that may be null is an `Option`;
    the string-typed enumerations of the Java model are closed datatypes. */
module Records {
  import opened Wrappers
  import opened Decimals

  /** A reading of the wall clock (`LocalDateTime.now()`), passed in by the caller. */
  type Instant = int

  datatype RiskLevel = Low | Medium | High

  datatype Decision = Approved | ManualReview | Rejected

  datatype PaymentStatus = Current | Late30 | Late60 | Late90 | ChargedOff | Collections

  datatype AccountType = CreditCard | Loan | Mortgage | AutoLoan

  /** One row of `credit_scores`; `id` is assigned by the store on first save. */
  datatype CreditScore = CreditScore(
    id: Option<int>,
    ssn: string,
    firstName: Option<string>,
    lastName: Option<string>,
    score: int,
    riskLevel: RiskLevel,
    lastUpdated: Instant,
    createdAt: Instant)

  /** One row of `credit_history`: a single account of one person. */
  datatype CreditHistory = CreditHistory(
    id: Option<int>,
    ssn: string,
    accountType: Option<AccountType>,
    creditorName: Option<string>,
    originalAmount: Option<Decimal>,
    currentBalance: Option<Decimal>,
    creditLimit: Option<Decimal>,
    paymentStatus: Option<PaymentStatus>,
    daysLate: Option<int>,
    accountOpenDate: Option<Instant>,
    lastPaymentDate: Option<Instant>,
    reportedDate: Option<Instant>,
    isActive: Option<bool>)

  datatype CreditCheckRequest = CreditCheckRequest(
    ssn: string,
    firstName: Option<string>,
    lastName: Option<string>,
    requestedAmount: Decimal,
    loanType: Option<string>,
    termMonths: Option<int>,
    annualIncome: Option<Decimal>,
    employmentStatus: Option<string>)

  datatype CreateCreditScoreRequest = CreateCreditScoreRequest(
    ssn: string,
    firstName: Option<string>,
    lastName: Option<string>,
    score: int,
    riskLevel: Option<RiskLevel>)

  datatype UpdateCreditScoreRequest = UpdateCreditScoreRequest(
    firstName: Option<string>,
    lastName: Option<string>,
    score: Option<int>,
    riskLevel: Option<RiskLevel>)

  datatype CreateCreditHistoryRequest = CreateCreditHistoryRequest(
    ssn: string,
    accountType: Option<AccountType>,
    creditorName: Option<string>,
    originalAmount: Option<Decimal>,
    currentBalance: Option<Decimal>,
    creditLimit: Option<Decimal>,
    paymentStatus: Option<PaymentStatus>,
    daysLate: Option<int>,
    accountOpenDate: Option<Instant>,
    lastPaymentDate: Option<Instant>,
    isActive: Option<bool>)

  datatype UpdateCreditHistoryRequest = UpdateCreditHistoryRequest(
    accountType: Option<AccountType>,
    creditorName: Option<string>,
    originalAmount: Option<Decimal>,
    currentBalance: Option<Decimal>,
    creditLimit: Option<Decimal>,
    paymentStatus: Option<PaymentStatus>,
    daysLate: Option<int>,
    accountOpenDate: Option<Instant>,
    lastPaymentDate: Option<Instant>,
    isActive: Option<bool>)

  /** The part of a history record that the credit-check response repeats. */
  datatype CreditHistorySummary = CreditHistorySummary(
    accountType: Option<AccountType>,
    creditorName: Option<string>,
    currentBalance: Option<Decimal>,
    paymentStatus: Option<PaymentStatus>,
    daysLate: Option<int>)

  datatype CreditCheckResponse = CreditCheckResponse(
    ssn: string,
    firstName: Option<string>,
    lastName: Option<string>,
    creditScore: int,
    riskLevel: RiskLevel,
    isApproved: bool,
    decision: Decision,
    rejectionReason: Option<string>,
    approvedAmount: Decimal,
    recommendedInterestRate: Decimal,
    creditHistory: seq<CreditHistorySummary>,
    checkDate: Instant)

  /** An account counts against the applicant unless its status is exactly
      CURRENT; a missing status counts against them too. */
  predicate IsDelinquent(h: CreditHistory) {
    h.paymentStatus != Some(Current)
  }
}
