# Credit bureau decision engine — a Dafny model

This project models the credit decision engine of the credit bureau
service (`CreditBureauService`) and the rules by which its update
operations merge a request into a stored record, and proves properties of
both.

A credit check takes a score record, the applicant's active credit-history
accounts and a loan request. It produces:

- a risk tier (LOW / MEDIUM / HIGH);
- a three-way decision (APPROVED / MANUAL_REVIEW / REJECTED), for which the
  middle score tier consults the debt-to-income ratio;
- an approved amount and an interest rate from two tier tables;
- a prioritised rejection reason, present only for a rejection.

The update operations build every field as "the request's value if
non-null, else the existing value". The risk level of a score record has
its own three-way fallback.

Modules, one per file:

- `Wrappers` (`wrappers.dfy`): `Option` stands for a Java reference that may
  be null, and `Result` for a call that may throw.
- `Decimals` (`decimals.dfy`): exact `BigDecimal` arithmetic. A value is
  `unscaled * 10^-scale`. The module has `add`, `multiply`, `compareTo`, and
  `divide` with `RoundingMode.HALF_UP`, and the division fails on a zero
  divisor.
- `Records` (`records.dfy`): the stored records, the request and response
  bodies, and the enumerations as closed datatypes.
- `History` (`history.dfy`): total debt, monthly income, the debt-to-income
  ratio and the delinquent-account count.
- `Engine` (`engine.dfy`): the risk tier, the decision, the offer tables, the
  rejection reason and the response assembly.
- `Updates` (`updates.dfy`): record creation and the merge rules.
- `Service` (`service.dfy`): the service operations over an abstract store.
  Score records are keyed by SSN and history records by id. A clock read is
  a `now` parameter, and the random fallback score is a `mockScore`
  parameter.
- `Scenarios` (`scenarios.dfy`): worked credit checks at the tier
  boundaries.

Four behaviours of the code are easy to misread, and the model states
each as the code has it:

- The response's risk level is the level stored on the score record. It is
  not recomputed from the score. A record created with an explicit level
  therefore reports that level whatever its score
  (`Service.ExplicitRiskLevelEchoed`).
- Monthly income is rounded HALF_UP at the annual income's own scale, not
  at two places.
- An income that is null, zero or too small fails the ratio. The code does
  not return an input error here: it throws. A null income gives a
  NullPointerException, and a monthly income that rounds to zero gives an
  ArithmeticException. The second case happens whenever the annual income's
  unscaled value lies strictly between -6 and 6, so a small non-zero income
  such as `5` fails too (`History.DebtToIncomeRatio`,
  `Scenarios.TinyIncomeFails`). The model returns `Failure` in each of these
  cases.
- The 0.4 cut-off is compared with the ratio after it is rounded to two
  places. For a positive monthly income, the middle tier therefore approves
  exactly when the exact ratio is below 0.405
  (`Engine.MiddleTierExactThreshold`).

## Model

| member | source | states |
|---|---|---|
| Decimals.RoundHalfUp | src/main/java/com/rjtmahinay/credit/service/CreditBureauService.java:303-304 | the result is the integer nearest to n/d, a tie going away from zero (HALF_UP), for either sign of n and d |
| Decimals.HalfUpUnique | src/main/java/com/rjtmahinay/credit/service/CreditBureauService.java:303-304 | HALF_UP rounding has exactly one answer, so the characterisation pins the division result down |
| Decimals.Divide | src/main/java/com/rjtmahinay/credit/service/CreditBureauService.java:303-304 | `divide(b, scale, HALF_UP)` fails exactly for a zero divisor; otherwise the result has the requested scale and is the HALF_UP rounding of the exact quotient |
| Decimals.AddExact | src/main/java/com/rjtmahinay/credit/service/CreditBureauService.java:298-301 | `add` is exact: at every scale fine enough for both operands the sum's unscaled value is the sum of theirs |
| Decimals.Add | src/main/java/com/rjtmahinay/credit/service/CreditBureauService.java:298-301 | `add` works at the larger scale of its operands; adding a zero that is no finer than the other operand returns that operand unchanged, on either side (so the fold's `ZERO` seed plus the first balance is that balance); the sum of non-negatives is non-negative |
| Decimals.Multiply | src/main/java/com/rjtmahinay/credit/service/CreditBureauService.java:260-266 | `multiply` works at the sum of the scales; the product is zero iff a factor is; the product of non-negatives is non-negative |
| Decimals.Cmp | src/main/java/com/rjtmahinay/credit/service/CreditBureauService.java:244 | `compareTo` answers -1, 0 or 1; at equal scales it orders by unscaled value; a value equals itself |
| Decimals.CmpAtScale | src/main/java/com/rjtmahinay/credit/service/CreditBureauService.java:244 | `compareTo` compares values, not representations: the answer is the same at every common scale |
| History.TotalDebtClosedForm | src/main/java/com/rjtmahinay/credit/service/CreditBureauService.java:298-301 | the left fold of `add` over the non-null balances is the exact sum of those balances, at the finest scale among them and never coarser than `BigDecimal.ZERO` |
| History.NullBalanceIgnored | src/main/java/com/rjtmahinay/credit/service/CreditBureauService.java:299 | a record with a null balance contributes nothing to the total, wherever it sits in the list |
| History.TotalDebt | src/main/java/com/rjtmahinay/credit/service/CreditBureauService.java:298-301 | with no non-null balance the total is `ZERO`; the total is at least as fine as every balance it adds; non-negative balances give a non-negative total |
| History.PermutationInvariant | src/main/java/com/rjtmahinay/credit/service/CreditBureauService.java:298-314 | the balance sum, its scale and the delinquent count depend only on the multiset of records |
| History.TotalDebtOrderIndependent | src/main/java/com/rjtmahinay/credit/service/CreditBureauService.java:298-301 | the total debt does not depend on the order in which the store returns the records |
| History.MonthlyIncome | src/main/java/com/rjtmahinay/credit/service/CreditBureauService.java:303 | monthly income is annual income / 12 rounded HALF_UP at the annual income's own scale |
| History.MonthlyIncomeVanishes | src/main/java/com/rjtmahinay/credit/service/CreditBureauService.java:303 | the monthly income is zero exactly when the annual income's unscaled value lies strictly between -6 and 6 |
| History.DebtToIncomeRatio | src/main/java/com/rjtmahinay/credit/service/CreditBureauService.java:297-305 | fails for a null income and for an income whose monthly share rounds to zero, and in no other case; otherwise gives total debt / monthly income rounded HALF_UP to 2 places |
| History.RatioOrderIndependent | src/main/java/com/rjtmahinay/credit/service/CreditBureauService.java:297-305 | the ratio does not depend on the order of the records |
| History.DelinquentCountByStatus | src/main/java/com/rjtmahinay/credit/service/CreditBureauService.java:312-314 | the delinquent count is the number of records minus those whose status is exactly CURRENT, so a null status counts as delinquent |
| History.DelinquentCount | src/main/java/com/rjtmahinay/credit/service/CreditBureauService.java:312-314 | the count is at most the number of records; it is zero iff no record is delinquent and equals the number of records iff all are |
| Engine.DetermineRiskLevel | src/main/java/com/rjtmahinay/credit/service/CreditBureauService.java:287-295 | total over all integers: LOW iff score >= 700, MEDIUM iff 600 <= score < 700, HIGH iff score < 600 |
| Engine.MakeDecision | src/main/java/com/rjtmahinay/credit/service/CreditBureauService.java:235-252 | score >= 700 approves whatever the history or income, so no income error is possible there; score < 600 rejects; in between, the ratio's failure is the decision's failure, and the decision is APPROVED iff the 2-place ratio is at most 0.40, else MANUAL_REVIEW |
| Engine.DecisionMonotoneInScore | src/main/java/com/rjtmahinay/credit/service/CreditBureauService.java:235-252 | with the same history and request, a higher score never yields a worse decision |
| Engine.RiskTierAgreesWithDecision | src/main/java/com/rjtmahinay/credit/service/CreditBureauService.java:235-295 | the tier computed from the score agrees with the decision: LOW always approves, HIGH iff REJECTED, MEDIUM never rejects |
| Engine.HalfUpAtMost | src/main/java/com/rjtmahinay/credit/service/CreditBureauService.java:244 | a HALF_UP-rounded quotient is at most k iff the exact quotient is below k + 1/2 |
| Engine.MiddleTierExactThreshold | src/main/java/com/rjtmahinay/credit/service/CreditBureauService.java:241-248 | for 600 <= score < 700 and a positive monthly income, APPROVED iff 200 * debt < 81 * monthly income (exact ratio below 0.405) |
| Engine.ApprovedAmount | src/main/java/com/rjtmahinay/credit/service/CreditBureauService.java:254-269 | from 750 the request itself is returned, unchanged in scale; below 600 it is `BigDecimal.ZERO` (scale 0); in between the scale is the request's plus one (0.9, 0.5) or plus two (0.75); the amount is zero exactly for a score below 600 or a zero request; a non-negative request gives a non-negative amount |
| Engine.ApprovedAmountExact | src/main/java/com/rjtmahinay/credit/service/CreditBureauService.java:254-269 | the approved amount's value is exactly the request times 100 / 90 / 75 / 50 / 0 percent at the 750 / 700 / 650 / 600 breakpoints |
| Engine.ApprovedAmountBounds | src/main/java/com/rjtmahinay/credit/service/CreditBureauService.java:254-269 | for a non-negative request, 0 <= approved amount <= requested amount (by value) |
| Engine.ApprovedAmountMonotone | src/main/java/com/rjtmahinay/credit/service/CreditBureauService.java:254-269 | for a non-negative request, the approved amount is non-decreasing in the score |
| Engine.ApprovedAmountZeroIff | src/main/java/com/rjtmahinay/credit/service/CreditBureauService.java:254-269 | for a non-zero request, the approved amount is zero iff score < 600 |
| Engine.InterestRate | src/main/java/com/rjtmahinay/credit/service/CreditBureauService.java:271-285 | the rate is computed from the score alone, without the request: 3.5, 5.0, 7.5, 12.0 and 18.0 (one decimal place) for the bands at 750, 700, 650, 600 and below 600, the same bands that decide the approved amount |
| Engine.InterestRateBounds | src/main/java/com/rjtmahinay/credit/service/CreditBureauService.java:271-285 | 3.5 <= rate <= 18.0 by value |
| Engine.InterestRateMonotone | src/main/java/com/rjtmahinay/credit/service/CreditBureauService.java:271-285 | the rate is non-increasing in the score |
| Engine.OfferTablesShareBreakpoints | src/main/java/com/rjtmahinay/credit/service/CreditBureauService.java:254-285 | amount and rate change only at the same breakpoints, and each of the five bands has its own rate |
| Engine.GenerateRejectionReason | src/main/java/com/rjtmahinay/credit/service/CreditBureauService.java:307-321 | "score too low" iff score < 500, whatever the history; otherwise "too many delinquent accounts" iff more than 2 records are not CURRENT (null included); otherwise the catch-all |
| Engine.MessageInjective | src/main/java/com/rjtmahinay/credit/service/CreditBureauService.java:307-321 | the three reason texts are distinct, so the text identifies the rule that fired |
| Engine.BuildCreditCheckResponse | src/main/java/com/rjtmahinay/credit/service/CreditBureauService.java:203-233 | fails iff the decision does; on success the decision is the one `MakeDecision` gives, the amount and rate are the two tables' values for the score, `isApproved` iff APPROVED, a rejection reason iff REJECTED and then the text of the rule `GenerateRejectionReason` picks; REJECTED carries a zero amount and the 18.0 rate; SSN, names, score and risk level are echoed from the stored record; one summary per history record, in order |
| Engine.ManualReviewCarriesOffer | src/main/java/com/rjtmahinay/credit/service/CreditBureauService.java:203-233 | a MANUAL_REVIEW response still carries a non-zero amount (for a non-zero request) and the 7.5 or 12.0 rate |
| Engine.ConsistentRiskLevelAgrees | src/main/java/com/rjtmahinay/credit/service/CreditBureauService.java:219-227 | if the stored level is the one the score determines, the response's LOW implies APPROVED and its HIGH holds iff REJECTED |
| Engine.ResponseDeterministic | src/main/java/com/rjtmahinay/credit/service/CreditBureauService.java:203-233 | two evaluations on the same inputs agree in everything but the check date |
| Engine.ResponseOrderIndependent | src/main/java/com/rjtmahinay/credit/service/CreditBureauService.java:203-233 | reordering the history changes nothing in the response except the order of the echoed summaries |
| Updates.InitialRiskLevel | src/main/java/com/rjtmahinay/credit/service/CreditBureauService.java:66-67 | an explicit risk level wins; without one the level is the one the score determines |
| Updates.NewCreditScore | src/main/java/com/rjtmahinay/credit/service/CreditBureauService.java:64-80 | a new record carries the request's SSN and score, no id yet, both timestamps set to now, and a risk level consistent with its score unless one was given |
| Updates.UpdateExistingCreditScore | src/main/java/com/rjtmahinay/credit/service/CreditBureauService.java:167-183 | creating over an existing record keeps id, SSN and creation time and overwrites names (even with null), score and risk level |
| Updates.OverwriteIsCreateWithIdentity | src/main/java/com/rjtmahinay/credit/service/CreditBureauService.java:167-183 | the overwrite path equals the new-record path except for the id, SSN and creation time it keeps |
| Updates.UpdatedRiskLevel | src/main/java/com/rjtmahinay/credit/service/CreditBureauService.java:110-112 | the explicit level, else the level a new score determines, else the existing level |
| Updates.UpdateCreditScore | src/main/java/com/rjtmahinay/credit/service/CreditBureauService.java:104-129 | id, SSN and creation time are kept; each other field takes the request value if non-null, else the existing one; the risk level follows the three-way fallback |
| Updates.UpdatePreservesRiskConsistency | src/main/java/com/rjtmahinay/credit/service/CreditBureauService.java:110-121 | without an explicit level, an update keeps a record whose level matches its score in that state |
| Updates.EmptyScoreUpdateIsIdentity | src/main/java/com/rjtmahinay/credit/service/CreditBureauService.java:114-125 | an all-null update changes only the last-updated time |
| Updates.ScoreUpdatesCompose | src/main/java/com/rjtmahinay/credit/service/CreditBureauService.java:104-129 | two updates equal one combined update; a later new score drops an earlier explicit risk level |
| Updates.ScoreUpdateIdempotent | src/main/java/com/rjtmahinay/credit/service/CreditBureauService.java:104-129 | applying the same score update twice equals applying it once |
| Updates.CreateCreditHistory | src/main/java/com/rjtmahinay/credit/service/CreditBureauService.java:83-102 | `daysLate` defaults to 0 and `isActive` to true; account type, creditor, original amount, balance, limit, status, open date and last payment date are copied from the request; no id yet; reported date is now |
| Updates.UpdateCreditHistory | src/main/java/com/rjtmahinay/credit/service/CreditBureauService.java:131-165 | id and SSN are kept, the reported date is now, and each other field takes the request value if non-null, else the existing one |
| Updates.EmptyHistoryUpdateIsIdentity | src/main/java/com/rjtmahinay/credit/service/CreditBureauService.java:137-161 | an all-null history update leaves every field except the reported date unchanged |
| Updates.HistoryUpdatesCompose | src/main/java/com/rjtmahinay/credit/service/CreditBureauService.java:131-165 | two history updates equal one update whose fields are the later non-null ones |
| Updates.HistoryUpdateIdempotent | src/main/java/com/rjtmahinay/credit/service/CreditBureauService.java:131-165 | applying the same history update twice equals applying it once |
| Updates.CreateThenUpdate | src/main/java/com/rjtmahinay/credit/service/CreditBureauService.java:83-165 | creating then updating a history record equals creating it from the combined request; the defaults apply only when neither request sets the field |
| Service.GetCreditScore | src/main/java/com/rjtmahinay/credit/service/CreditBureauService.java:46-49 | succeeds iff a record is stored for the SSN and then returns it; otherwise fails with "not found" for that SSN |
| Service.MockCreditScore | src/main/java/com/rjtmahinay/credit/service/CreditBureauService.java:185-201 | the generated record has no id, the request's SSN and names, the drawn score in [300, 850), the risk level that score determines, and both timestamps set to now |
| Service.PerformCreditCheck | src/main/java/com/rjtmahinay/credit/service/CreditBureauService.java:36-44 | uses the stored record if any and leaves the store unchanged; otherwise saves the generated record, whose level matches its score, and touches no other entry; the response is the engine's response on the record used and the active history |
| Service.CreateCreditScore | src/main/java/com/rjtmahinay/credit/service/CreditBureauService.java:55-81 | the result is saved under its SSN; over an existing record it is the overwrite (id and creation time kept), otherwise a new record; an explicit level is taken as given, and without one the level matches the score; names and score come from the request |
| Service.UpdateCreditScoreIn | src/main/java/com/rjtmahinay/credit/service/CreditBureauService.java:104-129 | fails iff no record is stored for the SSN; otherwise saves the stored record merged with the request by the update rules, replacing only that entry and keeping its creation time |
| Service.UpdateCreditHistoryIn | src/main/java/com/rjtmahinay/credit/service/CreditBureauService.java:131-165 | fails iff no record has the id; otherwise saves the stored record merged with the request by the update rules, replacing only that entry and keeping its SSN |
| Service.ExplicitRiskLevelEchoed | src/main/java/com/rjtmahinay/credit/service/CreditBureauService.java:224 | a record created with an explicit HIGH level and score 800 is APPROVED while the response reports HIGH, which disagrees with the score |
| Scenarios.GoodScoreIgnoresIncome | src/main/java/com/rjtmahinay/credit/service/CreditBureauService.java:239-240 | score 720 with no income and a LATE_90 account: APPROVED, 9000.0 of 10000, rate 5.0 |
| Scenarios.RatioAtThresholdApproves | src/main/java/com/rjtmahinay/credit/service/CreditBureauService.java:241-245 | score 620, debt 2000, income 60000: monthly 5000, ratio 0.40, APPROVED with 5000.0 at 12.0 |
| Scenarios.RatioAboveThresholdGoesToReview | src/main/java/com/rjtmahinay/credit/service/CreditBureauService.java:241-248 | score 620 with ratio 0.41: MANUAL_REVIEW |
| Scenarios.LowScoreReasonFirst | src/main/java/com/rjtmahinay/credit/service/CreditBureauService.java:307-310 | score 450 with three delinquent accounts: REJECTED, zero amount, "Credit score too low" |
| Scenarios.DelinquencyReason | src/main/java/com/rjtmahinay/credit/service/CreditBureauService.java:312-318 | score 580 with three delinquent accounts (one with a null status): "Too many delinquent accounts" |
| Scenarios.TinyIncomeFails | src/main/java/com/rjtmahinay/credit/service/CreditBureauService.java:303-304 | a non-zero annual income of 5 still fails the middle tier, because its monthly share rounds to zero |

## Left out

- Reactive plumbing (`Mono`/`Flux`, `switchIfEmpty`, `flatMap`) and the repository calls: a lookup is a map access, and a save is a map update.
- The SQL of the repositories. In particular, the filter to active accounts and their ordering happen in the database, so the credit check takes the active history as an input.
- `getCreditHistoryBySSN`: a pass-through list lookup with no logic.
- The HTTP controller, the OpenAPI configuration, the Swagger annotations and logging: framework wiring with no logic.
- `Math.random()`: the drawn score is the `mockScore` parameter, constrained to the range the Java expression `300 + (int) (Math.random() * 550)` produces.
- `LocalDateTime.now()`: every clock read of one operation becomes the same `now` parameter. The Java code reads the clock separately for `createdAt` and `lastUpdated` in `createCreditScore` (lines 75-76) and `generateMockCreditScore` (lines 196-197), and again for `checkDate` (line 231); the model therefore makes a new record's `createdAt` equal its `lastUpdated`, and a generated record's timestamps equal the response's `checkDate`, which the Java code does not guarantee.
- Ids assigned by the store on first save: new records carry no id.
- Negative `BigDecimal` scales, such as `1E+3`: scales are natural numbers in this model.
- Null `score` and null `requestedAmount`: both are non-null here. In the Java code, a null score throws when unboxed; `createCreditScore` with an explicit risk level never unboxes it (lines 66-67), so it saves a null score without throwing and only a later credit check throws (line 236); and a null requested amount would throw only in the 600-749 tiers.
- Arbitrary strings in the string-typed enumeration fields: they are closed datatypes here. Any status other than CURRENT is delinquent, so the delinquent count is not affected. An unknown risk-level string, however, cannot be represented.
- The fields of `CreateCreditHistoryRequest` are those the service reads at lines 86-99 of `CreditBureauService.java`; their types follow `CreditHistory`.
- Engine.MiddleTierExactThreshold: covers only a positive monthly income. A negative income flips the inequality and is not stated.
