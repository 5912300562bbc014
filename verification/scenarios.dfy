/** Worked credit checks: the boundary cases of the decision cascade and the
    ordering of the rejection rules, evaluated on concrete inputs. */
module Scenarios {
  import opened Wrappers
  import opened Decimals
  import opened Records
  import opened History
  import opened Engine

  function Account(balance: Option<Decimal>, status: Option<PaymentStatus>): CreditHistory {
    CreditHistory(None, "123-45-6789", Some(CreditCard), None, None, balance, None, status, Some(0), None, None, None, Some(true))
  }

  function Request(amount: Decimal, income: Option<Decimal>): CreditCheckRequest {
    CreditCheckRequest("123-45-6789", Some("John"), Some("Doe"), amount, None, Some(36), income, None)
  }

  function Person(score: int): CreditScore {
    CreditScore(Some(1), "123-45-6789", Some("John"), Some("Doe"), score, DetermineRiskLevel(score), 0, 0)
  }

  /** Score 720: approved whatever the income (here none at all), 90% of the
      request at 5.0%. */
  lemma GoodScoreIgnoresIncome()
    ensures var r := BuildCreditCheckResponse(Person(720), [Account(Some(Decimal(99999, 0)), Some(Late90))],
                                              Request(Decimal(10000, 0), None), 0);
      && r.Success?
      && r.value.decision == Approved
      && r.value.approvedAmount == Decimal(90000, 1)
      && r.value.recommendedInterestRate == Decimal(50, 1)
  {
  }

  /** Score 620, debt 2000, annual income 60000: monthly income 5000, ratio
      exactly 0.40, which still approves; half the request at 12.0%. */
  lemma RatioAtThresholdApproves()
    ensures var hs := [Account(Some(Decimal(2000, 0)), Some(Current))];
      var q := Request(Decimal(10000, 0), Some(Decimal(60000, 0)));
      && MonthlyIncome(Decimal(60000, 0)) == Decimal(5000, 0)
      && DebtToIncomeRatio(hs, q.annualIncome) == Success(Decimal(40, 2))
      && BuildCreditCheckResponse(Person(620), hs, q, 0).Success?
      && BuildCreditCheckResponse(Person(620), hs, q, 0).value.decision == Approved
      && BuildCreditCheckResponse(Person(620), hs, q, 0).value.approvedAmount == Decimal(50000, 1)
      && BuildCreditCheckResponse(Person(620), hs, q, 0).value.recommendedInterestRate == Decimal(120, 1)
  {
    var hs := [Account(Some(Decimal(2000, 0)), Some(Current))];
    RatioOfSingleDebt(2000, 40);
    var q := Request(Decimal(10000, 0), Some(Decimal(60000, 0)));
    assert MakeDecision(620, hs, q) == Success(Approved);
  }

  /** One account with balance `debt` against an annual income of 60000
      (monthly 5000), when the 2-place ratio is `expected`. */
  lemma RatioOfSingleDebt(debt: nat, expected: int)
    requires IsHalfUp(debt * 100, 5000, expected)
    ensures MonthlyIncome(Decimal(60000, 0)) == Decimal(5000, 0)
    ensures TotalDebt([Account(Some(Decimal(debt, 0)), Some(Current))]) == Decimal(debt, 0)
    ensures DebtToIncomeRatio([Account(Some(Decimal(debt, 0)), Some(Current))], Some(Decimal(60000, 0)))
      == Success(Decimal(expected, 2))
  {
    var hs := [Account(Some(Decimal(debt, 0)), Some(Current))];
    MonthlySixtyThousand();
    SingleDebtTotal(debt);
    var r := DebtToIncomeRatio(hs, Some(Decimal(60000, 0)));
    assert r.Success? && r.value.scale == 2;
    assert Pow10(0 + 2) == 100 && Pow10(0) == 1;
    assert IsHalfUp(debt * 100, 5000, r.value.unscaled);
    HalfUpUnique(debt * 100, 5000, r.value.unscaled, expected);
  }

  lemma MonthlySixtyThousand()
    ensures MonthlyIncome(Decimal(60000, 0)) == Decimal(5000, 0)
  {
    var m := MonthlyIncome(Decimal(60000, 0));
    HalfUpUnique(60000, 12, m.unscaled, 5000);
  }

  lemma SingleDebtTotal(debt: nat)
    ensures TotalDebt([Account(Some(Decimal(debt, 0)), Some(Current))]) == Decimal(debt, 0)
  {
    var hs := [Account(Some(Decimal(debt, 0)), Some(Current))];
    assert TotalDebt(hs) == Add(TotalDebt([]), Decimal(debt, 0)) by {
      assert hs[..0] == [];
    }
  }

  /** Score 620 with a ratio of 0.41 goes to manual review. */
  lemma RatioAboveThresholdGoesToReview()
    ensures var hs := [Account(Some(Decimal(2050, 0)), Some(Current))];
      var q := Request(Decimal(10000, 0), Some(Decimal(60000, 0)));
      && DebtToIncomeRatio(hs, q.annualIncome) == Success(Decimal(41, 2))
      && MakeDecision(620, hs, q) == Success(ManualReview)
  {
    RatioOfSingleDebt(2050, 41);
  }

  /** Score 450 with three delinquent accounts: the score rule fires first. */
  lemma LowScoreReasonFirst()
    ensures var hs := [Account(None, Some(Late30)), Account(None, Some(Late60)), Account(None, None)];
      var r := BuildCreditCheckResponse(Person(450), hs, Request(Decimal(10000, 0), None), 0);
      && r.Success?
      && r.value.decision == Rejected
      && r.value.approvedAmount.unscaled == 0
      && r.value.rejectionReason == Some("Credit score too low")
  {
  }

  /** Score 580 with three delinquent accounts (one of them with no status
      at all): the delinquency rule fires. */
  lemma DelinquencyReason()
    ensures var hs := [Account(None, Some(Late30)), Account(None, Some(Collections)), Account(None, None)];
      var r := BuildCreditCheckResponse(Person(580), hs, Request(Decimal(10000, 0), None), 0);
      && r.Success?
      && r.value.decision == Rejected
      && r.value.rejectionReason == Some("Too many delinquent accounts")
  {
    var hs := [Account(None, Some(Late30)), Account(None, Some(Collections)), Account(None, None)];
    assert DelinquentCount(hs) == 3 by {
      assert hs[1..][1..][1..] == [];
    }
  }

  /** A non-zero annual income of 5 (units) still makes the middle tier
      fail: its monthly share rounds to zero before the division. */
  lemma TinyIncomeFails()
    ensures MakeDecision(650, [], Request(Decimal(100, 0), Some(Decimal(5, 0)))) == Failure(ZeroMonthlyIncome)
  {
  }
}
