/** The account-history aggregation of the credit check: the total debt of
    the active accounts, the debt-to-income ratio derived from it, and the
    count of delinquent accounts used to explain a rejection. */
module History {
  import opened Wrappers
  import opened Decimals
  import opened Records

  /** Why `calculateDebtToIncomeRatio` cannot produce a ratio: a null
      annual income (a NullPointerException in the Java code) or a monthly
      income that rounds to zero (an ArithmeticException from `divide`). */
  datatype RatioError = NullIncome | ZeroMonthlyIncome

  // ---------------------------------------------------------------------------
  // Total debt

  /** The scale a record contributes to the sum; a null balance is skipped,
      so it contributes nothing finer than the scale of `BigDecimal.ZERO`. */
  function BalanceScale(h: CreditHistory): nat {
    match h.currentBalance
    case Some(b) => b.scale
    case None => 0
  }

  function MaxBalanceScale(hs: seq<CreditHistory>): nat {
    if |hs| == 0 then 0 else Max(BalanceScale(hs[0]), MaxBalanceScale(hs[1..]))
  }

  /** The balance of a record as an unscaled value at scale `s`; a null
      balance counts as nothing. */
  function BalanceAt(h: CreditHistory, s: nat): int
    requires BalanceScale(h) <= s
  {
    match h.currentBalance
    case Some(b) => Scaled(b, s)
    case None => 0
  }

  /** Reference sum: every non-null balance, written at the common scale `s`. */
  function BalanceSum(hs: seq<CreditHistory>, s: nat): int
    requires MaxBalanceScale(hs) <= s
  {
    if |hs| == 0 then 0 else BalanceAt(hs[0], s) + BalanceSum(hs[1..], s)
  }

  /** `history.stream().filter(balance != null).map(balance).reduce(ZERO, add)`:
      a left fold of `Add` over the non-null balances, in list order. */
  function TotalDebt(hs: seq<CreditHistory>): (r: Decimal)
    ensures (forall i :: 0 <= i < |hs| ==> hs[i].currentBalance.None?) ==> r == Zero
    ensures forall i :: 0 <= i < |hs| && hs[i].currentBalance.Some? ==> hs[i].currentBalance.value.scale <= r.scale
    ensures (forall i :: 0 <= i < |hs| && hs[i].currentBalance.Some? ==> hs[i].currentBalance.value.unscaled >= 0)
      ==> r.unscaled >= 0
  {
    if |hs| == 0 then Zero
    else
      var rest := TotalDebt(hs[..|hs| - 1]);
      match hs[|hs| - 1].currentBalance
      case Some(b) => Add(rest, b)
      case None => rest
  }

  lemma {:induction false} MaxBalanceScaleConcat(a: seq<CreditHistory>, b: seq<CreditHistory>)
    ensures MaxBalanceScale(a + b) == Max(MaxBalanceScale(a), MaxBalanceScale(b))
  {
    if |a| > 0 {
      assert (a + b)[1..] == a[1..] + b;
      MaxBalanceScaleConcat(a[1..], b);
    } else {
      assert a + b == b;
    }
  }

  lemma {:induction false} BalanceSumConcat(a: seq<CreditHistory>, b: seq<CreditHistory>, s: nat)
    requires MaxBalanceScale(a) <= s && MaxBalanceScale(b) <= s
    ensures MaxBalanceScale(a + b) <= s
    ensures BalanceSum(a + b, s) == BalanceSum(a, s) + BalanceSum(b, s)
  {
    MaxBalanceScaleConcat(a, b);
    if |a| > 0 {
      assert (a + b)[1..] == a[1..] + b;
      BalanceSumConcat(a[1..], b, s);
    } else {
      assert a + b == b;
    }
  }

  /** Writing every balance at a finer scale multiplies the sum by the
      corresponding power of ten. */
  lemma {:induction false} BalanceSumRescale(hs: seq<CreditHistory>, s: nat, t: nat)
    requires MaxBalanceScale(hs) <= s <= t
    ensures BalanceSum(hs, t) == BalanceSum(hs, s) * Pow10(t - s)
  {
    if |hs| > 0 {
      BalanceSumRescale(hs[1..], s, t);
      var p := Pow10(t - s);
      match hs[0].currentBalance
      case Some(b) =>
        ScaledTwice(b, s, t);
        MulDistributes(BalanceAt(hs[0], s), BalanceSum(hs[1..], s), p);
      case None =>
    }
  }

  /** The fold computes the exact sum of the non-null balances, at the
      finest scale among them (never coarser than `BigDecimal.ZERO`). */
  lemma {:induction false} TotalDebtClosedForm(hs: seq<CreditHistory>)
    ensures TotalDebt(hs) == Decimal(BalanceSum(hs, MaxBalanceScale(hs)), MaxBalanceScale(hs))
  {
    if |hs| > 0 {
      var n := |hs|;
      var p, x := hs[..n - 1], hs[n - 1];
      assert hs == p + [x];
      TotalDebtClosedForm(p);
      MaxBalanceScaleConcat(p, [x]);
      var mp, m := MaxBalanceScale(p), MaxBalanceScale(hs);
      assert MaxBalanceScale([x]) == BalanceScale(x);
      BalanceSumConcat(p, [x], m);
      assert BalanceSum([x], m) == BalanceAt(x, m);
      BalanceSumRescale(p, mp, m);
      match x.currentBalance
      case Some(b) =>
        assert TotalDebt(hs) == Add(TotalDebt(p), b);
      case None =>
        assert TotalDebt(hs) == TotalDebt(p);
    }
  }

  // ---------------------------------------------------------------------------
  // Delinquent accounts

  /** `history.stream().filter(h -> !"CURRENT".equals(h.getPaymentStatus())).count()` */
  function DelinquentCount(hs: seq<CreditHistory>): (n: nat)
    ensures n <= |hs|
    ensures n == 0 <==> forall i :: 0 <= i < |hs| ==> !IsDelinquent(hs[i])
    ensures n == |hs| <==> forall i :: 0 <= i < |hs| ==> IsDelinquent(hs[i])
  {
    if |hs| == 0 then 0
    else (if IsDelinquent(hs[0]) then 1 else 0) + DelinquentCount(hs[1..])
  }

  lemma {:induction false} DelinquentCountConcat(a: seq<CreditHistory>, b: seq<CreditHistory>)
    ensures DelinquentCount(a + b) == DelinquentCount(a) + DelinquentCount(b)
  {
    if |a| > 0 {
      assert (a + b)[1..] == a[1..] + b;
      DelinquentCountConcat(a[1..], b);
    } else {
      assert a + b == b;
    }
  }

  function Statuses(hs: seq<CreditHistory>): (r: seq<Option<PaymentStatus>>)
    ensures |r| == |hs|
    ensures forall i :: 0 <= i < |hs| ==> r[i] == hs[i].paymentStatus
  {
    seq(|hs|, i requires 0 <= i < |hs| => hs[i].paymentStatus)
  }

  /** Independent reading of the delinquency count: every account except
      those whose status is exactly CURRENT, null statuses included. */
  lemma {:induction false} DelinquentCountByStatus(hs: seq<CreditHistory>)
    ensures DelinquentCount(hs) == |hs| - multiset(Statuses(hs))[Some(Current)]
  {
    if |hs| > 0 {
      DelinquentCountByStatus(hs[1..]);
      assert Statuses(hs) == [hs[0].paymentStatus] + Statuses(hs[1..]);
    }
  }

  // ---------------------------------------------------------------------------
  // Order independence

  /** Taking the first record out of a permutation leaves a permutation. */
  lemma RemoveFirst(xs: seq<CreditHistory>, ys: seq<CreditHistory>) returns (a: seq<CreditHistory>, b: seq<CreditHistory>)
    requires |xs| > 0 && multiset(xs) == multiset(ys)
    ensures ys == a + ([xs[0]] + b)
    ensures multiset(xs[1..]) == multiset(a + b)
  {
    var x := xs[0];
    assert x in multiset(ys);
    var i :| 0 <= i < |ys| && ys[i] == x;
    a, b := ys[..i], ys[i + 1..];
    assert ys == a + ([x] + b);
    assert xs == [x] + xs[1..];
    forall e ensures multiset(xs[1..])[e] == multiset(a + b)[e] {
      assert multiset(xs)[e] == multiset{x}[e] + multiset(xs[1..])[e];
      assert multiset(ys)[e] == multiset(a)[e] + multiset{x}[e] + multiset(b)[e];
      assert multiset(a + b)[e] == multiset(a)[e] + multiset(b)[e];
    }
    assert multiset(xs[1..]) == multiset(a + b);
  }

  lemma SplitAround(a: seq<CreditHistory>, x: CreditHistory, b: seq<CreditHistory>, s: nat)
    ensures MaxBalanceScale(a + ([x] + b)) == Max(BalanceScale(x), MaxBalanceScale(a + b))
    ensures DelinquentCount(a + ([x] + b)) == (if IsDelinquent(x) then 1 else 0) + DelinquentCount(a + b)
    ensures MaxBalanceScale(a + ([x] + b)) <= s ==>
      BalanceSum(a + ([x] + b), s) == BalanceAt(x, s) + BalanceSum(a + b, s)
  {
    MaxBalanceScaleConcat(a, [x] + b);
    MaxBalanceScaleConcat([x], b);
    MaxBalanceScaleConcat(a, b);
    DelinquentCountConcat(a, [x] + b);
    DelinquentCountConcat([x], b);
    DelinquentCountConcat(a, b);
    if MaxBalanceScale(a + ([x] + b)) <= s {
      BalanceSumConcat(a, [x] + b, s);
      BalanceSumConcat([x], b, s);
      BalanceSumConcat(a, b, s);
    }
  }

  /** The total debt's closed form and the delinquency count depend only on
      the multiset of records, not on the order the store returns them in. */
  lemma {:induction false} PermutationInvariant(xs: seq<CreditHistory>, ys: seq<CreditHistory>, s: nat)
    requires multiset(xs) == multiset(ys)
    ensures MaxBalanceScale(xs) == MaxBalanceScale(ys)
    ensures MaxBalanceScale(xs) <= s ==> BalanceSum(xs, s) == BalanceSum(ys, s)
    ensures DelinquentCount(xs) == DelinquentCount(ys)
  {
    if |xs| == 0 {
      assert |multiset(ys)| == 0;
    } else {
      var a, b := RemoveFirst(xs, ys);
      PermutationInvariant(xs[1..], a + b, s);
      SplitAround(a, xs[0], b, s);
    }
  }

  /** The total debt does not depend on the order of the records. */
  lemma TotalDebtOrderIndependent(xs: seq<CreditHistory>, ys: seq<CreditHistory>)
    requires multiset(xs) == multiset(ys)
    ensures TotalDebt(xs) == TotalDebt(ys)
  {
    TotalDebtClosedForm(xs);
    TotalDebtClosedForm(ys);
    PermutationInvariant(xs, ys, MaxBalanceScale(xs));
  }

  /** A record whose balance is null contributes nothing, wherever it sits. */
  lemma NullBalanceIgnored(a: seq<CreditHistory>, h: CreditHistory, b: seq<CreditHistory>)
    requires h.currentBalance.None?
    ensures TotalDebt(a + [h] + b) == TotalDebt(a + b)
  {
    var hs := a + [h] + b;
    assert hs == a + ([h] + b);
    TotalDebtClosedForm(hs);
    TotalDebtClosedForm(a + b);
    var m := MaxBalanceScale(a + b);
    SplitAround(a, h, b, m);
  }

  // ---------------------------------------------------------------------------
  // Debt-to-income ratio

  const Twelve: Decimal := Decimal(12, 0)

  /** Cancelling a positive common factor from a fraction does not change
      how it rounds. */
  lemma HalfUpCancel(n: int, d: int, k: int, q: int)
    requires d > 0 && k > 0
    ensures d * k > 0
    ensures IsHalfUp(n * k, d * k, q) <==> IsHalfUp(n, d, q)
  {
    MulMonotone(1, d, k);
    MulMonotone(0, n, k);
    MulMonotone(n, 0, k);
    assert (2 * d * q - d) * k == 2 * (d * k) * q - d * k;
    assert (2 * d * q + d) * k == 2 * (d * k) * q + d * k;
    assert (2 * n) * k == 2 * (n * k);
    MulMonotone(2 * d * q - d, 2 * n, k);
    MulMonotone(2 * n, 2 * d * q + d, k);
  }

  /** `annualIncome.divide(new BigDecimal("12"), RoundingMode.HALF_UP)`: a
      twelfth of the annual income, rounded HALF_UP at the annual income's
      own scale. */
  function MonthlyIncome(annual: Decimal): (m: Decimal)
    ensures m.scale == annual.scale
    ensures IsHalfUp(annual.unscaled, 12, m.unscaled)
  {
    var r := Divide(annual, Twelve, annual.scale);
    HalfUpCancel(annual.unscaled, 12, Pow10(annual.scale), r.value.unscaled);
    r.value
  }

  /** The monthly income vanishes exactly when the annual income is less
      than six units of its last decimal place, so small non-zero incomes
      make the division fail too. */
  lemma MonthlyIncomeVanishes(annual: Decimal)
    ensures MonthlyIncome(annual).unscaled == 0 <==> -6 < annual.unscaled < 6
  {
  }

  /** `calculateDebtToIncomeRatio`: total debt over monthly income, rounded
      HALF_UP to two decimal places. */
  function DebtToIncomeRatio(hs: seq<CreditHistory>, annualIncome: Option<Decimal>): (r: Result<Decimal, RatioError>)
    ensures r == Failure(NullIncome) <==> annualIncome.None?
    ensures r == Failure(ZeroMonthlyIncome) <==> annualIncome.Some? && -6 < annualIncome.value.unscaled < 6
    ensures r.Success? ==> r.value.scale == 2
    ensures r.Success? ==>
      var t, m := TotalDebt(hs), MonthlyIncome(annualIncome.value);
      IsHalfUp(t.unscaled * Pow10(m.scale + 2), m.unscaled * Pow10(t.scale), r.value.unscaled)
  {
    match annualIncome
    case None => Failure(NullIncome)
    case Some(annual) =>
      MonthlyIncomeVanishes(annual);
      match Divide(TotalDebt(hs), MonthlyIncome(annual), 2)
      case Failure(_) => Failure(ZeroMonthlyIncome)
      case Success(ratio) => Success(ratio)
  }

  /** The ratio does not depend on the order of the records. */
  lemma RatioOrderIndependent(xs: seq<CreditHistory>, ys: seq<CreditHistory>, annualIncome: Option<Decimal>)
    requires multiset(xs) == multiset(ys)
    ensures DebtToIncomeRatio(xs, annualIncome) == DebtToIncomeRatio(ys, annualIncome)
  {
    TotalDebtOrderIndependent(xs, ys);
  }
}
