/**
 The payment schedule generator of the loan details page, over exact reals.

 The annual percentage rate becomes a monthly rate `rate = p / 100 / 12`,
 the fixed instalment (EMI) comes from the annuity formula
 `P * r * (1 + r)^n / ((1 + r)^n - 1)`, and one entry is emitted per month:
 the interest on the running balance, the principal part of the EMI, the
 EMI itself, and the running balance after the payment clamped at zero.
 The clamp is applied to the emitted value only; the carried balance is not
 clamped.
 */
module Amortization {

  import opened Options
  import opened Calendar
  import opened Loans

  /** One row of the schedule. */
  datatype Entry = Entry(
    date: YearMonth,
    principalPaid: real,
    interestCharged: real,
    emi: real,
    balance: real)

  /** `Math.pow(x, n)` for a natural exponent. */
  function Pow(x: real, n: nat): real
  {
    if n == 0 then 1.0 else x * Pow(x, n - 1)
  }

  /** `Math.max(0, x)`. */
  function Max0(x: real): (r: real)
    ensures r >= 0.0 && r >= x
    ensures r == x || r == 0.0
  {
    if x > 0.0 then x else 0.0
  }

  /** `interest_rate / 100 / 12`: the monthly fraction of an annual percentage. */
  function MonthlyRate(annualPercent: real): (r: real)
    ensures r * 1200.0 == annualPercent
  {
    annualPercent / 100.0 / 12.0
  }

  /**
   The annuity instalment. The source divides by `(1 + rate)^months - 1`
   without a guard; where that is zero there is no value (JavaScript yields
   NaN or an infinity), which is `None` here.
   */
  function Emi(principal: real, rate: real, months: nat): (r: Option<real>)
    ensures r.Some? <==> Pow(1.0 + rate, months) != 1.0
    ensures r.Some? ==>
              r.value * (Pow(1.0 + rate, months) - 1.0) == principal * rate * Pow(1.0 + rate, months)
  {
    var growth := Pow(1.0 + rate, months);
    if growth - 1.0 == 0.0 then None else Some(principal * rate * growth / (growth - 1.0))
  }

  /**
   Reference definition of the running balance: the unclamped balance after
   `k` months, each month adding interest at `rate` and subtracting `emi`.
   */
  function Carried(principal: real, rate: real, emi: real, k: nat): real
  {
    if k == 0 then principal
    else
      var b := Carried(principal, rate, emi, k - 1);
      b - (emi - b * rate)
  }

  /** Entry `k` (zero-based) is what the loop emits in its `k`-th iteration. */
  predicate Conforms(e: Entry, principal: real, rate: real, emi: real, start: YearMonth, k: nat)
  {
    && e.date == AddMonths(start, k + 1)
    && e.interestCharged == Carried(principal, rate, emi, k) * rate
    && e.principalPaid == emi - e.interestCharged
    && e.emi == emi
    && e.balance == Max0(Carried(principal, rate, emi, k + 1))
  }

  /**
   The loop from iteration `i` on, carrying the unclamped `balance`: each
   iteration recomputes its date from `start`, emits one entry and hands the
   reduced balance to the next.
   */
  function Rows(rate: real, emi: real, start: YearMonth, months: nat, i: nat, balance: real): (rs: seq<Entry>)
    requires i <= months
    ensures |rs| == months - i
    ensures forall k :: 0 <= k < |rs| ==>
              && rs[k].date == AddMonths(start, i + k + 1)
              && rs[k].principalPaid + rs[k].interestCharged == emi
              && rs[k].emi == emi
              && rs[k].balance >= 0.0
    decreases months - i
  {
    if i == months then []
    else
      var interest := balance * rate;
      var paid := emi - interest;
      var next := balance - paid;
      [Entry(AddMonths(start, i + 1), paid, interest, emi, Max0(next))]
        + Rows(rate, emi, start, months, i + 1, next)
  }

  /** One iteration of the loop: the entry for month `i`, then the loop from `i + 1` on the reduced balance. */
  lemma RowsStep(rate: real, emi: real, start: YearMonth, months: nat, i: nat, balance: real)
    requires i < months
    ensures var next := balance - (emi - balance * rate);
            Rows(rate, emi, start, months, i, balance)
            == [Entry(AddMonths(start, i + 1), emi - balance * rate, balance * rate, emi, Max0(next))]
               + Rows(rate, emi, start, months, i + 1, next)
  {
  }

  /** Started from the carried balance of month `i`, the loop's `k`-th entry follows the reference balance. */
  lemma {:induction false} RowFollowsCarried(
    principal: real, rate: real, emi: real, start: YearMonth, months: nat, i: nat, k: nat)
    requires i + k < months
    ensures Conforms(Rows(rate, emi, start, months, i, Carried(principal, rate, emi, i))[k],
                     principal, rate, emi, start, i + k)
    decreases k
  {
    var b := Carried(principal, rate, emi, i);
    var next := b - (emi - b * rate);
    assert Carried(principal, rate, emi, i + 1) == next;
    RowsStep(rate, emi, start, months, i, b);
    if k > 0 {
      RowFollowsCarried(principal, rate, emi, start, months, i + 1, k - 1);
    }
  }

  /** The whole loop for a given instalment: `months` entries, entry `k` as the reference says. */
  function ScheduleWith(principal: real, rate: real, emi: real, start: YearMonth, months: nat): (rs: seq<Entry>)
    ensures |rs| == months
    ensures forall k :: 0 <= k < months ==> Conforms(rs[k], principal, rate, emi, start, k)
  {
    assert Carried(principal, rate, emi, 0) == principal;
    var rs := Rows(rate, emi, start, months, 0, principal);
    assert forall k :: 0 <= k < months ==> Conforms(rs[k], principal, rate, emi, start, k) by {
      forall k | 0 <= k < months
        ensures Conforms(rs[k], principal, rate, emi, start, k)
      {
        RowFollowsCarried(principal, rate, emi, start, months, 0, k);
      }
    }
    rs
  }

  lemma PowOne(n: nat)
    ensures Pow(1.0, n) == 1.0
  {
  }

  /**
   Closed form of the carried balance, multiplied through by the rate to
   avoid a division: `r * B_k == r * P * (1 + r)^k - E * ((1 + r)^k - 1)`.
   */
  lemma {:induction false} CarriedClosedForm(principal: real, rate: real, emi: real, k: nat)
    ensures rate * Carried(principal, rate, emi, k)
            == rate * principal * Pow(1.0 + rate, k) - emi * (Pow(1.0 + rate, k) - 1.0)
  {
    if k > 0 {
      CarriedClosedForm(principal, rate, emi, k - 1);
      var q := 1.0 + rate;
      var b := Carried(principal, rate, emi, k - 1);
      var x := Pow(q, k - 1);
      assert Pow(q, k) == q * x;
      assert Carried(principal, rate, emi, k) == q * b - emi;
      calc {
        rate * Carried(principal, rate, emi, k);
        q * (rate * b) - rate * emi;
        q * (rate * principal * x - emi * (x - 1.0)) - rate * emi;
        rate * principal * (q * x) - emi * (q * x - q + rate);
        rate * principal * (q * x) - emi * (q * x - 1.0);
      }
    }
  }

  /** In exact arithmetic the annuity instalment pays the loan off after exactly `months` payments. */
  lemma AmortizesToZero(principal: real, rate: real, months: nat, emi: real)
    requires Emi(principal, rate, months) == Some(emi)
    ensures Carried(principal, rate, emi, months) == 0.0
  {
    CarriedClosedForm(principal, rate, emi, months);
    if rate == 0.0 {
      PowOne(months);
      assert false;
    }
  }

  /**
   `generatePaymentSchedule(loan)`. A tenure of zero or less runs the loop
   no times. Otherwise there is a schedule exactly when the instalment is
   defined; it has one entry per month, every entry follows the reference
   balance, and the last emitted balance is zero.
   */
  function GeneratePaymentSchedule(loan: Loan): (r: Option<seq<Entry>>)
    ensures loan.tenure <= 0 ==> r == Some([])
    ensures loan.tenure > 0 ==>
              (r.None? <==> Pow(1.0 + MonthlyRate(loan.interestRate), loan.tenure) == 1.0)
    ensures r.Some? && loan.tenure > 0 ==>
              var rate := MonthlyRate(loan.interestRate);
              var emi := Emi(loan.amount, rate, loan.tenure).value;
              && |r.value| == loan.tenure
              && (forall k :: 0 <= k < loan.tenure ==> Conforms(r.value[k], loan.amount, rate, emi, loan.startDate, k))
              && r.value[loan.tenure - 1].balance == 0.0
  {
    if loan.tenure <= 0 then Some([])
    else
      var rate := MonthlyRate(loan.interestRate);
      match Emi(loan.amount, rate, loan.tenure)
      case None => None
      case Some(emi) =>
        AmortizesToZero(loan.amount, rate, loan.tenure, emi);
        Some(ScheduleWith(loan.amount, rate, emi, loan.startDate, loan.tenure))
  }

  /** Each month's principal part is the first one grown by `(1 + rate)` per elapsed month. */
  lemma {:induction false} PrincipalPortionGrows(principal: real, rate: real, emi: real, k: nat)
    ensures emi - rate * Carried(principal, rate, emi, k)
            == (emi - rate * principal) * Pow(1.0 + rate, k)
  {
    if k > 0 {
      PrincipalPortionGrows(principal, rate, emi, k - 1);
      GrowthStep(rate, emi, emi - rate * principal,
                 Carried(principal, rate, emi, k - 1), Carried(principal, rate, emi, k),
                 Pow(1.0 + rate, k - 1), Pow(1.0 + rate, k));
    }
  }

  /**
   One month of `PrincipalPortionGrows`: when the balance `b` becomes
   `c == (1 + r) * b - E` and the power `p` becomes `p' == (1 + r) * p`,
   a principal part `E - r * b == d * p` becomes `E - r * c == d * p'`.
   */
  lemma GrowthStep(rate: real, emi: real, d: real, b: real, c: real, p: real, p': real)
    requires c == b - (emi - b * rate)
    requires p' == (1.0 + rate) * p
    requires emi - rate * b == d * p
    ensures emi - rate * c == d * p'
  {
  }

  lemma {:induction false} PowAboveOne(x: real, n: nat)
    requires x > 1.0
    ensures Pow(x, n) >= 1.0
    ensures n >= 1 ==> Pow(x, n) > 1.0
  {
    if n > 0 {
      PowAboveOne(x, n - 1);
      var y := Pow(x, n - 1);
      assert x * y - 1.0 == (x - 1.0) * y + (y - 1.0);
    }
  }

  /** A factor of a positive product with a positive co-factor is positive. */
  lemma PositiveFactor(a: real, b: real, c: real)
    requires b > 0.0 && c > 0.0 && a * b == c
    ensures a > 0.0
  {
    assert a == c / b;
  }

  /** A non-zero common factor cancels. */
  lemma CancelFactor(a: real, b: real, c: real)
    requires c != 0.0 && a * c == b * c
    ensures a == b
  {
    assert a == (a * c) / c;
  }

  /** With a positive principal and rate the instalment exists and exceeds the first month's interest. */
  lemma FirstPrincipalPositive(principal: real, rate: real, months: nat)
    requires principal > 0.0 && rate > 0.0 && months >= 1
    ensures Emi(principal, rate, months).Some?
    ensures Emi(principal, rate, months).value - rate * principal > 0.0
  {
    var q := 1.0 + rate;
    PowAboveOne(q, months);
    var g := Pow(q, months);
    var emi := Emi(principal, rate, months).value;
    assert (emi - rate * principal) * (g - 1.0) == rate * principal;
    assert rate * principal > 0.0;
    PositiveFactor(emi - rate * principal, g - 1.0, rate * principal);
  }

  /** With a positive principal and rate the carried balance strictly falls every month. */
  lemma BalanceFalls(principal: real, rate: real, months: nat, k: nat)
    requires principal > 0.0 && rate > 0.0 && months >= 1
    ensures Emi(principal, rate, months).Some?
    ensures var emi := Emi(principal, rate, months).value;
            Carried(principal, rate, emi, k + 1) < Carried(principal, rate, emi, k)
  {
    FirstPrincipalPositive(principal, rate, months);
    var emi := Emi(principal, rate, months).value;
    PrincipalPortionGrows(principal, rate, emi, k);
    PowAboveOne(1.0 + rate, k);
    var b := Carried(principal, rate, emi, k);
    assert Carried(principal, rate, emi, k + 1) == b - (emi - b * rate);
  }

  /** With a positive principal and rate the carried balance is never negative within the tenure. */
  lemma {:induction false} CarriedNonNegative(principal: real, rate: real, months: nat, k: nat)
    requires principal > 0.0 && rate > 0.0 && 1 <= months && k <= months
    ensures Emi(principal, rate, months).Some?
    ensures Carried(principal, rate, Emi(principal, rate, months).value, k) >= 0.0
    decreases months - k
  {
    FirstPrincipalPositive(principal, rate, months);
    if k == months {
      AmortizesToZero(principal, rate, months, Emi(principal, rate, months).value);
    } else {
      CarriedNonNegative(principal, rate, months, k + 1);
      BalanceFalls(principal, rate, months, k);
    }
  }

  /**
   For a loan with a positive amount and rate the clamp never changes an
   emitted balance, and the emitted balances strictly decrease.
   */
  lemma ScheduleBalancesDecrease(loan: Loan)
    requires loan.amount > 0.0 && loan.interestRate > 0.0 && loan.tenure >= 1
    ensures GeneratePaymentSchedule(loan).Some?
    ensures var rs := GeneratePaymentSchedule(loan).value;
            var emi := Emi(loan.amount, MonthlyRate(loan.interestRate), loan.tenure).value;
            forall k :: 0 <= k < |rs| ==>
              rs[k].balance == Carried(loan.amount, MonthlyRate(loan.interestRate), emi, k + 1)
    ensures var rs := GeneratePaymentSchedule(loan).value;
            forall k :: 0 <= k < |rs| - 1 ==> rs[k + 1].balance < rs[k].balance
  {
    var rate := MonthlyRate(loan.interestRate);
    FirstPrincipalPositive(loan.amount, rate, loan.tenure);
    var emi := Emi(loan.amount, rate, loan.tenure).value;
    var rs := GeneratePaymentSchedule(loan).value;
    forall k | 0 <= k < |rs|
      ensures rs[k].balance == Carried(loan.amount, rate, emi, k + 1)
    {
      CarriedNonNegative(loan.amount, rate, loan.tenure, k + 1);
    }
    forall k | 0 <= k < |rs| - 1
      ensures rs[k + 1].balance < rs[k].balance
    {
      CarriedNonNegative(loan.amount, rate, loan.tenure, k + 1);
      CarriedNonNegative(loan.amount, rate, loan.tenure, k + 2);
      BalanceFalls(loan.amount, rate, loan.tenure, k + 1);
    }
  }

  /** A one-month loan at a non-zero rate repays the whole principal in its single entry. */
  lemma SingleMonth(loan: Loan)
    requires loan.tenure == 1 && loan.interestRate != 0.0
    ensures GeneratePaymentSchedule(loan).Some?
    ensures var rs := GeneratePaymentSchedule(loan).value;
            |rs| == 1 && rs[0].principalPaid == loan.amount && rs[0].balance == 0.0
  {
    var rate := MonthlyRate(loan.interestRate);
    var q := 1.0 + rate;
    assert rate != 0.0;
    assert Pow(q, 1) == q;
    var emi := Emi(loan.amount, rate, 1).value;
    assert emi * (q - 1.0) == loan.amount * rate * q;
    assert q - 1.0 == rate;
    assert emi * rate == (loan.amount * q) * rate;
    CancelFactor(emi, loan.amount * q, rate);
  }

  /**
   Entry dates are one month apart: at month granularity, recomputing from
   the start date equals stepping month by month (day rollover is left out).
   */
  lemma EntryDatesConsecutive(loan: Loan)
    requires GeneratePaymentSchedule(loan).Some?
    ensures var rs := GeneratePaymentSchedule(loan).value;
            forall k :: 0 <= k < |rs| - 1 ==> rs[k + 1].date == AddMonths(rs[k].date, 1)
  {
    var rs := GeneratePaymentSchedule(loan).value;
    forall k | 0 <= k < |rs| - 1
      ensures rs[k + 1].date == AddMonths(rs[k].date, 1)
    {
      AddMonthsCompose(loan.startDate, k + 1, 1);
    }
  }

  /** As written, a zero interest rate leaves no instalment for any positive tenure. */
  lemma ZeroRateHasNoSchedule(loan: Loan)
    requires loan.interestRate == 0.0 && loan.tenure >= 1
    ensures GeneratePaymentSchedule(loan) == None
  {
    PowOne(loan.tenure);
  }

  /** At a zero rate an instalment of `principal / months` lowers the balance linearly. */
  lemma {:induction false} ZeroRateCarried(principal: real, months: nat, k: nat)
    requires months >= 1
    ensures Carried(principal, 0.0, principal / months as real, k)
            == principal - k as real * (principal / months as real)
  {
    if k > 0 {
      ZeroRateCarried(principal, months, k - 1);
    }
  }

  /**
   The instalment with the zero-rate case handled: `principal / months`
   when the rate is zero, the annuity formula otherwise. Wherever it is
   defined it pays the loan off in exactly `months` payments.
   */
  function EmiCorrected(principal: real, rate: real, months: nat): (r: Option<real>)
    requires months >= 1
    ensures r.Some? <==> rate == 0.0 || Pow(1.0 + rate, months) != 1.0
    ensures r.Some? ==> Carried(principal, rate, r.value, months) == 0.0
  {
    if rate == 0.0 then
      ZeroRateCarried(principal, months, months);
      Some(principal / months as real)
    else
      var e := Emi(principal, rate, months);
      if e.Some? then AmortizesToZero(principal, rate, months, e.value); e else e
  }

  /**
   The schedule generator with `EmiCorrected` in place of the unguarded
   formula: a zero-rate loan gets `tenure` interest-free entries that each
   repay `amount / tenure`, and every schedule ends at a zero balance.
   */
  function GeneratePaymentScheduleCorrected(loan: Loan): (r: Option<seq<Entry>>)
    ensures loan.tenure <= 0 ==> r == Some([])
    ensures loan.tenure > 0 && loan.interestRate == 0.0 ==> r.Some?
    ensures r.Some? && loan.tenure > 0 ==>
              var rate := MonthlyRate(loan.interestRate);
              && EmiCorrected(loan.amount, rate, loan.tenure).Some?
              && var emi := EmiCorrected(loan.amount, rate, loan.tenure).value;
              && |r.value| == loan.tenure
              && (forall k :: 0 <= k < loan.tenure ==> Conforms(r.value[k], loan.amount, rate, emi, loan.startDate, k))
              && r.value[loan.tenure - 1].balance == 0.0
    ensures r.Some? && loan.tenure > 0 && loan.interestRate == 0.0 ==>
              forall k :: 0 <= k < |r.value| ==>
                && r.value[k].interestCharged == 0.0
                && r.value[k].principalPaid == r.value[k].emi == loan.amount / loan.tenure as real
  {
    if loan.tenure <= 0 then Some([])
    else
      var rate := MonthlyRate(loan.interestRate);
      match EmiCorrected(loan.amount, rate, loan.tenure)
      case None => None
      case Some(emi) => Some(ScheduleWith(loan.amount, rate, emi, loan.startDate, loan.tenure))
  }

  /**
   A worked example: 120000 at 12% a year over 12 months from January 2024.
   The monthly rate is 0.01, the instalment about 10661.85, the first month's
   interest exactly 1200, its first payment falls in February 2024 and the
   twelfth entry, in January 2025, closes the loan.
   */
  lemma WorkedExample()
    ensures var loan := Loan(1, "Home loan", "active", 120000.0, 12.0, 12, YearMonth(2024, 0));
            var r := GeneratePaymentSchedule(loan);
            && r.Some?
            && |r.value| == 12
            && r.value[0].date == YearMonth(2024, 1)
            && r.value[0].interestCharged == 1200.0
            && 10661.85 < r.value[0].emi < 10661.86
            && 9461.85 < r.value[0].principalPaid < 9461.86
            && 110538.14 < r.value[0].balance < 110538.15
            && r.value[11].date == YearMonth(2025, 0)
            && r.value[11].balance == 0.0
  {
    var loan := Loan(1, "Home loan", "active", 120000.0, 12.0, 12, YearMonth(2024, 0));
    var rate := MonthlyRate(loan.interestRate);
    assert rate == 0.01;
    assert Pow(1.01, 1) == 1.01;
    assert Pow(1.01, 2) == 1.0201;
    assert Pow(1.01, 3) == 1.030301;
    assert Pow(1.01, 4) == 1.04060401;
    assert Pow(1.01, 5) == 1.0510100501;
    assert Pow(1.01, 6) == 1.061520150601;
    assert Pow(1.01, 7) == 1.07213535210701;
    assert Pow(1.01, 8) == 1.0828567056280801;
    assert Pow(1.01, 9) == 1.093685272684360901;
    assert Pow(1.01, 10) == 1.10462212541120451001;
    assert Pow(1.01, 11) == 1.1156683466653165551101;
    assert Pow(1.01, 12) == 1.126825030131969720661201;
    var r := GeneratePaymentSchedule(loan);
    assert Carried(loan.amount, rate, r.value[0].emi, 0) == 120000.0;
    assert Carried(loan.amount, rate, r.value[0].emi, 1) == 120000.0 - (r.value[0].emi - 1200.0);
  }
}
