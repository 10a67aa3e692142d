/** The table of a monthly savings plan, with doubles read as real numbers. */
module FutureValue {
  function Pow(x: real, n: nat): real {
    if n == 0 then 1.0 else x * Pow(x, n - 1)
  }

  /** The balance after n months of depositing `deposit` and then adding interest at the rate r. */
  function Balance(deposit: real, r: real, n: nat): real {
    if n == 0 then 0.0 else WithInterest(Balance(deposit, r, n - 1) + deposit, r)
  }

  function WithInterest(x: real, r: real): real {
    x + x * r
  }

  function Deposits(deposit: real, n: nat): real {
    if n == 0 then 0.0 else Deposits(deposit, n - 1) + deposit
  }

  lemma {:induction false} DepositsTotal(deposit: real, n: nat)
    ensures Deposits(deposit, n) == deposit * n as real
  {
    if n > 0 { DepositsTotal(deposit, n - 1); }
  }

  function MonthlyRate(annualPercent: real): real {
    annualPercent / 12.0 / 100.0
  }

  /** Row y of the table: the year, the interest accumulated by its end, and the balance then. */
  ghost predicate Row(deposit: real, r: real, y: nat, year: real, interest: real, balance: real) {
    && year == (y + 1) as real
    && balance == Balance(deposit, r, 12 * (y + 1))
    && interest == balance - Deposits(deposit, 12 * (y + 1))
  }

  /** A row of the table, from the annual interest in percent: with q a twelfth of a hundredth of it,
      balance F after y + 1 years of monthly deposits M satisfies q F = M (1 + q) ((1 + q)^(12 (y + 1)) - 1),
      and the interest is F less the deposits. */
  ghost predicate InClosedForm(deposit: real, annualPercent: real, y: nat, year: real, interest: real, balance: real) {
    && year == (y + 1) as real && interest == balance - deposit * (12.0 * year)
    && var q := annualPercent / 1200.0;
       q * balance == deposit * (1.0 + q) * (Pow(1.0 + q, 12 * (y + 1)) - 1.0)
  }

  /** `filled` lists the row of each store into the arrays: every row of the table is filled once, in
      order, in the twelfth month of its year. Cells beyond the table keep their values. */
  method Calculation(moneyMonth: real, interest: real, years: int,
                     arrYears: array<real>, intArray: array<real>, fv: array<real>)
    returns (ghost filled: seq<int>)
    requires years <= arrYears.Length && years <= intArray.Length && years <= fv.Length
    requires arrYears != intArray && arrYears != fv && intArray != fv
    modifies arrYears, intArray, fv
    ensures filled == seq(if years < 0 then 0 else years, y => y)
    ensures forall y :: 0 <= y < years ==> Row(moneyMonth, MonthlyRate(interest), y, arrYears[y], intArray[y], fv[y])
    ensures forall y :: 0 <= y < years ==> InClosedForm(moneyMonth, interest, y, arrYears[y], intArray[y], fv[y])
    ensures moneyMonth >= 0.0 && interest >= 0.0 ==>
      forall y, z :: 0 <= y <= z < years ==> 0.0 <= intArray[y] <= intArray[z]
    ensures forall y :: 0 <= y < arrYears.Length && years <= y ==> arrYears[y] == old(arrYears[y])
    ensures forall y :: 0 <= y < intArray.Length && years <= y ==> intArray[y] == old(intArray[y])
    ensures forall y :: 0 <= y < fv.Length && years <= y ==> fv[y] == old(fv[y])
  {
    var monthlyInt := interest / 12.0 / 100.0;
    var months := years * 12;
    var futureValue, totalDeposits := 0.0, 0.0;
    filled := [];
    var i := 1;
    while i <= months
      invariant 1 <= i && (i <= months + 1 || i == 1)
      invariant futureValue == Balance(moneyMonth, monthlyInt, i - 1)
      invariant totalDeposits == Deposits(moneyMonth, i - 1)
      invariant filled == seq((i - 1) / 12, y => y)
      invariant forall y :: 0 <= y < (i - 1) / 12 ==> Row(moneyMonth, monthlyInt, y, arrYears[y], intArray[y], fv[y])
      invariant forall y :: (i - 1) / 12 <= y < arrYears.Length ==> arrYears[y] == old(arrYears[y])
      invariant forall y :: (i - 1) / 12 <= y < intArray.Length ==> intArray[y] == old(intArray[y])
      invariant forall y :: (i - 1) / 12 <= y < fv.Length ==> fv[y] == old(fv[y])
    {
      futureValue := futureValue + moneyMonth;
      totalDeposits := totalDeposits + moneyMonth;
      var monthlyInterestAmount := futureValue * monthlyInt;
      assert futureValue + monthlyInterestAmount == WithInterest(futureValue, monthlyInt);
      futureValue := futureValue + monthlyInterestAmount;
      assert futureValue == Balance(moneyMonth, monthlyInt, i) && totalDeposits == Deposits(moneyMonth, i);
      if i % 12 == 0 {
        var yearIndex := i / 12 - 1;
        arrYears[yearIndex] := (i / 12) as real;
        intArray[yearIndex] := futureValue - totalDeposits;
        fv[yearIndex] := futureValue;
        filled := filled + [yearIndex];
        assert 12 * (yearIndex + 1) == i;
        assert Row(moneyMonth, monthlyInt, yearIndex, arrYears[yearIndex], intArray[yearIndex], fv[yearIndex]);
      }
      i := i + 1;
    }
    if moneyMonth >= 0.0 && interest >= 0.0 {
      forall y, z | 0 <= y <= z < years ensures 0.0 <= intArray[y] <= intArray[z] {
        InterestGrows(moneyMonth, monthlyInt, 12 * (y + 1), 12 * (z + 1));
      }
    }
    forall y | 0 <= y < years
      ensures InClosedForm(moneyMonth, interest, y, arrYears[y], intArray[y], fv[y])
    {
      TableRow(moneyMonth, interest, y, arrYears[y], intArray[y], fv[y]);
    }
  }

  /** The annuity formula, multiplied by the rate so that it also covers the rate 0. */
  lemma {:induction false} ClosedForm(deposit: real, r: real, n: nat)
    ensures r * Balance(deposit, r, n) == deposit * (1.0 + r) * (Pow(1.0 + r, n) - 1.0)
  {
    if n == 0 {
      ZeroMonths(deposit, r, Balance(deposit, r, 0), Pow(1.0 + r, 0));
    } else {
      var f, p := Balance(deposit, r, n - 1), Pow(1.0 + r, n - 1);
      var f', p' := Balance(deposit, r, n), Pow(1.0 + r, n);
      assert r * f' == deposit * (1.0 + r) * (p' - 1.0) by {
        ClosedForm(deposit, r, n - 1);
        ClosedFormStep(deposit, r, f, p, f', p');
      }
    }
  }

  lemma ZeroMonths(m: real, r: real, f: real, p: real)
    requires f == 0.0 && p == 1.0
    ensures r * f == m * (1.0 + r) * (p - 1.0)
  {
  }

  lemma ClosedFormStep(m: real, r: real, f: real, p: real, f': real, p': real)
    requires r * f == m * (1.0 + r) * (p - 1.0)
    requires f' == WithInterest(f + m, r) && p' == (1.0 + r) * p
    ensures r * f' == m * (1.0 + r) * (p' - 1.0)
  {
    var q := 1.0 + r;
    calc {
      r * f';
      r * ((f + m) * q);
      (r * f) * q + (m * q) * r;
      (m * q * (p - 1.0)) * q + (m * q) * r;
      { assert (m * q * (p - 1.0)) * q == (m * q) * ((p - 1.0) * q); }
      (m * q) * ((p - 1.0) * q) + (m * q) * r;
      (m * q) * ((p - 1.0) * q + r);
      { assert (p - 1.0) * q == p * q - q; }
      m * q * (p' - 1.0);
    }
  }

  /** Interest accumulated after n months. */
  function Interest(deposit: real, r: real, n: nat): real {
    Balance(deposit, r, n) - Deposits(deposit, n)
  }

  lemma {:induction false} BalanceNonnegative(deposit: real, r: real, n: nat)
    requires deposit >= 0.0 && r >= 0.0
    ensures Balance(deposit, r, n) >= 0.0
  {
    if n > 0 {
      BalanceNonnegative(deposit, r, n - 1);
      ProductNonnegative(Balance(deposit, r, n - 1) + deposit, r);
    }
  }

  lemma ProductNonnegative(x: real, r: real)
    requires x >= 0.0 && r >= 0.0
    ensures x * r >= 0.0
  {
  }

  /** The table's interest column is never negative and never decreases. */
  lemma {:induction false} InterestGrows(deposit: real, r: real, m: nat, n: nat)
    requires deposit >= 0.0 && r >= 0.0 && m <= n
    ensures 0.0 <= Interest(deposit, r, m) <= Interest(deposit, r, n)
    decreases n
  {
    if n > 0 {
      BalanceNonnegative(deposit, r, n - 1);
      ProductNonnegative(Balance(deposit, r, n - 1) + deposit, r);
      InterestGrows(deposit, r, if m < n then m else n - 1, n - 1);
    }
  }

  /** Every row of the table is in closed form. */
  lemma TableRow(deposit: real, annualPercent: real, y: nat, year: real, interest: real, balance: real)
    requires Row(deposit, MonthlyRate(annualPercent), y, year, interest, balance)
    ensures InClosedForm(deposit, annualPercent, y, year, interest, balance)
  {
    var r := MonthlyRate(annualPercent);
    assert interest == balance - deposit * (12.0 * year) by {
      DepositsTotal(deposit, 12 * (y + 1));
      assert (12 * (y + 1)) as real == 12.0 * year;
    }
    assert r == annualPercent / 1200.0;
    assert r * balance == deposit * (1.0 + r) * (Pow(1.0 + r, 12 * (y + 1)) - 1.0) by {
      ClosedForm(deposit, r, 12 * (y + 1));
    }
  }
}
