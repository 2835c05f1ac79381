/**
 * Sequences of calls on one loan. A call that aborts leaves the state as it
 * was, so a run of calls is the fold of `Step` over them; the lemmas state
 * what holds after any number of calls.
 */
module Lifecycle {
  import opened Wrappers
  import LoanSpec

  /** One call on the component, with its arguments. */
  datatype Call =
    | UpdateAccruedInterest(currentDate: int)
    | Repay(amount: real, currentDate: int)
    | CallMoney(currentDate: int)
    | ApplyPenalty(currentDate: int)
    | AddCollateral(collateral: LoanSpec.ResourceAddress)
    | RemoveCollateral
    | GetDetails
    | GetTransactionHistory

  /** The state after one call; an aborted call changes nothing. */
  function Step(s: LoanSpec.Loan, c: Call): LoanSpec.Loan {
    match c
    case UpdateAccruedInterest(d) => LoanSpec.UpdateAccruedInterest(s, d)
    case Repay(amount, d) => LoanSpec.Repay(s, amount, d).1
    case CallMoney(d) =>
      (match LoanSpec.CallMoney(s, d) case Ok(v) => v.2 case Err(_) => s)
    case ApplyPenalty(d) =>
      (match LoanSpec.ApplyPenalty(s, d) case Ok(t) => t case Err(_) => s)
    case AddCollateral(x) =>
      (match LoanSpec.AddCollateral(s, x) case Ok(t) => t case Err(_) => s)
    case RemoveCollateral =>
      (match LoanSpec.RemoveCollateral(s) case Ok(v) => v.1 case Err(_) => s)
    case GetDetails => s
    case GetTransactionHistory => s
  }

  /** The state after the calls, in order. */
  function Run(s: LoanSpec.Loan, calls: seq<Call>): LoanSpec.Loan
    decreases |calls|
  {
    if calls == [] then s else Run(Step(s, calls[0]), calls[1..])
  }

  /** Position of a status in the life of a loan: Active, then Called, then Repaid. */
  function Rank(st: LoanSpec.Status): nat {
    match st
    case Active => 0
    case Called => 1
    case Repaid => 2
  }

  /** The timestamp a call carries, or `t` for a call that has none. */
  function DateOf(c: Call, t: int): int {
    match c
    case UpdateAccruedInterest(d) => d
    case Repay(_, d) => d
    case CallMoney(d) => d
    case ApplyPenalty(d) => d
    case _ => t
  }

  /** Every timestamp is at least `t` and at least the one before it. */
  predicate Chronological(t: int, calls: seq<Call>)
    decreases |calls|
  {
    calls == [] || (t <= DateOf(calls[0], t) && Chronological(DateOf(calls[0], t), calls[1..]))
  }

  // ---------------------------------------------------------------- one call

  /**
   * One call keeps the log as a prefix and adds at most two entries, keeps
   * the terms, never moves the status back, and keeps the loan valid.
   */
  lemma StepProperties(s: LoanSpec.Loan, c: Call)
    requires LoanSpec.Valid(s)
    ensures var t := Step(s, c);
      && LoanSpec.Valid(t)
      && LoanSpec.SameTerms(s, t)
      && s.history <= t.history
      && |t.history| <= |s.history| + 2
      && Rank(s.status) <= Rank(t.status)
  {
  }

  /** No call moves the status back, whatever the state. */
  lemma StepStatusNeverMovesBack(s: LoanSpec.Loan, c: Call)
    ensures Rank(s.status) <= Rank(Step(s, c).status)
  {
  }

  /** On a valid loan no call raises the principal. */
  lemma StepNeverRaisesPrincipal(s: LoanSpec.Loan, c: Call)
    requires LoanSpec.Valid(s)
    ensures Step(s, c).principal <= s.principal
  {
  }

  /** Once nothing is owed as principal, no call makes principal owed again. */
  lemma StepKeepsPrincipalZero(s: LoanSpec.Loan, c: Call)
    requires s.principal == 0.0
    ensures Step(s, c).principal == 0.0
  {
  }

  /** A call no earlier than the last accrual keeps interest non-negative and the accrual date moving forward. */
  lemma StepForward(s: LoanSpec.Loan, c: Call, t: int)
    requires LoanSpec.Valid(s) && s.accruedInterest >= 0.0
    requires s.lastInterestCalculationDate <= t <= DateOf(c, t)
    ensures Step(s, c).accruedInterest >= 0.0
    ensures s.lastInterestCalculationDate <= Step(s, c).lastInterestCalculationDate <= DateOf(c, t)
  {
  }

  // ---------------------------------------------------------------- any number of calls

  /** The log is append-only: every run keeps the old log as a prefix, at most two entries per call. */
  lemma {:induction false} RunKeepsHistoryPrefix(s: LoanSpec.Loan, calls: seq<Call>)
    requires LoanSpec.Valid(s)
    ensures s.history <= Run(s, calls).history
    ensures |Run(s, calls).history| <= |s.history| + 2 * |calls|
    decreases |calls|
  {
    if calls != [] {
      var next := Step(s, calls[0]);
      StepProperties(s, calls[0]);
      RunKeepsHistoryPrefix(next, calls[1..]);
    }
  }

  /** Every run keeps the loan valid and its terms unchanged. */
  lemma {:induction false} RunPreservesValid(s: LoanSpec.Loan, calls: seq<Call>)
    requires LoanSpec.Valid(s)
    ensures LoanSpec.Valid(Run(s, calls))
    ensures LoanSpec.SameTerms(s, Run(s, calls))
    decreases |calls|
  {
    if calls != [] {
      StepProperties(s, calls[0]);
      RunPreservesValid(Step(s, calls[0]), calls[1..]);
    }
  }

  /**
   * The status only moves forward (Active, Called, Repaid): a called or
   * repaid loan is never active again, and a repaid loan stays repaid.
   */
  lemma {:induction false} RunStatusNeverMovesBack(s: LoanSpec.Loan, calls: seq<Call>)
    ensures Rank(s.status) <= Rank(Run(s, calls).status)
    decreases |calls|
  {
    if calls != [] {
      StepStatusNeverMovesBack(s, calls[0]);
      RunStatusNeverMovesBack(Step(s, calls[0]), calls[1..]);
    }
  }

  /** On a valid loan no sequence of calls raises the principal. */
  lemma {:induction false} RunNeverRaisesPrincipal(s: LoanSpec.Loan, calls: seq<Call>)
    requires LoanSpec.Valid(s)
    ensures Run(s, calls).principal <= s.principal
    decreases |calls|
  {
    if calls != [] {
      StepNeverRaisesPrincipal(s, calls[0]);
      StepProperties(s, calls[0]);
      RunNeverRaisesPrincipal(Step(s, calls[0]), calls[1..]);
    }
  }

  /**
   * In every state reachable from a created loan, no principal is left
   * exactly when the status is Repaid, so the collateral release gate
   * (principal zero) opens exactly when the loan has been fully repaid.
   */
  lemma ReleaseGateMeansRepaid(
    lender: LoanSpec.ResourceAddress, borrower: LoanSpec.ResourceAddress, principal: real,
    interestRate: real, startDate: int, noticePeriod: int, gracePeriod: int, penaltyRate: real,
    calls: seq<Call>)
    requires LoanSpec.Instantiate(lender, borrower, principal, interestRate,
                                  startDate, noticePeriod, gracePeriod, penaltyRate).Ok?
    ensures var t := Run(LoanSpec.Instantiate(lender, borrower, principal, interestRate,
                                             startDate, noticePeriod, gracePeriod, penaltyRate).value, calls);
      && (t.principal == 0.0 <==> t.status == LoanSpec.Repaid)
      && (LoanSpec.RemoveCollateral(t).Ok? <==> t.status == LoanSpec.Repaid)
  {
    var s := LoanSpec.Instantiate(lender, borrower, principal, interestRate,
                                  startDate, noticePeriod, gracePeriod, penaltyRate).value;
    RunPreservesValid(s, calls);
  }

  /** Once the principal is zero it stays zero, so a released loan stays releasable. */
  lemma {:induction false} RunKeepsPrincipalZero(s: LoanSpec.Loan, calls: seq<Call>)
    requires s.principal == 0.0
    ensures Run(s, calls).principal == 0.0
    ensures LoanSpec.RemoveCollateral(Run(s, calls)).Ok?
    decreases |calls|
  {
    if calls != [] {
      StepKeepsPrincipalZero(s, calls[0]);
      RunKeepsPrincipalZero(Step(s, calls[0]), calls[1..]);
    }
  }

  /**
   * Calls whose timestamps never go back keep the accrued interest
   * non-negative and the last accrual date non-decreasing.
   */
  lemma {:induction false} RunForwardKeepsInterestNonNegative(s: LoanSpec.Loan, calls: seq<Call>, t: int)
    requires LoanSpec.Valid(s) && s.accruedInterest >= 0.0
    requires s.lastInterestCalculationDate <= t
    requires Chronological(t, calls)
    ensures Run(s, calls).accruedInterest >= 0.0
    ensures Run(s, calls).lastInterestCalculationDate >= s.lastInterestCalculationDate
    decreases |calls|
  {
    if calls != [] {
      var next := Step(s, calls[0]);
      StepForward(s, calls[0], t);
      StepProperties(s, calls[0]);
      RunForwardKeepsInterestNonNegative(next, calls[1..], DateOf(calls[0], t));
    }
  }

  /** `apply_penalty` never changes the contract, whatever calls came before it. */
  lemma {:induction false} ApplyPenaltyNeverTakesEffect(s: LoanSpec.Loan, calls: seq<Call>, d: int)
    ensures Run(s, calls + [ApplyPenalty(d)]) == Run(s, calls)
    decreases |calls|
  {
    if calls == [] {
      assert calls + [ApplyPenalty(d)] == [ApplyPenalty(d)];
    } else {
      assert (calls + [ApplyPenalty(d)])[1..] == calls[1..] + [ApplyPenalty(d)];
      ApplyPenaltyNeverTakesEffect(Step(s, calls[0]), calls[1..], d);
    }
  }

  /**
   * A worked example: a loan of 1000 at 5% accrued to the timestamp 365.
   * The code subtracts second-based timestamps where its comments say days,
   * so 365 seconds accrue a full year's rate: 50 of interest, then a
   * payment of 500 clears the interest and leaves 550 of principal, while a
   * payment of 1050 settles the loan with nothing left over.
   */
  lemma WorkedExample(lender: LoanSpec.ResourceAddress, borrower: LoanSpec.ResourceAddress)
    ensures LoanSpec.Instantiate(lender, borrower, 1000.0, 0.05, 0, 86400, 0, 0.1).Ok?
    ensures var s := LoanSpec.Instantiate(lender, borrower, 1000.0, 0.05, 0, 86400, 0, 0.1).value;
      LoanSpec.UpdateAccruedInterest(s, 365).accruedInterest == 50.0
    ensures var s := LoanSpec.Instantiate(lender, borrower, 1000.0, 0.05, 0, 86400, 0, 0.1).value;
      var partial := Run(s, [UpdateAccruedInterest(365), Repay(500.0, 365)]);
      partial.principal == 550.0 && partial.accruedInterest == 0.0 && partial.status == LoanSpec.Active
    ensures var s := LoanSpec.Instantiate(lender, borrower, 1000.0, 0.05, 0, 86400, 0, 0.1).value;
      var (excess, full) := LoanSpec.Repay(LoanSpec.UpdateAccruedInterest(s, 365), 1050.0, 365);
      excess == 0.0 && full.principal == 0.0 && full.accruedInterest == 0.0 && full.status == LoanSpec.Repaid
  {
  }
}
