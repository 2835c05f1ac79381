/**
 * The `CallMoney` component: one object per loan whose methods update its
 * fields in place. Each method is proved against the function of the same
 * name in LoanSpec, applied to the state before the call; a method that
 * aborts leaves every field as it was.
 */
module Component {
  import opened Wrappers
  import opened LoanSpec

  class CallMoney {
    const lender: ResourceAddress
    const borrower: ResourceAddress
    var principal: real
    const interestRate: real
    var accruedInterest: real
    const startDate: int
    var lastInterestCalculationDate: int
    const noticePeriod: int
    const gracePeriod: int
    var status: Status
    const penaltyRate: real
    var collateral: Option<ResourceAddress>
    var transactionHistory: seq<Entry>

    /** The fields as a LoanSpec value. */
    ghost function State(): Loan
      reads this
    {
      Loan(lender, borrower, principal, interestRate, accruedInterest, startDate,
           lastInterestCalculationDate, noticePeriod, gracePeriod, status, penaltyRate,
           collateral, transactionHistory)
    }

    ghost predicate Valid()
      reads this
    {
      LoanSpec.Valid(State())
    }

    /** The record literal of the constructor, built once the checks have passed. */
    constructor (
      lender: ResourceAddress, borrower: ResourceAddress, principal: real, interestRate: real,
      startDate: int, noticePeriod: int, gracePeriod: int, penaltyRate: real)
      ensures State() == Initial(lender, borrower, principal, interestRate,
                                 startDate, noticePeriod, gracePeriod, penaltyRate)
    {
      this.lender := lender;
      this.borrower := borrower;
      this.principal := principal;
      this.interestRate := interestRate;
      this.startDate := startDate;
      this.accruedInterest := 0.0;
      this.lastInterestCalculationDate := startDate;
      this.status := Active;
      this.noticePeriod := noticePeriod;
      this.gracePeriod := gracePeriod;
      this.penaltyRate := penaltyRate;
      this.collateral := None;
      this.transactionHistory := [ContractInitiated];
    }

    /** `instantiate_call_money`: check the parameters, then create a valid active loan. */
    static method Instantiate(
      lender: ResourceAddress, borrower: ResourceAddress, principal: real, interestRate: real,
      startDate: int, noticePeriod: int, gracePeriod: int, penaltyRate: real)
      returns (r: Result<CallMoney, Error>)
      ensures match LoanSpec.Instantiate(lender, borrower, principal, interestRate,
                                         startDate, noticePeriod, gracePeriod, penaltyRate)
        case Ok(s) => r.Ok? && fresh(r.value) && r.value.State() == s && r.value.Valid()
        case Err(e) => r == Err(e)
    {
      if principal <= 0.0 { return Err(PrincipalNotPositive); }
      if !(0.0 < interestRate && interestRate < 1.0) { return Err(InterestRateOutOfRange); }
      if noticePeriod < 0 { return Err(NegativeNoticePeriod); }
      if gracePeriod < 0 { return Err(NegativeGracePeriod); }
      if penaltyRate < 0.0 { return Err(NegativePenaltyRate); }
      var c := new CallMoney(lender, borrower, principal, interestRate,
                             startDate, noticePeriod, gracePeriod, penaltyRate);
      return Ok(c);
    }

    /** `update_accrued_interest`. */
    method UpdateAccruedInterest(currentDate: int)
      requires Valid()
      modifies this
      ensures Valid()
      ensures State() == LoanSpec.UpdateAccruedInterest(old(State()), currentDate)
      ensures |transactionHistory| == |old(transactionHistory)| + 1
    {
      var days := currentDate - lastInterestCalculationDate;
      var interest := principal * interestRate * days as real / 365.0;
      accruedInterest := accruedInterest + interest;
      lastInterestCalculationDate := currentDate;
      transactionHistory := transactionHistory + [InterestUpdated(interest)];
    }

    /** `repay`: returns the part of `amount` beyond the total due. */
    method Repay(amount: real, currentDate: int) returns (excess: real)
      requires Valid()
      modifies this
      ensures Valid()
      ensures (excess, State()) == LoanSpec.Repay(old(State()), amount, currentDate)
      ensures |transactionHistory| == |old(transactionHistory)| + 2
    {
      UpdateAccruedInterest(currentDate);
      var totalDue := principal + accruedInterest;
      if amount >= totalDue {
        status := Repaid;
        excess := amount - totalDue;
        principal := 0.0;
        accruedInterest := 0.0;
        transactionHistory := transactionHistory + [FullyRepaid(excess)];
      } else {
        accruedInterest := accruedInterest - amount;
        if accruedInterest < 0.0 {
          principal := principal + accruedInterest;
          accruedInterest := 0.0;
        }
        transactionHistory := transactionHistory + [PartialRepayment(amount)];
        excess := 0.0;
      }
    }

    /** `call_money`: on success, the total due and the due date. */
    method CallMoney(currentDate: int) returns (r: Result<(real, int), Error>)
      requires Valid()
      modifies this
      ensures Valid()
      ensures match LoanSpec.CallMoney(old(State()), currentDate)
        case Ok((totalDue, dueDate, t)) => r == Ok((totalDue, dueDate)) && State() == t
        case Err(e) => r == Err(e) && State() == old(State())
    {
      if status != Active { return Err(NotActive); }
      UpdateAccruedInterest(currentDate);
      var totalDue := principal + accruedInterest;
      status := Called;
      var dueDate := currentDate + noticePeriod;
      transactionHistory := transactionHistory + [MoneyCalled(dueDate)];
      return Ok((totalDue, dueDate));
    }

    /** `apply_penalty`: the nested `call_money` rejects every called loan, so this always aborts. */
    method ApplyPenalty(currentDate: int) returns (r: Result<(), Error>)
      requires Valid()
      modifies this
      ensures Valid()
      ensures r.Err? && r.error == LoanSpec.ApplyPenalty(old(State()), currentDate).error
      ensures State() == old(State())
    {
      if status != Called { return Err(NotCalled); }
      var called := CallMoney(currentDate);
      if called.Err? {
        return Err(called.error);
      } else {
        assert false;
      }
    }

    /** `add_collateral`. */
    method AddCollateral(c: ResourceAddress) returns (r: Result<(), Error>)
      requires Valid()
      modifies this
      ensures Valid()
      ensures match LoanSpec.AddCollateral(old(State()), c)
        case Ok(t) => r.Ok? && State() == t
        case Err(e) => r == Err(e) && State() == old(State())
    {
      if collateral.Some? { return Err(CollateralExists); }
      collateral := Some(c);
      transactionHistory := transactionHistory + [CollateralAdded];
      return Ok(());
    }

    /** `remove_collateral`: the collateral taken out of the slot, if any. */
    method RemoveCollateral() returns (r: Result<Option<ResourceAddress>, Error>)
      requires Valid()
      modifies this
      ensures Valid()
      ensures match LoanSpec.RemoveCollateral(old(State()))
        case Ok((taken, t)) => r == Ok(taken) && State() == t
        case Err(e) => r == Err(e) && State() == old(State())
    {
      if principal != 0.0 { return Err(NotFullyRepaid); }
      var taken := collateral;
      collateral := None;
      if taken.Some? {
        transactionHistory := transactionHistory + [CollateralRemoved];
      }
      return Ok(taken);
    }

    /** `get_details`. */
    method GetDetails() returns (d: Details)
      ensures d == LoanSpec.GetDetails(State())
      ensures d.principal == principal && d.accruedInterest == accruedInterest && d.status == status
    {
      d := Details(lender, borrower, principal, interestRate, startDate,
                   accruedInterest, status, collateral);
    }

    /** `get_transaction_history`: a copy of the whole log. */
    method GetTransactionHistory() returns (h: seq<Entry>)
      ensures h == transactionHistory
      ensures Valid() ==> |h| >= 1 && h[0] == ContractInitiated
    {
      h := transactionHistory;
    }
  }
}
