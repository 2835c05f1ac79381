# Call-money loan, modelled in Dafny

A call-money loan is a loan the lender may call due at any time, after a
notice period. The `CallMoney` Scrypto component keeps one loan:

- the lender and the borrower;
- the principal, the annual interest rate and the accrued interest;
- the start date and the date of the last interest accrual;
- the notice period, the grace period and the penalty rate;
- a status ("Active", "Called" or "Repaid");
- one optional collateral slot;
- an append-only transaction log.

Its methods are:

- creation with parameter checks;
- simple pro-rata interest accrual;
- repayment, in full (returning the excess) or in part (interest first);
- calling the loan due;
- a penalty rule;
- attaching and releasing collateral;
- two read-only queries.

The project has four modules:

- `Wrappers` (`wrappers.dfy`): `Option` and `Result`.
- `LoanSpec` (`loan_spec.dfy`): the loan as a value `Loan`, and one function
  per method, from the state before the call to the method's result and the
  state after it. An aborted transaction (a failed `assert!`) is an `Err`
  carrying the assertion's message as an `Error` value. It carries no new
  state, so the loan is unchanged. The status is the enumeration
  `Active | Called | Repaid`. Log lines are `Entry` values carrying the number
  they display.
- `Component` (`component.dfy`): the class `CallMoney`, whose methods update
  its fields in place as the source does. Each method except
  `GetTransactionHistory` is proved to leave the state and return the result
  that the `LoanSpec` function of the same name gives for the old state;
  `GetTransactionHistory` returns the log field itself. Each method also keeps
  the object invariant `Valid()`: validated terms, a non-negative principal
  that is zero exactly when the status is Repaid, and a log that begins with
  "Contract initiated". The fields no method writes are `const`.
- `Lifecycle` (`lifecycle.dfy`): any sequence of calls, with induction lemmas
  for what holds after any number of them.

Where the code's comments and the code itself say different things, the
model follows the code:

- **Accrual counts seconds.** The comments at src/lib.rs:100 and 192 speak of
  days, but the elapsed time is the difference of two second-based
  timestamps, divided by 365. So 365 seconds accrue a full year's rate, and a
  year of seconds accrues 86400 times that (`LoanSpec.AccrualCountsSeconds`).
  The worked example `Lifecycle.WorkedExample` accrues to the timestamp 365
  for that reason.
- **Accrual backward in time.** A date before the last accrual date gives
  negative interest; nothing rejects it.
- **`apply_penalty` always aborts.** Its doc comment (src/lib.rs:180) says it
  applies a penalty when repayment is overdue, but no call reaches that
  branch. It checks that the status is Called. It
  then calls `call_money`, which checks that the status is Active. No state
  passes both checks, so the call fails in every state and appends nothing.
  Its penalty branch is modelled on its own as `LoanSpec.OverduePenalty`.
- **`repay` accepts any amount in any status.** It has no status guard and
  no sign check on the amount. A repaid loan with nothing owed returns every
  non-negative payment as excess; a negative amount puts interest back on it
  (the accrued interest rises by the amount's magnitude).

## Model

| member | source | states |
|---|---|---|
| LoanSpec.Instantiate | src/lib.rs:50-81 | Creation succeeds exactly when principal > 0, 0 < rate < 1, both periods >= 0 and penalty rate >= 0. Each error is the first check that fails, in source order. On success: the given terms, zero accrued interest, last accrual date = start date, Active, no collateral, log = [initiated], and the loan is valid. |
| LoanSpec.UpdateAccruedInterest | src/lib.rs:99-114 | Accrued interest grows by exactly principal × rate × (date − last date) / 365. The last accrual date becomes the given date. Exactly one InterestUpdated entry with that amount is appended. No other field changes. |
| LoanSpec.AccrueSameDateAddsNothing | src/lib.rs:101-107 | A second accrual to the same date adds zero interest. |
| LoanSpec.AccrueForwardNeverDecreases | src/lib.rs:101-107 | If the date is not before the last accrual date and principal and rate are non-negative, accrued interest does not decrease. |
| LoanSpec.AccrualSplits | src/lib.rs:101-110 | Accrual is simple interest: accruing to a middle date and then to a later date gives the same accrued interest as accruing straight to the later date. |
| LoanSpec.AccrualCountsSeconds | src/lib.rs:101-104 | For principal 1000 at 5%, 365 seconds accrue 50, and 365 × 86400 seconds accrue 4320000. The elapsed time is counted in seconds. |
| LoanSpec.Repay | src/lib.rs:124-150 | Interest is accrued first. If amount >= principal + interest: the result is amount − total, principal and interest become 0, status Repaid. Otherwise: the result is 0 and the status is unchanged. Principal + interest falls by exactly the amount. Interest becomes max(interest − amount, 0). Principal falls by max(amount − interest, 0). In both cases the log gains the accrual entry and one repayment entry. Terms and collateral are unchanged. |
| LoanSpec.PartialRepaymentPaysInterestFirst | src/lib.rs:139-148 | A partial payment leaves no negative interest and never raises the principal. It leaves the principal untouched when the payment does not exceed the interest. Otherwise it clears the interest and leaves a positive principal. |
| LoanSpec.RepayConservesAmount | src/lib.rs:129-148 | The reduction of the total due plus the returned excess equals the amount paid, in both branches. |
| LoanSpec.RepaySettledLoanReturnsAll | src/lib.rs:124-138 | Repay has no status guard: on a loan with zero principal and interest, a non-negative payment is returned whole as excess and the status is Repaid. |
| LoanSpec.CallMoney | src/lib.rs:159-178 | Succeeds exactly when the status is Active; otherwise fails with "not active". On success: interest is accrued first and the returned total is principal + interest. The due date is the call date + notice period. The status becomes Called. One MoneyCalled entry follows the accrual entry. Nothing else changes. |
| LoanSpec.CallMoneyDueNotBeforeCall | src/lib.rs:171-172 | On a valid active loan the call succeeds and the due date is not before the call date. |
| LoanSpec.OverduePenalty | src/lib.rs:190-203 | Past due date + grace period: accrued interest grows by principal × penalty rate × overdue time / 365, and one PenaltyApplied entry is appended. Otherwise the loan is unchanged. |
| LoanSpec.OverduePenaltyNeverDecreases | src/lib.rs:191-199 | On a valid loan the penalty branch never lowers the accrued interest. |
| LoanSpec.ApplyPenalty | src/lib.rs:184-204 | Always fails: with "not called" unless the status is Called, and with "not active" (from the nested call_money) when it is. |
| LoanSpec.AddCollateral | src/lib.rs:210-214 | Succeeds exactly when the slot is empty; otherwise fails with "already exists". On success the slot holds the collateral, one CollateralAdded entry is appended, and nothing else changes. |
| LoanSpec.AddCollateralTwiceFails | src/lib.rs:211-212 | A second attachment after a successful one always fails with "already exists". |
| LoanSpec.RemoveCollateral | src/lib.rs:220-227 | Succeeds exactly when principal is 0; otherwise fails with "must be fully repaid". On success it returns the previous slot value and leaves the slot empty. It appends CollateralRemoved only if a value was present. Nothing else changes. |
| LoanSpec.RemoveCollateralTwiceIsEmpty | src/lib.rs:221-226 | After a successful release, a second release succeeds, returns None and changes nothing. |
| LoanSpec.GetDetails | src/lib.rs:233-244 | The details are the loan's lender, borrower, principal, rate, start date, accrued interest, status and collateral. |
| Component.CallMoney.constructor | src/lib.rs:68-81 | The new object's fields are the initial record: zero interest, last accrual date = start date, Active, no collateral, log = [initiated]. |
| Component.CallMoney.Instantiate | src/lib.rs:50-85 | Returns the error LoanSpec.Instantiate gives. Otherwise returns a fresh valid object whose state is the created loan. |
| Component.CallMoney.UpdateAccruedInterest | src/lib.rs:99-114 | The new state is LoanSpec.UpdateAccruedInterest of the old one. The invariant is kept and the log grows by one. |
| Component.CallMoney.Repay | src/lib.rs:124-150 | The excess and the new state are LoanSpec.Repay of the old state. The invariant is kept and the log grows by two. |
| Component.CallMoney.CallMoney | src/lib.rs:159-178 | Returns the total due and due date of LoanSpec.CallMoney and takes its new state. On failure it returns the same error and the state is unchanged. |
| Component.CallMoney.ApplyPenalty | src/lib.rs:184-204 | Always fails, with the error LoanSpec.ApplyPenalty gives, and the state is unchanged. |
| Component.CallMoney.AddCollateral | src/lib.rs:210-214 | Takes the new state of LoanSpec.AddCollateral. On failure it returns the same error and the state is unchanged. |
| Component.CallMoney.RemoveCollateral | src/lib.rs:220-227 | Returns the taken value of LoanSpec.RemoveCollateral and takes its new state. On failure it returns the same error and the state is unchanged. |
| Component.CallMoney.GetDetails | src/lib.rs:233-244 | Changes nothing and returns LoanSpec.GetDetails of the current state. |
| Component.CallMoney.GetTransactionHistory | src/lib.rs:250-252 | Changes nothing and returns the whole log. On a valid object the log begins with the initiation entry. |
| Lifecycle.StepProperties | src/lib.rs:99-227 | On a valid loan, any one call keeps the loan valid (including principal zero exactly when Repaid) and its terms unchanged. It keeps the old log as a prefix and appends at most two entries. It never moves the status back. |
| Lifecycle.StepKeepsPrincipalZero | src/lib.rs:124-150 | No call makes a zero principal non-zero again. |
| Lifecycle.StepForward | src/lib.rs:99-150 | A call dated no earlier than the last accrual date keeps accrued interest non-negative. It moves the last accrual date forward, but not past the call's date. |
| Lifecycle.RunKeepsHistoryPrefix | src/lib.rs:99-227 | After any sequence of calls the old log is a prefix of the new one, with at most two entries added per call. |
| Lifecycle.RunPreservesValid | src/lib.rs:99-227 | After any sequence of calls a valid loan stays valid (principal >= 0 and zero exactly when Repaid, validated terms, log starting with the initiation entry). Lender, borrower, rate, start date, periods and penalty rate never change. |
| Lifecycle.StepStatusNeverMovesBack | src/lib.rs:124-178 | In any state, no single call moves the status back from Repaid or Called. |
| Lifecycle.StepNeverRaisesPrincipal | src/lib.rs:124-150 | On a valid loan no single call raises the principal. |
| Lifecycle.RunNeverRaisesPrincipal | src/lib.rs:124-150 | On a valid loan no sequence of calls raises the principal: only repayment writes it, and only downward. |
| Lifecycle.ReleaseGateMeansRepaid | src/lib.rs:216-227 | In every state reachable from a created loan, principal is zero exactly when the status is Repaid, so remove_collateral succeeds exactly when the loan has been fully repaid, as its doc comment says. |
| Lifecycle.RunStatusNeverMovesBack | src/lib.rs:124-178 | The status only moves Active, then Called, then Repaid. A called or repaid loan is never active again, and a repaid loan stays repaid. |
| Lifecycle.RunKeepsPrincipalZero | src/lib.rs:139-148 | Once the principal is zero it stays zero under any calls, so collateral release stays possible. |
| Lifecycle.RunForwardKeepsInterestNonNegative | src/lib.rs:99-148 | Along calls whose timestamps never go back, accrued interest stays non-negative and the last accrual date never decreases. |
| Lifecycle.ApplyPenaltyNeverTakesEffect | src/lib.rs:184-188 | After any calls, an apply_penalty call leaves the loan exactly as it was. |
| Lifecycle.WorkedExample | src/lib.rs:99-148 | A loan of 1000 at 5%, with the timestamp 365 (seconds): creation succeeds and 50 of interest accrues. A payment of 500 then leaves 550 of principal, no interest and the loan Active. A payment of 1050 leaves no excess, zero principal and interest, and the loan Repaid. |

## Left out

- Ledger plumbing is not modelled: the blueprint macro, globalising the component, and the commented-out owner badge.
- Resource addresses are an opaque type compared only for equality. Nothing is resolved or transferred.
- `Decimal` is modelled as `real`. Rounding in `*` and `/`, and 192-bit overflow, are not modelled. Repayment uses only `+` and `-`, so its conservation properties hold exactly in fixed point too.
- Timestamps are unbounded `int`. The i64 overflow of `current_date + notice_period` and of the date differences is not modelled.
- Log lines are `Entry` values holding their numbers; the text produced by `format!` is not modelled.
- Transaction rollback is represented only as an `Err` result with the state unchanged.
- The penalty branch of `apply_penalty` cannot be reached, so the class method ends that path with a proof that it is dead. The branch's arithmetic is modelled separately as `LoanSpec.OverduePenalty`.
