/** The loan record, its status and the loan history entry. */
module LoanModel {
  import opened Wrappers

  const OpenLoanStatus := "Open"
  const ClosedLoanStatus := "Closed"

  /** The `status` object of a loan; its `name` may itself be missing. */
  datatype LoanStatus = LoanStatus(name: Option<string>)

  /**
   * A loan document. `id` is the document's own `id` property; `userId` is the holder;
   * `otherProperties` stands for every JSON property this model does not inspect.
   */
  datatype Loan = Loan(
    id: Option<string>,
    userId: Option<string>,
    itemId: string,
    loanDate: Option<string>,
    returnDate: Option<string>,
    status: Option<LoanStatus>,
    otherProperties: map<string, string>)

  /** A row of the loan history table: a snapshot of a loan, with its creation time. */
  datatype HistoryEntry = HistoryEntry(snapshot: Loan, createdDate: int)

  predicate HasStatus(loan: Loan, name: string)
  {
    loan.status.Some? && loan.status.value.name == Some(name)
  }

  predicate IsOpen(loan: Loan)
  {
    HasStatus(loan, OpenLoanStatus)
  }

  predicate IsClosed(loan: Loan)
  {
    HasStatus(loan, ClosedLoanStatus)
  }

  /** The domain invariant the write paths protect: every stored open loan has a holder. */
  ghost predicate OpenLoansHaveUsers(loans: map<string, Loan>)
  {
    forall k :: k in loans && IsOpen(loans[k]) ==> loans[k].userId.Some?
  }
}
