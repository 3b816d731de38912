/** The loan table and the loan history table of one tenant. */
module LoanStorage {
  import opened Wrappers
  import opened Storage
  import opened LoanModel
  import opened Anonymization

  function LoanId(loan: Loan): Option<string>
  {
    loan.id
  }

  class LoanStore {
    /** The loan table; criteria compare against the loan document's `id`. */
    const loans: Table<Loan>
    /** The loan history table, written by a database mechanism outside this model. */
    var history: seq<HistoryEntry>

    constructor ()
      ensures fresh(loans) && loans.rows == map[] && history == []
      ensures KeyedByLoanId()
    {
      loans := new Table(LoanId);
      history := [];
    }

    /** Lookups in the loan table compare against the loan's own `id`. */
    ghost predicate KeyedByLoanId()
    {
      forall loan :: loans.recordId(loan) == LoanId(loan)
    }

    /** Both tables as a value. */
    function Tables(): LoanTables
      reads this, loans
    {
      LoanTables(loans.rows, history)
    }

    /**
     * Execute the SQL text `sql`, which is the rendering of `batch` in the tenant's schema:
     * either every statement takes effect, in order, or the call fails and neither table
     * changes. The text means the batch only when no user id closes the quotes it is
     * spliced into.
     */
    method Execute(sql: string, batch: seq<Statement>, tenantId: string, fault: Option<Cause>) returns (r: Outcome<Cause>)
      requires sql == RenderBatch(batch, tenantId)
      requires forall statement :: statement in batch ==> StaysQuoted(statement.userId)
      modifies this, loans
      ensures fault.Some? ==> r == Fail(fault.value) && Tables() == old(Tables())
      ensures fault.None? ==> r == Pass && Tables() == Run(batch, old(Tables()))
    {
      if fault.Some? {
        return Fail(fault.value);
      }
      var after := Run(batch, Tables());
      loans.rows := after.loans;
      history := after.history;
      r := Pass;
    }
  }
}
