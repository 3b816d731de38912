/**
 * The loan storage resource: pre-write checks, the conflict classifier and one sequential
 * method per request handler. Each handler completes with exactly one `Response`.
 */
module LoansApi {
  import opened Wrappers
  import opened Text
  import opened Http
  import opened Storage
  import opened LoanModel
  import opened Anonymization
  import opened LoanQueries
  import opened LoanStorage

  /** The name of the partial unique index that allows one open loan per item. */
  const UniqueOpenLoanIndex := "loan_itemid_idx_unique"
  const OpenLoanNeedsUserMessage := "Open loan must have a user ID"
  const MoreThanOneOpenLoanMessage := "Cannot have more than one open loan for the same item"
  const InvalidUserIdMessage := "Invalid user ID, should be a UUID"
  const LoanDateMessage := "loan date must be a date time (in RFC3339 format)"
  const ReturnDateMessage := "return date must be a date time (in RFC3339 format)"
  const NotFoundMessage := "Not Found"

  // ---------------------------------------------------------------------------------------
  // Pre-write checks
  // ---------------------------------------------------------------------------------------

  /** The request loan after a missing status was set to "Open". */
  function WithDefaultStatus(loan: Loan): (r: Loan)
    ensures r.status.Some?
    ensures loan.status.None? ==> IsOpen(r)
    ensures loan.status.Some? ==> r == loan
    ensures r.(status := loan.status) == loan
  {
    if loan.status.None? then loan.(status := Some(LoanStatus(Some(OpenLoanStatus)))) else loan
  }

  /** The loan a create request saves: default status, and a minted id only when it has none. */
  function PreparedForCreate(body: Loan, freshId: string): Loan
  {
    var loan := WithDefaultStatus(body);
    if loan.id.None? then loan.(id := Some(freshId)) else loan
  }

  /** An open loan without a holder; only asked once the status has been defaulted. */
  function IsOpenAndHasNoUserId(loan: Loan): (missing: bool)
    requires loan.status.Some?
    ensures missing <==> IsOpen(loan) && loan.userId.None?
  {
    loan.status.value.name == Some(OpenLoanStatus) && loan.userId.None?
  }

  /** A date-time field that is present and that the date-time parser accepts. */
  predicate ParsesAsDateTime(field: Option<string>, isDateTime: string -> bool)
  {
    field.Some? && isDateTime(field.value)
  }

  /** The loan date is required and must parse; the return date must parse when present. */
  predicate LoanDatesValid(loan: Loan, isDateTime: string -> bool)
  {
    ParsesAsDateTime(loan.loanDate, isDateTime)
    && (loan.returnDate.None? || ParsesAsDateTime(loan.returnDate, isDateTime))
  }

  /** The text a failed validation reports: every failing check, loan date first, one per line. */
  function DateValidationMessage(loan: Loan, isDateTime: string -> bool): (message: string)
    ensures message == "" <==> LoanDatesValid(loan, isDateTime)
    ensures !ParsesAsDateTime(loan.loanDate, isDateTime) ==>
      |LoanDateMessage| <= |message| && message[..|LoanDateMessage|] == LoanDateMessage
    ensures loan.returnDate.Some? && !ParsesAsDateTime(loan.returnDate, isDateTime) ==>
      |ReturnDateMessage| <= |message| && message[|message| - |ReturnDateMessage|..] == ReturnDateMessage
  {
    var loanDateOk := ParsesAsDateTime(loan.loanDate, isDateTime);
    var returnDateOk := loan.returnDate.None? || ParsesAsDateTime(loan.returnDate, isDateTime);
    if loanDateOk && returnDateOk then ""
    else if returnDateOk then LoanDateMessage
    else if loanDateOk then ReturnDateMessage
    else LoanDateMessage + "\n" + ReturnDateMessage
  }

  /**
   * Both date checks always run; every failure is added to a newline-separated joiner, and
   * the loan is valid iff nothing was added.
   */
  method ValidateLoan(loan: Loan, isDateTime: string -> bool) returns (valid: bool, messages: string)
    ensures valid <==> LoanDatesValid(loan, isDateTime)
    ensures messages == DateValidationMessage(loan, isDateTime)
    ensures valid <==> messages == ""
  {
    valid := true;
    var joined: seq<string> := [];
    if !ParsesAsDateTime(loan.loanDate, isDateTime) {
      valid := false;
      joined := joined + [LoanDateMessage];
    }
    if loan.returnDate.Some? {
      if !ParsesAsDateTime(loan.returnDate, isDateTime) {
        valid := false;
        joined := joined + [ReturnDateMessage];
      }
    }
    if |joined| == 2 {
      assert joined[1..] == [ReturnDateMessage];
      assert JoinWith("\n", joined[1..]) == ReturnDateMessage;
    }
    messages := JoinWith("\n", joined);
  }

  // ---------------------------------------------------------------------------------------
  // Conflict classifier
  // ---------------------------------------------------------------------------------------

  /**
   * A failed write is the "one open loan per item" conflict iff its cause is a database error
   * whose server message names the partial unique index.
   */
  function IsMultipleOpenLoanError(cause: Cause): (conflict: bool)
    ensures conflict <==> cause.DatabaseError? && exists i :: OccursAt(cause.serverMessage, UniqueOpenLoanIndex, i)
  {
    cause.DatabaseError? && ContainsSubstring(cause.serverMessage, UniqueOpenLoanIndex)
  }

  /** The index name anywhere in a database error's message makes it the conflict. */
  lemma IndexNameAnywhereIsConflict(before: string, after: string, message: string, rendered: string)
    ensures IsMultipleOpenLoanError(DatabaseError(before + UniqueOpenLoanIndex + after, message, rendered))
  {
    var s := before + UniqueOpenLoanIndex + after;
    assert s[|before|..|before| + |UniqueOpenLoanIndex|] == UniqueOpenLoanIndex;
    assert OccursAt(s, UniqueOpenLoanIndex, |before|);
  }

  /** The structured error naming the item that already has an open loan. */
  function MoreThanOneOpenLoanError(loan: Loan): (errors: seq<Error>)
    ensures |errors| == 1 && errors[0].message == MoreThanOneOpenLoanMessage
    ensures errors[0].parameters == [Parameter("itemId", loan.itemId)]
  {
    ValidationErrorMessage("itemId", loan.itemId, MoreThanOneOpenLoanMessage)
  }

  /** The response to a failed save or update of `loan`. */
  function WriteFailure(cause: Cause, loan: Loan): (r: Response<Loan>)
    ensures r.StatusCode() == (if IsMultipleOpenLoanError(cause) then 422 else 500)
    ensures r.Unprocessable? ==> r.errors == [Error(MoreThanOneOpenLoanMessage, [Parameter("itemId", loan.itemId)])]
    ensures r.ServerError? ==> r.text == cause.rendered
  {
    if IsMultipleOpenLoanError(cause) then Unprocessable(MoreThanOneOpenLoanError(loan))
    else ServerError(cause.rendered)
  }

  /** The classifier never reads the loan: only the cause decides between 422 and 500. */
  lemma OtherFailuresAreServerErrors(message: string, rendered: string, loan: Loan)
    ensures WriteFailure(OtherFailure(message, rendered), loan) == ServerError(rendered)
  {
  }

  // ---------------------------------------------------------------------------------------
  // Handlers
  // ---------------------------------------------------------------------------------------

  /** DELETE /loan-storage/loans: truncate the loan table; the outcome is not looked at. */
  method DeleteAllLoans(store: LoanStore, fault: Option<Cause>) returns (r: Response<Loan>)
    modifies store.loans
    ensures r == NoContent
    ensures store.loans.rows == if fault.None? then map[] else old(store.loans.rows)
  {
    var _ := store.loans.DeleteAll(fault);
    r := NoContent;
  }

  /** POST /loan-storage/loans. */
  method PostLoan(store: LoanStore, body: Loan, isDateTime: string -> bool, freshId: string, saveFault: Option<Cause>)
    returns (r: Response<Loan>)
    modifies store.loans
    ensures var loan := WithDefaultStatus(body);
      IsOpenAndHasNoUserId(loan) ==>
        r == Unprocessable(PlainError(OpenLoanNeedsUserMessage)) && store.loans.rows == old(store.loans.rows)
    ensures var loan := WithDefaultStatus(body);
      !IsOpenAndHasNoUserId(loan) && !LoanDatesValid(loan, isDateTime) ==>
        r == BadRequest(DateValidationMessage(loan, isDateTime)) && store.loans.rows == old(store.loans.rows)
    ensures var loan := PreparedForCreate(body, freshId);
      var id := if body.id.Some? then body.id.value else freshId;
      !IsOpenAndHasNoUserId(loan) && LoanDatesValid(loan, isDateTime) ==>
        && loan.id == Some(id)
        && (saveFault.None? ==> r == Created(loan, id) && store.loans.rows == old(store.loans.rows)[id := loan])
        && (saveFault.Some? ==> r == WriteFailure(saveFault.value, loan) && store.loans.rows == old(store.loans.rows))
    ensures r.Created? ==> r.entity.status.Some? && r.entity.id == Some(r.location)
    ensures OpenLoansHaveUsers(old(store.loans.rows)) ==> OpenLoansHaveUsers(store.loans.rows)
  {
    var loan := body;
    if loan.status.None? {
      loan := loan.(status := Some(LoanStatus(Some(OpenLoanStatus))));
    }
    if IsOpenAndHasNoUserId(loan) {
      return Unprocessable(PlainError(OpenLoanNeedsUserMessage));
    }
    var valid, messages := ValidateLoan(loan, isDateTime);
    if !valid {
      return BadRequest(messages);
    }
    if loan.id.None? {
      loan := loan.(id := Some(freshId));
    }
    var saved := store.loans.Save(loan.id, loan, saveFault, freshId);
    match saved
    case Success(location) =>
      r := Created(loan, location);
    case Failure(cause) =>
      r := WriteFailure(cause, loan);
  }

  /** GET /loan-storage/loans/{loanId}: 200 only when exactly one document has that id. */
  method GetLoanById(store: LoanStore, loanId: string, fault: Option<Cause>) returns (r: Response<Loan>)
    requires store.KeyedByLoanId()
    ensures fault.Some? ==> r == ServerError(fault.value.message)
    ensures fault.None? ==>
      var found := Matching(store.loans.rows, store.loans.recordId, IdCriterion(loanId));
      && (r.Ok? <==> |found| == 1)
      && (r.Ok? ==> r.entity in found.Values)
      && (!r.Ok? ==> r == NotFound(PlainText(NotFoundMessage)))
    ensures r.Ok? ==> r.entity.id == Some(loanId)
  {
    var reply := store.loans.Get(IdCriterion(loanId), fault);
    match reply
    case Failure(cause) =>
      r := ServerError(cause.message);
    case Success(loans) =>
      assert loans == Matching(store.loans.rows, store.loans.recordId, IdCriterion(loanId));
      if |loans| == 1 {
        ghost var only := SingletonMap(loans);
        var k :| k in loans;
        r := Ok(loans[k]);
      } else {
        r := NotFound(PlainText(NotFoundMessage));
      }
  }

  /** DELETE /loan-storage/loans/{loanId}. */
  method DeleteLoanById(store: LoanStore, loanId: string, fault: Option<Cause>) returns (r: Response<Loan>)
    requires store.KeyedByLoanId()
    modifies store.loans
    ensures fault.Some? ==> r == ServerError(fault.value.message) && store.loans.rows == old(store.loans.rows)
    ensures fault.None? ==>
      r == NoContent && store.loans.rows == Removed(old(store.loans.rows), store.loans.recordId, IdCriterion(loanId))
  {
    var deleted := store.loans.Delete(IdCriterion(loanId), fault);
    match deleted
    case Pass =>
      r := NoContent;
    case Fail(cause) =>
      r := ServerError(cause.message);
  }

  /**
   * PUT /loan-storage/loans/{loanId}: validate the dates, then require a holder on an open
   * loan, then look up by the path id; update when exactly one document matches, otherwise
   * save under the body's own id.
   */
  method PutLoan(store: LoanStore, loanId: string, body: Loan, isDateTime: string -> bool,
                 lookupFault: Option<Cause>, writeFault: Option<Cause>, generatedKey: string)
    returns (r: Response<Loan>)
    requires store.KeyedByLoanId()
    modifies store.loans
    ensures var loan := WithDefaultStatus(body);
      !LoanDatesValid(loan, isDateTime) ==>
        r == BadRequest(DateValidationMessage(loan, isDateTime)) && store.loans.rows == old(store.loans.rows)
    ensures var loan := WithDefaultStatus(body);
      LoanDatesValid(loan, isDateTime) && IsOpenAndHasNoUserId(loan) ==>
        r == Unprocessable(PlainError(OpenLoanNeedsUserMessage)) && store.loans.rows == old(store.loans.rows)
    ensures var loan := WithDefaultStatus(body);
      LoanDatesValid(loan, isDateTime) && !IsOpenAndHasNoUserId(loan) && lookupFault.Some? ==>
        r == ServerError(lookupFault.value.message) && store.loans.rows == old(store.loans.rows)
    ensures var loan := WithDefaultStatus(body);
      LoanDatesValid(loan, isDateTime) && !IsOpenAndHasNoUserId(loan) && lookupFault.None? && writeFault.Some? ==>
        r == WriteFailure(writeFault.value, loan) && store.loans.rows == old(store.loans.rows)
    ensures var loan := WithDefaultStatus(body);
      LoanDatesValid(loan, isDateTime) && !IsOpenAndHasNoUserId(loan) && lookupFault.None? && writeFault.None? ==>
        && r == NoContent
        && store.loans.rows == Upserted(old(store.loans.rows), store.loans.recordId, IdCriterion(loanId), loan,
                                        SaveKey(loan.id, generatedKey))
    ensures OpenLoansHaveUsers(old(store.loans.rows)) ==> OpenLoansHaveUsers(store.loans.rows)
  {
    var loan := body;
    if loan.status.None? {
      loan := loan.(status := Some(LoanStatus(Some(OpenLoanStatus))));
    }
    var valid, messages := ValidateLoan(loan, isDateTime);
    if !valid {
      return BadRequest(messages);
    }
    if IsOpenAndHasNoUserId(loan) {
      return Unprocessable(PlainError(OpenLoanNeedsUserMessage));
    }
    var criterion := IdCriterion(loanId);
    var reply := store.loans.Get(criterion, lookupFault);
    match reply
    case Failure(cause) =>
      r := ServerError(cause.message);
    case Success(loanList) =>
      assert loanList == Matching(store.loans.rows, store.loans.recordId, criterion);
      if |loanList| == 1 {
        var updated := store.loans.Update(criterion, loan, writeFault);
        match updated
        case Pass =>
          r := NoContent;
        case Fail(cause) =>
          r := WriteFailure(cause, loan);
      } else {
        var saved := store.loans.Save(loan.id, loan, writeFault, generatedKey);
        match saved
        case Success(_) =>
          r := NoContent;
        case Failure(cause) =>
          r := WriteFailure(cause, loan);
      }
  }

  /**
   * GET /loan-storage/loan-history: run the adjusted history query; `execute` is the store
   * running that text against the history table.
   */
  method GetLoanHistory(t: Translator, execute: string -> Result<Page<Loan>, Cause>,
                        query: Option<string>, limit: int, offset: int)
    returns (r: Response<Loan>)
    ensures var reply := execute(HistoryQuery(t, query, limit, offset));
      && (reply.Success? ==> r == OkPage(reply.value.records, reply.value.totalRecords))
      && (reply.Failure? ==> r == ServerError(reply.error.message))
  {
    var adjustedQuery := HistoryQuery(t, query, limit, offset);
    var reply := execute(adjustedQuery);
    match reply
    case Success(page) =>
      r := OkPage(page.records, page.totalRecords);
    case Failure(cause) =>
      r := ServerError(cause.message);
  }

  /**
   * POST /loan-storage/loans/anonymize/{userId}: reject a malformed user id before touching
   * the store; otherwise build the combined SQL of the two-statement batch, history statement
   * first, and send it as one text. The validator accepts only text in a UUID's alphabet, so
   * the user id it lets through cannot break out of the quotes it is spliced into.
   */
  method AnonymizeLoansByUser(store: LoanStore, userId: string, tenantId: string, isUuid: string -> bool,
                              fault: Option<Cause>)
    returns (r: Response<Loan>)
    requires forall s :: isUuid(s) ==> InUuidAlphabet(s)
    modifies store, store.loans
    ensures !isUuid(userId) ==>
      r == Unprocessable(ValidationErrorMessage("userId", userId, InvalidUserIdMessage))
      && store.Tables() == old(store.Tables())
    ensures isUuid(userId) && fault.Some? ==>
      r == ServerError(fault.value.message) && store.Tables() == old(store.Tables())
    ensures isUuid(userId) && fault.None? ==>
      r == NoContent && store.Tables() == Run(AnonymizationBatch(userId), old(store.Tables()))
  {
    if !isUuid(userId) {
      return Unprocessable(ValidationErrorMessage("userId", userId, InvalidUserIdMessage));
    }
    UuidTextStaysQuoted(userId);
    var batch := AnonymizationBatch(userId);
    var combinedSql := CreateAnonymizationSql(userId, tenantId);
    var done := store.Execute(combinedSql, batch, tenantId, fault);
    match done
    case Pass =>
      r := NoContent;
    case Fail(cause) =>
      r := ServerError(cause.message);
  }
}
