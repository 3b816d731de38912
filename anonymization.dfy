/**
 * Anonymization of a user's closed loans: the two statements, their effect on the loan and
 * loan history tables, their sequencing and the SQL text that carries them.
 */
module Anonymization {
  import opened Wrappers
  import opened Text
  import opened LoanModel

  const ModuleName := "mod_circulation_storage"
  const LoanHistoryTable := "audit_loan"

  /** The two tables the statements read and write. */
  datatype LoanTables = LoanTables(loans: map<string, Loan>, history: seq<HistoryEntry>)

  /** The two statements of the anonymization batch. */
  datatype Statement = AnonymizeHistory(userId: string) | AnonymizeLoans(userId: string)

  /** The row filter of the loan statement: held by the user and closed. */
  predicate ClosedLoanOf(loan: Loan, userId: string)
  {
    loan.userId == Some(userId) && IsClosed(loan)
  }

  /** The sub-select of the history statement: the `id` values of the user's closed loans. */
  function ClosedLoanIds(loans: map<string, Loan>, userId: string): set<string>
  {
    set k | k in loans && ClosedLoanOf(loans[k], userId) && loans[k].id.Some? :: loans[k].id.value
  }

  /**
   * The row filter of the history statement: the entry names the user and its `id` is in the
   * sub-select (a null `id` is never IN a set, as in SQL).
   */
  predicate EntryOfClosedLoan(entry: HistoryEntry, loans: map<string, Loan>, userId: string)
  {
    entry.snapshot.userId == Some(userId)
    && entry.snapshot.id.Some?
    && entry.snapshot.id.value in ClosedLoanIds(loans, userId)
  }

  /** `jsonb - 'userId'`: the document without its holder, every other property intact. */
  function WithoutUser(loan: Loan): Loan
  {
    loan.(userId := None)
  }

  function EntryWithoutUser(entry: HistoryEntry): HistoryEntry
  {
    entry.(snapshot := WithoutUser(entry.snapshot))
  }

  /**
   * The effect of the history statement, whose sub-select reads `loans`: exactly the entries
   * the filters select change, and they lose their `userId` and nothing else.
   */
  function AnonymizedHistory(loans: map<string, Loan>, history: seq<HistoryEntry>, userId: string): (r: seq<HistoryEntry>)
    ensures |r| == |history|
    ensures forall i :: 0 <= i < |history| ==>
      r[i].(snapshot := r[i].snapshot.(userId := history[i].snapshot.userId)) == history[i]
    ensures forall i :: 0 <= i < |history| ==>
      (r[i].snapshot.userId == history[i].snapshot.userId <==> !EntryOfClosedLoan(history[i], loans, userId))
    ensures forall i :: 0 <= i < |history| && EntryOfClosedLoan(history[i], loans, userId) ==> r[i].snapshot.userId.None?
  {
    seq(|history|, i requires 0 <= i < |history| =>
      if EntryOfClosedLoan(history[i], loans, userId) then EntryWithoutUser(history[i]) else history[i])
  }

  /**
   * The effect of the loan statement: every row is kept, exactly the user's closed loans
   * change, and they lose their `userId` and nothing else.
   */
  function AnonymizedLoans(loans: map<string, Loan>, userId: string): (r: map<string, Loan>)
    ensures r.Keys == loans.Keys
    ensures forall k :: k in loans ==> r[k].(userId := loans[k].userId) == loans[k]
    ensures forall k :: k in loans ==> (r[k].userId == loans[k].userId <==> !ClosedLoanOf(loans[k], userId))
    ensures forall k :: k in loans && ClosedLoanOf(loans[k], userId) ==> r[k].userId.None?
  {
    map k | k in loans :: if ClosedLoanOf(loans[k], userId) then WithoutUser(loans[k]) else loans[k]
  }

  /** The effect of one statement on both tables: it changes its own table and no other. */
  function Apply(statement: Statement, tables: LoanTables): (after: LoanTables)
    ensures statement.AnonymizeHistory? ==>
      after.loans == tables.loans && after.history == AnonymizedHistory(tables.loans, tables.history, statement.userId)
    ensures statement.AnonymizeLoans? ==>
      after.history == tables.history && after.loans == AnonymizedLoans(tables.loans, statement.userId)
  {
    match statement
    case AnonymizeHistory(userId) =>
      tables.(history := AnonymizedHistory(tables.loans, tables.history, userId))
    case AnonymizeLoans(userId) =>
      tables.(loans := AnonymizedLoans(tables.loans, userId))
  }

  /**
   * The statements of a batch, executed one after the other. No statement adds or removes a
   * row, and each row either stays as it was or loses only its `userId`.
   */
  function Run(batch: seq<Statement>, tables: LoanTables): (after: LoanTables)
    ensures after.loans.Keys == tables.loans.Keys && |after.history| == |tables.history|
    ensures forall k :: k in tables.loans ==>
      after.loans[k] == tables.loans[k] || after.loans[k] == WithoutUser(tables.loans[k])
    ensures forall i :: 0 <= i < |tables.history| ==>
      after.history[i] == tables.history[i] || after.history[i] == EntryWithoutUser(tables.history[i])
    decreases |batch|
  {
    if batch == [] then tables else Run(batch[1..], Apply(batch[0], tables))
  }

  /** Running two batches one after the other is running their concatenation. */
  lemma {:induction false} RunConcatenation(first: seq<Statement>, second: seq<Statement>, tables: LoanTables)
    ensures Run(first + second, tables) == Run(second, Run(first, tables))
    decreases |first|
  {
    if first == [] {
      assert first + second == second;
    } else {
      assert (first + second)[0] == first[0];
      assert (first + second)[1..] == first[1..] + second;
      RunConcatenation(first[1..], second, Apply(first[0], tables));
    }
  }

  /** The batch the anonymization request sends: history first, then loans, both for one user. */
  function AnonymizationBatch(userId: string): (batch: seq<Statement>)
    ensures |batch| == 2
    ensures batch[0].AnonymizeHistory? && batch[|batch| - 1].AnonymizeLoans?
    ensures forall statement :: statement in batch ==> statement.userId == userId
  {
    [AnonymizeHistory(userId), AnonymizeLoans(userId)]
  }

  /** The same two statements in the opposite order. */
  function LoansFirstBatch(userId: string): seq<Statement>
  {
    [AnonymizeLoans(userId), AnonymizeHistory(userId)]
  }

  /** The schema that holds the module's tables for one tenant. */
  function Schema(tenantId: string): string
  {
    tenantId + "_" + ModuleName
  }

  /** The table a statement updates, within the tenant's schema. */
  function TargetTable(statement: Statement): string
  {
    if statement.AnonymizeLoans? then "loan" else LoanHistoryTable
  }

  /**
   * The part both statements share: UPDATE of the target table, dropping `userId`, in the rows
   * that hold the statement's user, followed by a further restriction.
   */
  function Head(statement: Statement, tenantId: string): string
  {
    "UPDATE " + Schema(tenantId) + "." + TargetTable(statement) + " SET jsonb = jsonb - 'userId'"
    + " WHERE jsonb->>'userId' = '" + statement.userId + "'" + " AND "
  }

  /** The source of the history statement's sub-select: the user's closed loans in the loan table. */
  function LoanSubSelect(userId: string, tenantId: string): string
  {
    " FROM " + Schema(tenantId) + ".loan l WHERE l.jsonb->>'userId' = '" + userId + "'"
    + " AND l.jsonb->'status'->>'name' = 'Closed')"
  }

  /** The characters of a UUID's string form (section 3 of RFC 4122): hexadecimal digits and hyphens. */
  const UuidCharacters := "0123456789abcdefABCDEF-"

  /** Every character of `s` may occur in a UUID's string form. */
  predicate InUuidAlphabet(s: string)
  {
    forall c :: c in s ==> c in UuidCharacters
  }

  /**
   * A user id that cannot close the quotes it is spliced into: only for such an id does the
   * text of a statement mean that statement.
   */
  predicate StaysQuoted(userId: string)
  {
    '\'' !in userId
  }

  /** Text in a UUID's alphabet holds neither a quote nor a format directive's `%`. */
  lemma UuidTextStaysQuoted(s: string)
    requires InUuidAlphabet(s)
    ensures StaysQuoted(s) && '%' !in s
  {
    assert '\'' !in UuidCharacters && '%' !in UuidCharacters;
  }

  /**
   * The SQL text of one statement, in the tenant's schema. Each is an UPDATE of the table its
   * effect changes that drops `userId` from the rows holding the statement's user, further
   * restricted to closed loans; the history statement restricts by a sub-select over the
   * loan table.
   */
  function Render(statement: Statement, tenantId: string): (sql: string)
    ensures var head := Head(statement, tenantId);
      |head| < |sql| && sql[..|head|] == head
    ensures statement.AnonymizeLoans? ==>
      var closed := "jsonb->'status'->>'name' = 'Closed'";
      |closed| < |sql| && sql[|sql| - |closed|..] == closed
    ensures statement.AnonymizeHistory? ==>
      exists i :: OccursAt(sql, LoanSubSelect(statement.userId, tenantId), i)
  {
    var head := Head(statement, tenantId);
    match statement
    case AnonymizeLoans(_) =>
      var closed := "jsonb->'status'->>'name' = 'Closed'";
      ConcatEnds(head, closed);
      head + closed
    case AnonymizeHistory(userId) =>
      var select := "jsonb->>'id' IN (SELECT l.jsonb->>'id'";
      var sub := LoanSubSelect(userId, tenantId);
      var tail := select + sub;
      ConcatEnds(head, tail);
      ConcatEnds(select, sub);
      assert (head + tail)[|head| + |select|..|head| + |tail|] == tail[|select|..];
      assert OccursAt(head + tail, sub, |head| + |select|);
      head + tail
  }

  /** The SQL text of a batch: its statements separated by "; ". */
  function RenderBatch(batch: seq<Statement>, tenantId: string): string
  {
    JoinWith("; ", seq(|batch|, i requires 0 <= i < |batch| => Render(batch[i], tenantId)))
  }

  /**
   * The combined SQL the anonymization request sends. It is the rendering of exactly the
   * batch the store executes, so its history statement comes first.
   */
  function CreateAnonymizationSql(userId: string, tenantId: string): (sql: string)
    ensures sql == RenderBatch(AnonymizationBatch(userId), tenantId)
    ensures var first := Render(AnonymizeHistory(userId), tenantId);
      |first| < |sql| && sql[..|first|] == first
    ensures var last := Render(AnonymizeLoans(userId), tenantId);
      |last| < |sql| && sql[|sql| - |last|..] == last
  {
    var history := Render(AnonymizeHistory(userId), tenantId);
    var loans := Render(AnonymizeLoans(userId), tenantId);
    RenderTwoStatements(AnonymizationBatch(userId), tenantId);
    ConcatParts(history, "; ", loans);
    history + "; " + loans
  }

  /** A two-statement batch renders as its first statement, "; " and its second. */
  lemma RenderTwoStatements(batch: seq<Statement>, tenantId: string)
    requires |batch| == 2
    ensures RenderBatch(batch, tenantId) == Render(batch[0], tenantId) + "; " + Render(batch[1], tenantId)
  {
    var parts := seq(|batch|, i requires 0 <= i < |batch| => Render(batch[i], tenantId));
    assert parts[1..] == [parts[1]];
    assert JoinWith("; ", parts[1..]) == parts[1];
    assert JoinWith("; ", parts) == parts[0] + "; " + JoinWith("; ", parts[1..]);
  }

  /** Where the two ends of a three-part concatenation are found. */
  lemma ConcatParts(a: string, sep: string, b: string)
    ensures |a + sep + b| == |a| + |sep| + |b|
    ensures (a + sep + b)[..|a|] == a
    ensures (a + sep + b)[|a| + |sep|..] == b
  {
  }

  /** Where the two ends of a concatenation are found. */
  lemma ConcatEnds(a: string, b: string)
    ensures |a + b| == |a| + |b|
    ensures (a + b)[..|a|] == a
    ensures (a + b)[|a|..] == b
  {
  }

  /** Running the batch: the history statement reads the loans table as it was before. */
  lemma RunAnonymizationBatch(userId: string, tables: LoanTables)
    ensures Run(AnonymizationBatch(userId), tables)
      == LoanTables(AnonymizedLoans(tables.loans, userId), AnonymizedHistory(tables.loans, tables.history, userId))
  {
    var batch := AnonymizationBatch(userId);
    var afterHistory := Apply(batch[0], tables);
    assert Run(batch, tables) == Run(batch[1..], afterHistory);
    assert Run(batch[1..], afterHistory) == Run([], Apply(batch[1], afterHistory));
  }

  /** Running the batch in the opposite order. */
  lemma RunLoansFirstBatch(userId: string, tables: LoanTables)
    ensures var loans := AnonymizedLoans(tables.loans, userId);
      Run(LoansFirstBatch(userId), tables) == LoanTables(loans, AnonymizedHistory(loans, tables.history, userId))
  {
    var batch := LoansFirstBatch(userId);
    var afterLoans := Apply(batch[0], tables);
    assert Run(batch, tables) == Run(batch[1..], afterLoans);
    assert Run(batch[1..], afterLoans) == Run([], Apply(batch[1], afterLoans));
  }

  /** Once the loan statement ran, no loan is a closed loan of the user any more. */
  lemma NoClosedLoanLeft(loans: map<string, Loan>, userId: string)
    ensures forall k :: k in AnonymizedLoans(loans, userId) ==> !ClosedLoanOf(AnonymizedLoans(loans, userId)[k], userId)
    ensures ClosedLoanIds(AnonymizedLoans(loans, userId), userId) == {}
  {
  }

  /** The history statement changes nothing when the sub-select is empty. */
  lemma HistoryUnchangedWithoutClosedLoans(loans: map<string, Loan>, history: seq<HistoryEntry>, userId: string)
    requires ClosedLoanIds(loans, userId) == {}
    ensures AnonymizedHistory(loans, history, userId) == history
  {
  }

  /**
   * Anonymization acts only on the user's closed loans and their history: an open loan, a
   * loan of another user and every history entry outside the sub-select are left exactly as
   * they were, and a changed record differs only by its missing `userId`.
   */
  lemma AnonymizationScope(userId: string, tables: LoanTables)
    ensures var after := Run(AnonymizationBatch(userId), tables);
      && after.loans.Keys == tables.loans.Keys
      && (forall k :: k in tables.loans && !ClosedLoanOf(tables.loans[k], userId) ==> after.loans[k] == tables.loans[k])
      && (forall k :: k in tables.loans && IsOpen(tables.loans[k]) ==> after.loans[k] == tables.loans[k])
      && (forall k :: k in tables.loans ==> after.loans[k] == tables.loans[k] || after.loans[k] == WithoutUser(tables.loans[k]))
      && |after.history| == |tables.history|
      && (forall i :: 0 <= i < |tables.history| && !EntryOfClosedLoan(tables.history[i], tables.loans, userId)
            ==> after.history[i] == tables.history[i])
      && (forall i :: 0 <= i < |tables.history| ==>
            after.history[i] == tables.history[i] || after.history[i] == EntryWithoutUser(tables.history[i]))
  {
    RunAnonymizationBatch(userId, tables);
  }

  /**
   * Anonymization removes the user from every closed loan of theirs and from every history
   * entry of such a loan; afterwards the user holds no closed loan.
   */
  lemma AnonymizationClearsUser(userId: string, tables: LoanTables)
    ensures var after := Run(AnonymizationBatch(userId), tables);
      && after.loans.Keys == tables.loans.Keys
      && |after.history| == |tables.history|
      && (forall k :: k in tables.loans && ClosedLoanOf(tables.loans[k], userId) ==> after.loans[k].userId.None?)
      && (forall i :: 0 <= i < |tables.history| && EntryOfClosedLoan(tables.history[i], tables.loans, userId)
            ==> after.history[i].snapshot.userId.None?)
      && ClosedLoanIds(after.loans, userId) == {}
  {
    RunAnonymizationBatch(userId, tables);
    NoClosedLoanLeft(tables.loans, userId);
  }

  /**
   * Why the history statement must come first: run after the loan statement, it finds no
   * closed loan of the user and leaves the history untouched.
   */
  lemma LoansFirstLeavesHistory(userId: string, tables: LoanTables)
    ensures Run(LoansFirstBatch(userId), tables).history == tables.history
  {
    RunLoansFirstBatch(userId, tables);
    NoClosedLoanLeft(tables.loans, userId);
    HistoryUnchangedWithoutClosedLoans(AnonymizedLoans(tables.loans, userId), tables.history, userId);
  }

  /** Whenever some history entry is to be anonymized, the two orders give different histories. */
  lemma OrderMatters(userId: string, tables: LoanTables, i: int)
    requires 0 <= i < |tables.history| && EntryOfClosedLoan(tables.history[i], tables.loans, userId)
    ensures Run(AnonymizationBatch(userId), tables).history != Run(LoansFirstBatch(userId), tables).history
  {
    RunAnonymizationBatch(userId, tables);
    LoansFirstLeavesHistory(userId, tables);
    assert Run(AnonymizationBatch(userId), tables).history[i].snapshot.userId.None?;
  }

  /** Anonymizing twice is anonymizing once: the second request changes nothing. */
  lemma AnonymizationIsIdempotent(userId: string, tables: LoanTables)
    ensures var once := Run(AnonymizationBatch(userId), tables);
      Run(AnonymizationBatch(userId), once) == once
  {
    var once := Run(AnonymizationBatch(userId), tables);
    RunAnonymizationBatch(userId, tables);
    RunAnonymizationBatch(userId, once);
    NoClosedLoanLeft(tables.loans, userId);
    HistoryUnchangedWithoutClosedLoans(once.loans, once.history, userId);
    assert AnonymizedLoans(once.loans, userId) == once.loans;
  }

  /** A user without closed loans: the batch changes nothing (and the request still succeeds). */
  lemma NothingToAnonymize(userId: string, tables: LoanTables)
    requires forall k :: k in tables.loans ==> !ClosedLoanOf(tables.loans[k], userId)
    ensures Run(AnonymizationBatch(userId), tables) == tables
  {
    RunAnonymizationBatch(userId, tables);
    assert ClosedLoanIds(tables.loans, userId) == {};
    HistoryUnchangedWithoutClosedLoans(tables.loans, tables.history, userId);
    assert AnonymizedLoans(tables.loans, userId) == tables.loans;
  }

  /**
   * A history entry recorded under another holder, or under none, is left as it is, even when
   * its loan is one of the user's closed loans.
   */
  lemma OtherHoldersHistoryKept(userId: string, tables: LoanTables, i: int)
    requires 0 <= i < |tables.history| && tables.history[i].snapshot.userId != Some(userId)
    ensures var after := Run(AnonymizationBatch(userId), tables);
      |after.history| == |tables.history| && after.history[i] == tables.history[i]
  {
    RunAnonymizationBatch(userId, tables);
  }

  /** Anonymization keeps every stored open loan with its holder. */
  lemma AnonymizationKeepsOpenLoansWithUsers(userId: string, tables: LoanTables)
    requires OpenLoansHaveUsers(tables.loans)
    ensures OpenLoansHaveUsers(Run(AnonymizationBatch(userId), tables).loans)
  {
    RunAnonymizationBatch(userId, tables);
  }
}
