# Loan storage and request policy storage, modelled in Dafny

This project models the request handlers of two storage resources of a circulation
storage module:

- the loan resource: create, fetch, replace and delete loans, delete all loans, list the
  loan history, and anonymize a user's closed loans;
- the request policy resource: create, fetch, replace and delete request policies, and
  delete them all.

Each handler is a sequential method that completes with exactly one `Http.Response`. Each
`Http.Response` is reduced to its status code (200, 201 with location, 204, 400, 404, 422,
500) and its payload.

The database is an abstract record store, `Storage.Table<R>`:

- a class holding a map from row key to JSON document;
- `get`, `save`, `update`, `delete` and `truncate` each complete once, with success or with
  a failure that carries a `Storage.Cause`;
- whether a call fails is the database's decision, so it is an input (`fault`). On success
  the call's effect on the table is applied.

Id lookups compare against the document's own `id` property, not against the row key, so a
lookup can find zero, one or several rows. The replace handlers branch on exactly those
three cases. Every handler that looks up or deletes by id requires its table to be keyed that way
(`LoanStorage.LoanStore.KeyedByLoanId`, `RequestPoliciesApi.KeyedByPolicyId`).

The loan store (`LoanStorage.LoanStore`) has two tables:

- the loan table;
- the loan history table (`audit_loan`). Its rows are snapshots of loans, written by a
  database mechanism outside this model.

Anonymization is modelled at two levels:

- on values: the two SQL statements are a datatype (`Anonymization.Statement`). The effect
  of each on both tables is a function (`Anonymization.Apply`), and a batch runs them in
  order (`Anonymization.Run`);
- as text: the handler builds the combined SQL with `Anonymization.CreateAnonymizationSql`
  and sends it to `LoanStorage.LoanStore.Execute`. `Execute` requires that text to be the
  rendering (`Anonymization.RenderBatch`) of the batch whose effects it applies, so the
  order of the statements in the text is the order in which their effects happen. It also
  requires every user id of the batch to hold no quote: the user id is spliced between single
  quotes, and one holding a quote would change what the text selects. The handler meets this
  by requiring the UUID validator to accept only hexadecimal digits and hyphens
  (`Anonymization.UuidTextStaysQuoted`).

Services whose code is not part of this model are parameters:

- the date-time parser;
- the UUID validator;
- the CQL-to-SQL translator;
- random id minting;
- the row key the database generates.

Specification functions, such as `LoansApi.DateValidationMessage`, `Storage.Upserted`,
`Anonymization.AnonymizedLoans` and `LoanQueries.HistoryQuery`, state what the handlers
compute. The methods are proved against them, and lemmas state the promised properties
about them.

## Model

| member | source | states |
|---|---|---|
| Text.JoinWith | src/main/java/org/folio/rest/impl/LoansAPI.java:580-602 | `StringJoiner`: no parts give the empty text; otherwise the first part comes first, the last part last, and a separator follows the first of two or more; two parts give exactly the first, the separator and the second |
| Text.JoinWithAdd | src/main/java/org/folio/rest/impl/LoansAPI.java:580-598 | `StringJoiner.add`: adding a part to an empty joiner gives just that part; adding it to a non-empty one appends the separator and the part |
| Http.PlainError | src/main/java/org/folio/rest/impl/LoansAPI.java:709-723 | `respondWithError`: one error carrying the message and no parameters, never the payload of the validation helper |
| Text.ContainsSubstring | src/main/java/org/folio/rest/impl/LoansAPI.java:698-702 | `String.contains`: true iff the needle occurs at some position of the haystack |
| Storage.IdCriterion | src/main/java/org/folio/rest/impl/RequestPoliciesAPI.java:347-354 | the `'id' = value` criterion selects exactly the documents whose `id` is that value |
| Storage.Table.Get | src/main/java/org/folio/rest/impl/LoansAPI.java:322-327 | a failed get yields its cause; a successful one yields exactly the stored rows the criterion selects, unchanged |
| Storage.Table.Save | src/main/java/org/folio/rest/impl/LoansAPI.java:208-216 | a successful save stores the record under the given id (or a generated key when it is null) and yields that key; a failed one changes nothing |
| Storage.Table.Update | src/main/java/org/folio/rest/impl/LoansAPI.java:481-489 | a successful update replaces the document of every selected row; a failed one changes nothing |
| Storage.Table.Delete | src/main/java/org/folio/rest/impl/LoansAPI.java:397-403 | a successful delete removes every selected row and keeps the rest; a failed one changes nothing |
| Storage.Table.DeleteAll | src/main/java/org/folio/rest/impl/LoansAPI.java:79-82 | a successful truncate empties the table; a failed one changes nothing |
| Storage.SaveThenGet | src/main/java/org/folio/rest/impl/LoansAPI.java:204-208 | saving a record under an id no document has, then looking that id up, finds exactly that record |
| Storage.ReplaceMissingThenGet | src/main/java/org/folio/rest/impl/LoansAPI.java:519-528 | a replace that finds nothing saves the record, and a later lookup by its id finds exactly it |
| Storage.ReplaceThenGet | src/main/java/org/folio/rest/impl/LoansAPI.java:473-528 | after a replace whose lookup found at most one row, with a record carrying the path id, a lookup by the path id finds that record alone |
| Storage.ReplaceUnderOtherIdStaysMissing | src/main/java/org/folio/rest/impl/LoansAPI.java:521 | replace saves under the body's id: when the body id differs from a path id nothing has, the path id still finds nothing afterwards |
| Storage.Upserted | src/main/java/org/folio/rest/impl/LoansAPI.java:479-557 | a replace whose lookup finds exactly one row keeps the keys of the table; otherwise it saves the record under the save key, adding at most that key |
| Storage.UpsertKeepsOtherRows | src/main/java/org/folio/rest/impl/LoansAPI.java:479-557 | a replace writes the record into the one matched row, and every unselected row under another key keeps its document |
| Storage.UpsertIsIdempotent | src/main/java/org/folio/rest/impl/LoansAPI.java:473-557 | repeating a replace whose record carries the path id, saved under that id, leaves the table as the first replace left it, whichever branch it took |
| Storage.DeleteThenGet | src/main/java/org/folio/rest/impl/RequestPoliciesAPI.java:316-326 | after a delete by id a lookup by the same id finds nothing, and every other row is kept |
| LoanStorage.LoanStore.Execute | src/main/java/org/folio/rest/impl/LoansAPI.java:289-293 | the SQL text, which must render the batch and hold every user id inside its quotes, either takes effect statement by statement, in order, or fails and changes neither table |
| Anonymization.AnonymizedLoans | src/main/java/org/folio/rest/impl/LoansAPI.java:729-733 | the loan statement keeps every row and changes exactly the user's closed loans, which lose `userId` and nothing else |
| Anonymization.AnonymizedHistory | src/main/java/org/folio/rest/impl/LoansAPI.java:737-744 | the history statement keeps every entry and changes exactly the entries of the user whose `id` is one of the user's closed loans, which lose `userId` and nothing else |
| Anonymization.Apply | src/main/java/org/folio/rest/impl/LoansAPI.java:729-744 | each statement changes its own table, by its effect function, and leaves the other table as it is |
| Anonymization.AnonymizationBatch | src/main/java/org/folio/rest/impl/LoansAPI.java:746-747 | the batch holds two statements for the one user: the history statement first, the loan statement last |
| Anonymization.Run | src/main/java/org/folio/rest/impl/LoansAPI.java:284-293 | running a batch adds and removes no row of either table, and every row either stays or loses only its `userId` |
| Anonymization.RunConcatenation | src/main/java/org/folio/rest/impl/LoansAPI.java:747 | running two batches one after the other is running their concatenation |
| Anonymization.UuidTextStaysQuoted | src/main/java/org/folio/rest/impl/LoansAPI.java:269-293 | a user id in a UUID's alphabet holds neither a quote, which would end the quoted literal it is spliced into, nor a `%`, which `String.format` would read as a directive |
| Anonymization.Render | src/main/java/org/folio/rest/impl/LoansAPI.java:729-744 | each statement text is an UPDATE of the table its effect changes, dropping `userId` from the rows of its user; the loan statement ends with the Closed status filter, the history statement holds the sub-select over the user's closed loans |
| Anonymization.CreateAnonymizationSql | src/main/java/org/folio/rest/impl/LoansAPI.java:725-748 | the combined SQL is the rendering of the history-then-loans batch: it starts with the history statement and ends with the loan statement |
| Anonymization.RenderTwoStatements | src/main/java/org/folio/rest/impl/LoansAPI.java:747 | a two-statement batch is sent as the first statement, "; ", then the second |
| Anonymization.RunAnonymizationBatch | src/main/java/org/folio/rest/impl/LoansAPI.java:735-747 | in the batch as sent, the history statement's sub-select reads the loan table before the loan statement changes it |
| Anonymization.RunLoansFirstBatch | src/main/java/org/folio/rest/impl/LoansAPI.java:746-747 | in the opposite order, the history statement would read the already anonymized loan table |
| Anonymization.NoClosedLoanLeft | src/main/java/org/folio/rest/impl/LoansAPI.java:729-733 | after the loan statement the user holds no closed loan, and the sub-select is empty |
| Anonymization.HistoryUnchangedWithoutClosedLoans | src/main/java/org/folio/rest/impl/LoansAPI.java:737-744 | the history statement changes nothing when the user has no closed loan |
| Anonymization.AnonymizationScope | src/main/java/org/folio/rest/impl/LoansAPI.java:729-744 | open loans, other users' loans and history entries outside the sub-select are unchanged; a changed record loses only `userId` |
| Anonymization.AnonymizationClearsUser | src/main/java/org/folio/rest/impl/LoansAPI.java:729-744 | every closed loan of the user loses `userId`, and so does every history entry that names the user and whose id is one of the user's closed loans |
| Anonymization.OtherHoldersHistoryKept | src/main/java/org/folio/rest/impl/LoansAPI.java:737-744 | a history entry recorded under another holder, or under none, is left as it is, even when its loan is one of the user's closed loans |
| Anonymization.LoansFirstLeavesHistory | src/main/java/org/folio/rest/impl/LoansAPI.java:746-747 | run loans first, the batch would leave the whole history untouched: the reason the history statement goes first |
| Anonymization.OrderMatters | src/main/java/org/folio/rest/impl/LoansAPI.java:746-747 | whenever some history entry is to be anonymized, the two orders give different histories |
| Anonymization.AnonymizationIsIdempotent | src/main/java/org/folio/rest/impl/LoansAPI.java:729-747 | a second anonymization of the same user changes nothing |
| Anonymization.NothingToAnonymize | src/test/java/org/folio/rest/api/loans/LoansAnonymizationApiTest.java:42-51 | for a user without closed loans the batch changes neither table |
| Anonymization.AnonymizationKeepsOpenLoansWithUsers | src/main/java/org/folio/rest/impl/LoansAPI.java:729-733 | anonymization keeps every stored open loan with its holder |
| LoanQueries.HistoryQuery | src/main/java/org/folio/rest/impl/LoansAPI.java:623-647 | a non-null query without " sortBy " becomes the translated query, " order by created_date desc ", the limit, a space and the offset, in that order; a null query, or one containing " sortBy ", gets only the limit and offset, with no implicit order |
| LoanQueries.LeadingSortBy | src/main/java/org/folio/rest/impl/LoansAPI.java:624-629 | the directive needs a space on both sides: a query that begins with "sortBy" contains " sortBy " iff the rest of it does |
| LoanQueries.LeadingSortByIsNotRecognised | src/main/java/org/folio/rest/impl/LoansAPI.java:624-632 | a query that begins with "sortBy" gets the implicit order exactly when the rest of it has no " sortBy " of its own |
| LoansApi.WithDefaultStatus | src/main/java/org/folio/rest/impl/LoansAPI.java:172-174 | a missing status becomes Open; a present one is kept; nothing else changes |
| LoansApi.IsOpenAndHasNoUserId | src/main/java/org/folio/rest/impl/LoansAPI.java:704-707 | true iff the loan's status is Open and it has no `userId` |
| LoansApi.DateValidationMessage | src/main/java/org/folio/rest/impl/LoansAPI.java:577-603 | the message is empty iff both dates are valid; it starts with the loan date message when the loan date fails and ends with the return date message when a present return date fails |
| LoansApi.ValidateLoan | src/main/java/org/folio/rest/impl/LoansAPI.java:577-603 | valid iff the loan date parses and the return date is absent or parses; the message lists every failure, loan date first, newline-separated, and is empty iff valid |
| LoansApi.IsMultipleOpenLoanError | src/main/java/org/folio/rest/impl/LoansAPI.java:698-702 | a failure is the open-loan conflict iff it is a database error whose server message contains `loan_itemid_idx_unique` |
| LoansApi.IndexNameAnywhereIsConflict | src/main/java/org/folio/rest/impl/LoansAPI.java:698-702 | the index name at any position of a database error's message makes it the conflict |
| LoansApi.MoreThanOneOpenLoanError | src/main/java/org/folio/rest/impl/LoansAPI.java:692-696 | one error, "Cannot have more than one open loan for the same item", whose one parameter is `itemId` with the loan's item id |
| LoansApi.WriteFailure | src/main/java/org/folio/rest/impl/LoansAPI.java:219-229 | a failed write answers 422 with one error on `itemId` naming the item iff it is the conflict, and otherwise 500 with the cause's `toString()` |
| LoansApi.OtherFailuresAreServerErrors | src/main/java/org/folio/rest/impl/LoansAPI.java:698-700 | a failure that is not a database error is always a 500 |
| LoansApi.DeleteAllLoans | src/main/java/org/folio/rest/impl/LoansAPI.java:79-82 | always 204; the loan table is empty when the truncate succeeded |
| LoansApi.PostLoan | src/main/java/org/folio/rest/impl/LoansAPI.java:172-229 | status defaults to Open; an open loan without a holder is 422 before date validation (400); a valid loan gets a minted id only if it has none and is saved under it (201 with that location), or fails through the conflict classifier; every stored open loan keeps a holder |
| LoansApi.GetLoanById | src/main/java/org/folio/rest/impl/LoansAPI.java:312-347 | 200 with the matching loan, which carries the requested id, iff exactly one document has the id; otherwise 404 "Not Found"; a failed get is 500 with its message |
| LoansApi.DeleteLoanById | src/main/java/org/folio/rest/impl/LoansAPI.java:387-408 | 204 and the selected rows removed, or 500 with the message and nothing changed |
| LoansApi.PutLoan | src/main/java/org/folio/rest/impl/LoansAPI.java:435-561 | status defaults to Open; date validation (400) comes before the holder check (422); then update iff exactly one document has the path id, else save under the body's id; 204 on success, a failed write goes through the classifier, a failed lookup is 500; every stored open loan keeps a holder |
| LoansApi.GetLoanHistory | src/main/java/org/folio/rest/impl/LoansAPI.java:619-668 | the store runs the adjusted history query; its page is answered with 200, a failure with 500 and its message |
| LoansApi.AnonymizeLoansByUser | src/main/java/org/folio/rest/impl/LoansAPI.java:268-293 | a non-UUID user id is 422 on `userId` with both tables unchanged; otherwise, given a validator that accepts only text in a UUID's alphabet, the combined SQL of the history-then-loans batch is sent and takes effect (204) or changes nothing (500) |
| RequestPoliciesApi.PostRequestPolicy | src/main/java/org/folio/rest/impl/RequestPoliciesAPI.java:109-130 | a minted id only when the entity has none; 201 with the entity and location and the entity stored under its id, or 500 with the cause's `toString()` and nothing stored |
| RequestPoliciesApi.DeleteAllRequestPolicies | src/main/java/org/folio/rest/impl/RequestPoliciesAPI.java:166-171 | always 204; the table is empty when the delete succeeded |
| RequestPoliciesApi.GetRequestPolicyById | src/main/java/org/folio/rest/impl/RequestPoliciesAPI.java:189-218 | 200 with the matching policy, which carries the requested id, iff exactly one document has the id; otherwise 404 with a "Not Found" error on `name`; a failed get is 500 with its message |
| RequestPoliciesApi.PutRequestPolicy | src/main/java/org/folio/rest/impl/RequestPoliciesAPI.java:252-296 | update iff exactly one document has the path id, else save under the entity's id; 204 on success; every failed lookup or write is 500 with the cause's message, with no conflict mapping |
| RequestPoliciesApi.DeleteRequestPolicyById | src/main/java/org/folio/rest/impl/RequestPoliciesAPI.java:316-331 | 204 and the selected rows removed, or 500 with the message and nothing changed |

## Left out

- The Vert.x callback wiring (`runOnContext`, `Handler`, `AsyncResult`, `Future`): each handler is one sequential method returning its response.
- The `catch (Exception e)` fallbacks that answer 500 with the exception's message: the model has no exceptions besides the store failures it takes as inputs.
- PostgreSQL and its client library, connections, tenant resolution and the constructor's `setIdField`. The store is the abstract `Storage.Table`.
- Storage.Table.Save: database constraints (primary key, the `loan_itemid_idx_unique` partial unique index) are not modelled. They reach the model only as a save or update failure the caller supplies, and a successful save on an existing row key overwrites it.
- LoansApi.PostLoan: assumes a loan write adds no history snapshot. The history table is written by a database mechanism that is not part of this model, so the method leaves the history exactly as it was.
- LoansApi.PutLoan: assumes a loan write adds no history snapshot, for the same reason; the history is left exactly as it was.
- LoansApi.DeleteLoanById: assumes a loan delete adds no history snapshot, for the same reason; the history is left exactly as it was.
- LoansApi.DeleteAllLoans: assumes the truncate adds no history snapshot, for the same reason; the history is left exactly as it was.
- LoanStorage.LoanStore.Execute: assumes the loan statement of anonymization adds no history snapshot. The history after the batch is exactly the anonymized history, of the same length (`Anonymization.AnonymizationScope` relies on this).
- Concurrent writers and the database's enforcement of one open loan per item: there is no concurrency in the model.
- CQL parsing and translation, and the text of `Limit` and `Offset`: `LoanQueries.Translator` takes them as functions.
- LoansApi.GetLoanHistory: produces the query text only. The rows it selects and their newest-first order are the store's, an input here.
- The Joda date-time parser and the UUID validator: both are predicates passed in (`isDateTime`, `isUuid`). Of the validator the model demands only that it accepts nothing outside a UUID's alphabet (hexadecimal digits and hyphens, section 3 of RFC 4122), which keeps the spliced user id inside its quotes.
- Random UUID minting: the fresh id is a parameter.
- The list endpoints `getLoanStorageLoans` and `getRequestPolicyStorageRequestPolicies`: plain pass-through of the translator's query to the store.
- Anonymization.Render: `String.format` is applied to the SQL after the user id has been concatenated in. A user id containing `%` would be reinterpreted as a format directive. The model splices the user id literally, which is the same for every id the UUID check lets through: such an id holds no `%` (`Anonymization.UuidTextStaysQuoted`).
- LoansApi.AnonymizeLoansByUser: the failure responder is taken to answer 500 with the cause's message. Its code is not part of this model.
- LoansApi.MoreThanOneOpenLoanError: a loan's `itemId` is modelled as a string and never null. The case of a conflict reported for a loan without an item is not represented.
- Logging and the JSON and HTTP response classes, beyond status code and payload.

Behaviours of the code that a reader might not expect, which the model keeps:

- A null history query gets only limit and offset, with no implicit newest-first order (`LoanQueries.HistoryQuery`).
- Both replace handlers save a record that was not found exactly once under the body's own id, not the path id (`Storage.ReplaceUnderOtherIdStaysMissing`).
- The date messages mention RFC 3339, but the check is whatever the ISO 8601 parser accepts; the predicate is a parameter.
- Anonymization clears a history entry only when the entry itself names the user. An entry of one of the user's closed loans that was recorded under another holder, or under none, is left as it is (`Anonymization.OtherHoldersHistoryKept`).
