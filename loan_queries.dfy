/**
 * The query text the loan history listing sends to the store. Turning a CQL expression into
 * SQL, and rendering limit and offset, is done by a translator whose code is not part of this
 * model: it is a parameter here.
 */
module LoanQueries {
  import opened Wrappers
  import opened Text

  /** The heuristic marker of an explicit ordering directive inside a CQL query. */
  const SortByDirective := " sortBy "
  /** The implicit order of the history listing: newest entry first. */
  const DefaultHistoryOrder := " order by created_date desc "

  /**
   * The CQL translation services the handler uses: `toSql(q)` is the wrapper's text for `q`
   * with no limit and offset, `toPagedSql(q, limit, offset)` its text once both are set,
   * `limitSql` and `offsetSql` the text of a limit and an offset clause.
   */
  datatype Translator = Translator(
    toSql: Option<string> -> string,
    toPagedSql: (Option<string>, int, int) -> string,
    limitSql: int -> string,
    offsetSql: int -> string)

  /** True iff the query asks for its own order: it holds " sortBy " somewhere. */
  ghost predicate HasSortBy(q: string)
  {
    exists i :: OccursAt(q, SortByDirective, i)
  }

  /**
   * The adjusted query of the history listing. A non-null query without a sortBy directive
   * gets the implicit newest-first order, placed after the translated query and before the
   * limit, which precedes the offset; a null query, or one that carries the directive, is
   * handed to the translator with only the limit and offset.
   */
  function HistoryQuery(t: Translator, query: Option<string>, limit: int, offset: int): (r: string)
    ensures query.None? || HasSortBy(query.value) ==> r == t.toPagedSql(query, limit, offset)
    ensures query.Some? && !HasSortBy(query.value) ==>
      var w := t.toSql(query);
      var n := |w| + |DefaultHistoryOrder|;
      && |r| == n + |t.limitSql(limit)| + 1 + |t.offsetSql(offset)|
      && r[..|w|] == w
      && r[|w|..n] == DefaultHistoryOrder
      && r[n..n + |t.limitSql(limit)|] == t.limitSql(limit)
      && r[n + |t.limitSql(limit)|] == ' '
      && r[n + |t.limitSql(limit)| + 1..] == t.offsetSql(offset)
  {
    if query.Some? && !ContainsSubstring(query.value, SortByDirective) then
      var w := t.toSql(query);
      var l := t.limitSql(limit);
      var o := t.offsetSql(offset);
      var r := w + DefaultHistoryOrder + l + " " + o;
      var n := |w| + |DefaultHistoryOrder|;
      assert r[|w|..n] == DefaultHistoryOrder;
      assert r[n..n + |l|] == l;
      r
    else
      t.toPagedSql(query, limit, offset)
  }

  /**
   * The directive is recognised only with a space on both sides: a word "sortBy" at the very
   * start of a query is not one, so such a query carries the directive iff the rest of it does.
   */
  lemma {:induction false} LeadingSortBy(rest: string)
    ensures HasSortBy("sortBy" + rest) <==> HasSortBy(rest)
  {
    var s := "sortBy" + rest;
    forall i | OccursAt(s, SortByDirective, i) ensures OccursAt(rest, SortByDirective, i - 6) {
      // Positions 0 to 5 hold the letters of "sortBy", never the directive's leading space.
      assert s[i] == SortByDirective[0];
      assert i >= 6;
      assert s[i..i + |SortByDirective|] == rest[i - 6..i - 6 + |SortByDirective|];
    }
    forall j | OccursAt(rest, SortByDirective, j) ensures OccursAt(s, SortByDirective, j + 6) {
      assert s[j + 6..j + 6 + |SortByDirective|] == rest[j..j + |SortByDirective|];
    }
  }

  /**
   * A query that begins with "sortBy" gets the implicit order exactly when the rest of it has
   * no " sortBy " of its own.
   */
  lemma LeadingSortByIsNotRecognised(t: Translator, rest: string, limit: int, offset: int)
    ensures var q := Some("sortBy" + rest);
      HistoryQuery(t, q, limit, offset)
        == if HasSortBy(rest) then t.toPagedSql(q, limit, offset)
           else t.toSql(q) + DefaultHistoryOrder + t.limitSql(limit) + " " + t.offsetSql(offset)
  {
    LeadingSortBy(rest);
  }
}
