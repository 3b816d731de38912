/**
 * The record store the handlers call: a table of JSON documents keyed by row key. Every
 * operation completes once, with success or with a failure that carries its cause. Which of
 * the two happens is the store's decision and is an input here (`fault`).
 */
module Storage {
  import opened Wrappers

  /**
   * The cause of a failed store call. A `DatabaseError` is the driver's database exception
   * and carries the server's own error message; `message` is what `getMessage()` returns
   * and `rendered` what `toString()` returns.
   */
  datatype Cause =
    | DatabaseError(serverMessage: string, message: string, rendered: string)
    | OtherFailure(message: string, rendered: string)

  /** A page of results with the total count the store reports. */
  datatype Page<R> = Page(records: seq<R>, totalRecords: int)

  /**
   * A filter on one JSON field of the stored document. Only `'id' = value` is built by the
   * handlers; a criterion on any other field or operator selects nothing in this model.
   */
  datatype Criterion = Criterion(field: string, operation: string, value: string)
  {
    predicate Matches(recordId: Option<string>)
    {
      field == "'id'" && operation == "=" && recordId == Some(value)
    }
  }

  /** The criterion that selects documents by their `id` field. */
  function IdCriterion(id: string): (c: Criterion)
    ensures forall recordId :: c.Matches(recordId) <==> recordId == Some(id)
  {
    Criterion("'id'", "=", id)
  }

  /** The rows a criterion selects, under their row keys. */
  function Matching<R>(rows: map<string, R>, idOf: R -> Option<string>, c: Criterion): map<string, R>
  {
    map k | k in rows && c.Matches(idOf(rows[k])) :: rows[k]
  }

  /** The table after every selected row's document was replaced by `rec`. */
  function Updated<R>(rows: map<string, R>, idOf: R -> Option<string>, c: Criterion, rec: R): map<string, R>
  {
    map k | k in rows :: if c.Matches(idOf(rows[k])) then rec else rows[k]
  }

  /** The table after every selected row was deleted. */
  function Removed<R>(rows: map<string, R>, idOf: R -> Option<string>, c: Criterion): map<string, R>
  {
    map k | k in rows && !c.Matches(idOf(rows[k])) :: rows[k]
  }

  /** The row key a save uses: the given id, or the one the database generates when it is null. */
  function SaveKey(id: Option<string>, generated: string): string
  {
    if id.Some? then id.value else generated
  }

  /**
   * Upsert-on-missing as the replace handlers perform it: when the lookup selects exactly one
   * row, that row is updated; otherwise (none, or several) `rec` is saved under `key`.
   */
  function Upserted<R>(rows: map<string, R>, idOf: R -> Option<string>, c: Criterion, rec: R, key: string): (after: map<string, R>)
    ensures |Matching(rows, idOf, c)| == 1 ==> after.Keys == rows.Keys
    ensures |Matching(rows, idOf, c)| != 1 ==> after.Keys == rows.Keys + {key} && after[key] == rec
  {
    if |Matching(rows, idOf, c)| == 1 then Updated(rows, idOf, c, rec) else rows[key := rec]
  }

  /**
   * What a replace leaves in the rows it did not write: when exactly one row matched, that row
   * holds `rec`; every unselected row under another key than `key` keeps its document.
   */
  lemma UpsertKeepsOtherRows<R>(rows: map<string, R>, idOf: R -> Option<string>, c: Criterion, rec: R, key: string)
    ensures var after := Upserted(rows, idOf, c, rec, key);
      && (|Matching(rows, idOf, c)| == 1 ==> forall k :: k in rows && c.Matches(idOf(rows[k])) ==> after[k] == rec)
      && (forall k :: k in rows && k != key && !c.Matches(idOf(rows[k])) ==> after[k] == rows[k])
  {
  }

  /** A map with exactly one entry is that entry. */
  lemma SingletonMap<R>(m: map<string, R>) returns (k: string)
    requires |m| == 1
    ensures k in m && m == map[k := m[k]]
  {
    assert |m.Keys| == 1;
    k :| k in m.Keys;
    assert |m.Keys - {k}| == 0;
    assert m.Keys == {k};
  }

  /** A criterion that selects no row selects nothing under any key. */
  lemma NoneMatch<R>(rows: map<string, R>, idOf: R -> Option<string>, c: Criterion)
    requires |Matching(rows, idOf, c)| == 0
    ensures forall k :: k in rows ==> !c.Matches(idOf(rows[k]))
  {
    assert |Matching(rows, idOf, c).Keys| == 0;
    forall k | k in rows ensures !c.Matches(idOf(rows[k])) {
      assert k !in Matching(rows, idOf, c).Keys;
    }
  }

  /**
   * Saving a record whose id no stored document has, then looking that id up, finds exactly
   * the saved record under the key it was saved with.
   */
  lemma SaveThenGet<R>(rows: map<string, R>, idOf: R -> Option<string>, id: string, rec: R, key: string)
    requires |Matching(rows, idOf, IdCriterion(id))| == 0
    requires idOf(rec) == Some(id)
    ensures Matching(rows[key := rec], idOf, IdCriterion(id)) == map[key := rec]
  {
    NoneMatch(rows, idOf, IdCriterion(id));
    assert Matching(rows[key := rec], idOf, IdCriterion(id)).Keys == {key};
  }

  /**
   * Replacing a missing record and then looking it up finds exactly that record, under the
   * key it was saved with.
   */
  lemma {:induction false} ReplaceMissingThenGet<R>(rows: map<string, R>, idOf: R -> Option<string>, id: string, rec: R, key: string)
    requires |Matching(rows, idOf, IdCriterion(id))| == 0
    requires idOf(rec) == Some(id)
    ensures Matching(Upserted(rows, idOf, IdCriterion(id), rec, key), idOf, IdCriterion(id)) == map[key := rec]
  {
    assert Upserted(rows, idOf, IdCriterion(id), rec, key) == rows[key := rec];
    SaveThenGet(rows, idOf, id, rec, key);
  }

  /**
   * Replacing a record that is found once or not at all, with a record that carries the path
   * id, makes a later lookup find that record alone.
   */
  lemma {:induction false} ReplaceThenGet<R>(rows: map<string, R>, idOf: R -> Option<string>, id: string, rec: R, key: string)
    requires |Matching(rows, idOf, IdCriterion(id))| <= 1
    requires idOf(rec) == Some(id)
    ensures var found := Matching(Upserted(rows, idOf, IdCriterion(id), rec, key), idOf, IdCriterion(id));
      |found| == 1 && found.Values == {rec}
  {
    var c := IdCriterion(id);
    var before := Matching(rows, idOf, c);
    if |before| == 0 {
      ReplaceMissingThenGet(rows, idOf, id, rec, key);
      assert map[key := rec].Values == {rec};
    } else {
      var k := SingletonMap(before);
      var after := Updated(rows, idOf, c, rec);
      assert Upserted(rows, idOf, c, rec, key) == after;
      assert before.Keys == {k};
      assert Matching(after, idOf, c).Keys == before.Keys;
      assert Matching(after, idOf, c) == map[k := rec];
      assert map[k := rec].Values == {rec};
    }
  }

  /**
   * A replace whose record carries another id than the path id does not make the path id
   * resolvable: when nothing had the path id before, a lookup by it still finds nothing.
   */
  lemma {:induction false} ReplaceUnderOtherIdStaysMissing<R>(rows: map<string, R>, idOf: R -> Option<string>,
                                                          pathId: string, rec: R, key: string)
    requires |Matching(rows, idOf, IdCriterion(pathId))| == 0
    requires idOf(rec) != Some(pathId)
    ensures Matching(Upserted(rows, idOf, IdCriterion(pathId), rec, key), idOf, IdCriterion(pathId)) == map[]
  {
    var c := IdCriterion(pathId);
    assert Upserted(rows, idOf, c, rec, key) == rows[key := rec];
    NoneMatch(rows, idOf, c);
    assert Matching(rows[key := rec], idOf, c).Keys == {};
  }

  /** After a delete by criterion, a lookup by the same criterion finds nothing, and every other row is kept. */
  lemma DeleteThenGet<R>(rows: map<string, R>, idOf: R -> Option<string>, c: Criterion)
    ensures Matching(Removed(rows, idOf, c), idOf, c) == map[]
    ensures forall k :: k in rows && !c.Matches(idOf(rows[k])) ==> k in Removed(rows, idOf, c) && Removed(rows, idOf, c)[k] == rows[k]
  {
    assert Matching(Removed(rows, idOf, c), idOf, c).Keys == {};
  }

  /**
   * A retried replace whose record carries the path id, saved under that id, leaves the
   * table as one replace left it: whichever branch the first call took.
   */
  lemma {:induction false} UpsertIsIdempotent<R>(rows: map<string, R>, idOf: R -> Option<string>, id: string, rec: R)
    requires idOf(rec) == Some(id)
    ensures var c := IdCriterion(id);
      Upserted(Upserted(rows, idOf, c, rec, id), idOf, c, rec, id) == Upserted(rows, idOf, c, rec, id)
  {
    var c := IdCriterion(id);
    var before := Matching(rows, idOf, c);
    var once := Upserted(rows, idOf, c, rec, id);
    if |before| == 1 {
      assert Matching(once, idOf, c).Keys == before.Keys;
      assert |Matching(once, idOf, c)| == |before|;
      assert Updated(once, idOf, c, rec) == once;
    } else if |before| == 0 {
      ReplaceMissingThenGet(rows, idOf, id, rec, id);
      assert Updated(once, idOf, c, rec) == once;
    } else {
      assert once == rows[id := rec];
      var after := Matching(once, idOf, c);
      assert before.Keys <= after.Keys;
      assert |before.Keys| <= |after.Keys| by {
        SubsetCardinality(before.Keys, after.Keys);
      }
      assert once[id := rec] == once;
    }
  }

  lemma SubsetCardinality(a: set<string>, b: set<string>)
    requires a <= b
    ensures |a| <= |b|
  {
    assert b == a + (b - a);
  }

  /** The table of one resource. */
  class Table<R> {
    /** The document's own `id` field, which id criteria compare against. */
    const recordId: R -> Option<string>
    /** The stored documents under their row keys. */
    var rows: map<string, R>

    constructor (recordId: R -> Option<string>)
      ensures forall rec :: this.recordId(rec) == recordId(rec)
      ensures rows == map[]
    {
      this.recordId := recordId;
      rows := map[];
    }

    /** Get by criterion: zero, one or several documents. */
    method Get(c: Criterion, fault: Option<Cause>) returns (r: Result<map<string, R>, Cause>)
      ensures fault.Some? ==> r == Failure(fault.value)
      ensures fault.None? ==> r.Success? && r.value.Keys <= rows.Keys
      ensures fault.None? ==> forall k :: k in rows ==> (k in r.value <==> c.Matches(recordId(rows[k])))
      ensures fault.None? ==> forall k :: k in r.value ==> r.value[k] == rows[k]
    {
      if fault.Some? {
        return Failure(fault.value);
      }
      r := Success(Matching(rows, recordId, c));
    }

    /** Insert `rec` under `id`, or under a generated key when `id` is null; yields the key. */
    method Save(id: Option<string>, rec: R, fault: Option<Cause>, generated: string) returns (r: Result<string, Cause>)
      modifies this
      ensures fault.Some? ==> r == Failure(fault.value) && rows == old(rows)
      ensures fault.None? ==> r == Success(SaveKey(id, generated)) && rows == old(rows)[SaveKey(id, generated) := rec]
    {
      if fault.Some? {
        return Failure(fault.value);
      }
      var key := SaveKey(id, generated);
      rows := rows[key := rec];
      r := Success(key);
    }

    /** Replace the document of every selected row by `rec`. */
    method Update(c: Criterion, rec: R, fault: Option<Cause>) returns (r: Outcome<Cause>)
      modifies this
      ensures fault.Some? ==> r == Fail(fault.value) && rows == old(rows)
      ensures fault.None? ==> r == Pass && rows == Updated(old(rows), recordId, c, rec)
    {
      if fault.Some? {
        return Fail(fault.value);
      }
      rows := Updated(rows, recordId, c, rec);
      r := Pass;
    }

    /** Delete every selected row. */
    method Delete(c: Criterion, fault: Option<Cause>) returns (r: Outcome<Cause>)
      modifies this
      ensures fault.Some? ==> r == Fail(fault.value) && rows == old(rows)
      ensures fault.None? ==> r == Pass && rows == Removed(old(rows), recordId, c)
    {
      if fault.Some? {
        return Fail(fault.value);
      }
      rows := Removed(rows, recordId, c);
      r := Pass;
    }

    /** Delete every row: a delete with no filter, or a TRUNCATE. */
    method DeleteAll(fault: Option<Cause>) returns (r: Outcome<Cause>)
      modifies this
      ensures fault.Some? ==> r == Fail(fault.value) && rows == old(rows)
      ensures fault.None? ==> r == Pass && rows == map[]
    {
      if fault.Some? {
        return Fail(fault.value);
      }
      rows := map[];
      r := Pass;
    }
  }
}
