/** `userOps.updateProgress`: the UPDATE statement that saves a user's
    onboarding progress. Each field present in the request adds one
    `column = ?` assignment and one bound value, in a fixed column order;
    `updated_at` is always set, and the user's id is bound last. */
module UserProgress {
  import opened Wrappers
  import opened Text

  /** A value bound to a placeholder. */
  datatype SqlValue = TextValue(text: string) | IntValue(n: int) | NullValue

  /** The request body: each field is absent (`undefined`) or present. */
  datatype ProgressUpdate = ProgressUpdate(
    aboutMe: Option<SqlValue>,
    streetAddress: Option<SqlValue>,
    city: Option<SqlValue>,
    state: Option<SqlValue>,
    zip: Option<SqlValue>,
    birthdate: Option<SqlValue>,
    currentStep: Option<SqlValue>,
    completed: Option<bool>)

  /** The columns the statement may assign, in the order they are tested. */
  const Columns: seq<string> :=
    ["about_me", "street_address", "city", "state", "zip", "birthdate", "current_step", "completed"]

  const ColumnCount := 8

  const UpdatedAt := "updated_at = CURRENT_TIMESTAMP"

  function Assignment(column: string): string {
    column + " = ?"
  }

  /** The value bound for column `k`, when the request has that field;
      `completed` is stored as 1 or 0. */
  function FieldValue(d: ProgressUpdate, k: nat): Option<SqlValue>
    requires k < ColumnCount
  {
    if k == 0 then d.aboutMe
    else if k == 1 then d.streetAddress
    else if k == 2 then d.city
    else if k == 3 then d.state
    else if k == 4 then d.zip
    else if k == 5 then d.birthdate
    else if k == 6 then d.currentStep
    else if d.completed.None? then None
    else Some(IntValue(if d.completed.value then 1 else 0))
  }

  /** The indices, below `k`, of the columns the request supplies. */
  function Supplied(d: ProgressUpdate, k: nat): seq<nat>
    requires k <= ColumnCount
  {
    if k == 0 then []
    else Supplied(d, k - 1) + (if FieldValue(d, k - 1).Some? then [k - 1] else [])
  }

  /** The assignments for the supplied columns below `k`. */
  function Clauses(d: ProgressUpdate, k: nat): seq<string>
    requires k <= ColumnCount
  {
    if k == 0 then []
    else Clauses(d, k - 1) + (if FieldValue(d, k - 1).Some? then [Assignment(Columns[k - 1])] else [])
  }

  /** The values for the supplied columns below `k`. */
  function Values(d: ProgressUpdate, k: nat): seq<SqlValue>
    requires k <= ColumnCount
  {
    if k == 0 then []
    else Values(d, k - 1) + (if FieldValue(d, k - 1).Some? then [FieldValue(d, k - 1).value] else [])
  }

  /** The statement text for a list of assignments. */
  function Statement(fields: seq<string>): string {
    "UPDATE users SET " + Join(fields, ", ") + " WHERE id = ?"
  }

  /** One `if (data.<field> !== undefined)` block: push the assignment and
      the value of column `k` when the request supplies that field. */
  method PushIfSupplied(d: ProgressUpdate, k: nat, fields: seq<string>, values: seq<SqlValue>)
    returns (fields': seq<string>, values': seq<SqlValue>)
    requires k < ColumnCount
    requires fields == Clauses(d, k) && values == Values(d, k)
    ensures fields' == Clauses(d, k + 1) && values' == Values(d, k + 1)
  {
    fields', values' := fields, values;
    var v := FieldValue(d, k);
    if v.Some? {
      fields' := fields' + [Assignment(Columns[k])];
      values' := values' + [v.value];
    }
  }

  /** The builder: the assignments and values it pushes, and the statement it prepares. */
  method UpdateProgress(userId: int, d: ProgressUpdate) returns (sql: string, fields: seq<string>, values: seq<SqlValue>)
    ensures fields == Clauses(d, ColumnCount) + [UpdatedAt]
    ensures values == Values(d, ColumnCount) + [IntValue(userId)]
    ensures sql == Statement(fields)
  {
    fields, values := [], [];
    fields, values := PushIfSupplied(d, 0, fields, values);  // about_me
    fields, values := PushIfSupplied(d, 1, fields, values);  // street_address
    fields, values := PushIfSupplied(d, 2, fields, values);  // city
    fields, values := PushIfSupplied(d, 3, fields, values);  // state
    fields, values := PushIfSupplied(d, 4, fields, values);  // zip
    fields, values := PushIfSupplied(d, 5, fields, values);  // birthdate
    fields, values := PushIfSupplied(d, 6, fields, values);  // current_step
    fields, values := PushIfSupplied(d, 7, fields, values);  // completed, as 1 or 0
    fields := fields + [UpdatedAt];
    values := values + [IntValue(userId)];
    sql := Statement(fields);
  }

  /** One assignment and one value per supplied column. */
  lemma {:induction false} ClausesMatchSupplied(d: ProgressUpdate, k: nat)
    requires k <= ColumnCount
    ensures |Clauses(d, k)| == |Supplied(d, k)| && |Values(d, k)| == |Supplied(d, k)|
  {
    if k > 0 {
      ClausesMatchSupplied(d, k - 1);
    }
  }

  /** The i-th assignment is that of the i-th supplied column, bound to that field's value. */
  lemma {:induction false} ClauseIsSuppliedColumn(d: ProgressUpdate, k: nat, i: nat)
    requires k <= ColumnCount && i < |Supplied(d, k)|
    ensures |Clauses(d, k)| == |Supplied(d, k)| && |Values(d, k)| == |Supplied(d, k)|
    ensures Supplied(d, k)[i] < k && FieldValue(d, Supplied(d, k)[i]).Some?
    ensures Clauses(d, k)[i] == Assignment(Columns[Supplied(d, k)[i]])
    ensures Values(d, k)[i] == FieldValue(d, Supplied(d, k)[i]).value
  {
    ClausesMatchSupplied(d, k);
    if i < |Supplied(d, k - 1)| {
      ClauseIsSuppliedColumn(d, k - 1, i);
      ClausesMatchSupplied(d, k - 1);
      assert Supplied(d, k)[i] == Supplied(d, k - 1)[i];
      assert Clauses(d, k)[i] == Clauses(d, k - 1)[i];
      assert Values(d, k)[i] == Values(d, k - 1)[i];
    } else {
      ClausesMatchSupplied(d, k - 1);
    }
  }

  /** The supplied columns are listed in column order, each once, and none is missed. */
  lemma {:induction false} SuppliedInColumnOrder(d: ProgressUpdate, k: nat)
    requires k <= ColumnCount
    ensures forall i :: 0 <= i < |Supplied(d, k)| ==> Supplied(d, k)[i] < k
    ensures forall i, j :: 0 <= i < j < |Supplied(d, k)| ==> Supplied(d, k)[i] < Supplied(d, k)[j]
    ensures forall c :: 0 <= c < k ==> (c in Supplied(d, k) <==> FieldValue(d, c).Some?)
  {
    if k > 0 {
      SuppliedInColumnOrder(d, k - 1);
    }
  }

  /** A supplied `completed` is bound as 1 when true and 0 when false. */
  lemma CompletedStoredAsBit(d: ProgressUpdate, i: nat)
    requires i < |Supplied(d, ColumnCount)| && Supplied(d, ColumnCount)[i] == 7
    ensures |Clauses(d, ColumnCount)| == |Supplied(d, ColumnCount)| == |Values(d, ColumnCount)|
    ensures d.completed.Some?
    ensures Clauses(d, ColumnCount)[i] == Assignment(Columns[7])
    ensures Values(d, ColumnCount)[i] == IntValue(if d.completed.value then 1 else 0)
  {
    ClauseIsSuppliedColumn(d, ColumnCount, i);
  }

  /** The statement writes no column other than the eight fields and `updated_at`. */
  lemma OnlyListedColumnsWritten(d: ProgressUpdate)
    ensures forall f | f in Clauses(d, ColumnCount) + [UpdatedAt] ::
              f == UpdatedAt || exists k | 0 <= k < ColumnCount :: f == Assignment(Columns[k])
  {
    var idx := Supplied(d, ColumnCount);
    ClausesMatchSupplied(d, ColumnCount);
    forall f | f in Clauses(d, ColumnCount) + [UpdatedAt]
      ensures f == UpdatedAt || exists k | 0 <= k < ColumnCount :: f == Assignment(Columns[k])
    {
      if f != UpdatedAt {
        var i :| 0 <= i < |Clauses(d, ColumnCount)| && Clauses(d, ColumnCount)[i] == f;
        ClauseIsSuppliedColumn(d, ColumnCount, i);
        assert f == Assignment(Columns[idx[i]]);
      }
    }
  }

  /** The '?' marks of a joined text are those of its parts when the separator has none. */
  function MarkCount(parts: seq<string>): nat {
    if |parts| == 0 then 0 else MarkCount(parts[..|parts| - 1]) + CountChar(parts[|parts| - 1], '?')
  }

  lemma {:induction false} JoinMarkCount(parts: seq<string>, sep: string)
    requires CountChar(sep, '?') == 0
    ensures CountChar(Join(parts, sep), '?') == MarkCount(parts)
  {
    var n := |parts|;
    if n == 1 {
      assert parts[..0] == [];
    } else if n > 1 {
      var front := parts[..n - 1];
      JoinMarkCount(front, sep);
      CountCharConcat(Join(front, sep), sep, '?');
      CountCharConcat(Join(front, sep) + sep, parts[n - 1], '?');
    }
  }

  /** A column name has no '?', so its assignment has exactly one. */
  lemma AssignmentHasOneMark(k: nat)
    requires k < ColumnCount
    ensures CountChar(Assignment(Columns[k]), '?') == 1
  {
    assert forall i :: 0 <= i < |Columns[k]| ==> Columns[k][i] != '?';
    CountCharAbsent(Columns[k], '?');
    CountCharConcat(Columns[k], " = ?", '?');
    assert " = ?" == " = " + "?";
    CountCharAbsent(" = ", '?');
    CountCharConcat(" = ", "?", '?');
  }

  lemma {:induction false} ClauseMarks(d: ProgressUpdate, k: nat)
    requires k <= ColumnCount
    ensures MarkCount(Clauses(d, k)) == |Values(d, k)|
  {
    if k > 0 {
      ClauseMarks(d, k - 1);
      var front := Clauses(d, k - 1);
      if FieldValue(d, k - 1).Some? {
        AssignmentHasOneMark(k - 1);
        assert (front + [Assignment(Columns[k - 1])])[..|front|] == front;
      } else {
        assert front + [] == front;
      }
    }
  }

  /** The text around the assignments adds one '?', the id's placeholder. */
  lemma StatementMarks(fields: seq<string>)
    ensures CountChar(Statement(fields), '?') == CountChar(Join(fields, ", "), '?') + 1
  {
    var head, tail := "UPDATE users SET ", " WHERE id = ?";
    CountCharAbsent(head, '?');
    assert tail == " WHERE id = " + "?";
    CountCharAbsent(" WHERE id = ", '?');
    CountCharConcat(" WHERE id = ", "?", '?');
    CountCharConcat(head, Join(fields, ", "), '?');
    CountCharConcat(head + Join(fields, ", "), tail, '?');
  }

  /** The statement has exactly as many placeholders as there are bound values. */
  lemma PlaceholdersMatchValues(d: ProgressUpdate, userId: int)
    ensures CountChar(Statement(Clauses(d, ColumnCount) + [UpdatedAt]), '?') ==
            |Values(d, ColumnCount) + [IntValue(userId)]|
  {
    var fields := Clauses(d, ColumnCount) + [UpdatedAt];
    ClauseMarks(d, ColumnCount);
    assert fields[..|fields| - 1] == Clauses(d, ColumnCount);
    CountCharAbsent(UpdatedAt, '?');
    CountCharAbsent(", ", '?');
    JoinMarkCount(fields, ", ");
    StatementMarks(fields);
  }
}
