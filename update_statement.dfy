/**
 * The statement updateConfiguration builds (src/lib/database.js, lines 153-166): one
 * `column = ?` clause per field the updates record carries, in a fixed column order, then
 * the timestamp clause; one bound value per placeholder, the configuration id last.
 *
 * Besides the builder, this module gives the SET list a meaning (ExecuteSet: each column
 * clause takes the next bound value, the timestamp clause takes the clock, and what is
 * left binds the WHERE placeholder) and an independent statement of what the update is
 * meant to do (Apply), and proves that the built statement does exactly that.
 */
module UpdateStatement {
  import opened Wrappers
  import opened Strings
  import opened Tables

  /** A value bound to a placeholder. */
  datatype SqlValue = Text(text: string) | Integer(value: int)

  /** The `updates` argument: each of the five keys is absent (or undefined), or holds a
      string. */
  datatype Updates = Updates(
    name: Option<string>, semanticSchema: Option<string>, dataSchema: Option<string>,
    uiSchema: Option<string>, jsFunctionImpl: Option<string>)

  /** The five columns an update may set, in the order updateConfiguration considers them. */
  datatype Column = Name | SemanticSchema | DataSchema | UiSchema | JsFunctionImpl

  /** The SET clause pushed for a column. */
  function Clause(c: Column): string {
    match c
    case Name => "name = ?"
    case SemanticSchema => "semantic_schema = ?"
    case DataSchema => "data_schema = ?"
    case UiSchema => "ui_schema = ?"
    case JsFunctionImpl => "js_function_impl = ?"
  }

  const TimestampClause: string := "updated_at = CURRENT_TIMESTAMP"

  /** The column a SET clause with a placeholder assigns, if it is one of the five. */
  function ClauseColumn(clause: string): Option<Column> {
    if clause == "name = ?" then Some(Name)
    else if clause == "semantic_schema = ?" then Some(SemanticSchema)
    else if clause == "data_schema = ?" then Some(DataSchema)
    else if clause == "ui_schema = ?" then Some(UiSchema)
    else if clause == "js_function_impl = ?" then Some(JsFunctionImpl)
    else None
  }

  /** The position of a column in the fixed order. */
  function Rank(c: Column): nat {
    match c
    case Name => 0
    case SemanticSchema => 1
    case DataSchema => 2
    case UiSchema => 3
    case JsFunctionImpl => 4
  }

  /** `if (updates.name)`: the name is set only when it is a non-empty string. */
  predicate SetsName(u: Updates) {
    u.name.Some? && u.name.value != ""
  }

  /** Object.keys(updates), for a record whose keys were added in the order of the fields
      above, as the update route adds them. */
  function UpdateKeys(u: Updates): seq<string> {
    (if u.name.Some? then ["name"] else [])
    + (if u.semanticSchema.Some? then ["semanticSchema"] else [])
    + (if u.dataSchema.Some? then ["dataSchema"] else [])
    + (if u.uiSchema.Some? then ["uiSchema"] else [])
    + (if u.jsFunctionImpl.Some? then ["jsFunctionImpl"] else [])
  }

  /** The row as the updates ask it to be at time `now`: a truthy name and every other
      field that is present replace the stored ones, and the row is stamped. */
  function Apply(row: Configuration, u: Updates, now: nat): Configuration {
    row.(
      name := if SetsName(u) then u.name.value else row.name,
      semanticSchema := if u.semanticSchema.Some? then u.semanticSchema.value else row.semanticSchema,
      dataSchema := if u.dataSchema.Some? then u.dataSchema.value else row.dataSchema,
      uiSchema := if u.uiSchema.Some? then u.uiSchema.value else row.uiSchema,
      jsFunctionImpl := if u.jsFunctionImpl.Some? then u.jsFunctionImpl.value else row.jsFunctionImpl,
      updatedAt := now)
  }

  /** One column assigned the value bound to its placeholder. */
  function Assign(row: Configuration, c: Column, v: string): Configuration {
    match c
    case Name => row.(name := v)
    case SemanticSchema => row.(semanticSchema := v)
    case DataSchema => row.(dataSchema := v)
    case UiSchema => row.(uiSchema := v)
    case JsFunctionImpl => row.(jsFunctionImpl := v)
  }

  /** What a SET list does to a row, binding placeholders to `values` left to right: the
      row after it and the values left for the rest of the statement; None when a clause
      is not understood or a placeholder has no text value. */
  function ExecuteSet(row: Configuration, fields: seq<string>, values: seq<SqlValue>, now: nat)
    : Option<(Configuration, seq<SqlValue>)>
    decreases |fields|
  {
    if fields == [] then Some((row, values))
    else if fields[0] == TimestampClause then ExecuteSet(row.(updatedAt := now), fields[1..], values, now)
    else
      match ClauseColumn(fields[0])
      case None => None
      case Some(c) =>
        if values == [] || !values[0].Text? then None
        else ExecuteSet(Assign(row, c, values[0].text), fields[1..], values[1..], now)
  }

  /** The statement text for a SET list. */
  function Statement(fields: seq<string>): string {
    "UPDATE configurations SET " + Join(fields, ", ") + " WHERE id = ?"
  }

  /** The five columns in the order updateConfiguration considers them. */
  const Order: seq<Column> := [Name, SemanticSchema, DataSchema, UiSchema, JsFunctionImpl]

  /** The value the updates assign to a column, if they assign it at all. */
  function Value(u: Updates, c: Column): Option<string> {
    match c
    case Name => if SetsName(u) then u.name else None
    case SemanticSchema => u.semanticSchema
    case DataSchema => u.dataSchema
    case UiSchema => u.uiSchema
    case JsFunctionImpl => u.jsFunctionImpl
  }

  /** The assignment for one column, if any. */
  function Piece(u: Updates, c: Column): seq<(Column, string)> {
    if Value(u, c).Some? then [(c, Value(u, c).value)] else []
  }

  /** The assignments for the columns of `cols` that the updates assign, in that order. */
  function Select(u: Updates, cols: seq<Column>): seq<(Column, string)>
    decreases |cols|
  {
    if cols == [] then [] else Piece(u, cols[0]) + Select(u, cols[1..])
  }

  /** The columns the updates call for, each with its value, in column order. */
  function Assignments(u: Updates): seq<(Column, string)> {
    Piece(u, Name) + Piece(u, SemanticSchema) + Piece(u, DataSchema) + Piece(u, UiSchema)
    + Piece(u, JsFunctionImpl)
  }

  function Clauses(ps: seq<(Column, string)>): seq<string> {
    seq(|ps|, i requires 0 <= i < |ps| => Clause(ps[i].0))
  }

  function Bound(ps: seq<(Column, string)>): seq<SqlValue> {
    seq(|ps|, i requires 0 <= i < |ps| => Text(ps[i].1))
  }

  /** The row after assigning each pair in turn. */
  function AssignAll(row: Configuration, ps: seq<(Column, string)>): Configuration
    decreases |ps|
  {
    if ps == [] then row else AssignAll(Assign(row, ps[0].0, ps[0].1), ps[1..])
  }

  lemma {:induction false} AssignAllConcat(row: Configuration, a: seq<(Column, string)>, b: seq<(Column, string)>)
    ensures AssignAll(row, a + b) == AssignAll(AssignAll(row, a), b)
    decreases |a|
  {
    if a != [] {
      assert (a + b)[1..] == a[1..] + b;
      AssignAllConcat(Assign(row, a[0].0, a[0].1), a[1..], b);
    } else {
      assert a + b == b;
    }
  }

  /** The assignments the updates call for are exactly what Apply does, short of the
      timestamp. */
  lemma AssignmentsApply(row: Configuration, u: Updates, now: nat)
    ensures AssignAll(row, Assignments(u)).(updatedAt := now) == Apply(row, u, now)
  {
    var p1, p2, p3, p4, p5 := Piece(u, Name), Piece(u, SemanticSchema), Piece(u, DataSchema),
      Piece(u, UiSchema), Piece(u, JsFunctionImpl);
    AssignAllConcat(row, p1, p2);
    AssignAllConcat(row, p1 + p2, p3);
    AssignAllConcat(row, p1 + p2 + p3, p4);
    AssignAllConcat(row, p1 + p2 + p3 + p4, p5);
    var r1 := AssignPiece(row, u, Name);
    var r2 := AssignPiece(r1, u, SemanticSchema);
    var r3 := AssignPiece(r2, u, DataSchema);
    var r4 := AssignPiece(r3, u, UiSchema);
    var r5 := AssignPiece(r4, u, JsFunctionImpl);
    assert AssignAll(row, Assignments(u)) == r5;
  }

  /** Assigning the piece for one column. */
  lemma AssignPiece(row: Configuration, u: Updates, c: Column) returns (r: Configuration)
    ensures r == AssignAll(row, Piece(u, c))
    ensures r == if Value(u, c).Some? then Assign(row, c, Value(u, c).value) else row
  {
    r := AssignAll(row, Piece(u, c));
    if Value(u, c).Some? {
      assert Piece(u, c)[1..] == [];
    }
  }

  /** The assignments are those selected from the five columns in order. */
  lemma SelectOrder(u: Updates)
    ensures Select(u, Order) == Assignments(u)
  {
    var o1 := Order[1..];
    var o2 := o1[1..];
    var o3 := o2[1..];
    var o4 := o3[1..];
    assert o4 == [JsFunctionImpl] && o4[1..] == [];
    assert Select(u, o4) == Piece(u, JsFunctionImpl);
    assert Select(u, o3) == Piece(u, UiSchema) + Select(u, o4);
    assert Select(u, o2) == Piece(u, DataSchema) + Select(u, o3);
    assert Select(u, o1) == Piece(u, SemanticSchema) + Select(u, o2);
    assert Select(u, Order) == Piece(u, Name) + Select(u, o1);
  }

  /** One `if (...) { fields.push(...); values.push(...); }` step of the builder: the
      column's clause and value are pushed when the updates assign the column. The clause
      list and the bound values, which stood for the assignments `ps`, then stand for `ps`
      extended by the column's piece. */
  method Push(fields: seq<string>, values: seq<SqlValue>, ghost ps: seq<(Column, string)>, u: Updates, c: Column)
    returns (fields': seq<string>, values': seq<SqlValue>, ghost ps': seq<(Column, string)>)
    requires fields == Clauses(ps) && values == Bound(ps)
    ensures ps' == ps + Piece(u, c)
    ensures fields' == Clauses(ps') && values' == Bound(ps')
  {
    fields', values' := fields, values;
    var v := Value(u, c);
    if v.Some? {
      fields' := fields' + [Clause(c)];
      values' := values' + [Text(v.value)];
    }
    ps' := ps + Piece(u, c);
    if v.None? {
      assert ps' == ps;
    }
  }

  /** Each column clause is read back as its column, is not the timestamp clause, and
      holds exactly one placeholder. */
  lemma ClauseFacts(c: Column)
    ensures ClauseColumn(Clause(c)) == Some(c) && Clause(c) != TimestampClause
    ensures Count(Clause(c), '?') == 1
  {
    match c
    case Name => NameClause();
    case SemanticSchema => SemanticSchemaClause();
    case DataSchema => DataSchemaClause();
    case UiSchema => UiSchemaClause();
    case JsFunctionImpl => JsFunctionImplClause();
  }

  lemma NameClause()
    ensures ClauseColumn(Clause(Name)) == Some(Name)
    ensures Clause(Name) != TimestampClause && Count(Clause(Name), '?') == 1
  {
    ClauseLengths();
    assert Clause(Name) == "name = " + "?";
    ClauseText("name = ");
  }

  lemma SemanticSchemaClause()
    ensures ClauseColumn(Clause(SemanticSchema)) == Some(SemanticSchema)
    ensures Clause(SemanticSchema) != TimestampClause && Count(Clause(SemanticSchema), '?') == 1
  {
    ClauseLengths();
    assert Clause(SemanticSchema) == "semantic_schema = " + "?";
    ClauseText("semantic_schema = ");
  }

  lemma DataSchemaClause()
    ensures ClauseColumn(Clause(DataSchema)) == Some(DataSchema)
    ensures Clause(DataSchema) != TimestampClause && Count(Clause(DataSchema), '?') == 1
  {
    ClauseLengths();
    assert Clause(DataSchema) == "data_schema = " + "?";
    ClauseText("data_schema = ");
  }

  lemma UiSchemaClause()
    ensures ClauseColumn(Clause(UiSchema)) == Some(UiSchema)
    ensures Clause(UiSchema) != TimestampClause && Count(Clause(UiSchema), '?') == 1
  {
    ClauseLengths();
    assert Clause(UiSchema) == "ui_schema = " + "?";
    ClauseText("ui_schema = ");
  }

  lemma JsFunctionImplClause()
    ensures ClauseColumn(Clause(JsFunctionImpl)) == Some(JsFunctionImpl)
    ensures Clause(JsFunctionImpl) != TimestampClause && Count(Clause(JsFunctionImpl), '?') == 1
  {
    ClauseLengths();
    assert Clause(JsFunctionImpl) == "js_function_impl = " + "?";
    ClauseText("js_function_impl = ");
  }

  /** The five clauses differ in length, so none is another. */
  lemma ClauseLengths()
    ensures |Clause(Name)| == 8 && |Clause(SemanticSchema)| == 19 && |Clause(DataSchema)| == 15
    ensures |Clause(UiSchema)| == 13 && |Clause(JsFunctionImpl)| == 20
  {
  }

  lemma ClauseText(column: string)
    requires forall k | 0 <= k < |column| :: column[k] != '?'
    ensures column + "?" != TimestampClause && Count(column + "?", '?') == 1
  {
    OnePlaceholder(column);
    TimestampCount();
  }

  lemma TimestampCount()
    ensures Count(TimestampClause, '?') == 0
  {
    var stamp := TimestampClause;
    CountNone(stamp, '?');
  }

  lemma OnePlaceholder(column: string)
    requires forall k | 0 <= k < |column| :: column[k] != '?'
    ensures Count(column + "?", '?') == 1
  {
    CountNone(column, '?');
    CountConcat(column, "?", '?');
    assert "?"[1..] == [];
  }

  /** Executing the SET list of some column clauses and the timestamp clause assigns the
      bound values in order, stamps the row, and leaves the values after them unbound. */
  lemma {:induction false} ExecuteAssignments(
    row: Configuration, ps: seq<(Column, string)>, tail: seq<SqlValue>, now: nat)
    ensures ExecuteSet(row, Clauses(ps) + [TimestampClause], Bound(ps) + tail, now)
      == Some((AssignAll(row, ps).(updatedAt := now), tail))
    decreases |ps|
  {
    var fields := Clauses(ps) + [TimestampClause];
    if ps == [] {
      assert fields == [TimestampClause];
      assert Bound(ps) + tail == tail;
    } else {
      assert fields[0] == Clause(ps[0].0) && fields[1..] == Clauses(ps[1..]) + [TimestampClause];
      assert (Bound(ps) + tail)[0] == Text(ps[0].1);
      assert (Bound(ps) + tail)[1..] == Bound(ps[1..]) + tail;
      ClauseFacts(ps[0].0);
      ExecuteAssignments(Assign(row, ps[0].0, ps[0].1), ps[1..], tail, now);
    }
  }

  /** The statement does what the updates ask: run on any row, its SET list leaves the row
      as Apply describes and the last bound value, the id, for the WHERE clause. */
  lemma StatementApplies(u: Updates, id: int, row: Configuration, now: nat)
    ensures ExecuteSet(row, Clauses(Assignments(u)) + [TimestampClause],
      Bound(Assignments(u)) + [Integer(id)], now) == Some((Apply(row, u, now), [Integer(id)]))
  {
    AssignmentsApply(row, u, now);
    ExecuteAssignments(row, Assignments(u), [Integer(id)], now);
  }

  lemma {:induction false} CountClauses(ps: seq<(Column, string)>)
    ensures CountAll(Clauses(ps) + [TimestampClause], '?') == |ps|
    decreases |ps|
  {
    var fields := Clauses(ps) + [TimestampClause];
    if ps == [] {
      assert fields[1..] == [];
      TimestampCount();
    } else {
      assert fields[0] == Clause(ps[0].0) && fields[1..] == Clauses(ps[1..]) + [TimestampClause];
      ClauseFacts(ps[0].0);
      CountClauses(ps[1..]);
    }
  }

  /** The statement text around the SET list holds exactly one placeholder. */
  lemma StatementCount(fields: seq<string>)
    ensures Count(Statement(fields), '?') == Count(Join(fields, ", "), '?') + 1
  {
    var head, list, filter := "UPDATE configurations SET ", Join(fields, ", "), " WHERE id = ";
    OnePlaceholder(filter);
    assert " WHERE id = ?" == filter + "?";
    CountNone(head, '?');
    CountConcat(head, list, '?');
    CountConcat(head + list, filter + "?", '?');
  }

  /** The statement has as many placeholders as there are bound values: one per column
      clause and one for the id. */
  lemma PlaceholdersMatchValues(u: Updates, id: int)
    ensures Count(Statement(Clauses(Assignments(u)) + [TimestampClause]), '?')
      == |Bound(Assignments(u)) + [Integer(id)]|
  {
    var fields := Clauses(Assignments(u)) + [TimestampClause];
    var sep := ", ";
    CountNone(sep, '?');
    CountJoin(fields, sep, '?');
    CountClauses(Assignments(u));
    StatementCount(fields);
  }

  /** The columns of a list of assignments. */
  function Columns(ps: seq<(Column, string)>): seq<Column> {
    seq(|ps|, i requires 0 <= i < |ps| => ps[i].0)
  }

  lemma ColumnsConcat(a: seq<(Column, string)>, b: seq<(Column, string)>)
    ensures Columns(a + b) == Columns(a) + Columns(b)
  {
  }

  /** Selecting keeps a column exactly when the updates assign it. */
  lemma {:induction false} SelectMembers(u: Updates, cols: seq<Column>, c: Column)
    ensures c in Columns(Select(u, cols)) <==> c in cols && Value(u, c).Some?
    decreases |cols|
  {
    if cols != [] {
      SelectMembers(u, cols[1..], c);
      var piece := Piece(u, cols[0]);
      ColumnsConcat(piece, Select(u, cols[1..]));
      assert Columns(piece) == if Value(u, cols[0]).Some? then [cols[0]] else [];
      assert c in cols <==> c == cols[0] || c in cols[1..];
    }
  }

  /** Selecting from columns in increasing rank keeps them in increasing rank. */
  lemma {:induction false} SelectOrdered(u: Updates, cols: seq<Column>)
    requires forall i, j | 0 <= i < j < |cols| :: Rank(cols[i]) < Rank(cols[j])
    ensures var sel := Columns(Select(u, cols));
      forall i, j | 0 <= i < j < |sel| :: Rank(sel[i]) < Rank(sel[j])
    decreases |cols|
  {
    if cols != [] {
      var rest := Columns(Select(u, cols[1..]));
      SelectOrdered(u, cols[1..]);
      forall c | c in rest ensures Rank(cols[0]) < Rank(c) {
        SelectMembers(u, cols[1..], c);
        var k :| 0 <= k < |cols[1..]| && cols[1..][k] == c;
        assert cols[k + 1] == c;
      }
      var sel := Columns(Select(u, cols));
      var piece := Piece(u, cols[0]);
      ColumnsConcat(piece, Select(u, cols[1..]));
      var head := Columns(piece);
      assert head == if Value(u, cols[0]).Some? then [cols[0]] else [];
      assert sel == head + rest;
      forall i, j | 0 <= i < j < |sel| ensures Rank(sel[i]) < Rank(sel[j]) {
        if |head| == 1 && i == 0 {
          assert sel[j] == rest[j - 1] && sel[j] in rest;
        } else {
          assert sel[i] == rest[i - |head|] && sel[j] == rest[j - |head|];
        }
      }
    }
  }

  /** The clauses follow the fixed column order, each at most once, and a column is
      updated exactly when the record asks for it: the name only when it is a non-empty
      string, any other column whenever it is present. */
  lemma ClauseSelection(u: Updates)
    ensures var cols := Columns(Assignments(u));
      && (forall i, j | 0 <= i < j < |cols| :: Rank(cols[i]) < Rank(cols[j]))
      && (Name in cols <==> SetsName(u))
      && (SemanticSchema in cols <==> u.semanticSchema.Some?)
      && (DataSchema in cols <==> u.dataSchema.Some?)
      && (UiSchema in cols <==> u.uiSchema.Some?)
      && (JsFunctionImpl in cols <==> u.jsFunctionImpl.Some?)
  {
    SelectOrder(u);
    SelectOrdered(u, Order);
    SelectMembers(u, Order, Name);
    SelectMembers(u, Order, SemanticSchema);
    SelectMembers(u, Order, DataSchema);
    SelectMembers(u, Order, UiSchema);
    SelectMembers(u, Order, JsFunctionImpl);
  }

  /** updateConfiguration's builder: pushes a clause and a value for each field present,
      then the timestamp clause and the id. */
  method Build(id: int, updates: Updates) returns (fields: seq<string>, values: seq<SqlValue>, sql: string)
    ensures fields == Clauses(Assignments(updates)) + [TimestampClause]
    ensures values == Bound(Assignments(updates)) + [Integer(id)]
    ensures sql == Statement(fields)
    ensures Count(sql, '?') == |values|
    ensures values[|values| - 1] == Integer(id) && fields[|fields| - 1] == TimestampClause
  {
    fields := [];
    values := [];
    ghost var ps: seq<(Column, string)> := [];
    fields, values, ps := Push(fields, values, ps, updates, Name);
    assert ps == Piece(updates, Name);
    fields, values, ps := Push(fields, values, ps, updates, SemanticSchema);
    fields, values, ps := Push(fields, values, ps, updates, DataSchema);
    fields, values, ps := Push(fields, values, ps, updates, UiSchema);
    fields, values, ps := Push(fields, values, ps, updates, JsFunctionImpl);
    assert ps == Assignments(updates);
    fields := fields + [TimestampClause];
    values := values + [Integer(id)];
    sql := Statement(fields);
    PlaceholdersMatchValues(updates, id);
  }
}
