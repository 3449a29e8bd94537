/** INSERT, UPDATE and DELETE as the generators build them, and what running them does to a table. */
module Statements {
  import opened Decimal
  import opened FilterBuilder
  import opened FilterMeaning
  import opened Outcomes
  import opened ParamNames
  import opened SqlPredicates

  /** The generated statements; SET and VALUES name their parameters, WHERE is a printed clause. */
  datatype Statement =
    | Insert(table: string, cols: seq<string>, params: seq<string>)
    | Update(table: string, sets: seq<(string, string)>, where: seq<Token>)
    | Delete(table: string, where: seq<Token>)

  function SetBindings(data: Members): seq<Binding> {
    seq(|data|, k requires 0 <= k < |data| => (SetColumn(k), data[k].1))
  }

  function SetParts(data: Members): seq<(string, string)> {
    seq(|data|, k requires 0 <= k < |data| => (data[k].0, NameText(SetColumn(k))))
  }

  function InsertBindings(data: Members): seq<Binding> {
    seq(|data|, k requires 0 <= k < |data| => (InsertColumn(k), data[k].1))
  }

  function ConstructInsert(table: string, data: Members): (Statement, Params) {
    (Insert(table, seq(|data|, k requires 0 <= k < |data| => data[k].0), Names(InsertBindings(data))),
     BindAll(map[], InsertBindings(data)))
  }

  lemma {:induction false} MergeIsBinding(params: Params, bindings: seq<Binding>)
    ensures params + BindAll(map[], bindings) == BindAll(params, bindings)
  {
    hide NameText;
    if |bindings| > 0 {
      MergeIsBinding(params, bindings[..|bindings| - 1]);
    }
  }

  method ConstructUpdate(table: string, data: Members, f: Members) returns (r: Result<(Statement, Params), ()>)
    ensures r.Ok? <==> ValidFilter(f) && Constrains(f)
    ensures r.Ok? ==>
              r.value == (Update(table, SetParts(data), Clause(EmitFilter(f).0.preds)),
                          BindAll(map[], SetBindings(data) + EmitFilter(f).0.bindings))
  {
    hide NameText, Constrains, Clause;
    var setParts: seq<(string, string)> := [];
    var params: Params := map[];
    ghost var all := SetBindings(data);
    for index := 0 to |data|
      invariant setParts == SetParts(data)[..index] && params == BindAll(map[], all[..index])
    {
      assert all[..index + 1][..index] == all[..index];
      var name := NameText(SetColumn(index));
      setParts := setParts + [(data[index].0, name)];
      params := params[name := data[index].1];
    }
    assert all[..|all|] == all && SetParts(data)[..|data|] == SetParts(data);
    var where := BuildWhereClause(f);
    if where.Err? {
      return Err(());
    }
    EmptyClause(EmitFilter(f).0.preds);
    EmitsIffConstrains(f);
    var (clause, filterParams) := where.value;
    if clause == [] {
      return Err(());
    }
    MergeIsBinding(params, EmitFilter(f).0.bindings);
    BindAllConcat(map[], all, EmitFilter(f).0.bindings);
    return Ok((Update(table, setParts, clause), params + filterParams));
  }

  method ConstructDelete(table: string, f: Members) returns (r: Result<(Statement, Params), ()>)
    ensures r.Ok? <==> ValidFilter(f) && Constrains(f)
    ensures r.Ok? ==>
              r.value == (Delete(table, Clause(EmitFilter(f).0.preds)), BindAll(map[], EmitFilter(f).0.bindings))
  {
    hide Constrains, Clause;
    var where := BuildWhereClause(f);
    if where.Err? {
      return Err(());
    }
    EmptyClause(EmitFilter(f).0.preds);
    EmitsIffConstrains(f);
    var (clause, params) := where.value;
    if clause == [] {
      return Err(());
    }
    return Ok((Delete(table, clause), params));
  }

  // ---------------------------------------------------------------------------
  // Running a statement
  // ---------------------------------------------------------------------------

  function AssignParams(row: Row, sets: seq<(string, string)>, params: Params): Row {
    if |sets| == 0 then row
    else
      var n := |sets| - 1;
      AssignParams(row, sets[..n], params)[sets[n].0 := Lookup(params, sets[n].1)]
  }

  function Zip(cols: seq<string>, names: seq<string>): seq<(string, string)> {
    if |cols| == 0 || |names| == 0 then [] else [(cols[0], names[0])] + Zip(cols[1..], names[1..])
  }

  function Kept(d: Dialect, where: seq<Token>, params: Params, rows: seq<Row>): seq<Row> {
    if |rows| == 0 then []
    else
      var n := |rows| - 1;
      var before := Kept(d, where, params, rows[..n]);
      if Selects(d, where, params, rows[n]) then before else before + [rows[n]]
  }

  /** What a statement makes of the rows of its table. */
  function Apply(d: Dialect, s: Statement, params: Params, rows: seq<Row>): seq<Row> {
    match s
    case Insert(_, cols, names) =>
      rows + [AssignParams(map[], Zip(cols, names), params)]
    case Update(_, sets, where) =>
      seq(|rows|, k requires 0 <= k < |rows| =>
        if Selects(d, where, params, rows[k]) then AssignParams(rows[k], sets, params) else rows[k])
    case Delete(_, where) => Kept(d, where, params, rows)
  }

  type Database = map<string, seq<Row>>

  /** Running a statement; without its table it fails and changes nothing. */
  function Execute(d: Dialect, s: Statement, params: Params, db: Database): Database {
    if s.table in db then db[s.table := Apply(d, s, params, db[s.table])] else db
  }

  /** The row with the given values in the given columns. */
  function Assign(row: Row, data: Members): Row {
    if |data| == 0 then row else Assign(row, data[..|data| - 1])[data[|data| - 1].0 := data[|data| - 1].1]
  }

  /** Assigning parameters that hold the data assigns the data. */
  lemma {:induction false} AssignsData(row: Row, sets: seq<(string, string)>, data: Members, params: Params)
    requires |sets| == |data|
    requires forall k :: 0 <= k < |data| ==>
      sets[k].0 == data[k].0 && sets[k].1 in params && params[sets[k].1] == data[k].1
    ensures AssignParams(row, sets, params) == Assign(row, data)
  {
    if |data| > 0 {
      AssignsData(row, sets[..|data| - 1], data[..|data| - 1], params);
    }
  }

  lemma UpdateNamesDistinct(data: Members, f: Members)
    requires ValidFilter(f)
    ensures Distinct(SetBindings(data) + EmitFilter(f).0.bindings)
  {
    FilterNamesDistinct(f);
  }

  /** All parameters of an UPDATE reach the statement: those of the filter overwrite none of SET, and vice versa. */
  lemma {:induction false} UpdateParametersSurvive(data: Members, f: Members)
    requires ValidFilter(f)
    ensures var params := BindAll(map[], SetBindings(data) + EmitFilter(f).0.bindings);
            Agrees(params, SetBindings(data)) && Agrees(params, EmitFilter(f).0.bindings)
  {
    var a, b := SetBindings(data), EmitFilter(f).0.bindings;
    UpdateNamesDistinct(data, f);
    BindingAgrees(map[], a + b);
    AgreesParts(BindAll(map[], a + b), Emission([], a), Emission([], b));
  }

  /**
   An UPDATE assigns the data to exactly the rows of its table where the filter is TRUE and leaves every other row, and
   every other table, as it is.
   */
  lemma {:induction false} UpdateTouchesExactly(
      d: Dialect, table: string, data: Members, f: Members, db: Database, k: nat)
    requires ValidFilter(f) && Constrains(f) && table in db && k < |db[table]|
    ensures var statement := Update(table, SetParts(data), Clause(EmitFilter(f).0.preds));
            var params := BindAll(map[], SetBindings(data) + EmitFilter(f).0.bindings);
            var rows, after := db[table], Execute(d, statement, params, db);
            && after.Keys == db.Keys && (forall other :: other in db && other != table ==> after[other] == db[other])
            && |after[table]| == |rows|
            && after[table][k] == if Meaning(d, f, rows[k]) == True then Assign(rows[k], data) else rows[k]
  {
    var rows := db[table];
    var params := BindAll(map[], SetBindings(data) + EmitFilter(f).0.bindings);
    UpdateParametersSurvive(data, f);
    EmitsIffConstrains(f);
    EmptyClause(EmitFilter(f).0.preds);
    ClauseSelectsMeaning(d, f, params, rows[k]);
    hide BindAll, EmitFilter, NameText, Meaning, Selects, Clause, Constrains, ValidFilter;
    forall j | 0 <= j < |data|
      ensures SetParts(data)[j].1 in params && params[SetParts(data)[j].1] == data[j].1
    {
      assert SetBindings(data)[j] == (SetColumn(j), data[j].1);
    }
    AssignsData(rows[k], SetParts(data), data, params);
  }

  /** The rows where the filter is not TRUE, in order. */
  function NotMeant(d: Dialect, f: Members, rows: seq<Row>): seq<Row>
    requires ValidFilter(f)
  {
    if |rows| == 0 then []
    else
      var n := |rows| - 1;
      var before := NotMeant(d, f, rows[..n]);
      if Meaning(d, f, rows[n]) == True then before else before + [rows[n]]
  }

  lemma {:induction false} KeptIsNotMeant(d: Dialect, f: Members, rows: seq<Row>)
    requires ValidFilter(f) && Constrains(f)
    ensures Kept(d, Clause(EmitFilter(f).0.preds), BindAll(map[], EmitFilter(f).0.bindings), rows)
         == NotMeant(d, f, rows)
  {
    if |rows| > 0 {
      KeptIsNotMeant(d, f, rows[..|rows| - 1]);
      FilterNamesDistinct(f);
      BindingAgrees(map[], EmitFilter(f).0.bindings);
      EmitsIffConstrains(f);
      EmptyClause(EmitFilter(f).0.preds);
      ClauseSelectsMeaning(d, f, BindAll(map[], EmitFilter(f).0.bindings), rows[|rows| - 1]);
    }
  }

  /** A DELETE removes exactly the rows of its table where the filter is TRUE and keeps the others in order. */
  lemma DeleteRemovesExactly(d: Dialect, table: string, f: Members, db: Database)
    requires ValidFilter(f) && Constrains(f) && table in db
    ensures var statement := Delete(table, Clause(EmitFilter(f).0.preds));
            Execute(d, statement, BindAll(map[], EmitFilter(f).0.bindings), db)
            == db[table := NotMeant(d, f, db[table])]
  {
    hide Kept, Clause, EmitFilter, BindAll, NotMeant;
    KeptIsNotMeant(d, f, db[table]);
  }

  lemma {:induction false} ZipAt(cols: seq<string>, names: seq<string>, k: nat)
    requires |cols| == |names|
    ensures |Zip(cols, names)| == |cols|
    ensures k < |cols| ==> Zip(cols, names)[k] == (cols[k], names[k])
  {
    if |cols| > 0 {
      ZipAt(cols[1..], names[1..], if k > 0 then k - 1 else 0);
    }
  }

  /** The names that an INSERT and a SET give their parameters. */
  lemma ColumnNames(table: string, data: Members, k: nat)
    requires k < |data|
    ensures SetParts(data)[k] == (data[k].0, "up_p_" + Print(k))
    ensures var statement := ConstructInsert(table, data).0;
            statement.cols[k] == data[k].0 && statement.params[k] == "p_" + Print(k)
  {
    hide Print;
  }

  /** An INSERT adds one row to its table that holds each value in its column. */
  lemma InsertStores(d: Dialect, table: string, data: Members, db: Database)
    requires table in db
    ensures var (statement, params) := ConstructInsert(table, data);
            Execute(d, statement, params, db) == db[table := db[table] + [Assign(map[], data)]]
  {
    hide NameText, Zip;
    var (statement, params) := ConstructInsert(table, data);
    var bindings := InsertBindings(data);
    BindingAgrees(map[], bindings);
    var sets := Zip(statement.cols, statement.params);
    ZipAt(statement.cols, statement.params, 0);
    forall k | 0 <= k < |data|
      ensures sets[k].0 == data[k].0 && sets[k].1 in params && params[sets[k].1] == data[k].1
    {
      ZipAt(statement.cols, statement.params, k);
      assert bindings[k] == (InsertColumn(k), data[k].1);
    }
    AssignsData(map[], sets, data, params);
  }
}
