/** What the filter compiler guarantees: fresh parameter names and preserved meaning. */
module FilterMeaning {
  import opened FilterBuilder
  import opened Outcomes
  import opened ParamNames
  import opened SqlPredicates

  // ---------------------------------------------------------------------------
  // Parameter names
  // ---------------------------------------------------------------------------

  ghost predicate IsFilterName(n: ParamName) {
    !n.SetColumn? && !n.InsertColumn?
  }

  /** The names of the bindings are filter names with an index in [from, to). */
  ghost predicate InRange(bindings: seq<Binding>, from: nat, to: nat) {
    forall k :: 0 <= k < |bindings| ==> IsFilterName(bindings[k].0) && from <= bindings[k].0.index < to
  }

  ghost predicate Distinct(bindings: seq<Binding>) {
    forall k, l :: 0 <= k < l < |bindings| ==> bindings[k].0 != bindings[l].0
  }

  lemma EmitOpNames(col: string, op: string, v: Value, i: nat)
    requires ValidOp(op, v)
    ensures InRange(EmitOp(col, op, v, i).bindings, i, NextIndex(op, i)) && Distinct(EmitOp(col, op, v, i).bindings)
  {
  }

  lemma ConcatNames(a: seq<Binding>, b: seq<Binding>, from: nat, middle: nat, to: nat)
    requires InRange(a, from, middle) && InRange(b, middle, to) && from <= middle <= to
    requires Distinct(a) && Distinct(b)
    ensures InRange(a + b, from, to) && Distinct(a + b)
  {
  }

  lemma {:induction false} EmitOpsNames(col: string, ops: Members, i: nat)
    requires ValidOps(ops)
    ensures var (e, j) := EmitOps(col, ops, i); i <= j && InRange(e.bindings, i, j) && Distinct(e.bindings)
  {
    if |ops| > 0 {
      var n := |ops| - 1;
      EmitOpsNames(col, ops[..n], i);
      var (before, j) := EmitOps(col, ops[..n], i);
      EmitOpNames(col, ops[n].0, ops[n].1, j);
      ConcatNames(before.bindings, EmitOp(col, ops[n].0, ops[n].1, j).bindings, i, j, NextIndex(ops[n].0, j));
    }
  }

  /** Across all columns and operators, no two parameters of a filter have the same name. */
  lemma {:induction false} FilterNamesDistinct(f: Members)
    requires ValidFilter(f)
    ensures var (e, j) := EmitFilter(f); InRange(e.bindings, 0, j) && Distinct(e.bindings)
  {
    if |f| > 0 {
      var n := |f| - 1;
      FilterNamesDistinct(f[..n]);
      var (before, i) := EmitFilter(f[..n]);
      var (last, j) := EmitCriteria(f[n].0, f[n].1, i);
      if f[n].1.Object? {
        EmitOpsNames(f[n].0, f[n].1.members, i);
      }
      ConcatNames(before.bindings, last.bindings, 0, i, j);
    }
  }

  lemma NamesConcat(a: seq<Binding>, b: seq<Binding>)
    ensures Names(a + b) == Names(a) + Names(b)
  {
  }

  lemma EmitOpPlaceholders(col: string, op: string, v: Value, i: nat)
    requires ValidOp(op, v)
    ensures AllPlaceholders(EmitOp(col, op, v, i).preds) == Names(EmitOp(col, op, v, i).bindings)
  {
    hide NameText;
    var e := EmitOp(col, op, v, i);
    if |e.preds| == 1 {
      assert e.preds[..0] == [];
      assert AllPlaceholders(e.preds) == [] + Placeholders(e.preds[0]);
    }
  }

  lemma PlusPlaceholders(a: Emission, b: Emission)
    requires AllPlaceholders(a.preds) == Names(a.bindings) && AllPlaceholders(b.preds) == Names(b.bindings)
    ensures AllPlaceholders(Plus(a, b).preds) == Names(Plus(a, b).bindings)
  {
    PlaceholdersConcat(a.preds, b.preds);
    NamesConcat(a.bindings, b.bindings);
  }

  lemma {:induction false} EmitOpsPlaceholders(col: string, ops: Members, i: nat)
    requires ValidOps(ops)
    ensures AllPlaceholders(EmitOps(col, ops, i).0.preds) == Names(EmitOps(col, ops, i).0.bindings)
  {
    hide AllPlaceholders, Names, EmitOp;
    if |ops| == 0 {
      NoPlaceholders();
    } else {
      var n := |ops| - 1;
      EmitOpsPlaceholders(col, ops[..n], i);
      var (before, j) := EmitOps(col, ops[..n], i);
      EmitOpPlaceholders(col, ops[n].0, ops[n].1, j);
      PlusPlaceholders(before, EmitOp(col, ops[n].0, ops[n].1, j));
    }
  }

  lemma NoPlaceholders()
    ensures AllPlaceholders([]) == Names([])
  {
  }

  lemma OnePlaceholder(col: string, v: Value, i: nat)
    ensures AllPlaceholders([Compare(col, Eq, NameText(Single(i)))]) == Names([(Single(i), v)])
  {
    hide NameText;
    var preds := [Compare(col, Eq, NameText(Single(i)))];
    assert preds[..0] == [];
    assert AllPlaceholders(preds) == [] + Placeholders(preds[0]);
  }

  /** The placeholders of the clause, in order, are the names of the bindings, in order. */
  lemma {:induction false} PlaceholdersAreBindings(f: Members)
    requires ValidFilter(f)
    ensures AllPlaceholders(EmitFilter(f).0.preds) == Names(EmitFilter(f).0.bindings)
  {
    hide AllPlaceholders, Names, NameText;
    if |f| == 0 {
      NoPlaceholders();
    } else {
      var n := |f| - 1;
      PlaceholdersAreBindings(f[..n]);
      var (before, i) := EmitFilter(f[..n]);
      if f[n].1.Object? {
        EmitOpsPlaceholders(f[n].0, f[n].1.members, i);
      } else {
        OnePlaceholder(f[n].0, f[n].1, i);
      }
      PlusPlaceholders(before, EmitCriteria(f[n].0, f[n].1, i).0);
    }
  }

  /** The parameters hold every binding under its own name. */
  ghost predicate Agrees(params: Params, bindings: seq<Binding>) {
    forall k :: 0 <= k < |bindings| ==>
      NameText(bindings[k].0) in params && params[NameText(bindings[k].0)] == bindings[k].1
  }

  /** Binding adds exactly the bindings' names and leaves all other parameters alone. */
  lemma {:induction false} BindingAdds(params: Params, bindings: seq<Binding>, name: string)
    ensures name in BindAll(params, bindings) <==> name in params || name in Names(bindings)
    ensures name in params && name !in Names(bindings) ==> BindAll(params, bindings)[name] == params[name]
  {
    hide NameText;
    if |bindings| > 0 {
      var n := |bindings| - 1;
      BindingAdds(params, bindings[..n], name);
      assert Names(bindings) == Names(bindings[..n]) + [NameText(bindings[n].0)];
    }
  }

  /** Distinct names keep their values: no later binding overwrites an earlier one. */
  lemma {:induction false} BindingKeeps(params: Params, bindings: seq<Binding>, k: nat)
    requires Distinct(bindings) && k < |bindings|
    ensures var name := NameText(bindings[k].0);
            name in BindAll(params, bindings) && BindAll(params, bindings)[name] == bindings[k].1
  {
    hide NameText;
    var n := |bindings| - 1;
    if k < n {
      BindingKeeps(params, bindings[..n], k);
      if NameText(bindings[k].0) == NameText(bindings[n].0) {
        NameTextInjective(bindings[k].0, bindings[n].0);
      }
    }
  }

  lemma BindingAgrees(params: Params, bindings: seq<Binding>)
    requires Distinct(bindings)
    ensures Agrees(BindAll(params, bindings), bindings)
  {
    hide BindAll, NameText;
    forall k | 0 <= k < |bindings|
      ensures var name := NameText(bindings[k].0);
              name in BindAll(params, bindings) && BindAll(params, bindings)[name] == bindings[k].1
    {
      BindingKeeps(params, bindings, k);
    }
  }

  /** No text occurs twice in a list of names. */
  ghost predicate NoRepeats(names: seq<string>) {
    forall k, l :: 0 <= k < l < |names| ==> names[k] != names[l]
  }

  /**
   Parameter names never collide: the placeholders of a clause are pairwise different texts, each is bound to the value
   it was made for, and there are no other parameters.
   */
  lemma ParametersMatchPlaceholders(f: Members)
    requires ValidFilter(f)
    ensures var e := EmitFilter(f).0;
            var params, names := BindAll(map[], e.bindings), AllPlaceholders(e.preds);
            && NoRepeats(names) && |names| == |e.bindings|
            && (forall name :: name in params <==> name in names)
            && (forall k :: 0 <= k < |names| ==> names[k] in params && params[names[k]] == e.bindings[k].1)
  {
    var bindings := EmitFilter(f).0.bindings;
    FilterNamesDistinct(f);
    PlaceholdersAreBindings(f);
    hide EmitFilter, AllPlaceholders, BindAll, NameText;
    NamesDoNotRepeat(bindings);
    forall name
      ensures name in BindAll(map[], bindings) <==> name in Names(bindings)
    {
      BindingAdds(map[], bindings, name);
    }
    forall k | 0 <= k < |bindings|
      ensures var name := NameText(bindings[k].0);
              name in BindAll(map[], bindings) && BindAll(map[], bindings)[name] == bindings[k].1
    {
      BindingKeeps(map[], bindings, k);
    }
  }

  lemma NamesDoNotRepeat(bindings: seq<Binding>)
    requires Distinct(bindings)
    ensures NoRepeats(Names(bindings))
  {
    hide NameText;
    forall k, l | 0 <= k < l < |bindings|
      ensures NameText(bindings[k].0) != NameText(bindings[l].0)
    {
      if NameText(bindings[k].0) == NameText(bindings[l].0) {
        NameTextInjective(bindings[k].0, bindings[l].0);
      }
    }
  }

  // ---------------------------------------------------------------------------
  // Meaning
  // ---------------------------------------------------------------------------

  lemma EvalOne(d: Dialect, p: Pred, params: Params, row: Row)
    ensures EvalAll(d, [p], params, row) == Eval(d, p, params, row)
  {
    assert [p][..0] == [];
  }

  lemma LookupItems(params: Params, i: nat, items: seq<Value>)
    requires Agrees(params, ItemBindings(i, items))
    ensures LookupAll(params, Names(ItemBindings(i, items))) == items
  {
    hide NameText;
    var bindings := ItemBindings(i, items);
    forall j | 0 <= j < |items|
      ensures Lookup(params, Names(bindings)[j]) == items[j]
    {
      assert NameText(bindings[j].0) in params && params[NameText(bindings[j].0)] == bindings[j].1;
    }
  }

  /** One operator's predicate, evaluated under any parameters that hold its bindings, means what the operator says. */
  lemma OpKept(
      d: Dialect, col: string, op: string, v: Value, i: nat, params: Params, row: Row)
    requires ValidOp(op, v) && Agrees(params, EmitOp(col, op, v, i).bindings)
    ensures EvalAll(d, EmitOp(col, op, v, i).preds, params, row)
         == match OpMeaning(d, op, Column(row, col), v) case Some(t) => t case None => True
  {
    hide NameText, In3;
    var e := EmitOp(col, op, v, i);
    if |e.preds| == 1 {
      EvalOne(d, e.preds[0], params, row);
    }
    if IsArrayOp(op) {
      LookupItems(params, i, v.items);
    } else if !IsNullOp(op) {
      forall k | 0 <= k < |e.bindings|
        ensures Lookup(params, NameText(e.bindings[k].0)) == e.bindings[k].1
      {
      }
      if op == "$between" {
        assert e.bindings[0] == (StartOf(i), v.items[0]) && e.bindings[1] == (EndOf(i), v.items[1]);
      } else {
        assert e.bindings[0] == (Single(i), v);
      }
    }
  }

  lemma AgreesParts(params: Params, a: Emission, b: Emission)
    requires Agrees(params, Plus(a, b).bindings)
    ensures Agrees(params, a.bindings) && Agrees(params, b.bindings)
  {
    hide NameText;
    var all := Plus(a, b).bindings;
    assert forall k :: 0 <= k < |a.bindings| ==> a.bindings[k] == all[k];
    assert forall k :: 0 <= k < |b.bindings| ==> b.bindings[k] == all[|a.bindings| + k];
  }

  lemma {:induction false} OpsKept(d: Dialect, col: string, ops: Members, i: nat, params: Params, row: Row)
    requires ValidOps(ops) && Agrees(params, EmitOps(col, ops, i).0.bindings)
    ensures EvalAll(d, EmitOps(col, ops, i).0.preds, params, row) == OpsMeaning(d, ops, Column(row, col))
  {
    if |ops| > 0 {
      hide Agrees, EmitOp, Eval, OpMeaning;
      var n := |ops| - 1;
      var (before, j) := EmitOps(col, ops[..n], i);
      var last := EmitOp(col, ops[n].0, ops[n].1, j);
      AgreesParts(params, before, last);
      OpsKept(d, col, ops[..n], i, params, row);
      OpKept(d, col, ops[n].0, ops[n].1, j, params, row);
      EvalAllConcat(d, before.preds, last.preds, params, row);
    }
  }

  lemma CriteriaKept(d: Dialect, col: string, v: Value, i: nat, params: Params, row: Row)
    requires v.Object? ==> ValidOps(v.members)
    requires Agrees(params, EmitCriteria(col, v, i).0.bindings)
    ensures EvalAll(d, EmitCriteria(col, v, i).0.preds, params, row)
         == if v.Object? then OpsMeaning(d, v.members, Column(row, col)) else Compare3(d, Eq, Column(row, col), v)
  {
    hide NameText;
    if v.Object? {
      OpsKept(d, col, v.members, i, params, row);
    } else {
      var e := EmitCriteria(col, v, i).0;
      EvalOne(d, e.preds[0], params, row);
      assert e.bindings[0] == (Single(i), v);
    }
  }

  /** Under any parameters that hold the filter's bindings, the emitted predicates mean what the filter means. */
  lemma {:induction false} FilterKept(d: Dialect, f: Members, params: Params, row: Row)
    requires ValidFilter(f) && Agrees(params, EmitFilter(f).0.bindings)
    ensures EvalAll(d, EmitFilter(f).0.preds, params, row) == Meaning(d, f, row)
  {
    if |f| > 0 {
      hide Agrees, EmitCriteria, Eval, OpsMeaning;
      var n := |f| - 1;
      var (before, i) := EmitFilter(f[..n]);
      var last := EmitCriteria(f[n].0, f[n].1, i).0;
      AgreesParts(params, before, last);
      FilterKept(d, f[..n], params, row);
      CriteriaKept(d, f[n].0, f[n].1, i, params, row);
      EvalAllConcat(d, before.preds, last.preds, params, row);
    }
  }

  /** Whether a row is selected by a clause: the clause parses and is TRUE, not just unknown. */
  predicate Selects(d: Dialect, clause: seq<Token>, params: Params, row: Row) {
    match ParseClause(clause)
    case None => false
    case Some(preds) => EvalAll(d, preds, params, row) == True
  }

  lemma EmptyClause(preds: seq<Pred>)
    ensures Clause(preds) == [] <==> |preds| == 0
  {
    if |preds| > 0 {
      ParseOfClause(preds);
    }
  }

  /** The printed clause, parsed and run under its parameters, selects exactly the rows where the filter is TRUE. */
  lemma ClauseSelectsMeaning(d: Dialect, f: Members, params: Params, row: Row)
    requires ValidFilter(f) && Clause(EmitFilter(f).0.preds) != []
    requires Agrees(params, EmitFilter(f).0.bindings)
    ensures Selects(d, Clause(EmitFilter(f).0.preds), params, row) <==> Meaning(d, f, row) == True
  {
    EmptyClause(EmitFilter(f).0.preds);
    ParseOfClause(EmitFilter(f).0.preds);
    FilterKept(d, f, params, row);
  }

  /** A predicate is emitted exactly if the filter constrains something. */
  lemma {:induction false} OpsEmitIffConstrain(col: string, ops: Members, i: nat)
    requires ValidOps(ops)
    ensures |EmitOps(col, ops, i).0.preds| > 0 <==> OpsConstrain(ops)
  {
    if |ops| > 0 {
      var n := |ops| - 1;
      OpsEmitIffConstrain(col, ops[..n], i);
      if OpsConstrain(ops[..n]) {
        var k :| 0 <= k < n && (IsNullOp(ops[..n][k].0) ==> ops[..n][k].1.Bool?);
        assert ops[k] == ops[..n][k];
      }
      assert forall k :: 0 <= k < n ==> ops[k] == ops[..n][k];
    }
  }

  lemma {:induction false} EmitsIffConstrains(f: Members)
    requires ValidFilter(f)
    ensures |EmitFilter(f).0.preds| > 0 <==> Constrains(f)
  {
    if |f| > 0 {
      var n := |f| - 1;
      EmitsIffConstrains(f[..n]);
      var i := EmitFilter(f[..n]).1;
      if f[n].1.Object? {
        OpsEmitIffConstrain(f[n].0, f[n].1.members, i);
      }
      assert forall k :: 0 <= k < n ==> f[k] == f[..n][k];
      if Constrains(f[..n]) {
        var k :| 0 <= k < n && MemberConstrains(f[..n][k]);
        assert f[k] == f[..n][k];
      }
    }
  }

  // ---------------------------------------------------------------------------
  // When a filter is TRUE
  // ---------------------------------------------------------------------------

  /** x is one of the values, as SQL compares them. */
  ghost predicate EqualsSome(d: Dialect, x: Value, values: seq<Value>) {
    exists k :: 0 <= k < |values| && x != Null && values[k] != Null && d.compare(Eq, x, values[k])
  }

  ghost predicate DiffersFromAll(d: Dialect, x: Value, values: seq<Value>) {
    forall k :: 0 <= k < |values| ==> x != Null && values[k] != Null && !d.compare(Eq, x, values[k])
  }

  lemma {:induction false} InIsEqualsSome(d: Dialect, x: Value, values: seq<Value>)
    ensures In3(d, x, values) == True <==> EqualsSome(d, x, values)
    ensures In3(d, x, values) == False <==> DiffersFromAll(d, x, values)
  {
    if |values| > 0 {
      var n := |values| - 1;
      InIsEqualsSome(d, x, values[..n]);
      assert forall k :: 0 <= k < n ==> values[..n][k] == values[k];
      if EqualsSome(d, x, values[..n]) {
        var k :| 0 <= k < n && x != Null && values[..n][k] != Null && d.compare(Eq, x, values[..n][k]);
        assert values[k] == values[..n][k];
      }
    }
  }

  /** When one operator is TRUE of a column value, in plain logic: never of NULL, but for the null operators. */
  lemma OperatorTrue(d: Dialect, op: string, x: Value, v: Value)
    requires ValidOp(op, v)
    ensures OpMeaning(d, op, x, v) == Some(True) <==>
              match op
              case "$eq" => x != Null && v != Null && d.compare(Eq, x, v)
              case "$ne" => x != Null && v != Null && d.compare(Ne, x, v)
              case "$gt" => x != Null && v != Null && d.compare(Gt, x, v)
              case "$gte" => x != Null && v != Null && d.compare(Ge, x, v)
              case "$lt" => x != Null && v != Null && d.compare(Lt, x, v)
              case "$lte" => x != Null && v != Null && d.compare(Le, x, v)
              case "$like" => x != Null && v != Null && d.like(x, v)
              case "$ilike" =>
                x != Null && v != Null && d.lower(x) != Null && d.lower(v) != Null && d.like(d.lower(x), d.lower(v))
              case "$between" =>
                && x != Null && v.items[0] != Null && v.items[1] != Null
                && d.compare(Ge, x, v.items[0]) && d.compare(Le, x, v.items[1])
              case "$in" => EqualsSome(d, x, v.items)
              case "$nin" => DiffersFromAll(d, x, v.items)
              case "$null" => (v == Bool(true) && x == Null) || (v == Bool(false) && x != Null)
              case _ => (v == Bool(true) && x != Null) || (v == Bool(false) && x == Null)
  {
    hide In3, EqualsSome, DiffersFromAll;
    if op == "$in" || op == "$nin" {
      InIsEqualsSome(d, x, v.items);
    }
  }

  lemma {:induction false} OpsTrueIffAll(d: Dialect, ops: Members, x: Value)
    requires ValidOps(ops)
    ensures OpsMeaning(d, ops, x) == True
       <==> forall k :: 0 <= k < |ops| ==> OpMeaning(d, ops[k].0, x, ops[k].1) in {None, Some(True)}
  {
    if |ops| > 0 {
      hide OpMeaning;
      var n := |ops| - 1;
      OpsTrueIffAll(d, ops[..n], x);
      assert forall k :: 0 <= k < n ==> ops[..n][k] == ops[k];
    }
  }

  /** One member of a filter is TRUE of a row: all its operators are, or say nothing; or the column equals the value. */
  ghost predicate MemberTrue(d: Dialect, member: (string, Value), row: Row)
    requires member.1.Object? ==> ValidOps(member.1.members)
  {
    var x, v := if member.0 in row then row[member.0] else Null, member.1;
    if v.Object?
    then forall k :: 0 <= k < |v.members| ==> OpMeaning(d, v.members[k].0, x, v.members[k].1) in {None, Some(True)}
    else x != Null && v != Null && d.compare(Eq, x, v)
  }

  /** A filter is TRUE of a row exactly if every member is. */
  lemma {:induction false} FilterTrueIffAll(d: Dialect, f: Members, row: Row)
    requires ValidFilter(f)
    ensures Meaning(d, f, row) == True <==> forall k :: 0 <= k < |f| ==> MemberTrue(d, f[k], row)
  {
    if |f| > 0 {
      hide OpMeaning, OpsMeaning;
      var n := |f| - 1;
      FilterTrueIffAll(d, f[..n], row);
      assert forall k :: 0 <= k < n ==> f[..n][k] == f[k];
      if f[n].1.Object? {
        OpsTrueIffAll(d, f[n].1.members, Column(row, f[n].0));
      }
    }
  }

  // ---------------------------------------------------------------------------
  // The shared index
  // ---------------------------------------------------------------------------

  /** How many operators need a parameter: all but the null operators. */
  function Parameterised(ops: Members): nat {
    if |ops| == 0 then 0
    else
      var op := ops[|ops| - 1].0;
      Parameterised(ops[..|ops| - 1]) + (if op == "$null" || op == "$not_null" then 0 else 1)
  }

  function UsedIndices(f: Members): nat {
    if |f| == 0 then 0
    else
      var v := f[|f| - 1].1;
      UsedIndices(f[..|f| - 1]) + (if v.Object? then Parameterised(v.members) else 1)
  }

  lemma {:induction false} OpsUseIndices(col: string, ops: Members, i: nat)
    requires ValidOps(ops)
    ensures EmitOps(col, ops, i).1 == i + Parameterised(ops)
  {
    if |ops| > 0 {
      OpsUseIndices(col, ops[..|ops| - 1], i);
    }
  }

  /** The index counts the operators and values that need a parameter: null operators give theirs back. */
  lemma {:induction false} FilterUsesIndices(f: Members)
    requires ValidFilter(f)
    ensures EmitFilter(f).1 == UsedIndices(f)
  {
    if |f| > 0 {
      FilterUsesIndices(f[..|f| - 1]);
      var v := f[|f| - 1].1;
      if v.Object? {
        OpsUseIndices(f[|f| - 1].0, v.members, UsedIndices(f[..|f| - 1]));
      }
    }
  }

  /** Predicates and parameters come in the order of the filter's members. */
  lemma {:induction false} EmittedInOrder(f: Members, k: nat)
    requires ValidFilter(f) && k <= |f|
    ensures ValidFilter(f[..k])
    ensures EmitFilter(f[..k]).0.preds <= EmitFilter(f).0.preds
    ensures EmitFilter(f[..k]).0.bindings <= EmitFilter(f).0.bindings
  {
    if k == |f| {
      assert f[..k] == f;
    } else {
      var n := |f| - 1;
      EmittedInOrder(f[..n], k);
      assert f[..n][..k] == f[..k];
    }
  }

  lemma {:induction false} OperatorsInOrder(col: string, ops: Members, i: nat, k: nat)
    requires ValidOps(ops) && k <= |ops|
    ensures EmitOps(col, ops[..k], i).0.preds <= EmitOps(col, ops, i).0.preds
    ensures EmitOps(col, ops[..k], i).0.bindings <= EmitOps(col, ops, i).0.bindings
  {
    if k == |ops| {
      assert ops[..k] == ops;
    } else {
      var n := |ops| - 1;
      OperatorsInOrder(col, ops[..n], i, k);
      assert ops[..n][..k] == ops[..k];
    }
  }
}
