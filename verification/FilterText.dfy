/** From a filter to the text of its WHERE clause and back to its meaning. */
module FilterText {
  import opened Decimal
  import opened FilterBuilder
  import opened FilterMeaning
  import opened Outcomes
  import opened ParamNames
  import opened SqlPredicates
  import opened SqlText

  /** Every column that the filter constrains is a single name. */
  ghost predicate SingleNames(f: Members) {
    forall k :: 0 <= k < |f| && MemberConstrains(f[k]) ==> PlainColumn(f[k].0)
  }

  ghost predicate AllOn(preds: seq<Pred>, col: string) {
    forall k :: 0 <= k < |preds| ==> preds[k].col == col
  }

  lemma NamesWords(bindings: seq<Binding>)
    ensures AllWords(Names(bindings))
  {
    hide NameText, IsWord;
    forall k | 0 <= k < |bindings|
      ensures IsWord(NameText(bindings[k].0))
    {
      NamesAreWords(bindings[k].0);
    }
  }

  lemma EmitOpOnColumn(col: string, op: string, v: Value, i: nat)
    requires ValidOp(op, v)
    ensures AllOn(EmitOp(col, op, v, i).preds, col) && WordParams(EmitOp(col, op, v, i).preds)
  {
    hide NameText, IsWord;
    var e := EmitOp(col, op, v, i);
    NamesWords(e.bindings);
    EmitOpPlaceholders(col, op, v, i);
    if |e.preds| == 1 {
      assert e.preds[..0] == [];
      assert AllPlaceholders(e.preds) == [] + Placeholders(e.preds[0]);
      assert Placeholders(e.preds[0]) == Names(e.bindings);
    }
  }

  lemma {:induction false} EmitOpsOnColumn(col: string, ops: Members, i: nat)
    requires ValidOps(ops)
    ensures AllOn(EmitOps(col, ops, i).0.preds, col) && WordParams(EmitOps(col, ops, i).0.preds)
  {
    if |ops| > 0 {
      hide EmitOp;
      var n := |ops| - 1;
      EmitOpsOnColumn(col, ops[..n], i);
      EmitOpOnColumn(col, ops[n].0, ops[n].1, EmitOps(col, ops[..n], i).1);
    }
  }

  /** What is emitted for one member is on its column, and there is something exactly if the member constrains it. */
  lemma EmitCriteriaOnColumn(col: string, v: Value, i: nat)
    requires v.Object? ==> ValidOps(v.members)
    ensures var preds := EmitCriteria(col, v, i).0.preds;
            AllOn(preds, col) && WordParams(preds) && (|preds| > 0 <==> MemberConstrains((col, v)))
  {
    if v.Object? {
      EmitOpsOnColumn(col, v.members, i);
      OpsEmitIffConstrain(col, v.members, i);
    } else {
      NamesAreWords(Single(i));
      hide NameText, IsWord;
    }
  }

  lemma PlainColumnsConcat(a: seq<Pred>, b: seq<Pred>)
    ensures PlainColumns(a + b) <==> PlainColumns(a) && PlainColumns(b)
    ensures WordParams(a) && WordParams(b) ==> WordParams(a + b)
  {
    hide PlainColumn, AllWords;
    assert forall k :: 0 <= k < |a| ==> a[k] == (a + b)[k];
    assert forall k :: 0 <= k < |b| ==> b[k] == (a + b)[|a| + k];
  }

  lemma PlainOnColumn(preds: seq<Pred>, col: string)
    requires AllOn(preds, col)
    ensures PlainColumns(preds) <==> |preds| > 0 ==> PlainColumn(col)
  {
    if |preds| > 0 {
      assert preds[0].col == col;
    }
  }

  lemma LastEmission(f: Members)
    requires ValidFilter(f) && |f| > 0
    ensures var n := |f| - 1;
            EmitFilter(f).0.preds
            == EmitFilter(f[..n]).0.preds + EmitCriteria(f[n].0, f[n].1, EmitFilter(f[..n]).1).0.preds
  {
  }

  lemma LastSingleName(f: Members)
    requires |f| > 0
    ensures var n := |f| - 1;
            SingleNames(f) <==> SingleNames(f[..n]) && (MemberConstrains(f[n]) ==> PlainColumn(f[n].0))
  {
    hide PlainColumn, MemberConstrains;
    assert forall k :: 0 <= k < |f| - 1 ==> f[..|f| - 1][k] == f[k];
  }

  lemma NoEmission(f: Members)
    requires ValidFilter(f) && |f| == 0
    ensures WordParams(EmitFilter(f).0.preds) && PlainColumns(EmitFilter(f).0.preds) && SingleNames(f)
  {
  }

  /** The emitted columns are single names exactly if the constrained ones are, and the parameters are words. */
  lemma {:induction false} EmitFilterColumns(f: Members)
    requires ValidFilter(f)
    ensures WordParams(EmitFilter(f).0.preds)
    ensures PlainColumns(EmitFilter(f).0.preds) <==> SingleNames(f)
  {
    if |f| > 0 {
      var n := |f| - 1;
      EmitFilterColumns(f[..n]);
      EmitCriteriaOnColumn(f[n].0, f[n].1, EmitFilter(f[..n]).1);
      LastEmission(f);
      LastSingleName(f);
      var before, last := EmitFilter(f[..n]).0.preds, EmitCriteria(f[n].0, f[n].1, EmitFilter(f[..n]).1).0.preds;
      PlainOnColumn(last, f[n].0);
      PlainColumnsConcat(before, last);
      assert f[n] == (f[n].0, f[n].1);
    } else {
      NoEmission(f);
    }
    hide *;
  }

  // ---------------------------------------------------------------------------
  // The text of one operator
  // ---------------------------------------------------------------------------

  /** :p_0, :p_1, ... with n of them */
  function ItemList(p: string, n: nat): string {
    if n == 0 then "" else ItemList(p, n - 1) + (if n == 1 then "" else ", ") + ":" + p + "_" + Print(n - 1)
  }

  lemma {:induction false} ListTextAppend(names: seq<string>, name: string)
    ensures ListText(names + [name]) == ListText(names) + (if |names| == 0 then "" else ", ") + ":" + name
    decreases |names|
  {
    var all := names + [name];
    if |names| == 1 {
      assert all[1..] == [name];
    } else if |names| > 1 {
      assert all[1..] == names[1..] + [name];
      ListTextAppend(names[1..], name);
    }
  }

  lemma {:induction false} ItemsText(i: nat, items: seq<Value>)
    ensures ListText(Names(ItemBindings(i, items))) == ItemList("__p_" + Print(i), |items|)
  {
    if |items| > 0 {
      var n := |items| - 1;
      ItemsText(i, items[..n]);
      assert Names(ItemBindings(i, items)) == Names(ItemBindings(i, items[..n])) + [NameText(Item(i, n))];
      ListTextAppend(Names(ItemBindings(i, items[..n])), NameText(Item(i, n)));
    }
  }

  lemma {:induction false} ListOperatorText(col: string, op: string, v: Value, i: nat)
    requires ValidOp(op, v) && (op == "$in" || op == "$nin")
    ensures ClauseText(EmitOp(col, op, v, i).preds)
         == col + (if op == "$in" then " IN (" else " NOT IN (") + ItemList("__p_" + Print(i), |v.items|) + ")"
  {
    ItemsText(i, v.items);
    hide Print, ListText, ItemList, Names;
  }

  lemma {:induction false} NullOperatorText(col: string, op: string, v: Value, i: nat)
    requires op == "$null" || op == "$not_null"
    ensures ClauseText(EmitOp(col, op, v, i).preds)
         == if v.Bool? then col + (if (op == "$null") == v.b then " IS NULL" else " IS NOT NULL") else ""
  {
  }

  lemma ClauseOfOneText(p: Pred)
    ensures ClauseText([p]) == PredText(p)
  {
  }

  lemma {:induction false} ComparisonText(col: string, op: string, v: Value, i: nat)
    requires op in {"$eq", "$ne", "$gt", "$gte", "$lt", "$lte"}
    ensures var sign := match op
                        case "$eq" => " = :"
                        case "$ne" => " != :"
                        case "$gt" => " > :"
                        case "$gte" => " >= :"
                        case "$lt" => " < :"
                        case _ => " <= :";
            ClauseText(EmitOp(col, op, v, i).preds) == col + sign + ("__p_" + Print(i))
  {
    ClauseOfOneText(EmitOp(col, op, v, i).preds[0]);
    hide Print, ClauseText;
  }

  lemma {:induction false} PatternText(col: string, op: string, v: Value, i: nat)
    requires op in {"$like", "$ilike", "$between"} && ValidOp(op, v)
    ensures var text, p := ClauseText(EmitOp(col, op, v, i).preds), "__p_" + Print(i);
            match op
            case "$like" => text == col + " LIKE :" + p
            case "$ilike" => text == "LOWER(" + col + ") LIKE LOWER(:" + p + ")"
            case _ => text == col + " BETWEEN :" + p + "_start AND :" + p + "_end"
  {
    ClauseOfOneText(EmitOp(col, op, v, i).preds[0]);
    hide Print, ClauseText;
  }

  /** What the clause text says for each operator, at any index; the name of its parameter is p. */
  lemma OperatorText(col: string, op: string, v: Value, i: nat)
    requires ValidOp(op, v)
    ensures var text, p := ClauseText(EmitOp(col, op, v, i).preds), "__p_" + Print(i);
            match op
            case "$eq" => text == col + " = :" + p
            case "$ne" => text == col + " != :" + p
            case "$gt" => text == col + " > :" + p
            case "$gte" => text == col + " >= :" + p
            case "$lt" => text == col + " < :" + p
            case "$lte" => text == col + " <= :" + p
            case "$like" => text == col + " LIKE :" + p
            case "$ilike" => text == "LOWER(" + col + ") LIKE LOWER(:" + p + ")"
            case "$between" => text == col + " BETWEEN :" + p + "_start AND :" + p + "_end"
            case "$in" => text == col + " IN (" + ItemList(p, |v.items|) + ")"
            case "$nin" => text == col + " NOT IN (" + ItemList(p, |v.items|) + ")"
            case "$null" => text == if v.Bool? then col + (if v.b then " IS NULL" else " IS NOT NULL") else ""
            case _ => text == if v.Bool? then col + (if v.b then " IS NOT NULL" else " IS NULL") else ""
  {
    hide EmitOp, ClauseText, Print;
    if op == "$in" || op == "$nin" {
      ListOperatorText(col, op, v, i);
    } else if op == "$null" || op == "$not_null" {
      NullOperatorText(col, op, v, i);
    } else if op == "$like" || op == "$ilike" || op == "$between" {
      PatternText(col, op, v, i);
    } else {
      ComparisonText(col, op, v, i);
    }
  }

  /** A plain value stands for equality. */
  lemma PlainValueText(col: string, v: Value, i: nat)
    requires !v.Object?
    ensures ClauseText(EmitCriteria(col, v, i).0.preds) == col + " = :__p_" + Print(i)
  {
    hide Print;
  }

  // ---------------------------------------------------------------------------
  // The text of a filter
  // ---------------------------------------------------------------------------

  /**
   The text of a filter's WHERE clause lexes back to its clause if and only if every constrained column is a single
   name, plain, quoted or dotted.
   */
  lemma FilterTextReadsBackIffSingleNames(f: Members)
    requires ValidFilter(f) && Constrains(f)
    ensures var preds := EmitFilter(f).0.preds;
            Lex(ClauseText(preds)) == Some(Clause(preds)) <==> SingleNames(f)
  {
    EmitFilterColumns(f);
    EmitsIffConstrains(f);
    ClauseTextReadsBack(EmitFilter(f).0.preds);
  }

  /**
   End to end on text: then that text, lexed, parsed and run under the returned parameters, selects exactly the rows
   where the filter is TRUE.
   */
  lemma {:induction false} FilterTextKeepsMeaning(d: Dialect, f: Members, row: Row)
    requires ValidFilter(f) && Constrains(f) && SingleNames(f)
    ensures var text, params := ClauseText(EmitFilter(f).0.preds), BindAll(map[], EmitFilter(f).0.bindings);
            && Spell(Clause(EmitFilter(f).0.preds)) == text
            && Lex(text).Some?
            && (Selects(d, Lex(text).value, params, row) <==> Meaning(d, f, row) == True)
  {
    var e := EmitFilter(f).0;
    FilterTextReadsBackIffSingleNames(f);
    SpellClause(e.preds);
    EmitsIffConstrains(f);
    EmptyClause(e.preds);
    FilterNamesDistinct(f);
    BindingAgrees(map[], e.bindings);
    ClauseSelectsMeaning(d, f, BindAll(map[], e.bindings), row);
  }
}
