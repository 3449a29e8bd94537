/** The compiler from JSON filters to WHERE clauses, and the statements built from them. */
module FilterBuilder {
  import opened Outcomes
  import opened ParamNames
  import opened SqlPredicates

  /** The members of a JSON object in order: column to criteria, or operator to value. */
  type Members = seq<(string, Value)>

  // ---------------------------------------------------------------------------
  // The direct meaning of a filter
  // ---------------------------------------------------------------------------

  /** The operator exists and its value has the shape it needs. */
  predicate ValidOp(op: string, v: Value) {
    if op == "$in" || op == "$nin" then v.List? || v.Tuple?
    else if op == "$between" then v.List? && |v.items| == 2
    else op in {"$eq", "$ne", "$gt", "$gte", "$lt", "$lte", "$like", "$ilike", "$null", "$not_null"}
  }

  /** What one operator says about a column value; None where it says nothing. */
  function OpMeaning(d: Dialect, op: string, x: Value, v: Value): Option<Truth>
    requires ValidOp(op, v)
  {
    if op == "$in" then Some(In3(d, x, v.items))
    else if op == "$nin" then Some(Not(In3(d, x, v.items)))
    else if op == "$between" then Some(And(Compare3(d, Ge, x, v.items[0]), Compare3(d, Le, x, v.items[1])))
    else if op == "$null" then (if v.Bool? then Some(Known((x == Null) == v.b)) else None)
    else if op == "$not_null" then (if v.Bool? then Some(Known((x != Null) == v.b)) else None)
    else if op == "$like" then Some(Like3(d, x, v))
    else if op == "$ilike" then Some(Like3(d, Lower3(d, x), Lower3(d, v)))
    else if op == "$eq" then Some(Compare3(d, Eq, x, v))
    else if op == "$ne" then Some(Compare3(d, Ne, x, v))
    else if op == "$gt" then Some(Compare3(d, Gt, x, v))
    else if op == "$gte" then Some(Compare3(d, Ge, x, v))
    else if op == "$lt" then Some(Compare3(d, Lt, x, v))
    else Some(Compare3(d, Le, x, v))
  }

  predicate ValidOps(ops: Members) {
    forall k :: 0 <= k < |ops| ==> ValidOp(ops[k].0, ops[k].1)
  }

  /** All operators on one column hold. */
  function OpsMeaning(d: Dialect, ops: Members, x: Value): Truth
    requires ValidOps(ops)
  {
    if |ops| == 0 then True
    else
      var n := |ops| - 1;
      var last := OpMeaning(d, ops[n].0, x, ops[n].1);
      And(OpsMeaning(d, ops[..n], x), if last.Some? then last.value else True)
  }

  predicate ValidFilter(f: Members) {
    forall k :: 0 <= k < |f| && f[k].1.Object? ==> ValidOps(f[k].1.members)
  }

  /** All columns' criteria hold; a value that is not an object stands for equality with it. */
  function Meaning(d: Dialect, f: Members, row: Row): Truth
    requires ValidFilter(f)
  {
    if |f| == 0 then True
    else
      var n := |f| - 1;
      var x := Column(row, f[n].0);
      And(Meaning(d, f[..n], row),
          if f[n].1.Object? then OpsMeaning(d, f[n].1.members, x) else Compare3(d, Eq, x, f[n].1))
  }

  predicate OpsConstrain(ops: Members) {
    exists k :: 0 <= k < |ops| && (ops[k].0 == "$null" || ops[k].0 == "$not_null" ==> ops[k].1.Bool?)
  }

  /** The member constrains its column. */
  predicate MemberConstrains(member: (string, Value)) {
    member.1.Object? ==> OpsConstrain(member.1.members)
  }

  /** The filter constrains something: not only empty criteria and null operators without a boolean. */
  predicate Constrains(f: Members) {
    exists k :: 0 <= k < |f| && MemberConstrains(f[k])
  }

  /**
   The filters that are refused: an operator that does not exist, an array operator on anything but a list or tuple, and
   a between on anything but a list of two values. Every other operator takes any value.
   */
  lemma OperatorsAccepted(op: string, v: Value)
    ensures var free := {"$eq", "$ne", "$gt", "$gte", "$lt", "$lte", "$like", "$ilike", "$null", "$not_null"};
            && (op in free ==> ValidOp(op, v))
            && (op !in free + {"$in", "$nin", "$between"} ==> !ValidOp(op, v))
    ensures op in {"$in", "$nin"} ==> (ValidOp(op, v) <==> exists items :: v == List(items) || v == Tuple(items))
    ensures op == "$between" ==> (ValidOp(op, v) <==> exists low, high :: v == List([low, high]))
  {
    if v.List? || v.Tuple? {
      assert v == List(v.items) || v == Tuple(v.items);
      if |v.items| == 2 {
        assert v.items == [v.items[0], v.items[1]];
      }
    }
  }

  // ---------------------------------------------------------------------------
  // What is emitted
  // ---------------------------------------------------------------------------

  predicate IsArray(v: Value) {
    v.List? || v.Tuple?
  }

  predicate IsArrayOp(op: string) {
    op == "$in" || op == "$nin"
  }

  predicate IsNullOp(op: string) {
    op == "$null" || op == "$not_null"
  }

  function CompareOpOf(op: string): Option<CompareOp> {
    if op == "$eq" then Some(Eq) else if op == "$ne" then Some(Ne)
    else if op == "$gt" then Some(Gt) else if op == "$gte" then Some(Ge)
    else if op == "$lt" then Some(Lt) else if op == "$lte" then Some(Le) else None
  }

  type Binding = (ParamName, Value)

  datatype Emission = Emission(preds: seq<Pred>, bindings: seq<Binding>)

  function Plus(a: Emission, b: Emission): Emission {
    Emission(a.preds + b.preds, a.bindings + b.bindings)
  }

  function ItemBindings(i: nat, items: seq<Value>): seq<Binding> {
    seq(|items|, j requires 0 <= j < |items| => (Item(i, j), items[j]))
  }

  function Names(bindings: seq<Binding>): seq<string> {
    seq(|bindings|, k requires 0 <= k < |bindings| => NameText(bindings[k].0))
  }

  function EmitOp(col: string, op: string, v: Value, i: nat): Emission
    requires ValidOp(op, v)
  {
    if IsArrayOp(op) then
      var bindings := ItemBindings(i, v.items);
      Emission([In(col, op == "$nin", Names(bindings))], bindings)
    else if IsNullOp(op) then
      Emission(if v.Bool? then [IsNull(col, (op == "$null") != v.b)] else [], [])
    else if op == "$between" then
      Emission([Between(col, NameText(StartOf(i)), NameText(EndOf(i)))],
               [(StartOf(i), v.items[0]), (EndOf(i), v.items[1])])
    else
      var name := NameText(Single(i));
      Emission([if op == "$like" then Like(col, name) else if op == "$ilike" then ILike(col, name)
                else Compare(col, CompareOpOf(op).value, name)],
               [(Single(i), v)])
  }

  /** Null operators give their index back. */
  function NextIndex(op: string, i: nat): nat {
    if IsNullOp(op) then i else i + 1
  }

  function EmitOps(col: string, ops: Members, i: nat): (Emission, nat)
    requires ValidOps(ops)
  {
    if |ops| == 0 then (Emission([], []), i)
    else
      var n := |ops| - 1;
      var (before, j) := EmitOps(col, ops[..n], i);
      (Plus(before, EmitOp(col, ops[n].0, ops[n].1, j)), NextIndex(ops[n].0, j))
  }

  function EmitCriteria(col: string, v: Value, i: nat): (Emission, nat)
    requires v.Object? ==> ValidOps(v.members)
  {
    if v.Object? then EmitOps(col, v.members, i)
    else (Emission([Compare(col, Eq, NameText(Single(i)))], [(Single(i), v)]), i + 1)
  }

  function EmitFilter(f: Members): (Emission, nat)
    requires ValidFilter(f)
  {
    if |f| == 0 then (Emission([], []), 0)
    else
      var n := |f| - 1;
      var (before, i) := EmitFilter(f[..n]);
      var (last, j) := EmitCriteria(f[n].0, f[n].1, i);
      (Plus(before, last), j)
  }

  /** Parameters are stored one after the other; a name used twice would keep its last value. */
  function BindAll(params: Params, bindings: seq<Binding>): Params {
    if |bindings| == 0 then params
    else
      var n := |bindings| - 1;
      BindAll(params, bindings[..n])[NameText(bindings[n].0) := bindings[n].1]
  }

  lemma {:induction false} BindAllConcat(params: Params, a: seq<Binding>, b: seq<Binding>)
    ensures BindAll(params, a + b) == BindAll(BindAll(params, a), b)
    decreases |b|
  {
    if |b| == 0 {
      assert a + b == a;
    } else {
      BindAllConcat(params, a, b[..|b| - 1]);
      assert (a + b)[..|a + b| - 1] == a + b[..|b| - 1];
    }
  }

  lemma PrintedConcat(a: seq<Pred>, b: seq<Pred>)
    ensures Printed(a + b) == Printed(a) + Printed(b)
  {
  }

  // ---------------------------------------------------------------------------
  // The builder
  // ---------------------------------------------------------------------------

  /** The two accumulators that the operator helpers are handed: printed predicates and parameters. */
  class ClauseBuilder {
    var whereParts: seq<seq<Token>>
    var params: Params

    constructor ()
      ensures whereParts == [] && params == map[]
    {
      whereParts, params := [], map[];
    }

    ghost predicate Extends(parts: seq<seq<Token>>, bound: Params, e: Emission)
      reads this
    {
      whereParts == parts + Printed(e.preds) && params == BindAll(bound, e.bindings)
    }

    method ProcessArrayOperator(col: string, op: string, v: Value, index: nat) returns (ok: bool)
      requires IsArrayOp(op)
      modifies this
      ensures ok == ValidOp(op, v)
      ensures ok ==> Extends(old(whereParts), old(params), EmitOp(col, op, v, index))
    {
      if !IsArray(v) {
        return false;
      }
      ghost var all := ItemBindings(index, v.items);
      var placeholders: seq<string> := [];
      for i := 0 to |v.items|
        invariant whereParts == old(whereParts)
        invariant placeholders == Names(all[..i]) && params == BindAll(old(params), all[..i])
      {
        assert all[..i + 1][..i] == all[..i] && all[..i + 1][i] == (Item(index, i), v.items[i]);
        var name := NameText(Item(index, i));
        placeholders := placeholders + [name];
        params := params[name := v.items[i]];
      }
      assert all[..|all|] == all;
      whereParts := whereParts + [Tokens(In(col, op == "$nin", placeholders))];
      return true;
    }

    method ProcessNullOperator(col: string, op: string, v: Value, index: nat)
      requires IsNullOp(op)
      modifies this`whereParts
      ensures Extends(old(whereParts), old(params), EmitOp(col, op, v, index))
    {
      if v == Bool(true) {
        whereParts := whereParts + [Tokens(IsNull(col, op != "$null"))];
      } else if v == Bool(false) {
        whereParts := whereParts + [Tokens(IsNull(col, op == "$null"))];
      }
    }

    method ProcessStandardOperator(col: string, op: string, v: Value, index: nat) returns (ok: bool)
      requires !IsArrayOp(op) && !IsNullOp(op)
      modifies this
      ensures ok == ValidOp(op, v)
      ensures ok ==> Extends(old(whereParts), old(params), EmitOp(col, op, v, index))
    {
      hide NameText;
      var name := NameText(Single(index));
      if op == "$between" {
        if !v.List? || |v.items| != 2 {
          return false;
        }
        var low, high := NameText(StartOf(index)), NameText(EndOf(index));
        whereParts := whereParts + [Tokens(Between(col, low, high))];
        params := params[low := v.items[0]];
        params := params[high := v.items[1]];
        BindTwo(old(params), (StartOf(index), v.items[0]), (EndOf(index), v.items[1]));
        return true;
      }
      if op == "$like" {
        whereParts := whereParts + [Tokens(Like(col, name))];
      } else if op == "$ilike" {
        whereParts := whereParts + [Tokens(ILike(col, name))];
      } else if CompareOpOf(op).Some? {
        whereParts := whereParts + [Tokens(Compare(col, CompareOpOf(op).value, name))];
      } else {
        return false;
      }
      params := params[name := v];
      BindOne(old(params), (Single(index), v));
      return true;
    }

    /** One operator; null operators give the index back. */
    method RouteOperator(col: string, op: string, v: Value, index: nat) returns (ok: bool, next: nat)
      modifies this
      ensures ok == ValidOp(op, v)
      ensures ok ==> Extends(old(whereParts), old(params), EmitOp(col, op, v, index)) && next == NextIndex(op, index)
    {
      hide EmitOp, Printed, BindAll;
      ok, next := true, index + 1;
      if IsArrayOp(op) {
        ok := ProcessArrayOperator(col, op, v, index);
      } else if IsNullOp(op) {
        ProcessNullOperator(col, op, v, index);
        next := next - 1;
      } else {
        ok := ProcessStandardOperator(col, op, v, index);
      }
    }

    method RouteFilterCriteria(col: string, criteria: Members, index: nat) returns (ok: bool, next: nat)
      modifies this
      ensures ok == ValidOps(criteria)
      ensures ok ==>
                Extends(old(whereParts), old(params), EmitOps(col, criteria, index).0)
                && next == EmitOps(col, criteria, index).1
    {
      hide EmitOp, EmitOps, ValidOp, ValidOps, Printed, BindAll;
      next := index;
      NoOps(col, criteria[..0], index, whereParts, params);
      for k := 0 to |criteria|
        invariant ValidOps(criteria[..k])
        invariant Extends(old(whereParts), old(params), EmitOps(col, criteria[..k], index).0)
        invariant next == EmitOps(col, criteria[..k], index).1
      {
        OneMoreOp(col, criteria, k, index);
        var (op, v) := criteria[k];
        ghost var soFar, name := EmitOps(col, criteria[..k], index).0, next;
        ok, next := RouteOperator(col, op, v, next);
        if !ok {
          return;
        }
        ExtendTwice(old(whereParts), old(params), soFar, EmitOp(col, op, v, name));
      }
      assert criteria[..|criteria|] == criteria;
      ok := true;
    }

    /** One member of the filter. */
    method AddMember(col: string, criteria: Value, index: nat) returns (ok: bool, next: nat)
      modifies this
      ensures ok == (criteria.Object? ==> ValidOps(criteria.members))
      ensures ok ==>
                Extends(old(whereParts), old(params), EmitCriteria(col, criteria, index).0)
                && next == EmitCriteria(col, criteria, index).1
    {
      if criteria.Object? {
        ok, next := RouteFilterCriteria(col, criteria.members, index);
      } else {
        hide NameText;
        var name := NameText(Single(index));
        next := index + 1;
        whereParts := whereParts + [Tokens(Compare(col, Eq, name))];
        params := params[name := criteria];
        BindOne(old(params), (Single(index), criteria));
        ok := true;
      }
    }

    /** All members of the filter, with one shared index. */
    method AddMembers(f: Members) returns (ok: bool)
      modifies this
      ensures ok == ValidFilter(f)
      ensures ok ==> Extends(old(whereParts), old(params), EmitFilter(f).0)
    {
      hide NameText, Printed;
      var index := 0;
      assert f[..0] == [];
      assert Extends(old(whereParts), old(params), EmitFilter([]).0) by {
        NothingPrinted(old(whereParts));
      }
      for k := 0 to |f|
        invariant ValidFilter(f[..k])
        invariant Extends(old(whereParts), old(params), EmitFilter(f[..k]).0)
        invariant index == EmitFilter(f[..k]).1
      {
        hide EmitCriteria, ValidOps, BindAll;
        ghost var soFar, before := EmitFilter(f[..k]).0, index;
        ok, index := AddMember(f[k].0, f[k].1, index);
        if !ok {
          return;
        }
        assert f[..k + 1][..k] == f[..k];
        ExtendTwice(old(whereParts), old(params), soFar, EmitCriteria(f[k].0, f[k].1, before).0);
      }
      assert f[..|f|] == f;
      ok := true;
    }
  }

  lemma NoOps(col: string, ops: Members, i: nat, parts: seq<seq<Token>>, params: Params)
    requires |ops| == 0
    ensures ValidOps(ops) && EmitOps(col, ops, i) == (Emission([], []), i)
    ensures parts + Printed([]) == parts && BindAll(params, []) == params
  {
  }

  lemma OneMoreOp(col: string, ops: Members, k: nat, i: nat)
    requires k < |ops|
    ensures ValidOps(ops[..k + 1]) <==> ValidOps(ops[..k]) && ValidOp(ops[k].0, ops[k].1)
    ensures !ValidOp(ops[k].0, ops[k].1) ==> !ValidOps(ops)
    ensures ValidOps(ops[..k + 1]) ==>
              var (before, j) := EmitOps(col, ops[..k], i);
              EmitOps(col, ops[..k + 1], i)
              == (Plus(before, EmitOp(col, ops[k].0, ops[k].1, j)), NextIndex(ops[k].0, j))
  {
    hide ValidOp, EmitOp;
    assert ops[..k + 1][..k] == ops[..k];
    assert forall l :: 0 <= l < k ==> ops[..k + 1][l] == ops[..k][l];
  }

  lemma NothingPrinted(parts: seq<seq<Token>>)
    ensures parts + Printed([]) == parts
  {
  }

  lemma BindOne(params: Params, b: Binding)
    ensures BindAll(params, [b]) == params[NameText(b.0) := b.1]
  {
    assert [b][..0] == [];
  }

  lemma BindTwo(params: Params, a: Binding, b: Binding)
    ensures BindAll(params, [a, b]) == params[NameText(a.0) := a.1][NameText(b.0) := b.1]
  {
    assert [a, b] == [a] + [b];
    BindOne(params, a);
    BindAllConcat(params, [a], [b]);
    BindOne(params[NameText(a.0) := a.1], b);
  }

  lemma ExtendTwice(parts: seq<seq<Token>>, params: Params, a: Emission, b: Emission)
    ensures parts + Printed(a.preds) + Printed(b.preds) == parts + Printed(Plus(a, b).preds)
    ensures BindAll(BindAll(params, a.bindings), b.bindings) == BindAll(params, Plus(a, b).bindings)
  {
    PrintedConcat(a.preds, b.preds);
    BindAllConcat(params, a.bindings, b.bindings);
  }

  /** The WHERE clause and its parameters; an error where the source raises ValueError. */
  method BuildWhereClause(f: Members) returns (r: Result<(seq<Token>, Params), ()>)
    ensures r.Ok? <==> ValidFilter(f)
    ensures r.Ok? ==> r.value == (Clause(EmitFilter(f).0.preds), BindAll(map[], EmitFilter(f).0.bindings))
  {
    if |f| == 0 {
      return Ok(([], map[]));
    }
    var builder := new ClauseBuilder();
    var ok := builder.AddMembers(f);
    if !ok {
      return Err(());
    }
    assert builder.whereParts == Printed(EmitFilter(f).0.preds);
    return Ok((Joined(builder.whereParts), builder.params));
  }
}
