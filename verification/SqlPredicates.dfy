/**
 The predicates that the filter builder emits: their three-valued meaning, their tokens, and a parser that reads the
 tokens of a WHERE clause back.
 */
module SqlPredicates {
  import opened Outcomes

  // ---------------------------------------------------------------------------
  // Values, rows and truth
  // ---------------------------------------------------------------------------

  /** JSON values, and tuples, which only Python callers can pass. */
  datatype Value =
    | Null
    | Bool(b: bool)
    | Num(n: real)
    | Text(s: string)
    | List(items: seq<Value>)
    | Tuple(items: seq<Value>)
    | Object(members: seq<(string, Value)>)

  type Row = map<string, Value>

  function Column(row: Row, col: string): Value {
    if col in row then row[col] else Null
  }

  /** The truth values of SQL. */
  datatype Truth = True | False | Unknown

  function And(a: Truth, b: Truth): Truth {
    if a == False || b == False then False else if a == True && b == True then True else Unknown
  }

  function Or(a: Truth, b: Truth): Truth {
    if a == True || b == True then True else if a == False && b == False then False else Unknown
  }

  function Not(a: Truth): Truth {
    match a
    case True => False
    case False => True
    case Unknown => Unknown
  }

  function Known(b: bool): Truth {
    if b then True else False
  }

  datatype CompareOp = Eq | Ne | Gt | Ge | Lt | Le

  /** What a database makes of values that are not NULL: nothing here depends on it. */
  datatype Dialect = Dialect(
    compare: (CompareOp, Value, Value) -> bool, like: (Value, Value) -> bool, lower: Value -> Value)

  function Compare3(d: Dialect, op: CompareOp, x: Value, y: Value): Truth {
    if x == Null || y == Null then Unknown else Known(d.compare(op, x, y))
  }

  function Like3(d: Dialect, x: Value, y: Value): Truth {
    if x == Null || y == Null then Unknown else Known(d.like(x, y))
  }

  function Lower3(d: Dialect, x: Value): Value {
    if x == Null then Null else d.lower(x)
  }

  /** x IN (values): some equality holds; FALSE for an empty list. */
  function In3(d: Dialect, x: Value, values: seq<Value>): Truth {
    if |values| == 0 then False
    else Or(In3(d, x, values[..|values| - 1]), Compare3(d, Eq, x, values[|values| - 1]))
  }

  // ---------------------------------------------------------------------------
  // Predicates
  // ---------------------------------------------------------------------------

  /** The predicates; parameters are named by their placeholder texts. */
  datatype Pred =
    | Compare(col: string, op: CompareOp, param: string)
    | Like(col: string, param: string)
    | ILike(col: string, param: string)
    | Between(col: string, low: string, high: string)
    | In(col: string, negated: bool, params: seq<string>)
    | IsNull(col: string, negated: bool)

  type Params = map<string, Value>

  function Placeholders(p: Pred): seq<string> {
    match p
    case Compare(_, _, param) => [param]
    case Like(_, param) => [param]
    case ILike(_, param) => [param]
    case Between(_, low, high) => [low, high]
    case In(_, _, params) => params
    case IsNull(_, _) => []
  }

  /** A placeholder without a binding is an error in SQL; here it reads as NULL, and Bound says there is none. */
  function Lookup(params: Params, name: string): Value {
    if name in params then params[name] else Null
  }

  function LookupAll(params: Params, names: seq<string>): seq<Value> {
    seq(|names|, i requires 0 <= i < |names| => Lookup(params, names[i]))
  }

  function Eval(d: Dialect, p: Pred, params: Params, row: Row): Truth {
    var x := Column(row, p.col);
    match p
    case Compare(_, op, param) => Compare3(d, op, x, Lookup(params, param))
    case Like(_, param) => Like3(d, x, Lookup(params, param))
    case ILike(_, param) => Like3(d, Lower3(d, x), Lower3(d, Lookup(params, param)))
    case Between(_, low, high) =>
      And(Compare3(d, Ge, x, Lookup(params, low)), Compare3(d, Le, x, Lookup(params, high)))
    case In(_, negated, names) =>
      var found := In3(d, x, LookupAll(params, names));
      if negated then Not(found) else found
    case IsNull(_, negated) => Known((x == Null) != negated)
  }

  /** Predicates joined with AND. */
  function EvalAll(d: Dialect, preds: seq<Pred>, params: Params, row: Row): Truth {
    if |preds| == 0 then True
    else And(EvalAll(d, preds[..|preds| - 1], params, row), Eval(d, preds[|preds| - 1], params, row))
  }

  function AllPlaceholders(preds: seq<Pred>): seq<string> {
    if |preds| == 0 then []
    else AllPlaceholders(preds[..|preds| - 1]) + Placeholders(preds[|preds| - 1])
  }

  lemma {:induction false} EvalAllConcat(d: Dialect, a: seq<Pred>, b: seq<Pred>, params: Params, row: Row)
    ensures EvalAll(d, a + b, params, row) == And(EvalAll(d, a, params, row), EvalAll(d, b, params, row))
    decreases |b|
  {
    if |b| == 0 {
      assert a + b == a;
    } else {
      EvalAllConcat(d, a, b[..|b| - 1], params, row);
      assert (a + b)[..|a + b| - 1] == a + b[..|b| - 1];
    }
  }

  lemma {:induction false} PlaceholdersConcat(a: seq<Pred>, b: seq<Pred>)
    ensures AllPlaceholders(a + b) == AllPlaceholders(a) + AllPlaceholders(b)
    decreases |b|
  {
    hide Placeholders;
    if |b| == 0 {
      assert a + b == a;
    } else {
      PlaceholdersConcat(a, b[..|b| - 1]);
      assert (a + b)[..|a + b| - 1] == a + b[..|b| - 1];
    }
  }

  // ---------------------------------------------------------------------------
  // Tokens
  // ---------------------------------------------------------------------------

  datatype Token =
    | Name(name: string)
    | Param(name: string)
    | Op(op: CompareOp)
    | KwAnd | KwBetween | KwIn | KwNot | KwIs | KwNull | KwLike | KwLower | LParen | RParen | Comma

  function ListTokens(names: seq<string>): seq<Token> {
    if |names| == 0 then [RParen]
    else if |names| == 1 then [Param(names[0]), RParen]
    else [Param(names[0]), Comma] + ListTokens(names[1..])
  }

  function Tokens(p: Pred): seq<Token> {
    match p
    case Compare(col, op, param) => [Name(col), Op(op), Param(param)]
    case Like(col, param) => [Name(col), KwLike, Param(param)]
    case ILike(col, param) =>
      [KwLower, LParen, Name(col), RParen, KwLike, KwLower, LParen, Param(param), RParen]
    case Between(col, low, high) => [Name(col), KwBetween, Param(low), KwAnd, Param(high)]
    case In(col, negated, params) =>
      (if negated then [Name(col), KwNot, KwIn, LParen] else [Name(col), KwIn, LParen]) + ListTokens(params)
    case IsNull(col, negated) => if negated then [Name(col), KwIs, KwNot, KwNull] else [Name(col), KwIs, KwNull]
  }

  /** " AND ".join over printed predicates. */
  function Joined(parts: seq<seq<Token>>): seq<Token> {
    if |parts| == 0 then []
    else if |parts| == 1 then parts[0]
    else parts[0] + [KwAnd] + Joined(parts[1..])
  }

  function Printed(preds: seq<Pred>): seq<seq<Token>> {
    seq(|preds|, i requires 0 <= i < |preds| => Tokens(preds[i]))
  }

  function Clause(preds: seq<Pred>): seq<Token> {
    Joined(Printed(preds))
  }

  // ---------------------------------------------------------------------------
  // The parser
  // ---------------------------------------------------------------------------

  /** The names of a parenthesised list after its opening parenthesis, and what follows it. */
  function ParseList(ts: seq<Token>): (r: Option<(seq<string>, seq<Token>)>)
    ensures r.Some? ==> |r.value.1| < |ts|
  {
    if |ts| > 0 && ts[0] == RParen then Some(([], ts[1..])) else ParseItems(ts)
  }

  function ParseItems(ts: seq<Token>): (r: Option<(seq<string>, seq<Token>)>)
    ensures r.Some? ==> |r.value.1| < |ts| && |r.value.0| > 0
  {
    if |ts| < 2 || !ts[0].Param? then None
    else if ts[1] == RParen then Some(([ts[0].name], ts[2..]))
    else if ts[1] != Comma then None
    else match ParseItems(ts[2..])
      case None => None
      case Some((names, rest)) => Some(([ts[0].name] + names, rest))
  }

  /** One predicate at the start of the tokens, and what follows it. */
  function ParsePred(ts: seq<Token>): (r: Option<(Pred, seq<Token>)>)
    ensures r.Some? ==> |r.value.1| < |ts|
  {
    if |ts| >= 9 && ts[0] == KwLower then
      if ts[1] == LParen && ts[2].Name? && ts[3] == RParen && ts[4] == KwLike && ts[5] == KwLower && ts[6] == LParen
         && ts[7].Param? && ts[8] == RParen
      then Some((ILike(ts[2].name, ts[7].name), ts[9..])) else None
    else if |ts| < 3 || !ts[0].Name? then None
    else
      var col := ts[0].name;
      match ts[1]
      case Op(op) => if ts[2].Param? then Some((Compare(col, op, ts[2].name), ts[3..])) else None
      case KwLike => if ts[2].Param? then Some((Like(col, ts[2].name), ts[3..])) else None
      case KwBetween =>
        if |ts| >= 5 && ts[2].Param? && ts[3] == KwAnd && ts[4].Param?
        then Some((Between(col, ts[2].name, ts[4].name), ts[5..])) else None
      case KwIn => if ts[2] == LParen then ParseIn(col, false, ts[3..]) else None
      case KwNot => if |ts| >= 4 && ts[2] == KwIn && ts[3] == LParen then ParseIn(col, true, ts[4..]) else None
      case KwIs =>
        if ts[2] == KwNull then Some((IsNull(col, false), ts[3..]))
        else if |ts| >= 4 && ts[2] == KwNot && ts[3] == KwNull then Some((IsNull(col, true), ts[4..]))
        else None
      case _ => None
  }

  function ParseIn(col: string, negated: bool, ts: seq<Token>): (r: Option<(Pred, seq<Token>)>)
    ensures r.Some? ==> |r.value.1| < |ts|
  {
    match ParseList(ts)
    case None => None
    case Some((names, rest)) => Some((In(col, negated, names), rest))
  }

  /** A WHERE clause: one or more predicates with AND between them. */
  function ParseClause(ts: seq<Token>): Option<seq<Pred>>
    decreases |ts|
  {
    match ParsePred(ts)
    case None => None
    case Some((p, rest)) =>
      if |rest| == 0 then Some([p])
      else if rest[0] != KwAnd then None
      else match ParseClause(rest[1..])
        case None => None
        case Some(more) => Some([p] + more)
  }

  // ---------------------------------------------------------------------------
  // Unambiguous printing
  // ---------------------------------------------------------------------------

  lemma {:induction false} ParseItemsOfTokens(names: seq<string>, rest: seq<Token>)
    requires |names| > 0
    ensures ParseItems(ListTokens(names) + rest) == Some((names, rest))
    decreases |names|
  {
    var ts := ListTokens(names) + rest;
    if |names| == 1 {
      assert ts[2..] == rest;
      assert names == [names[0]];
    } else {
      ParseItemsOfTokens(names[1..], rest);
      assert ts[2..] == ListTokens(names[1..]) + rest;
      assert names == [names[0]] + names[1..];
    }
  }

  lemma ParseListOfTokens(names: seq<string>, rest: seq<Token>)
    ensures ParseList(ListTokens(names) + rest) == Some((names, rest))
  {
    var ts := ListTokens(names) + rest;
    if |names| == 0 {
      assert ts[1..] == rest && names == [];
    } else {
      ParseItemsOfTokens(names, rest);
      assert ts[0] == Param(names[0]);
    }
  }

  lemma ParseInOfTokens(col: string, negated: bool, params: seq<string>, rest: seq<Token>)
    ensures ParsePred(Tokens(In(col, negated, params)) + rest) == Some((In(col, negated, params), rest))
  {
    var list := ListTokens(params) + rest;
    ParseListOfTokens(params, rest);
    hide ListTokens, ParseList;
    var ts := Tokens(In(col, negated, params)) + rest;
    if negated {
      assert ts == [Name(col), KwNot, KwIn, LParen] + list;
      assert ts[4..] == list;
    } else {
      assert ts == [Name(col), KwIn, LParen] + list;
      assert ts[3..] == list;
    }
  }

  lemma ParseILikeOfTokens(col: string, param: string, rest: seq<Token>)
    ensures ParsePred(Tokens(ILike(col, param)) + rest) == Some((ILike(col, param), rest))
  {
    var ts := Tokens(ILike(col, param)) + rest;
    assert ts[9..] == rest;
  }

  lemma ParsePredOfTokens(p: Pred, rest: seq<Token>)
    ensures ParsePred(Tokens(p) + rest) == Some((p, rest))
  {
    match p
    case In(col, negated, params) => ParseInOfTokens(col, negated, params, rest);
    case ILike(col, param) => ParseILikeOfTokens(col, param, rest);
    case Compare(_, _, _) => assert (Tokens(p) + rest)[3..] == rest;
    case Like(_, _) => assert (Tokens(p) + rest)[3..] == rest;
    case Between(_, _, _) => assert (Tokens(p) + rest)[5..] == rest;
    case IsNull(_, negated) => assert (Tokens(p) + rest)[if negated then 4 else 3..] == rest;
  }

  lemma ClauseOfOne(p: Pred)
    ensures Clause([p]) == Tokens(p)
  {
  }

  lemma ClauseOfMore(p: Pred, more: seq<Pred>)
    requires |more| > 0
    ensures Clause([p] + more) == Tokens(p) + ([KwAnd] + Clause(more))
  {
    var all := [p] + more;
    assert Printed(all)[1..] == Printed(more);
  }

  /** Parsing a printed clause returns exactly the predicates, although BETWEEN holds an AND of its own. */
  lemma {:induction false} ParseOfClause(preds: seq<Pred>)
    requires |preds| > 0
    ensures ParseClause(Clause(preds)) == Some(preds)
    decreases |preds|
  {
    hide Clause, Tokens, ParsePred;
    var p, more := preds[0], preds[1..];
    if |preds| == 1 {
      assert preds == [p];
      ClauseOfOne(p);
      ParsePredOfTokens(p, []);
      assert Tokens(p) + [] == Tokens(p);
    } else {
      assert preds == [p] + more;
      ParseOfClause(more);
      ClauseOfMore(p, more);
      ParsePredOfTokens(p, [KwAnd] + Clause(more));
      assert ([KwAnd] + Clause(more))[1..] == Clause(more);
    }
  }

  /** The parser accepts nothing but printed predicates. */
  lemma TokensOfParsePred(ts: seq<Token>)
    requires ParsePred(ts).Some?
    ensures var (p, rest) := ParsePred(ts).value; Tokens(p) + rest == ts
  {
    var (p, rest) := ParsePred(ts).value;
    match p
    case In(col, negated, params) =>
      var k := if negated then 4 else 3;
      TokensOfParseList(ts[k..]);
    case _ =>
  }

  lemma TokensOfParseList(ts: seq<Token>)
    requires ParseList(ts).Some?
    ensures var (names, rest) := ParseList(ts).value; ListTokens(names) + rest == ts
  {
    if ts[0] != RParen {
      TokensOfParseItems(ts);
    }
  }

  lemma {:induction false} TokensOfParseItems(ts: seq<Token>)
    requires ParseItems(ts).Some?
    ensures var (names, rest) := ParseItems(ts).value; ListTokens(names) + rest == ts
  {
    var (names, rest) := ParseItems(ts).value;
    if ts[1] != RParen {
      TokensOfParseItems(ts[2..]);
      assert names[1..] == ParseItems(ts[2..]).value.0;
    }
  }

  /** So clauses and non-empty lists of predicates correspond one to one. */
  lemma {:induction false} ClauseOfParse(ts: seq<Token>)
    requires ParseClause(ts).Some?
    ensures |ParseClause(ts).value| > 0 && Clause(ParseClause(ts).value) == ts
    decreases |ts|
  {
    hide Clause, Tokens, ParsePred;
    var (p, rest) := ParsePred(ts).value;
    TokensOfParsePred(ts);
    if |rest| == 0 {
      ClauseOfOne(p);
      assert Tokens(p) + rest == Tokens(p);
    } else {
      var more := ParseClause(rest[1..]).value;
      ClauseOfParse(rest[1..]);
      ClauseOfMore(p, more);
      assert rest == [KwAnd] + rest[1..];
    }
  }
}
