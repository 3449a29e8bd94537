/** WHERE clauses as text: what the builder's f-strings print, and a lexer that gives the tokens back. */
module SqlText {
  import opened Decimal
  import opened Outcomes
  import opened ParamNames
  import opened SqlPredicates

  // ---------------------------------------------------------------------------
  // Printing
  // ---------------------------------------------------------------------------

  function OpText(op: CompareOp): string {
    match op
    case Eq => "="
    case Ne => "!="
    case Gt => ">"
    case Ge => ">="
    case Lt => "<"
    case Le => "<="
  }

  /** ", ".join of the placeholders */
  function ListText(names: seq<string>): string {
    if |names| == 0 then ""
    else if |names| == 1 then ":" + names[0]
    else ":" + names[0] + ", " + ListText(names[1..])
  }

  /** One predicate as the operator helpers print it. */
  function PredText(p: Pred): string {
    match p
    case Compare(col, op, param) => col + " " + OpText(op) + " :" + param
    case Like(col, param) => col + " LIKE :" + param
    case ILike(col, param) => "LOWER(" + col + ") LIKE LOWER(:" + param + ")"
    case Between(col, low, high) => col + " BETWEEN :" + low + " AND :" + high
    case In(col, negated, params) => col + (if negated then " NOT IN (" else " IN (") + ListText(params) + ")"
    case IsNull(col, negated) => col + (if negated then " IS NOT NULL" else " IS NULL")
  }

  /** " AND ".join of the printed predicates */
  function ClauseText(preds: seq<Pred>): string {
    if |preds| == 0 then ""
    else if |preds| == 1 then PredText(preds[0])
    else PredText(preds[0]) + " AND " + ClauseText(preds[1..])
  }

  // ---------------------------------------------------------------------------
  // Lexing
  // ---------------------------------------------------------------------------

  predicate IsWordChar(c: char) {
    'a' <= c <= 'z' || 'A' <= c <= 'Z' || IsDigit(c) || c == '_'
  }

  ghost predicate IsWord(s: string) {
    |s| > 0 && forall i :: 0 <= i < |s| ==> IsWordChar(s[i])
  }

  function WordLength(s: string): (n: nat)
    ensures n <= |s|
  {
    if |s| > 0 && IsWordChar(s[0]) then 1 + WordLength(s[1..]) else 0
  }

  predicate IsQuote(c: char) {
    c == '"' || c == '`'
  }

  /** A character that may start a name: of a word, a dot between parts, or the quote of a quoted part. */
  predicate IsNameChar(c: char) {
    IsWordChar(c) || c == '.' || IsQuote(c)
  }

  /** The length of the name that the text starts with, words and quoted parts; None if a quote is not closed. */
  function NameLength(s: string, quote: Option<char>): (n: Option<nat>)
    ensures n.Some? ==> n.value <= |s|
  {
    if |s| == 0 then (if quote == None then Some(0) else None)
    else if quote == None && !IsNameChar(s[0]) then Some(0)
    else
      var inside := if quote == None then (if IsQuote(s[0]) then Some(s[0]) else None)
                    else (if s[0] == quote.value then None else quote);
      match NameLength(s[1..], inside)
      case None => None
      case Some(n) => Some(1 + n)
  }

  function UpperChar(c: char): char {
    if 'a' <= c <= 'z' then c - 'a' + 'A' else c
  }

  function Upper(s: string): string {
    seq(|s|, i requires 0 <= i < |s| => UpperChar(s[i]))
  }

  /** The token of a word: a keyword in any case, or else a name. */
  function WordToken(w: string): Token {
    var u := Upper(w);
    if u == "AND" then KwAnd else if u == "BETWEEN" then KwBetween else if u == "IN" then KwIn
    else if u == "NOT" then KwNot else if u == "IS" then KwIs else if u == "NULL" then KwNull
    else if u == "LIKE" then KwLike else if u == "LOWER" then KwLower else Name(w)
  }

  function Prepend(t: Token, r: Option<seq<Token>>): Option<seq<Token>> {
    match r
    case None => None
    case Some(ts) => Some([t] + ts)
  }

  function Lex(s: string): Option<seq<Token>>
    decreases |s|
  {
    if |s| == 0 then Some([])
    else if s[0] == ' ' then Lex(s[1..])
    else if s[0] == '(' then Prepend(LParen, Lex(s[1..]))
    else if s[0] == ')' then Prepend(RParen, Lex(s[1..]))
    else if s[0] == ',' then Prepend(Comma, Lex(s[1..]))
    else if s[0] == '=' then Prepend(Op(Eq), Lex(s[1..]))
    else if s[0] == '!' then if |s| > 1 && s[1] == '=' then Prepend(Op(Ne), Lex(s[2..])) else None
    else if s[0] == '>' then
      if |s| > 1 && s[1] == '=' then Prepend(Op(Ge), Lex(s[2..])) else Prepend(Op(Gt), Lex(s[1..]))
    else if s[0] == '<' then
      if |s| > 1 && s[1] == '=' then Prepend(Op(Le), Lex(s[2..])) else Prepend(Op(Lt), Lex(s[1..]))
    else if s[0] == ':' then
      var n := 1 + WordLength(s[1..]);
      if n > 1 then Prepend(Param(s[1..n]), Lex(s[n..])) else None
    else if IsDigit(s[0]) then None
    else
      match NameLength(s, None)
      case None => None
      case Some(n) => if n > 0 then Prepend(WordToken(s[..n]), Lex(s[n..])) else None
  }

  // ---------------------------------------------------------------------------
  // Spelling a token sequence
  // ---------------------------------------------------------------------------

  function TokenText(t: Token): string {
    match t
    case Name(name) => name
    case Param(name) => ":" + name
    case Op(op) => OpText(op)
    case KwAnd => "AND"
    case KwBetween => "BETWEEN"
    case KwIn => "IN"
    case KwNot => "NOT"
    case KwIs => "IS"
    case KwNull => "NULL"
    case KwLike => "LIKE"
    case KwLower => "LOWER"
    case LParen => "("
    case RParen => ")"
    case Comma => ","
  }

  /** Tokens are a space apart, except inside parentheses, before a comma, and between LOWER and its parenthesis. */
  function Gap(a: Token, b: Token): string {
    if a == LParen || b == RParen || b == Comma || (a == KwLower && b == LParen) then "" else " "
  }

  function Spell(ts: seq<Token>): string {
    if |ts| == 0 then ""
    else if |ts| == 1 then TokenText(ts[0])
    else TokenText(ts[0]) + (Gap(ts[0], ts[1]) + Spell(ts[1..]))
  }

  /**
   The text is one name, plain, dotted or quoted. It does not start with a digit and is none of the eight keywords of
   the clause grammar in any case; words that only some database reserves are names here.
   */
  predicate PlainColumn(col: string) {
    |col| > 0 && !IsDigit(col[0]) && NameLength(col, None) == Some(|col|) && WordToken(col) == Name(col)
  }

  /** Names are single names, and parameters are words. */
  ghost predicate Spellable(t: Token) {
    match t
    case Name(name) => PlainColumn(name)
    case Param(name) => IsWord(name)
    case _ => true
  }

  ghost predicate AllSpellable(ts: seq<Token>) {
    forall i :: 0 <= i < |ts| ==> Spellable(ts[i])
  }

  ghost predicate NamesOrSpellable(ts: seq<Token>) {
    forall i :: 0 <= i < |ts| ==> ts[i].Name? || Spellable(ts[i])
  }

  lemma SpellableConcat(a: seq<Token>, b: seq<Token>)
    ensures AllSpellable(a + b) <==> AllSpellable(a) && AllSpellable(b)
    ensures NamesOrSpellable(a + b) <==> NamesOrSpellable(a) && NamesOrSpellable(b)
  {
    assert forall i :: 0 <= i < |a| ==> a[i] == (a + b)[i];
    assert forall i :: 0 <= i < |b| ==> b[i] == (a + b)[|a| + i];
  }

  /** Text that a token can stand in front of. */
  ghost predicate Separates(rest: string) {
    |rest| > 0 ==> !IsNameChar(rest[0]) && rest[0] != '='
  }

  lemma {:induction false} WordEnds(w: string, rest: string)
    requires IsWord(w) && (|rest| > 0 ==> !IsWordChar(rest[0]))
    ensures WordLength(w + rest) == |w|
    decreases |w|
  {
    assert (w + rest)[1..] == w[1..] + rest && (w + rest)[0] == w[0];
    if |w| > 1 {
      WordEnds(w[1..], rest);
    } else {
      assert w[1..] + rest == rest;
    }
  }

  lemma {:induction false} WordIsName(w: string)
    requires forall i :: 0 <= i < |w| ==> IsWordChar(w[i])
    ensures NameLength(w, None) == Some(|w|)
    decreases |w|
  {
    if |w| > 0 {
      WordIsName(w[1..]);
    }
  }

  /** Whether a text is one name does not depend on what separates it from the next token. */
  lemma {:induction false} NameEnds(w: string, rest: string, quote: Option<char>)
    requires Separates(rest)
    requires NameLength(w, quote) == Some(|w|)
    ensures NameLength(w + rest, quote) == Some(|w|)
    decreases |w|
  {
    if |w| == 0 {
      assert w + rest == rest;
    } else {
      assert (w + rest)[1..] == w[1..] + rest && (w + rest)[0] == w[0];
      NameEnds(w[1..], rest, if quote == None then (if IsQuote(w[0]) then Some(w[0]) else None)
                             else (if w[0] == quote.value then None else quote));
    }
  }

  lemma {:induction false} NameBegins(w: string, rest: string, quote: Option<char>)
    requires NameLength(w + rest, quote) == Some(|w|)
    ensures NameLength(w, quote) == Some(|w|)
    decreases |w|
  {
    if |w| == 0 {
      assert w + rest == rest;
    } else {
      assert (w + rest)[1..] == w[1..] + rest && (w + rest)[0] == w[0];
      NameBegins(w[1..], rest, if quote == None then (if IsQuote(w[0]) then Some(w[0]) else None)
                               else (if w[0] == quote.value then None else quote));
    }
  }

  lemma LexWord(w: string, rest: string)
    requires |w| > 0 && !IsDigit(w[0]) && NameLength(w, None) == Some(|w|) && Separates(rest)
    ensures Lex(w + rest) == Prepend(WordToken(w), Lex(rest))
  {
    NameEnds(w, rest, None);
    assert IsNameChar(w[0]);
    hide WordToken, WordLength, NameLength;
    assert (w + rest)[0] == w[0];
    assert (w + rest)[..|w|] == w && (w + rest)[|w|..] == rest;
  }

  lemma LexParam(name: string, rest: string)
    requires IsWord(name) && Separates(rest)
    ensures Lex(":" + name + rest) == Prepend(Param(name), Lex(rest))
  {
    WordEnds(name, rest);
    hide WordToken, WordLength;
    var s := ":" + name + rest;
    assert s[1..] == name + rest;
    assert s[1..1 + |name|] == name && s[1 + |name|..] == rest;
  }

  lemma LexSymbol(t: Token, rest: string)
    requires (t == LParen || t == RParen || t == Comma) || (t.Op? && Separates(rest))
    ensures Lex(TokenText(t) + rest) == Prepend(t, Lex(rest))
  {
    hide WordToken, WordLength;
    var s := TokenText(t) + rest;
    if t.Op? && (t.op == Ne || t.op == Ge || t.op == Le) {
      assert s[2..] == rest;
    } else {
      assert s[1..] == rest;
    }
  }

  lemma KeywordIsWord(t: Token)
    requires !t.Name? && !t.Param? && !t.Op? && t != LParen && t != RParen && t != Comma
    ensures IsWord(TokenText(t)) && WordToken(TokenText(t)) == t
  {
    var w := TokenText(t);
    assert Upper(w) == w;
  }

  lemma LexToken(t: Token, rest: string)
    requires Spellable(t)
    requires t == LParen || Separates(rest)
    ensures Lex(TokenText(t) + rest) == Prepend(t, Lex(rest))
  {
    match t
    case Name(name) => LexWord(name, rest);
    case Param(name) => LexParam(name, rest);
    case Op(_) => LexSymbol(t, rest);
    case LParen => LexSymbol(t, rest);
    case RParen => LexSymbol(t, rest);
    case Comma => LexSymbol(t, rest);
    case _ =>
      KeywordIsWord(t);
      WordIsName(TokenText(t));
      LexWord(TokenText(t), rest);
  }

  /** A name token does not start with a space: the lexer skips spaces first. */
  lemma {:induction false} NameTokenStarts(s: string)
    ensures Lex(s).Some? && |Lex(s).value| > 0 && Lex(s).value[0].Name? ==>
              |Lex(s).value[0].name| > 0 && Lex(s).value[0].name[0] != ' '
    decreases |s|
  {
    hide WordToken, NameLength;
    if |s| > 0 && s[0] == ' ' {
      NameTokenStarts(s[1..]);
    } else if |s| > 0 && NameLength(s, None).Some? && NameLength(s, None).value > 0 {
      WordTokenName(s[..NameLength(s, None).value]);
    }
  }

  lemma WordTokenName(w: string)
    ensures WordToken(w).Name? ==> WordToken(w).name == w
  {
  }

  /** If a text in front of a separator lexes as the name it spells, then it is one name. */
  lemma LexedNameIsPlain(col: string, rest: string, ts: seq<Token>)
    requires Lex(col + rest) == Some([Name(col)] + ts)
    ensures PlainColumn(col) && Lex(rest) == Some(ts)
  {
    var s := col + rest;
    NameTokenStarts(s);
    assert Lex(s).value[0] == Name(col) && s[0] == col[0] != ' ';
    hide WordToken, NameLength, WordLength;
    var n := NameLength(s, None);
    assert n.Some? && n.value > 0 && Lex(s) == Prepend(WordToken(s[..n.value]), Lex(s[n.value..]));
    WordTokenName(s[..n.value]);
    assert s[..n.value] == col;
    assert s[n.value..] == rest;
    NameBegins(col, rest, None);
    assert Lex(rest).value == Lex(s).value[1..] == ts;
  }

  /**
   Lexing the spelling of tokens gives the tokens back if and only if each name is a single name that is no keyword.
   Keywords, symbols and parameters that are words are never confused.
   */
  lemma {:induction false} LexOfSpell(ts: seq<Token>)
    requires NamesOrSpellable(ts)
    ensures Lex(Spell(ts)) == Some(ts) <==> AllSpellable(ts)
    decreases |ts|
  {
    if |ts| > 0 {
      hide Lex, TokenText, Spellable;
      var t, more := ts[0], ts[1..];
      assert ts == [t] + more;
      SpellableConcat([t], more);
      assert AllSpellable([t]) <==> Spellable(t);
      LexOfSpell(more);
      var rest := if |ts| == 1 then "" else Gap(t, ts[1]) + Spell(more);
      assert Spell(ts) == TokenText(t) + rest;
      if |ts| == 1 {
        LexNothing();
      } else {
        GapSeparates(t, more[0], Spell(more));
        SpellStarts(more);
        LexGap(t, ts[1], Spell(more));
      }
      assert Lex(rest) == Lex(Spell(more));
      if Spellable(t) {
        LexToken(t, rest);
        FirstTokenOff(t, more, Lex(rest));
      } else if Lex(Spell(ts)) == Some(ts) {
        NamePrintsItself(t);
        LexedNameIsPlain(t.name, rest, more);
        assert false by {
          PlainIsSpellable(t);
        }
      }
    }
  }

  lemma FirstTokenOff(t: Token, more: seq<Token>, lexed: Option<seq<Token>>)
    ensures Prepend(t, lexed) == Some([t] + more) <==> lexed == Some(more)
  {
    if lexed.Some? && Prepend(t, lexed) == Some([t] + more) {
      assert ([t] + lexed.value)[1..] == ([t] + more)[1..];
    }
  }

  lemma NamePrintsItself(t: Token)
    requires t.Name?
    ensures TokenText(t) == t.name
  {
  }

  lemma PlainIsSpellable(t: Token)
    requires t.Name? && PlainColumn(t.name)
    ensures Spellable(t)
  {
  }

  lemma LexNothing()
    ensures Lex("") == Some([])
  {
  }

  lemma LexGap(a: Token, b: Token, s: string)
    ensures Lex(Gap(a, b) + s) == Lex(s)
  {
    if Gap(a, b) == "" {
      assert Gap(a, b) + s == s;
    } else {
      assert (Gap(a, b) + s)[1..] == s;
    }
  }

  /** The spelling starts with the text of the first token. */
  lemma SpellStarts(ts: seq<Token>)
    requires |ts| > 0
    ensures |TokenText(ts[0])| <= |Spell(ts)| && Spell(ts)[..|TokenText(ts[0])|] == TokenText(ts[0])
  {
  }

  /** What follows a token is a space, or else a parenthesis or a comma. */
  lemma GapSeparates(a: Token, b: Token, s: string)
    ensures |TokenText(b)| <= |s| && s[..|TokenText(b)|] == TokenText(b) && a != LParen ==> Separates(Gap(a, b) + s)
  {
    var text := Gap(a, b) + s;
    if |TokenText(b)| <= |s| && s[..|TokenText(b)|] == TokenText(b) && a != LParen {
      if Gap(a, b) == "" {
        assert text == s && s[0] == TokenText(b)[0];
      } else {
        assert text[0] == ' ';
      }
    }
  }

  // ---------------------------------------------------------------------------
  // The builder's text is the spelling of the tokens
  // ---------------------------------------------------------------------------

  lemma SpellTwo(a: Token, more: seq<Token>)
    requires |more| > 0
    ensures Spell([a] + more) == TokenText(a) + (Gap(a, more[0]) + Spell(more))
  {
    assert ([a] + more)[1..] == more;
  }

  lemma Regroup(a: string, b: string, c: string, d: string)
    ensures (a + b) + c == a + (b + c)
    ensures ((a + b) + c) + d == a + (b + (c + d))
  {
  }

  lemma SpellConcatOne(t: Token, b: seq<Token>)
    requires |b| > 0
    ensures Spell([t] + b) == Spell([t]) + Gap(t, b[0]) + Spell(b)
  {
    SpellTwo(t, b);
    SpellOne(t);
    hide Spell, Gap, TokenText;
    Regroup(TokenText(t), Gap(t, b[0]), Spell(b), "");
  }

  lemma SpellConcatMore(t: Token, more: seq<Token>, b: seq<Token>, gap: string)
    requires |more| > 0 && |b| > 0
    requires Spell(more + b) == Spell(more) + gap + Spell(b)
    ensures Spell([t] + (more + b)) == Spell([t] + more) + gap + Spell(b)
  {
    SpellTwo(t, more);
    SpellTwo(t, more + b);
    hide Spell, Gap, TokenText;
    Regroup5(TokenText(t), Gap(t, more[0]), Spell(more), gap, Spell(b));
  }

  lemma {:induction false} SpellConcat(a: seq<Token>, b: seq<Token>)
    requires |a| > 0 && |b| > 0
    ensures Spell(a + b) == Spell(a) + Gap(a[|a| - 1], b[0]) + Spell(b)
    decreases |a|
  {
    hide Spell, Gap;
    var t, more := a[0], a[1..];
    if |a| == 1 {
      assert a == [t];
      SpellConcatOne(t, b);
    } else {
      SpellConcat(more, b);
      SpellConcatMore(t, more, b, Gap(more[|more| - 1], b[0]));
      assert a == [t] + more;
      assert a + b == [t] + (more + b);
    }
  }

  lemma Regroup5(a: string, b: string, c: string, d: string, e: string)
    ensures a + (b + ((c + d) + e)) == ((a + (b + c)) + d) + e
  {
  }

  lemma SpellOne(t: Token)
    ensures Spell([t]) == TokenText(t)
  {
  }

  lemma ListStarts(names: seq<string>)
    ensures |ListTokens(names)| > 0
    ensures ListTokens(names)[0] == (if |names| == 0 then RParen else Param(names[0]))
  {
  }

  lemma GapTexts(name: string, t: Token)
    ensures Gap(Param(name), Comma) == "" && TokenText(Param(name)) == ":" + name && TokenText(Comma) == ","
    ensures t.Param? || t.Name? ==> Gap(Comma, t) == " "
  {
  }

  lemma ListMore(names: seq<string>)
    requires |names| > 1
    ensures ListText(names) == ((":" + names[0]) + ", ") + ListText(names[1..])
    ensures ListTokens(names) == [Param(names[0])] + ([Comma] + ListTokens(names[1..]))
  {
  }

  lemma {:induction false} SpellListMore(names: seq<string>)
    requires |names| > 1 && Spell(ListTokens(names[1..])) == ListText(names[1..]) + ")"
    ensures Spell(ListTokens(names)) == ListText(names) + ")"
  {
    ListMore(names);
    ListStarts(names[1..]);
    hide Spell, ListTokens, ListText, TokenText, Gap;
    var first, more, rest := ":" + names[0], ListTokens(names[1..]), ListText(names[1..]) + ")";
    GapTexts(names[0], more[0]);
    SpellTwo(Comma, more);
    SpellTwo(Param(names[0]), [Comma] + more);
    assert Spell([Comma] + more) == ", " + rest by {
      Regroup(",", " ", rest, "");
    }
    assert "" + (", " + rest) == ", " + rest;
    Regroup(first, ", ", ListText(names[1..]), ")");
  }

  lemma {:induction false} SpellList(names: seq<string>)
    ensures Spell(ListTokens(names)) == ListText(names) + ")"
    decreases |names|
  {
    if |names| == 0 {
      SpellOne(RParen);
    } else if |names| == 1 {
      SpellOne(RParen);
      SpellTwo(Param(names[0]), [RParen]);
      assert ListTokens(names) == [Param(names[0])] + [RParen];
    } else {
      SpellList(names[1..]);
      SpellListMore(names);
    }
  }

  lemma SpellCompare(col: string, op: CompareOp, param: string)
    ensures Spell(Tokens(Compare(col, op, param))) == PredText(Compare(col, op, param))
  {
    hide Spell, OpText;
    SpellOne(Param(param));
    SpellTwo(Op(op), [Param(param)]);
    SpellTwo(Name(col), [Op(op)] + [Param(param)]);
    assert Tokens(Compare(col, op, param)) == [Name(col)] + ([Op(op)] + [Param(param)]);
    assert PredText(Compare(col, op, param)) == col + (" " + (OpText(op) + (" " + (":" + param))));
  }

  lemma SpellLike(col: string, param: string)
    ensures Spell(Tokens(Like(col, param))) == PredText(Like(col, param))
  {
    hide Spell;
    SpellOne(Param(param));
    SpellTwo(KwLike, [Param(param)]);
    SpellTwo(Name(col), [KwLike] + [Param(param)]);
    assert Tokens(Like(col, param)) == [Name(col)] + ([KwLike] + [Param(param)]);
    assert PredText(Like(col, param)) == col + (" " + ("LIKE" + (" " + (":" + param))));
  }

  /** LOWER(x) for one token x */
  lemma SpellLower(t: Token)
    requires t != Comma && t != RParen
    ensures Spell([KwLower, LParen, t, RParen]) == "LOWER(" + TokenText(t) + ")"
  {
    hide Spell, TokenText;
    SpellOne(RParen);
    SpellTwo(t, [RParen]);
    SpellTwo(LParen, [t] + [RParen]);
    SpellTwo(KwLower, [LParen] + ([t] + [RParen]));
    assert [KwLower, LParen, t, RParen] == [KwLower] + ([LParen] + ([t] + [RParen]));
    KeywordTexts();
    assert "LOWER(" + TokenText(t) + ")" == "LOWER" + ("" + ("(" + ("" + (TokenText(t) + ("" + ")")))));
  }

  lemma KeywordTexts()
    ensures TokenText(KwLower) == "LOWER" && TokenText(LParen) == "(" && TokenText(RParen) == ")"
    ensures TokenText(KwAnd) == "AND" && TokenText(KwLike) == "LIKE"
  {
  }

  lemma SpellILike(col: string, param: string)
    ensures Spell(Tokens(ILike(col, param))) == PredText(ILike(col, param))
  {
    var a, b := [KwLower, LParen, Name(col), RParen], [KwLower, LParen, Param(param), RParen];
    assert Tokens(ILike(col, param)) == a + ([KwLike] + b);
    hide Spell, Tokens;
    SpellLower(Name(col));
    SpellLower(Param(param));
    SpellTwo(KwLike, b);
    SpellConcat(a, [KwLike] + b);
    ILikeText(col, param);
  }

  lemma ILikeText(col: string, param: string)
    ensures PredText(ILike(col, param))
         == ("LOWER(" + col + ")") + " " + ("LIKE" + (" " + ("LOWER(" + (":" + param) + ")")))
  {
    var x, y := "LOWER(" + col, ":" + param;
    assert ") LIKE LOWER(:" == ")" + (" " + ("LIKE" + (" " + ("LOWER(" + ":"))));
    assert PredText(ILike(col, param)) == ((x + ") LIKE LOWER(:") + param) + ")";
  }

  lemma SpellBetween(col: string, low: string, high: string)
    ensures Spell(Tokens(Between(col, low, high))) == PredText(Between(col, low, high))
  {
    hide Spell, PredText, Tokens;
    SpellOne(Param(high));
    SpellTwo(KwAnd, [Param(high)]);
    SpellTwo(Param(low), [KwAnd] + [Param(high)]);
    SpellTwo(KwBetween, [Param(low)] + ([KwAnd] + [Param(high)]));
    SpellTwo(Name(col), [KwBetween] + ([Param(low)] + ([KwAnd] + [Param(high)])));
    BetweenTexts(col, low, high);
  }

  lemma BetweenTexts(col: string, low: string, high: string)
    ensures Tokens(Between(col, low, high)) == [Name(col)] + ([KwBetween] + ([Param(low)] + ([KwAnd] + [Param(high)])))
    ensures PredText(Between(col, low, high))
         == col + (" " + ("BETWEEN" + (" " + ((":" + low) + (" " + ("AND" + (" " + (":" + high))))))))
  {
  }

  lemma SpellIn(col: string, negated: bool, params: seq<string>)
    ensures Spell(Tokens(In(col, negated, params))) == PredText(In(col, negated, params))
  {
    hide Spell, ListText, ListTokens, PredText, Tokens;
    InParts(col, negated, params);
    var list := ListTokens(params);
    ListStarts(params);
    SpellList(params);
    SpellTwo(LParen, list);
    SpellTwo(KwIn, [LParen] + list);
    var inList, text := [KwIn] + ([LParen] + list), ListText(params) + ")";
    assert Spell(inList) == "IN" + (" " + ("(" + ("" + text)));
    Regroup(col, if negated then " NOT IN (" else " IN (", ListText(params), ")");
    if negated {
      SpellTwo(KwNot, inList);
      SpellTwo(Name(col), [KwNot] + inList);
      InTexts(text);
    } else {
      SpellTwo(Name(col), inList);
      InTexts(text);
    }
  }

  lemma InParts(col: string, negated: bool, params: seq<string>)
    ensures var inList := [KwIn] + ([LParen] + ListTokens(params));
            Tokens(In(col, negated, params)) == [Name(col)] + (if negated then [KwNot] + inList else inList)
    ensures PredText(In(col, negated, params))
         == col + (if negated then " NOT IN (" else " IN (") + ListText(params) + ")"
  {
    hide ListTokens, ListText;
  }

  lemma InTexts(text: string)
    ensures " " + ("IN" + (" " + ("(" + ("" + text)))) == " IN (" + text
    ensures " " + ("NOT" + (" " + ("IN" + (" " + ("(" + ("" + text)))))) == " NOT IN (" + text
  {
  }

  lemma SpellIsNull(col: string, negated: bool)
    ensures Spell(Tokens(IsNull(col, negated))) == PredText(IsNull(col, negated))
  {
    hide Spell, PredText, Tokens;
    SpellOne(KwNull);
    IsNullTexts(col, negated);
    if negated {
      SpellTwo(KwNot, [KwNull]);
      SpellTwo(KwIs, [KwNot] + [KwNull]);
      SpellTwo(Name(col), [KwIs] + ([KwNot] + [KwNull]));
    } else {
      SpellTwo(KwIs, [KwNull]);
      SpellTwo(Name(col), [KwIs] + [KwNull]);
    }
  }

  lemma IsNullTexts(col: string, negated: bool)
    ensures Tokens(IsNull(col, negated))
         == [Name(col)] + (if negated then [KwIs] + ([KwNot] + [KwNull]) else [KwIs] + [KwNull])
    ensures PredText(IsNull(col, negated))
         == col + (" " + ("IS" + (" " + (if negated then "NOT" + (" " + "NULL") else "NULL"))))
  {
    assert " IS NOT NULL" == " " + ("IS" + (" " + ("NOT" + (" " + "NULL"))));
    assert " IS NULL" == " " + ("IS" + (" " + "NULL"));
  }

  lemma SpellPred(p: Pred)
    ensures Spell(Tokens(p)) == PredText(p)
  {
    match p
    case Compare(col, op, param) => SpellCompare(col, op, param);
    case Like(col, param) => SpellLike(col, param);
    case ILike(col, param) => SpellILike(col, param);
    case Between(col, low, high) => SpellBetween(col, low, high);
    case In(col, negated, params) => SpellIn(col, negated, params);
    case IsNull(col, negated) => SpellIsNull(col, negated);
  }

  lemma PredEnds(p: Pred)
    ensures |Tokens(p)| > 0 && (Tokens(p)[0].Name? || Tokens(p)[0] == KwLower)
    ensures Tokens(p)[|Tokens(p)| - 1] != LParen && Tokens(p)[|Tokens(p)| - 1] != KwLower
  {
    if p.In? {
      ListEnds(p.params);
    }
  }

  lemma {:induction false} ListEnds(names: seq<string>)
    ensures |ListTokens(names)| > 0 && ListTokens(names)[|ListTokens(names)| - 1] == RParen
    decreases |names|
  {
    if |names| > 1 {
      ListEnds(names[1..]);
    }
  }

  /** The text of a clause is the spelling of its tokens. */
  lemma {:induction false} SpellClause(preds: seq<Pred>)
    ensures Spell(Clause(preds)) == ClauseText(preds)
    ensures |preds| > 0 ==> |Clause(preds)| > 0 && (Clause(preds)[0].Name? || Clause(preds)[0] == KwLower)
    decreases |preds|
  {
    hide Spell, PredText, Tokens, Clause;
    if |preds| == 0 {
      SpellNothing(preds);
    } else {
      var p, more := preds[0], preds[1..];
      SpellPred(p);
      PredEnds(p);
      if |preds| == 1 {
        ClauseOfOne(p);
        assert preds == [p];
      } else {
        SpellClause(more);
        ClauseOfMore(p, more);
        assert preds == [p] + more;
        SpellTwo(KwAnd, Clause(more));
        SpellConcat(Tokens(p), [KwAnd] + Clause(more));
        assert PredText(p) + " AND " + ClauseText(more) == PredText(p) + " " + ("AND" + (" " + ClauseText(more)));
      }
    }
  }

  lemma SpellNothing(preds: seq<Pred>)
    requires |preds| == 0
    ensures Spell(Clause(preds)) == ""
  {
  }

  // ---------------------------------------------------------------------------
  // Reading the text back
  // ---------------------------------------------------------------------------

  ghost predicate AllWords(names: seq<string>) {
    forall k :: 0 <= k < |names| ==> IsWord(names[k])
  }

  ghost predicate WordParams(preds: seq<Pred>) {
    forall k :: 0 <= k < |preds| ==> AllWords(Placeholders(preds[k]))
  }

  ghost predicate PlainColumns(preds: seq<Pred>) {
    forall k :: 0 <= k < |preds| ==> PlainColumn(preds[k].col)
  }

  lemma {:induction false} ListSpellable(names: seq<string>, i: nat)
    requires AllWords(names) && i < |ListTokens(names)|
    ensures Spellable(ListTokens(names)[i]) && !ListTokens(names)[i].Name?
    decreases |names|
  {
    if |names| > 1 && i >= 2 {
      ListSpellable(names[1..], i - 2);
    }
  }

  lemma InSpellable(col: string, negated: bool, params: seq<string>, i: nat)
    requires AllWords(params) && i < |Tokens(In(col, negated, params))|
    ensures var t := Tokens(In(col, negated, params))[i]; if t.Name? then t == Name(col) else Spellable(t)
  {
    var head := if negated then 4 else 3;
    if i >= head {
      ListSpellable(params, i - head);
    }
  }

  /** The only name among the tokens of a predicate is its column. */
  lemma PredSpellable(p: Pred, i: nat)
    requires AllWords(Placeholders(p)) && i < |Tokens(p)|
    ensures if Tokens(p)[i].Name? then Tokens(p)[i] == Name(p.col) else Spellable(Tokens(p)[i])
  {
    hide IsWord, PlainColumn;
    match p
    case In(col, negated, params) => InSpellable(col, negated, params, i);
    case Between(_, low, high) =>
      assert Placeholders(p)[0] == low && Placeholders(p)[1] == high;
    case Compare(_, _, param) => assert Placeholders(p)[0] == param;
    case Like(_, param) => assert Placeholders(p)[0] == param;
    case ILike(_, param) => assert Placeholders(p)[0] == param;
    case IsNull(_, _) =>
  }

  lemma ColumnIsToken(p: Pred)
    ensures Name(p.col) in Tokens(p)
  {
    match p
    case ILike(_, _) => assert Tokens(p)[2] == Name(p.col);
    case _ => assert Tokens(p)[0] == Name(p.col);
  }

  /** Every token of a clause can be spelled if and only if every column is a single name. */
  lemma {:induction false} ClauseSpellable(preds: seq<Pred>)
    requires WordParams(preds)
    ensures NamesOrSpellable(Clause(preds))
    ensures AllSpellable(Clause(preds)) <==> PlainColumns(preds)
    decreases |preds|
  {
    hide Tokens, Clause, Spellable, PlainColumn;
    if |preds| == 0 {
      NoTokens(preds);
    } else {
      var p, more := preds[0], preds[1..];
      PredTokensSpellable(p);
      if |preds| == 1 {
        assert preds == [p];
        ClauseOfOne(p);
      } else {
        assert preds == [p] + more;
        assert WordParams(more) by {
          assert forall k :: 0 <= k < |more| ==> more[k] == preds[k + 1];
        }
        ClauseSpellable(more);
        ClauseOfMore(p, more);
        AndSpellable();
        SpellableConcat([KwAnd], Clause(more));
        SpellableConcat(Tokens(p), [KwAnd] + Clause(more));
        assert PlainColumns(preds) <==> PlainColumn(p.col) && PlainColumns(more) by {
          assert forall k :: 0 <= k < |more| ==> more[k] == preds[k + 1];
          assert forall k :: 1 <= k < |preds| ==> preds[k] == more[k - 1];
        }
      }
    }
  }

  lemma PredTokensSpellable(p: Pred)
    requires AllWords(Placeholders(p))
    ensures NamesOrSpellable(Tokens(p))
    ensures AllSpellable(Tokens(p)) <==> PlainColumn(p.col)
  {
    ColumnIsToken(p);
    var k :| 0 <= k < |Tokens(p)| && Tokens(p)[k] == Name(p.col);
    forall i | 0 <= i < |Tokens(p)|
      ensures if Tokens(p)[i].Name? then Tokens(p)[i] == Name(p.col) else Spellable(Tokens(p)[i])
    {
      PredSpellable(p, i);
    }
    hide Tokens, PlainColumn;
    assert Spellable(Tokens(p)[k]) <==> PlainColumn(p.col);
  }

  lemma AndSpellable()
    ensures Spellable(KwAnd)
  {
  }

  lemma NoTokens(preds: seq<Pred>)
    requires |preds| == 0
    ensures |Clause(preds)| == 0
  {
  }

  /**
   The text of a WHERE clause reads back as exactly its predicates, lexed and then parsed, if and only if every column
   is a single name: a word that is no keyword, a quoted name, or such parts with dots between them.
   */
  lemma {:induction false} ClauseTextReadsBack(preds: seq<Pred>)
    requires |preds| > 0 && WordParams(preds)
    ensures Lex(ClauseText(preds)) == Some(Clause(preds)) <==> PlainColumns(preds)
    ensures ParseClause(Clause(preds)) == Some(preds)
  {
    ClauseSpellable(preds);
    SpellClause(preds);
    LexOfSpell(Clause(preds));
    ParseOfClause(preds);
  }

  /** The generated parameter names are words. */
  lemma NamesAreWords(n: ParamName)
    ensures IsWord(NameText(n))
  {
  }
}
