/** The parameter names that the SQL generators make up, and that no two of them are the same text. */
module ParamNames {
  import opened Decimal
  import opened Texts

  /**
   The names by role: a single value, an array item, the two ends of a between, a column of SET, and a column of INSERT.
   The number is the shared index the builder counts up.
   */
  datatype ParamName =
    | Single(index: nat)
    | Item(index: nat, item: nat)
    | StartOf(index: nat)
    | EndOf(index: nat)
    | SetColumn(index: nat)
    | InsertColumn(index: nat)

  function NameText(n: ParamName): string {
    match n
    case Single(i) => "__p_" + Print(i)
    case Item(i, j) => "__p_" + Print(i) + "_" + Print(j)
    case StartOf(i) => "__p_" + Print(i) + "_start"
    case EndOf(i) => "__p_" + Print(i) + "_end"
    case SetColumn(i) => "up_p_" + Print(i)
    case InsertColumn(i) => "p_" + Print(i)
  }

  function Prefix(n: ParamName): string {
    match n
    case SetColumn(_) => "up_p_"
    case InsertColumn(_) => "p_"
    case _ => "__p_"
  }

  function Tail(n: ParamName): string {
    match n
    case Item(_, j) => "_" + Print(j)
    case StartOf(_) => "_start"
    case EndOf(_) => "_end"
    case _ => ""
  }

  lemma NameTextParts(n: ParamName)
    ensures NameText(n) == Prefix(n) + (Print(n.index) + Tail(n))
    ensures Tail(n) == [] || !IsDigit(Tail(n)[0])
  {
    hide Print;
    match n
    case Item(i, j) => assert NameText(n) == "__p_" + (Print(i) + ("_" + Print(j)));
    case _ =>
  }

  lemma TailInjective(m: ParamName, n: ParamName)
    requires Prefix(m) == Prefix(n) && m.index == n.index && Tail(m) == Tail(n)
    ensures m == n
  {
    hide Print;
    if m.Item? && n.Item? {
      DropPrefix("_", Print(m.item), Print(n.item));
      PrintInjective(m.item, n.item);
    } else if m.Item? {
      ItemTail(m, n);
    } else if n.Item? {
      ItemTail(n, m);
    }
  }

  /** The character after the underscore tells an item from the ends of a between. */
  lemma ItemTail(m: ParamName, n: ParamName)
    requires m.Item? && !n.Item?
    ensures Tail(m) != Tail(n)
  {
    hide Print;
    assert |Tail(m)| > 1 && IsDigit(Tail(m)[1]);
    if |Tail(n)| > 1 {
      assert !IsDigit(Tail(n)[1]);
    }
  }

  /** Distinct names print as distinct texts, for any indices. */
  lemma NameTextInjective(m: ParamName, n: ParamName)
    requires NameText(m) == NameText(n)
    ensures m == n
  {
    NameTextParts(m);
    NameTextParts(n);
    hide NameText, Tail, Print;
    assert NameText(m)[0] == Prefix(m)[0] && NameText(n)[0] == Prefix(n)[0];
    assert Prefix(m) == Prefix(n);
    DropPrefix(Prefix(m), Print(m.index) + Tail(m), Print(n.index) + Tail(n));
    PrintThenTail(m.index, Tail(m), n.index, Tail(n));
    TailInjective(m, n);
  }
}
