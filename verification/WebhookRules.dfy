/** Webhook rules: reading module.operation@alias:targets, checking a trigger token, and matching events. */
module WebhookRules {
  import opened Outcomes
  import opened Texts

  /** A parsed rule; targets None stands for the target "*". */
  datatype Rule = Rule(mod: string, op: string, alias: string, targets: Option<seq<string>>)

  datatype Hook = Hook(name: string, enabled: bool, rule: string, secret: string)

  /** What happened, and the token the client sent to trigger webhooks. */
  datatype Notice = Notice(mod: string, op: string, resource: string, target: string, token: Option<string>)

  /** Base64 and UTF-8; None where that raises. */
  type Decoder = string -> Option<string>

  function StripAll(parts: seq<string>): (stripped: seq<string>)
    ensures |stripped| == |parts|
    ensures forall i :: 0 <= i < |parts| ==> stripped[i] == Strip(parts[i])
  {
    seq(|parts|, i requires 0 <= i < |parts| => Strip(parts[i]))
  }

  /** The parts of a rule text; None where unpacking a split raises. */
  function ParseRule(text: string): Option<Rule> {
    var sides := Split(text, '@');
    if |sides| != 2 then None
    else
      var left, right := Split(sides[0], '.'), Split(sides[1], ':');
      if |left| != 2 || |right| != 2 then None
      else Some(Rule(left[0], left[1], right[0],
                     if right[1] == "*" then None else Some(StripAll(Split(right[1], ',')))))
  }

  predicate IsAscii(s: string) {
    forall i :: 0 <= i < |s| ==> s[i] < '\U{0080}'
  }

  /** Comparing text that is not ASCII raises, and then nothing matches. */
  predicate TokenMatched(secret: string, token: Option<string>, decode: Decoder) {
    token.Some? && token.value != "" && IsAscii(secret) && decode(token.value) == Some(secret)
  }

  predicate RuleCovers(r: Rule, n: Notice) {
    && (r.mod == "*" || r.mod == n.mod)
    && (r.op == "*" || r.op == "any" || r.op == n.op)
    && (r.alias == "*" || r.alias == n.resource)
    && (r.targets.Some? ==> n.target in r.targets.value)
  }

  /** Whether the hook gets the event; None where an enabled hook's rule cannot be read. */
  function Matched(h: Hook, n: Notice, decode: Decoder): Option<bool> {
    if !h.enabled then Some(false)
    else match ParseRule(h.rule)
      case None => None
      case Some(r) => Some(RuleCovers(r, n) && TokenMatched(h.secret, n.token, decode))
  }

  // ---------------------------------------------------------------------------
  // Rules that the configuration accepts
  // ---------------------------------------------------------------------------

  const MODULES := {"db", "fs"}
  const OPERATIONS := {"read", "write", "delete", "any"}

  function RuleText(mod: string, op: string, alias: string, targets: string): string {
    mod + "." + op + "@" + alias + ":" + targets
  }

  /** The parts of a rule that the configuration's pattern accepts: alias and targets are not empty, without colon. */
  ghost predicate Accepted(mod: string, op: string, alias: string, targets: string) {
    mod in MODULES && op in OPERATIONS && alias != "" && targets != "" && ':' !in alias && ':' !in targets
  }

  lemma SidesOfRule(mod: string, op: string, alias: string, targets: string)
    requires Accepted(mod, op, alias, targets)
    ensures Split(RuleText(mod, op, alias, targets), '@') == [mod + "." + op] + Split(alias + ":" + targets, '@')
    ensures Split(mod + "." + op, '.') == [mod, op]
    ensures Split(alias + ":" + targets, ':') == [alias, targets]
  {
    hide Split;
    assert RuleText(mod, op, alias, targets) == (mod + "." + op) + "@" + (alias + ":" + targets);
    SplitMore(mod + "." + op, alias + ":" + targets, '@');
    SplitMore(mod, op, '.');
    SplitOne(op, '.');
    SplitMore(alias, targets, ':');
    SplitOne(targets, ':');
  }

  /**
   A rule that the configuration accepts can be read, as the parts it was written from, if and only if neither alias
   nor targets contain an @. The pattern allows one there, and then matching raises.
   */
  lemma AcceptedRuleReadsIffNoAt(mod: string, op: string, alias: string, targets: string)
    requires Accepted(mod, op, alias, targets)
    ensures ParseRule(RuleText(mod, op, alias, targets))
         == if '@' in alias || '@' in targets then None
            else Some(Rule(mod, op, alias, if targets == "*" then None else Some(StripAll(Split(targets, ',')))))
  {
    hide Split;
    SidesOfRule(mod, op, alias, targets);
    SplitOne(alias + ":" + targets, '@');
    assert '@' in alias + ":" + targets <==> '@' in alias || '@' in targets;
  }

  /** Such a rule, which the configuration accepts and nothing can read. */
  lemma RuleWithAtUnreadable()
    ensures Accepted("db", "any", "a@b", "c") && RuleText("db", "any", "a@b", "c") == "db.any@a@b:c"
    ensures ParseRule("db.any@a@b:c") == None
  {
    assert "a@b"[1] == '@';
    AcceptedRuleReadsIffNoAt("db", "any", "a@b", "c");
  }

  /** The client sent a token that decodes to exactly this secret, which is plain ASCII. */
  ghost predicate Authorises(token: Option<string>, secret: string, decode: Decoder) {
    && token != None && token != Some("")
    && decode(token.value) == Some(secret)
    && forall i :: 0 <= i < |secret| ==> secret[i] < '\U{0080}'
  }

  /** The parts of a rule hold none of the characters that separate them. */
  ghost predicate Separable(mod: string, op: string, alias: string, targets: string) {
    && '.' !in mod && '.' !in op && ':' !in alias && ':' !in targets
    && '@' !in mod && '@' !in op && '@' !in alias && '@' !in targets
  }

  lemma ReadsAsWritten(mod: string, op: string, alias: string, targets: string)
    requires Separable(mod, op, alias, targets)
    ensures ParseRule(RuleText(mod, op, alias, targets))
         == Some(Rule(mod, op, alias, if targets == "*" then None else Some(StripAll(Split(targets, ',')))))
  {
    hide Split;
    assert RuleText(mod, op, alias, targets) == (mod + "." + op) + "@" + (alias + ":" + targets);
    SplitMore(mod + "." + op, alias + ":" + targets, '@');
    SplitOne(alias + ":" + targets, '@');
    SplitMore(mod, op, '.');
    SplitOne(op, '.');
    SplitMore(alias, targets, ':');
    SplitOne(targets, ':');
  }

  /**
   A hook gets exactly the events that its rule describes and whose token authorises them: * stands for anything, any
   for every operation, and targets are separated by commas, up to surrounding space.
   */
  lemma MatchedExactly(
      h: Hook, mod: string, op: string, alias: string, targets: string, n: Notice, decode: Decoder)
    requires Separable(mod, op, alias, targets) && h.rule == RuleText(mod, op, alias, targets)
    ensures Matched(h, n, decode) == Some(
              && h.enabled
              && (mod == "*" || mod == n.mod) && (op == "*" || op == "any" || op == n.op)
              && (alias == "*" || alias == n.resource)
              && (targets == "*" || n.target in StripAll(Split(targets, ',')))
              && Authorises(n.token, h.secret, decode))
  {
    hide Split, StripAll, RuleText;
    ReadsAsWritten(mod, op, alias, targets);
  }

  /** No token triggers two hooks with different secrets. */
  lemma OneSecretPerToken(g: Hook, h: Hook, n: Notice, decode: Decoder)
    requires Matched(g, n, decode) == Some(true) && Matched(h, n, decode) == Some(true)
    ensures g.secret == h.secret
  {
  }

  /** A missing, empty or undecodable token triggers nothing, and neither does a disabled hook. */
  lemma NothingWithoutToken(h: Hook, n: Notice, decode: Decoder)
    requires n.token == None || n.token == Some("") || decode(n.token.value) == None || !h.enabled
    ensures Matched(h, n, decode) != Some(true)
  {
  }

  /** Targets written one after the other with commas. */
  function Listed(targets: seq<string>): string
    requires |targets| > 0
  {
    if |targets| == 1 then targets[0] else targets[0] + "," + Listed(targets[1..])
  }

  lemma {:induction false} SplitListed(targets: seq<string>)
    requires |targets| > 0 && forall i :: 0 <= i < |targets| ==> ',' !in targets[i]
    ensures Split(Listed(targets), ',') == targets
    decreases |targets|
  {
    hide Split;
    if |targets| == 1 {
      SplitOne(targets[0], ',');
      assert targets == [targets[0]];
    } else {
      SplitListed(targets[1..]);
      SplitMore(targets[0], Listed(targets[1..]), ',');
    }
  }

  /** Listed targets are matched one by one. */
  lemma ListedTargetsMatched(
      h: Hook, mod: string, op: string, alias: string, targets: seq<string>, n: Notice, decode: Decoder)
    requires |targets| > 0 && Separable(mod, op, alias, Listed(targets)) && Listed(targets) != "*"
    requires forall i :: 0 <= i < |targets| ==> ',' !in targets[i]
    requires h.rule == RuleText(mod, op, alias, Listed(targets))
    ensures Matched(h, n, decode) == Some(
              && h.enabled
              && (mod == "*" || mod == n.mod) && (op == "*" || op == "any" || op == n.op)
              && (alias == "*" || alias == n.resource)
              && (exists i :: 0 <= i < |targets| && n.target == Strip(targets[i]))
              && Authorises(n.token, h.secret, decode))
  {
    hide Split, Strip, Authorises, RuleText, Listed, Separable;
    MatchedExactly(h, mod, op, alias, Listed(targets), n, decode);
    SplitListed(targets);
    var stripped := StripAll(targets);
    assert n.target in stripped <==> exists i :: 0 <= i < |targets| && n.target == Strip(targets[i]) by {
      if n.target in stripped {
        var i :| 0 <= i < |stripped| && stripped[i] == n.target;
        assert n.target == Strip(targets[i]);
      }
      forall i | 0 <= i < |targets| && n.target == Strip(targets[i])
        ensures n.target in stripped
      {
        assert stripped[i] == n.target;
      }
    }
  }

  // ---------------------------------------------------------------------------
  // The hooks of an event
  // ---------------------------------------------------------------------------

  /** The names of the matched hooks in order; None where matching raises. */
  function MatchedNames(hooks: seq<Hook>, n: Notice, decode: Decoder): Option<seq<string>> {
    if hooks == [] then Some([])
    else
      var last := hooks[|hooks| - 1];
      match (MatchedNames(hooks[..|hooks| - 1], n, decode), Matched(last, n, decode))
      case (Some(names), Some(matched)) => Some(if matched then names + [last.name] else names)
      case _ => None
  }

  /** The names come in the order of the hooks. */
  lemma {:induction false} MatchedInOrder(front: seq<Hook>, back: seq<Hook>, n: Notice, decode: Decoder)
    requires MatchedNames(front, n, decode).Some? && MatchedNames(back, n, decode).Some?
    ensures MatchedNames(front + back, n, decode)
         == Some(MatchedNames(front, n, decode).value + MatchedNames(back, n, decode).value)
    decreases |back|
  {
    if |back| == 0 {
      assert front + back == front;
      var names := MatchedNames(front, n, decode).value;
      assert MatchedNames(back, n, decode) == Some([]) && names + [] == names;
    } else {
      var init, last := back[..|back| - 1], back[|back| - 1];
      MatchedInOrder(front, init, n, decode);
      assert (front + back)[..|front + back| - 1] == front + init && (front + back)[|front + back| - 1] == last;
      var a, b := MatchedNames(front, n, decode).value, MatchedNames(init, n, decode).value;
      assert (a + b) + [last.name] == a + (b + [last.name]);
    }
  }

  /** One unreadable rule among the first hooks is enough. */
  lemma {:induction false} NoneStays(hooks: seq<Hook>, i: nat, n: Notice, decode: Decoder)
    requires i <= |hooks| && MatchedNames(hooks[..i], n, decode) == None
    ensures MatchedNames(hooks, n, decode) == None
  {
    if i == |hooks| {
      assert hooks[..i] == hooks;
    } else {
      assert hooks[..|hooks| - 1][..i] == hooks[..i];
      NoneStays(hooks[..|hooks| - 1], i, n, decode);
    }
  }

  ghost predicate DistinctNames(hooks: seq<Hook>) {
    forall i, j :: 0 <= i < j < |hooks| ==> hooks[i].name != hooks[j].name
  }

  function CountNames(names: seq<string>, name: string): nat {
    if names == [] then 0
    else CountNames(names[..|names| - 1], name) + (if names[|names| - 1] == name then 1 else 0)
  }

  /** Emitting raises, and then no hook gets the event, if and only if some enabled hook's rule cannot be read. */
  lemma {:induction false} RaisesIffRuleUnreadable(hooks: seq<Hook>, n: Notice, decode: Decoder)
    ensures MatchedNames(hooks, n, decode) == None <==> exists h :: h in hooks && h.enabled && ParseRule(h.rule) == None
  {
    hide ParseRule, RuleCovers, TokenMatched;
    if |hooks| > 0 {
      var init, last := hooks[..|hooks| - 1], hooks[|hooks| - 1];
      RaisesIffRuleUnreadable(init, n, decode);
      assert hooks == init + [last];
    }
  }

  /** Hooks have distinct names, so an event is emitted once to each hook it matches and to no other. */
  lemma {:induction false} EmittedOnceToEachMatch(hooks: seq<Hook>, n: Notice, decode: Decoder, name: string)
    requires DistinctNames(hooks) && MatchedNames(hooks, n, decode).Some?
    ensures CountNames(MatchedNames(hooks, n, decode).value, name)
         == if exists h :: h in hooks && h.name == name && Matched(h, n, decode) == Some(true) then 1 else 0
  {
    if |hooks| > 0 {
      var init, last := hooks[..|hooks| - 1], hooks[|hooks| - 1];
      EmittedOnceToEachMatch(init, n, decode, name);
      assert hooks == init + [last];
      assert forall h :: h in init ==> h.name != last.name;
      var names := MatchedNames(init, n, decode).value;
      assert (names + [last.name])[..|names|] == names;
    }
  }
}
