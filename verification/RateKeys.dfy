/**
 The cache keys of the rate limiters. The middleware and the SQLite and memory backends build them as text from the
 client address and the API key name; here they are values, and KeyText says which text each value stands for. Redis
 builds its violation keys differently.
 */
module RateKeys {
  import opened Texts

  /** One counter per client address and API key name. */
  datatype LimitsKey = LimitsKey(ip: string, apiKey: string)

  datatype CacheKey =
    | Count(limits: LimitsKey)
    | Expiry(limits: LimitsKey)
    | Violations(limits: LimitsKey)
    | Penalty(ip: string)
    | General(name: string)   // what the rest of the program stores in the same cache

  function LimitsText(k: LimitsKey): string {
    "rl:ip:" + k.ip + ":key:" + k.apiKey
  }

  function KeyText(k: CacheKey): string {
    match k
    case Count(l) => LimitsText(l) + ":count"
    case Expiry(l) => LimitsText(l) + ":expiry"
    case Violations(l) => "rl:violations:" + LimitsText(l)
    case Penalty(ip) => "penalty:" + ip
    case General(name) => name
  }

  /** The API key name is the part of the bearer token before the first colon, so it holds no colon itself. */
  ghost predicate WellFormed(k: LimitsKey) {
    ':' !in k.apiKey
  }

  /** The last colon of a limits key is the one in front of the API key name. */
  lemma LimitsTextInjective(k: LimitsKey, l: LimitsKey)
    requires WellFormed(k) && WellFormed(l)
    requires LimitsText(k) == LimitsText(l)
    ensures k == l
  {
    var s := LimitsText(k);
    assert s == ("rl:ip:" + k.ip + ":key") + ([':'] + k.apiKey);
    assert s == ("rl:ip:" + l.ip + ":key") + ([':'] + l.apiKey);
    var i, j := |s| - |k.apiKey|, |s| - |l.apiKey|;
    assert s[i..] == k.apiKey && s[j..] == l.apiKey;
    assert s[i - 1] == ':' && s[j - 1] == ':';
    if i < j {
      assert false;
    } else if j < i {
      assert false;
    }
    assert "rl:ip:" + k.ip == s[..i - 5] && "rl:ip:" + l.ip == s[..i - 5];
    DropPrefix("rl:ip:", k.ip, l.ip);
  }

  ghost predicate WellFormedKey(k: CacheKey) {
    !k.General? && (k.Penalty? || WellFormed(k.limits))
  }

  /**
   Distinct keys of the SQLite and memory limiters print as distinct texts, although an address taken from a header may
   hold any characters. So these limiters may use the values in place of the texts.
   */
  lemma KeyTextInjective(a: CacheKey, b: CacheKey)
    requires WellFormedKey(a) && WellFormedKey(b)
    requires KeyText(a) == KeyText(b)
    ensures a == b
  {
    var s, t := KeyText(a), KeyText(b);
    // The fourth character tells limits keys ('i') from violation keys ('v'); the last one tells counts from
    // expiries, and the first one tells penalties apart.
    assert s[0] == t[0] && s[3] == t[3] && s[|s| - 1] == t[|t| - 1];
    match (a, b) {
      case (Count(k), Count(l)) =>
        DropSuffix(":count", LimitsText(k), LimitsText(l));
        LimitsTextInjective(k, l);
      case (Expiry(k), Expiry(l)) =>
        DropSuffix(":expiry", LimitsText(k), LimitsText(l));
        LimitsTextInjective(k, l);
      case (Violations(k), Violations(l)) =>
        DropPrefix("rl:violations:", LimitsText(k), LimitsText(l));
        LimitsTextInjective(k, l);
      case (Penalty(i), Penalty(j)) =>
        DropPrefix("penalty:", i, j);
      case _ =>
        assert false;
    }
  }

  // ---------------------------------------------------------------------------
  // Violation keys on Redis
  // ---------------------------------------------------------------------------

  /** Only the last part of limits_key.split(":") goes into the key. */
  function RedisViolationText(k: LimitsKey): string {
    "rl:violations:" + Last(Split(LimitsText(k), ':'))
  }

  /**
   Redis keeps only the last part of a limits key, so there the violations of two callers are counted together if and
   only if they use the same API key name, whatever their addresses.
   */
  lemma RedisViolationsSharedByName(k: LimitsKey, l: LimitsKey)
    requires WellFormed(k) && WellFormed(l)
    ensures RedisViolationText(k) == RedisViolationText(l) <==> k.apiKey == l.apiKey
  {
    SplitLast("rl:ip:" + k.ip + ":key", k.apiKey, ':');
    SplitLast("rl:ip:" + l.ip + ":key", l.apiKey, ':');
    assert LimitsText(k) == "rl:ip:" + k.ip + ":key" + ":" + k.apiKey;
    assert LimitsText(l) == "rl:ip:" + l.ip + ":key" + ":" + l.apiKey;
    if RedisViolationText(k) == RedisViolationText(l) {
      DropPrefix("rl:violations:", k.apiKey, l.apiKey);
    }
  }
}
