/** Configuration and environment helpers of the core utilities:
    `getConfig`, `frontendEnv`, `getSubServiceDomain`, `isUsingElk` and
    `configReplacer`. The configuration cache, the database behind it and
    the process environment are passed in as maps; the clock is passed in
    as a `Date`. */
module CoreConfig {
  import opened Wrappers
  import opened Text

  /** Configuration values by code, as the cached configuration map holds
      them. */
  type Configs = map<string, string>

  /** `getConfig(code, defaultValue)`: the stored value when it is truthy
      (present and not the empty string), otherwise the default. */
  function GetConfig(configs: Configs, code: string, default: Option<string>): (r: Option<string>)
    ensures code in configs && configs[code] != "" ==> r == Some(configs[code])
    ensures !(code in configs && configs[code] != "") ==> r == default
    ensures r.Some? && r.value == "" ==> default == Some("")
  {
    if code in configs && configs[code] != "" then Some(configs[code]) else default
  }

  /** A truthy default makes the lookup always yield a truthy value. */
  lemma GetConfigTruthyWithTruthyDefault(configs: Configs, code: string, default: string)
    requires default != ""
    ensures GetConfig(configs, code, Some(default)).Some?
    ensures GetConfig(configs, code, Some(default)).value != ""
  {
  }

  /** `getEnv({ name, defaultValue })` from the shared api utilities: the
      variable when it is set and non-empty, otherwise the default when one
      is given, otherwise the empty string. */
  function GetEnv(env: map<string, string>, name: string, default: Option<string>): string {
    if name in env && env[name] != "" then env[name] else if default.Some? then default.value else ""
  }

  /** The default sub-service paths under `MAIN_APP_DOMAIN`. */
  const SubServicePaths: map<string, string> := map[
    "API_DOMAIN" := "/api",
    "WIDGETS_DOMAIN" := "/widgets",
    "INTEGRATIONS_API_DOMAIN" := "/integrations",
    "LOGS_API_DOMAIN" := "/logs",
    "ENGAGES_API_DOMAIN" := "/engages",
    "VERIFIER_API_DOMAIN" := "/verifier",
    "AUTOMATIONS_API_DOMAIN" := "/automations"
  ]

  /** `getSubServiceDomain({ name })`: an explicit, non-empty environment
      override wins; otherwise the default path under the main domain for
      the seven known names, and `undefined` for any other name. */
  function GetSubServiceDomain(env: map<string, string>, name: string): (r: Option<string>)
    ensures name in env && env[name] != "" ==> r == Some(env[name])
    ensures !(name in env && env[name] != "") ==>
              (r.Some? <==> name in SubServicePaths) &&
              (r.Some? ==> r.value == GetEnv(env, "MAIN_APP_DOMAIN", None) + SubServicePaths[name])
  {
    var domain := GetEnv(env, name, None);
    if domain != "" then Some(domain)
    else if name in SubServicePaths then Some(GetEnv(env, "MAIN_APP_DOMAIN", None) + SubServicePaths[name])
    else None
  }

  /** Without overrides, two different known sub-services never share a
      default domain. */
  lemma DefaultSubServiceDomainsDistinct(env: map<string, string>, a: string, b: string)
    requires a in SubServicePaths && b in SubServicePaths && a != b
    requires !(a in env && env[a] != "") && !(b in env && env[b] != "")
    ensures GetSubServiceDomain(env, a) != GetSubServiceDomain(env, b)
  {
    var main := GetEnv(env, "MAIN_APP_DOMAIN", None);
    var pa, pb := SubServicePaths[a], SubServicePaths[b];
    assert pa != pb;
    assert (main + pa)[|main|..] == pa;
    assert (main + pb)[|main|..] == pb;
  }

  /** `isUsingElk()`: Elasticsearch is used unless `ELK_SYNCER` is exactly
      `"false"` (unset and empty both fall back to `"true"`). */
  function IsUsingElk(env: map<string, string>): (r: bool)
    ensures !r <==> "ELK_SYNCER" in env && env["ELK_SYNCER"] == "false"
  {
    GetEnv(env, "ELK_SYNCER", Some("true")) != "false"
  }

  // ---------------------------------------------------------------- frontendEnv

  const ReactAppPrefix := "REACT_APP_"

  /** `key.replace('REACT_APP_', '')`: the first occurrence of the prefix
      is removed, wherever it is. */
  function EnvKey(key: string): (k: string)
    ensures ReactAppPrefix <= key ==> k == key[|ReactAppPrefix|..]
    ensures !Contains(key, ReactAppPrefix) ==> k == key
  {
    if Contains(key, ReactAppPrefix) then ReplaceFirst(key, ReactAppPrefix, "")
    else
      ReplaceFirstWithoutOccurrence(key, ReactAppPrefix, "");
      ReplaceFirst(key, ReactAppPrefix, "")
  }

  /** The `envs` object built by the loop of `frontendEnv`, over the cookies
      in their enumeration order; a later cookie overwrites an earlier one
      with the same rewritten key. */
  function CookieEnvs(cookies: seq<(string, string)>): (envs: map<string, string>)
    ensures |envs| <= |cookies|
    ensures cookies != [] ==> Get(envs, EnvKey(cookies[|cookies| - 1].0)) == Some(cookies[|cookies| - 1].1)
    decreases |cookies|
  {
    if cookies == [] then map[]
    else
      var last := cookies[|cookies| - 1];
      var before := CookieEnvs(cookies[..|cookies| - 1]);
      assert before[EnvKey(last.0) := last.1].Keys == before.Keys + {EnvKey(last.0)};
      before[EnvKey(last.0) := last.1]
  }

  lemma {:induction false} CookieEnvsLastWins(cookies: seq<(string, string)>, name: string)
    ensures name !in CookieEnvs(cookies) <==>
              forall i :: 0 <= i < |cookies| ==> EnvKey(cookies[i].0) != name
    ensures name in CookieEnvs(cookies) ==>
              exists i :: 0 <= i < |cookies| && EnvKey(cookies[i].0) == name &&
                cookies[i].1 == CookieEnvs(cookies)[name] &&
                forall j :: i < j < |cookies| ==> EnvKey(cookies[j].0) != name
    decreases |cookies|
  {
    if cookies != [] {
      var n := |cookies| - 1;
      var init := cookies[..n];
      CookieEnvsLastWins(init, name);
      if EnvKey(cookies[n].0) != name {
        if name in CookieEnvs(cookies) {
          var i :| 0 <= i < |init| && EnvKey(init[i].0) == name &&
                   init[i].1 == CookieEnvs(init)[name] &&
                   forall j :: i < j < |init| ==> EnvKey(init[j].0) != name;
          assert cookies[i] == init[i];
          assert forall j :: i < j < |cookies| ==> EnvKey(cookies[j].0) != name by {
            forall j | i < j < |cookies|
              ensures EnvKey(cookies[j].0) != name
            {
              if j < n {
                assert cookies[j] == init[j];
              }
            }
          }
        }
        assert forall i :: 0 <= i < n ==> cookies[i] == init[i];
      }
    }
  }

  /** `frontendEnv({ name, req })` over the request's cookies: the value of
      the last cookie whose key, with `REACT_APP_` removed, is `name`, and
      `undefined` when there is none. */
  function FrontendEnv(cookies: seq<(string, string)>, name: string): (r: Option<string>)
    ensures r.None? <==> forall i :: 0 <= i < |cookies| ==> EnvKey(cookies[i].0) != name
    ensures r.Some? ==>
              exists i :: 0 <= i < |cookies| && EnvKey(cookies[i].0) == name &&
                cookies[i].1 == r.value &&
                forall j :: i < j < |cookies| ==> EnvKey(cookies[j].0) != name
  {
    CookieEnvsLastWins(cookies, name);
    Get(CookieEnvs(cookies), name)
  }

  /** A `REACT_APP_` cookie is found under its short name. */
  lemma PrefixedCookieFound(key: string, value: string)
    ensures FrontendEnv([(ReactAppPrefix + key, value)], key) == Some(value)
  {
    assert ReactAppPrefix <= ReactAppPrefix + key;
    assert (ReactAppPrefix + key)[|ReactAppPrefix|..] == key;
  }

  // ---------------------------------------------------------- configReplacer

  /** The calendar fields `configReplacer` reads: `getFullYear()`,
      `getMonth()` (zero-based) and `getDate()`. */
  datatype Date = Date(year: nat, month: nat, day: nat)

  const YearPlaceholder := "{year}"
  const MonthPlaceholder := "{month}"
  const DayPlaceholder := "{day}"

  predicate HasPlaceholder(s: string) {
    Contains(s, YearPlaceholder) || Contains(s, MonthPlaceholder) || Contains(s, DayPlaceholder)
  }

  lemma DigitsShareNothingWithPlaceholders(d: string)
    requires AllDigits(d)
    ensures Disjoint(YearPlaceholder, d)
    ensures Disjoint(MonthPlaceholder, d)
    ensures Disjoint(DayPlaceholder, d)
  {
    assert forall c :: c in d ==> IsDigit(c);
  }

  /** The three global replacements, one pass per placeholder, leave no
      placeholder behind and change nothing in placeholder-free text. */
  lemma ReplacementPasses(config: string, year: string, month: string, day: string)
    requires AllDigits(year) && AllDigits(month) && AllDigits(day)
    requires year != [] && month != [] && day != []
    ensures var r := ReplaceAll(ReplaceAll(ReplaceAll(config, YearPlaceholder, year),
                                           MonthPlaceholder, month), DayPlaceholder, day);
            !HasPlaceholder(r) && (!HasPlaceholder(config) ==> r == config)
  {
    var a := ReplaceAll(config, YearPlaceholder, year);
    var b := ReplaceAll(a, MonthPlaceholder, month);
    DigitsShareNothingWithPlaceholders(year);
    DigitsShareNothingWithPlaceholders(month);
    DigitsShareNothingWithPlaceholders(day);
    ReplaceAllLeavesNoOccurrence(config, YearPlaceholder, year, YearPlaceholder);
    ReplaceAllLeavesNoOccurrence(a, MonthPlaceholder, month, YearPlaceholder);
    ReplaceAllLeavesNoOccurrence(b, DayPlaceholder, day, YearPlaceholder);
    ReplaceAllLeavesNoOccurrence(a, MonthPlaceholder, month, MonthPlaceholder);
    ReplaceAllLeavesNoOccurrence(b, DayPlaceholder, day, MonthPlaceholder);
    ReplaceAllLeavesNoOccurrence(b, DayPlaceholder, day, DayPlaceholder);
    if !HasPlaceholder(config) {
      ReplaceAllWithoutOccurrence(config, YearPlaceholder, year);
      ReplaceAllWithoutOccurrence(a, MonthPlaceholder, month);
      ReplaceAllWithoutOccurrence(b, DayPlaceholder, day);
    }
  }

  /** `configReplacer(config)` at the instant `now`: every `{year}`,
      `{month}` and `{day}` is replaced by the full year, the one-based
      month and the day of the month, so no placeholder survives; text
      without placeholders comes back unchanged. */
  function ConfigReplacer(config: string, now: Date): (r: string)
    ensures !HasPlaceholder(r)
    ensures !HasPlaceholder(config) ==> r == config
  {
    ReplacementPasses(config, Decimal(now.year), Decimal(now.month + 1), Decimal(now.day));
    ReplaceAll(ReplaceAll(ReplaceAll(config, YearPlaceholder, Decimal(now.year)),
                          MonthPlaceholder, Decimal(now.month + 1)),
               DayPlaceholder, Decimal(now.day))
  }

  /** A pass for a placeholder over text whose only `{` opens a different
      placeholder changes nothing. */
  lemma PassLeavesOtherPlaceholder(a: string, b: string, q: string, p: string, r: string)
    requires '{' !in a && '{' !in b
    requires q != [] && q[0] == '{' && '{' !in q[1..]
    requires p != [] && p[0] == '{' && !(p <= q + b)
    ensures ReplaceAll(a + q + b, p, r) == a + q + b
  {
    ReplaceAllSkipsPrefix(a, q + b, p, r);
    var t := (q + b)[1..];
    assert t == q[1..] + b;
    assert '{' !in t;
    ReplaceAllSkipsPrefix(t, "", p, r);
    assert t + "" == t;
    assert q + b == [q[0]] + t;
    assert a + (q + b) == a + q + b;
  }

  /** The month pass replaces the one `{month}`. */
  lemma MonthPass(a: string, b: string, month: string)
    requires '{' !in a && '{' !in b
    ensures ReplaceAll(a + MonthPlaceholder + b, MonthPlaceholder, month) == a + month + b
  {
    var m := MonthPlaceholder;
    ReplaceAllSkipsPrefix(a, m + b, m, month);
    assert m <= m + b;
    assert (m + b)[|m|..] == b;
    assert ReplaceAll(m + b, m, month) == month + ReplaceAll(b, m, month);
    FreeOfBraceIsKept(b, m, month);
    assert a + (m + b) == a + m + b;
  }

  /** Text without `{` is left alone by any placeholder pass. */
  lemma FreeOfBraceIsKept(b: string, p: string, r: string)
    requires '{' !in b && p != [] && p[0] == '{'
    ensures ReplaceAll(b, p, r) == b
  {
    ReplaceAllSkipsPrefix(b, "", p, r);
    assert b + "" == b;
  }

  /** The month is written one-based: `{month}` between placeholder-free
      text becomes `getMonth() + 1`, and nothing else changes. */
  lemma MonthIsOneBased(a: string, b: string, now: Date)
    requires '{' !in a && '{' !in b
    ensures ConfigReplacer(a + MonthPlaceholder + b, now) == a + Decimal(now.month + 1) + b
  {
    var month := Decimal(now.month + 1);
    assert (MonthPlaceholder + b)[1] == 'm';
    PassLeavesOtherPlaceholder(a, b, MonthPlaceholder, YearPlaceholder, Decimal(now.year));
    MonthPass(a, b, month);
    assert '{' !in a + month + b by {
      assert forall c :: c in month ==> IsDigit(c);
    }
    ReplaceAllSkipsPrefix(a + month + b, "", DayPlaceholder, Decimal(now.day));
    assert a + month + b + "" == a + month + b;
  }

  /** The shape of the three placeholders: `{`, then a name without `{`. */
  predicate PlaceholderShaped(q: string) {
    |q| > 1 && q[0] == '{' && '{' !in q[1..]
  }

  /** A pass over brace-free text, then the placeholder it replaces: the
      text is copied, the placeholder becomes the replacement, and the pass
      resumes after it. */
  lemma PassHitsPlaceholder(a: string, p: string, rest: string, r: string)
    requires '{' !in a && p != [] && p[0] == '{'
    ensures ReplaceAll(a + p + rest, p, r) == a + r + ReplaceAll(rest, p, r)
  {
    ReplaceAllSkipsPrefix(a, p + rest, p, r);
    assert p <= p + rest;
    assert (p + rest)[|p|..] == rest;
    assert a + (p + rest) == a + p + rest;
  }

  /** A pass over brace-free text, then a different placeholder: both are
      copied, and the pass resumes after them. */
  lemma PassSkipsPlaceholder(a: string, q: string, rest: string, p: string, r: string)
    requires '{' !in a && PlaceholderShaped(q)
    requires |p| > 1 && p[0] == '{' && p[1] != q[1]
    ensures ReplaceAll(a + q + rest, p, r) == a + q + ReplaceAll(rest, p, r)
  {
    ReplaceAllSkipsPrefix(a, q + rest, p, r);
    assert (q + rest)[1] == q[1];
    assert !(p <= q + rest);
    assert (q + rest)[1..] == q[1..] + rest;
    ReplaceAllSkipsPrefix(q[1..], rest, p, r);
    assert q == [q[0]] + q[1..];
    assert a + (q + rest) == a + q + rest;
  }

  /** A pass over brace-free text around a different placeholder changes
      nothing. */
  lemma PassSkipsTail(c: string, q: string, d: string, p: string, r: string)
    requires '{' !in c && '{' !in d && PlaceholderShaped(q)
    requires |p| > 1 && p[0] == '{' && p[1] != q[1]
    ensures ReplaceAll(c + q + d, p, r) == c + q + d
  {
    PassSkipsPlaceholder(c, q, d, p, r);
    FreeOfBraceIsKept(d, p, r);
  }

  /** A pass over brace-free text around two other placeholders changes
      nothing. */
  lemma PassSkipsTwo(b: string, q: string, c: string, s: string, d: string, p: string, r: string)
    requires '{' !in b && '{' !in c && '{' !in d && PlaceholderShaped(q) && PlaceholderShaped(s)
    requires |p| > 1 && p[0] == '{' && p[1] != q[1] && p[1] != s[1]
    ensures ReplaceAll(b + q + c + s + d, p, r) == b + q + c + s + d
  {
    PassSkipsPlaceholder(b, q, c + s + d, p, r);
    PassSkipsTail(c, s, d, p, r);
    assert b + q + (c + s + d) == b + q + c + s + d;
  }

  /** The first of three passes: only its own placeholder changes. */
  lemma FirstOfThreePasses(a: string, b: string, c: string, d: string, p: string, q: string, s: string, r: string)
    requires '{' !in a && '{' !in b && '{' !in c && '{' !in d
    requires PlaceholderShaped(p) && PlaceholderShaped(q) && PlaceholderShaped(s)
    requires p[1] != q[1] && p[1] != s[1]
    ensures ReplaceAll(a + p + b + q + c + s + d, p, r) == a + r + b + q + c + s + d
  {
    var rest := b + q + c + s + d;
    PassHitsPlaceholder(a, p, rest, r);
    PassSkipsTwo(b, q, c, s, d, p, r);
    Regroup(a, p, b, q, c, s, d);
    Regroup(a, r, b, q, c, s, d);
  }

  /** Concatenation regrouped around a replaced placeholder. */
  lemma Regroup(a: string, x: string, b: string, q: string, c: string, s: string, d: string)
    ensures a + x + (b + q + c + s + d) == a + x + b + q + c + s + d
  {
  }

  /** The second of three passes: only its own placeholder changes. */
  lemma SecondOfThreePasses(a: string, c: string, d: string, q: string, s: string, r: string)
    requires '{' !in a && '{' !in c && '{' !in d
    requires PlaceholderShaped(q) && PlaceholderShaped(s) && q[1] != s[1]
    ensures ReplaceAll(a + q + c + s + d, q, r) == a + r + c + s + d
  {
    PassHitsPlaceholder(a, q, c + s + d, r);
    PassSkipsTail(c, s, d, q, r);
    assert a + q + (c + s + d) == a + q + c + s + d;
    assert a + r + (c + s + d) == a + r + c + s + d;
  }

  /** Three passes over a template holding three distinct placeholders
      between brace-free text, with brace-free replacements for the first
      two: each placeholder becomes its replacement in place. */
  lemma ThreePasses(a: string, b: string, c: string, d: string, p: string, q: string, s: string,
                    rp: string, rq: string, rs: string)
    requires '{' !in a && '{' !in b && '{' !in c && '{' !in d && '{' !in rp && '{' !in rq
    requires PlaceholderShaped(p) && PlaceholderShaped(q) && PlaceholderShaped(s)
    requires p[1] != q[1] && p[1] != s[1] && q[1] != s[1]
    ensures ReplaceAll(ReplaceAll(ReplaceAll(a + p + b + q + c + s + d, p, rp), q, rq), s, rs) ==
            a + rp + b + rq + c + rs + d
  {
    FirstOfThreePasses(a, b, c, d, p, q, s, rp);
    var a1 := a + rp + b;
    assert a + rp + b + q + c + s + d == a1 + q + c + s + d;
    SecondOfThreePasses(a1, c, d, q, s, rq);
    var a2 := a1 + rq + c;
    assert a1 + rq + c + s + d == a2 + s + d;
    PassHitsPlaceholder(a2, s, d, rs);
    FreeOfBraceIsKept(d, s, rs);
    assert a2 + rs + d == a + rp + b + rq + c + rs + d;
  }

  /** Each field lands where its placeholder stood: in a template with
      `{year}`, `{month}` and `{day}` between placeholder-free text, they
      become the full year, the one-based month and the day of the month,
      and the text around them is kept. */
  lemma FieldsInPlace(a: string, b: string, c: string, d: string, now: Date)
    requires '{' !in a && '{' !in b && '{' !in c && '{' !in d
    ensures ConfigReplacer(a + YearPlaceholder + b + MonthPlaceholder + c + DayPlaceholder + d, now) ==
            a + Decimal(now.year) + b + Decimal(now.month + 1) + c + Decimal(now.day) + d
  {
    var y, m := Decimal(now.year), Decimal(now.month + 1);
    assert forall ch :: ch in y ==> IsDigit(ch);
    assert forall ch :: ch in m ==> IsDigit(ch);
    assert PlaceholderShaped(YearPlaceholder) && YearPlaceholder[1] == 'y';
    assert PlaceholderShaped(MonthPlaceholder) && MonthPlaceholder[1] == 'm';
    assert PlaceholderShaped(DayPlaceholder) && DayPlaceholder[1] == 'd';
    ThreePasses(a, b, c, d, YearPlaceholder, MonthPlaceholder, DayPlaceholder, y, m, Decimal(now.day));
  }
}
