/** Notification rules: their validation, their identifiers, and the debounce rows their keys name. */
module NotifyRules {
  import opened Wrappers
  import opened Strings

  /** `on` is the kind of rule; an absent threshold is `None`. */
  datatype Rule = Rule(on: string, name: string, forMinutes: Option<int>, forHours: Option<int>)

  predicate NameChar(c: char) { 'A' <= c <= 'Z' || 'a' <= c <= 'z' || '0' <= c <= '9' || c == '_' || c == '-' }

  ghost predicate Positive(n: Option<int>) { n.Some? && n.value > 0 }

  /** What loading the configuration accepts. */
  ghost predicate Valid(r: Rule) {
    && (forall c | c in r.name :: NameChar(c))
    && (r.on == "syncFailed" || r.on == "healthRecovered"
        || (r.on == "healthDegraded" && Positive(r.forMinutes))
        || (r.on == "outOfSyncGated" && Positive(r.forHours)))
  }

  /** Decimal notation. */
  function Decimal(n: nat): (s: string)
    ensures s != "" && ':' !in s
  {
    var digit := ['0' + (n % 10) as char];
    if n < 10 then digit else Decimal(n / 10) + digit
  }

  function Number(n: int): string { if n < 0 then "-" + Decimal(-n) else Decimal(n) }

  ghost predicate AllDigits(s: string) { forall i | 0 <= i < |s| :: '0' <= s[i] <= '9' }

  ghost function ValueOf(s: string): nat
    requires AllDigits(s)
  {
    if s == "" then 0 else 10 * ValueOf(s[..|s| - 1]) + (s[|s| - 1] - '0') as nat
  }

  /** Decimal notation reads back as the number. */
  lemma {:induction false} DecimalReadsBack(n: nat)
    ensures AllDigits(Decimal(n)) && ValueOf(Decimal(n)) == n
  {
    var digit := ['0' + (n % 10) as char];
    if n >= 10 {
      DecimalReadsBack(n / 10);
      assert Decimal(n)[..|Decimal(n)| - 1] == Decimal(n / 10);
    } else {
      assert digit[..0] == "";
    }
  }

  /** What the debounce table accepts as a rule: ^[A-Za-z0-9_-]+(:[0-9]+)?$ */
  ghost predicate FitsColumn(key: string) {
    exists name, digits :: WordAndNumber(key, name, digits)
  }

  ghost predicate WordAndNumber(key: string, name: string, digits: string) {
    && name != "" && (forall c | c in name :: 'A' <= c <= 'Z' || 'a' <= c <= 'z' || '0' <= c <= '9' || c in "_-")
    && (forall c | c in digits :: '0' <= c <= '9')
    && key == (if digits == "" then name else name + ":" + digits)
  }

  /**
   A rule of a known kind, whose threshold is positive if its kind has one, is accepted exactly if the table takes its key
   and its name does not imitate a threshold.
   */
  lemma AcceptedKeysFit(r: Rule)
    requires Plain(r.on) || (r.on == "healthDegraded" && Positive(r.forMinutes)) || (r.on == "outOfSyncGated" && Positive(r.forHours))
    ensures Valid(r) <==> FitsColumn(RuleKey(r)) && ':' !in r.name
  {
    if r.name != "" { NamesFit(r.name); } else { UnnamedFit(r); }
  }

  lemma NamesFit(name: string)
    requires name != ""
    ensures (forall c | c in name :: NameChar(c)) <==> FitsColumn(name) && ':' !in name
  {
    if forall c | c in name :: NameChar(c) { assert WordAndNumber(name, name, ""); }
    if ':' !in name && FitsColumn(name) {
      var word, digits :| WordAndNumber(name, word, digits);
      HasColon(word, digits);
    }
  }

  lemma HasColon(word: string, digits: string)
    ensures ':' in word + ":" + digits
  {
    assert (word + ":" + digits)[|word|] == ':';
  }

  lemma UnnamedFit(r: Rule)
    requires Valid(r) && r.name == ""
    ensures FitsColumn(RuleKey(r))
  {
    KindIsWord(r.on);
    if Threshold(r).Some? {
      var digits := Decimal(Threshold(r).value);
      DecimalReadsBack(Threshold(r).value);
      assert RuleKey(r) == r.on + ":" + digits;
      assert WordAndNumber(RuleKey(r), r.on, digits);
    } else {
      assert WordAndNumber(RuleKey(r), r.on, "");
    }
  }

  lemma KindIsWord(on: string)
    requires on == "syncFailed" || on == "healthRecovered" || on == "healthDegraded" || on == "outOfSyncGated"
    ensures on != "" && forall c | c in on :: 'A' <= c <= 'Z' || 'a' <= c <= 'z'
  {
  }

  function RuleID(r: Rule): string { if r.name != "" then r.name else r.on }

  /** An unnamed rule with a threshold has it in its key. */
  function RuleKey(r: Rule): string
    requires r.name == "" && r.on == "healthDegraded" ==> r.forMinutes.Some?
    requires r.name == "" && r.on == "outOfSyncGated" ==> r.forHours.Some?
  {
    if r.name != "" then r.name
    else if r.on == "healthDegraded" then r.on + ":" + Number(r.forMinutes.value)
    else if r.on == "outOfSyncGated" then r.on + ":" + Number(r.forHours.value)
    else r.on
  }

  /** The threshold that matters for a rule's kind. */
  function Threshold(r: Rule): Option<int> {
    if r.on == "healthDegraded" then r.forMinutes else if r.on == "outOfSyncGated" then r.forHours else None
  }

  predicate Plain(on: string) { on == "syncFailed" || on == "healthRecovered" }

  /** Two rules debounce on one row: same name, same unnamed rule, or a name that spells an unnamed rule without threshold. */
  predicate SameRow(a: Rule, b: Rule) {
    if a.name != "" && b.name != "" then a.name == b.name
    else if a.name == "" && b.name == "" then a.on == b.on && Threshold(a) == Threshold(b)
    else if a.name != "" then a.name == b.on && Plain(b.on)
    else b.name == a.on && Plain(a.on)
  }

  lemma KeyShape(r: Rule)
    requires Valid(r)
    ensures ':' in RuleKey(r) <==> r.name == "" && !Plain(r.on)
    ensures r.name == "" && !Plain(r.on) ==> Threshold(r).Some? && Cut(RuleKey(r), ':') == Some((r.on, Number(Threshold(r).value)))
  {
    if r.name == "" && !Plain(r.on) {
      var n := Number(Threshold(r).value);
      assert RuleKey(r) == r.on + [':'] + n;
      CutOf(r.on, ':', n);
    }
  }

  /** Valid rules have equal keys exactly when they share a row in that sense. */
  lemma KeysEqualIffSameRow(a: Rule, b: Rule)
    requires Valid(a) && Valid(b)
    ensures RuleKey(a) == RuleKey(b) <==> SameRow(a, b)
  {
    KeyShape(a);
    KeyShape(b);
    if RuleKey(a) == RuleKey(b) && a.name == "" && b.name == "" && !Plain(a.on) && !Plain(b.on) {
      DecimalReadsBack(Threshold(a).value);
      DecimalReadsBack(Threshold(b).value);
    }
  }

  /** Loading does not make keys distinct: a name may be used twice, or spell another kind of rule. */
  lemma ValidRulesMayShareRow() returns (degraded: Rule, recovered: Rule)
    ensures Valid(degraded) && Valid(recovered) && degraded.on == "healthDegraded" && recovered.on == "healthRecovered"
    ensures RuleID(degraded) == RuleID(recovered) && RuleKey(degraded) == RuleKey(recovered)
  {
    degraded, recovered := Rule("healthDegraded", "healthRecovered", Some(5), None), Rule("healthRecovered", "", None, None);
  }

  /** Distinct identifiers are enough: rules told apart by name or kind never share a row. */
  lemma DistinctIdsHaveDistinctKeys(a: Rule, b: Rule)
    requires Valid(a) && Valid(b) && RuleID(a) != RuleID(b)
    ensures RuleKey(a) != RuleKey(b)
  {
    KeysEqualIffSameRow(a, b);
  }

  // ---------------------------------------------------------------- the notify section of the configuration

  /** Named webhooks and the rules that use them. */
  datatype Notify = Notify(slack: map<string, string>, rules: seq<Rule>)

  /** What one environment changes: the sink, and which rules apply (`None` means all). */
  datatype Override = Override(slack: string, rules: Option<seq<string>>)

  const DEFAULT_SINK := "default"

  function WebhookOf(n: Notify, name: string): string { if name in n.slack then n.slack[name] else "" }

  /** `urlOk` stands for the URL library: an http or https URL with a host. */
  ghost predicate NotifyValid(n: Notify, urlOk: string -> bool) {
    && (forall r | r in n.rules :: Valid(r))
    && (n.rules != [] ==> "default" in n.slack && n.slack["default"] != "")
    && (forall name | name in n.slack :: n.slack[name] != "" && urlOk(n.slack[name]))
  }

  /** Exactly one rule has this identifier. */
  ghost predicate OneRule(rules: seq<Rule>, id: string) {
    exists i :: OnlyRule(rules, i, id)
  }

  ghost predicate OnlyRule(rules: seq<Rule>, i: int, id: string) {
    0 <= i < |rules| && RuleID(rules[i]) == id && forall j | 0 <= j < |rules| && j != i :: RuleID(rules[j]) != id
  }

  ghost predicate OverrideValid(o: Override, n: Notify) {
    && (o.slack != "" ==> o.slack in n.slack)
    && (o.rules.Some? ==> forall id | id in o.rules.value :: OneRule(n.rules, id))
  }

  function Count(rules: seq<Rule>, id: string): nat {
    if rules == [] then 0 else Count(rules[..|rules| - 1], id) + if RuleID(rules[|rules| - 1]) == id then 1 else 0
  }

  lemma {:induction false} CountIsZero(rules: seq<Rule>, id: string)
    ensures Count(rules, id) == 0 <==> forall i | 0 <= i < |rules| :: RuleID(rules[i]) != id
  {
    if rules != [] {
      var n := |rules| - 1;
      CountIsZero(rules[..n], id);
      assert forall i | 0 <= i < n :: rules[..n][i] == rules[i];
    }
  }

  lemma {:induction false} CountIsOne(rules: seq<Rule>, id: string)
    ensures Count(rules, id) == 1 <==> OneRule(rules, id)
  {
    if rules != [] {
      var n := |rules| - 1;
      assert forall i | 0 <= i < n :: rules[..n][i] == rules[i];
      if RuleID(rules[n]) == id {
        CountIsZero(rules[..n], id);
        if Count(rules, id) == 1 { assert OnlyRule(rules, n, id); }
      } else {
        CountIsOne(rules[..n], id);
        if i :| OnlyRule(rules[..n], i, id) { assert OnlyRule(rules, i, id); }
        if i :| OnlyRule(rules, i, id) { assert OnlyRule(rules[..n], i, id); }
      }
    }
  }

  function CountIn(ids: map<string, nat>, id: string): nat { if id in ids then ids[id] else 0 }

  method CountIDs(rules: seq<Rule>) returns (ids: map<string, nat>)
    ensures forall id :: CountIn(ids, id) == Count(rules, id)
  {
    ids := map[];
    for i := 0 to |rules|
      invariant forall id :: CountIn(ids, id) == Count(rules[..i], id)
    {
      assert rules[..i + 1][..i] == rules[..i];
      ids := ids[RuleID(rules[i]) := CountIn(ids, RuleID(rules[i])) + 1];
    }
    assert rules[..|rules|] == rules;
  }

  /** The checks of one rule: its name's characters, then its kind and the threshold that the kind requires. */
  method CheckRule(r: Rule) returns (ok: bool)
    ensures ok <==> Valid(r)
  {
    for i := 0 to |r.name|
      invariant forall c | c in r.name[..i] :: NameChar(c)
    {
      if !NameChar(r.name[i]) {
        assert r.name[i] in r.name;
        return false;
      }
      assert r.name[..i + 1] == r.name[..i] + [r.name[i]];
    }
    assert r.name[..|r.name|] == r.name;
    match r.on {
      case "syncFailed" => return true;
      case "healthRecovered" => return true;
      case "healthDegraded" =>
        if r.forMinutes.None? || r.forMinutes.value <= 0 { return false; }
        return true;
      case "outOfSyncGated" =>
        if r.forHours.None? || r.forHours.value <= 0 { return false; }
        return true;
      case _ => return false;
    }
  }

  method CheckNotify(n: Notify, urlOk: string -> bool) returns (ok: bool)
    ensures ok <==> NotifyValid(n, urlOk)
  {
    for i := 0 to |n.rules|
      invariant forall r | r in n.rules[..i] :: Valid(r)
    {
      ok := CheckRule(n.rules[i]);
      if !ok {
        assert n.rules[i] in n.rules;
        return;
      }
      assert n.rules[..i + 1] == n.rules[..i] + [n.rules[i]];
    }
    assert n.rules[..|n.rules|] == n.rules;
    if n.rules != [] && WebhookOf(n, DEFAULT_SINK) == "" { return false; }
    var todo := n.slack.Keys;
    while todo != {}
      invariant todo <= n.slack.Keys
      invariant forall name | name in n.slack.Keys - todo :: n.slack[name] != "" && urlOk(n.slack[name])
    {
      var name :| name in todo;
      if n.slack[name] == "" || !urlOk(n.slack[name]) { return false; }
      todo := todo - {name};
    }
    ok := true;
  }

  /** Every rule that an environment refers to must be one rule, neither none nor several. */
  method CheckOverride(o: Override, n: Notify, ids: map<string, nat>) returns (ok: bool)
    requires forall id :: CountIn(ids, id) == Count(n.rules, id)
    ensures ok <==> OverrideValid(o, n)
  {
    if o.slack != "" && o.slack !in n.slack { return false; }
    if o.rules.None? { return true; }
    var refs := o.rules.value;
    for i := 0 to |refs|
      invariant forall id | id in refs[..i] :: OneRule(n.rules, id)
    {
      CountIsOne(n.rules, refs[i]);
      if CountIn(ids, refs[i]) != 1 { return false; }
      assert refs[..i + 1] == refs[..i] + [refs[i]];
    }
    assert refs[..|refs|] == refs;
    ok := true;
  }
}
