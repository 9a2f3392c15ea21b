/** The evaluator: one value against one rule, giving an error code, where
    "" means the value passes. `Validate` is the reference definition,
    `ValidateLoop` the loop-and-early-return procedure proved equal to it. */
module Evaluator {
  import opened Text
  import opened RuleTable

  /** The limit keys the evaluator acts on. The key for an upper bound is
      spelled "miaxValue", so an entry spelled "maxValue" is ignored. */
  const LimitKeys: set<string> := {"maxLength", "minValue", "miaxValue"}

  /** Every code the evaluator can report. */
  const ErrorCodes: set<string> := {"require", "email", "kana"} + LimitKeys

  /** One key of a limits object with its bound. */
  function LimitCode(val: string, key: string, n: int): (code: string)
    ensures code == "" || (code == key && key in LimitKeys)
  {
    var num := NumberOf(val);
    if key == "maxLength" && n < Utf16Length(val) then "maxLength"
    else if key == "minValue" && num.Some? && n > num.value then "minValue"
    else if key == "miaxValue" && num.Some? && n < num.value then "miaxValue"
    else ""
  }

  /** The codes a limits object can report: its recognised keys. */
  function LimitsCodes(es: seq<(string, int)>): (codes: set<string>)
    ensures codes <= LimitKeys
  {
    if es == [] then {}
    else (if es[0].0 in LimitKeys then {es[0].0} else {}) + LimitsCodes(es[1..])
  }

  /** The keys of a limits object, in order; the first failing key decides. */
  function RunLimits(val: string, es: seq<(string, int)>): (code: string)
    ensures code == "" || code in LimitsCodes(es)
  {
    if es == [] then ""
    else
      var c := LimitCode(val, es[0].0, es[0].1);
      if c != "" then c else RunLimits(val, es[1..])
  }

  /** One entry of the check list. The two tags exempt the empty value;
      a limits object does not. */
  function CheckCode(val: string, check: Check): (code: string)
    ensures code == "" || code in CheckCodes(check)
    ensures check.Tag? && val == "" ==> code == ""
  {
    match check
    case Tag(t) =>
      if val != "" && t == "email" && !IsEmail(val) then "email"
      else if val != "" && t == "kana" && !IsKana(val) then "kana"
      else ""
    case Limits(es) => RunLimits(val, es)
  }

  /** The codes one check can report. */
  function CheckCodes(check: Check): (codes: set<string>)
    ensures codes <= ErrorCodes
  {
    match check
    case Tag(t) => if t == "email" || t == "kana" then {t} else {}
    case Limits(es) => LimitsCodes(es)
  }

  /** The codes a check list can report. */
  function ChecksCodes(cs: seq<Check>): (codes: set<string>)
    ensures codes <= ErrorCodes
  {
    if cs == [] then {} else CheckCodes(cs[0]) + ChecksCodes(cs[1..])
  }

  /** The codes a rule can report, whatever the value. */
  function RuleCodes(rule: Rule): (codes: set<string>)
    ensures codes <= ErrorCodes
  {
    (if MayRequire(rule.require) then {"require"} else {})
    + (match rule.checks case None => {} case Some(cs) => ChecksCodes(cs))
  }

  /** The check list in order; the first failing check decides. */
  function RunChecks(val: string, cs: seq<Check>): (code: string)
    ensures code == "" || code in ChecksCodes(cs)
  {
    if cs == [] then ""
    else
      var c := CheckCode(val, cs[0]);
      if c != "" then c else RunChecks(val, cs[1..])
  }

  /** The error code of `val` under `rule`: "require" for a missing required
      value, else the first failing check's code, else "". */
  function Validate(val: string, rule: Rule): (code: string)
    ensures code == "" || code in RuleCodes(rule)
    ensures code == "" || code in ErrorCodes
  {
    if Resolve(rule.require) && val == "" then "require"
    else match rule.checks
      case None => ""
      case Some(cs) => RunChecks(val, cs)
  }

  /** The evaluator as a procedure: a requiredness flag, a loop over the
      check list, an inner loop over the keys of a limits object, and a
      return at the first failure. */
  method ValidateLoop(val: string, rule: Rule) returns (code: string)
    ensures code == Validate(val, rule)
  {
    var requireFlg := false;
    match rule.require {
      case Pred(now) => requireFlg := now;
      case Lit(flag) => requireFlg := flag;
    }
    if requireFlg && val == "" {
      return "require";
    }
    if rule.checks.None? {
      return "";
    }
    var types := rule.checks.value;
    for i := 0 to |types|
      invariant RunChecks(val, types) == RunChecks(val, types[i..])
    {
      var t := types[i];
      if val != "" && t == Tag("email") {
        if !IsEmail(val) {
          return "email";
        }
      }
      if val != "" && t == Tag("kana") {
        if !IsKana(val) {
          return "kana";
        }
      }
      if t.Limits? {
        var keys := t.entries;
        for j := 0 to |keys|
          invariant RunLimits(val, keys) == RunLimits(val, keys[j..])
        {
          var name, n := keys[j].0, keys[j].1;
          if name == "maxLength" && n < Utf16Length(val) {
            return "maxLength";
          }
          var num := NumberOf(val);
          if name == "minValue" && num.Some? && n > num.value {
            return "minValue";
          }
          if name == "miaxValue" && num.Some? && n < num.value {
            return "miaxValue";
          }
        }
      }
    }
    return "";
  }

  /** Check i of the list fails and every earlier check passes. */
  predicate FirstFailureAt(val: string, cs: seq<Check>, i: int) {
    && 0 <= i < |cs|
    && CheckCode(val, cs[i]) != ""
    && forall j :: 0 <= j < i ==> CheckCode(val, cs[j]) == ""
  }

  /** The check list reports "" exactly when every check passes, and
      otherwise the code of its first failing check. */
  lemma {:induction false} RunChecksFirstFailure(val: string, cs: seq<Check>)
    ensures RunChecks(val, cs) == "" <==> forall i :: 0 <= i < |cs| ==> CheckCode(val, cs[i]) == ""
    ensures RunChecks(val, cs) != "" ==>
      exists i :: FirstFailureAt(val, cs, i) && RunChecks(val, cs) == CheckCode(val, cs[i])
    ensures forall i :: FirstFailureAt(val, cs, i) ==> RunChecks(val, cs) == CheckCode(val, cs[i])
  {
    if cs != [] {
      RunChecksFirstFailure(val, cs[1..]);
      if CheckCode(val, cs[0]) != "" {
        assert FirstFailureAt(val, cs, 0);
      } else {
        forall i | 0 < i < |cs| ensures CheckCode(val, cs[i]) == CheckCode(val, cs[1..][i - 1]) { }
        if RunChecks(val, cs) != "" {
          var i :| FirstFailureAt(val, cs[1..], i) && RunChecks(val, cs[1..]) == CheckCode(val, cs[1..][i]);
          assert FirstFailureAt(val, cs, i + 1);
        }
        forall i | FirstFailureAt(val, cs, i) ensures RunChecks(val, cs) == CheckCode(val, cs[i]) {
          assert FirstFailureAt(val, cs[1..], i - 1);
        }
      }
    }
  }

  /** Entry i of a limits object fails and every earlier entry passes. */
  predicate FirstLimitFailureAt(val: string, es: seq<(string, int)>, i: int) {
    && 0 <= i < |es|
    && LimitCode(val, es[i].0, es[i].1) != ""
    && forall j :: 0 <= j < i ==> LimitCode(val, es[j].0, es[j].1) == ""
  }

  /** Inside a limits object, the keys are tried in order and the first
      failing key decides. */
  lemma {:induction false} RunLimitsFirstFailure(val: string, es: seq<(string, int)>)
    ensures RunLimits(val, es) == "" <==> forall i :: 0 <= i < |es| ==> LimitCode(val, es[i].0, es[i].1) == ""
    ensures forall i :: FirstLimitFailureAt(val, es, i) ==> RunLimits(val, es) == es[i].0
  {
    if es != [] {
      RunLimitsFirstFailure(val, es[1..]);
      if LimitCode(val, es[0].0, es[0].1) != "" {
      } else {
        forall i | 0 < i < |es| ensures es[i] == es[1..][i - 1] { }
        forall i | FirstLimitFailureAt(val, es, i) ensures RunLimits(val, es) == es[i].0 {
          assert FirstLimitFailureAt(val, es[1..], i - 1);
        }
      }
    }
  }

  /** A required rule rejects the empty value with "require" before any
      check is consulted, whatever the check list is. */
  lemma RequiredShortCircuit(val: string, rule: Rule)
    requires Resolve(rule.require) && val == ""
    ensures Validate(val, rule) == "require"
    ensures forall cs :: Validate(val, rule.(checks := cs)) == "require"
  {
  }

  /** Past the requiredness test, a rule's verdict is that of its check
      list: "" without a list or when every check passes, else the first
      failing check's code. */
  lemma ValidateFirstFailure(val: string, rule: Rule)
    requires !(Resolve(rule.require) && val == "")
    ensures rule.checks.None? ==> Validate(val, rule) == ""
    ensures rule.checks.Some? ==>
      (Validate(val, rule) == "" <==>
        forall i :: 0 <= i < |rule.checks.value| ==> CheckCode(val, rule.checks.value[i]) == "")
    ensures rule.checks.Some? ==>
      forall i :: FirstFailureAt(val, rule.checks.value, i) ==>
        Validate(val, rule) == CheckCode(val, rule.checks.value[i])
  {
    if rule.checks.Some? {
      RunChecksFirstFailure(val, rule.checks.value);
    }
  }

  /** The "email" tag passes the empty value and otherwise fails exactly
      the values that do not match the e-mail pattern. */
  lemma EmailCheckMeaning(val: string)
    ensures CheckCode(val, Tag("email")) == (if val != "" && !EmailPattern(val) then "email" else "")
  {
    IsEmailMatchesPattern(val);
  }

  /** The "kana" tag fails exactly the values holding a character outside
      the katakana class; in particular it passes the empty value. */
  lemma KanaCheckMeaning(val: string)
    ensures CheckCode(val, Tag("kana")) == (if exists c :: c in val && !IsKanaChar(c) then "kana" else "")
  {
  }

  /** A maxLength bound n fails exactly the values longer than n UTF-16
      units, the empty value included (when n is negative). */
  lemma MaxLengthMeaning(val: string, n: int)
    ensures CheckCode(val, Limits([("maxLength", n)])) == (if Utf16Length(val) > n then "maxLength" else "")
    ensures CheckCode("", Limits([("maxLength", n)])) == (if n < 0 then "maxLength" else "")
  {
  }

  /** Tags other than "email" and "kana" never fail. */
  lemma UnknownTagPasses(val: string, t: string)
    requires t != "email" && t != "kana"
    ensures CheckCode(val, Tag(t)) == ""
  {
  }

  /** A limits object none of whose keys the evaluator recognises never
      fails; this covers a bound spelled "maxValue". */
  lemma {:induction false} UnknownLimitKeysPass(val: string, es: seq<(string, int)>)
    requires forall i :: 0 <= i < |es| ==> es[i].0 !in LimitKeys
    ensures RunLimits(val, es) == ""
    ensures CheckCode(val, Limits(es)) == ""
  {
    if es != [] {
      UnknownLimitKeysPass(val, es[1..]);
    }
  }

  /** An upper bound written with the key "maxValue" is silently ignored. */
  lemma MaxValueKeyIgnored(val: string, n: int)
    ensures CheckCode(val, Limits([("maxValue", n)])) == ""
    ensures NumberOf(val).Some? && NumberOf(val).value > n ==>
      CheckCode(val, Limits([("miaxValue", n)])) == "miaxValue"
  {
    UnknownLimitKeysPass(val, [("maxValue", n)]);
  }

  /** A miaxValue bound fails exactly the values whose numeric reading lies
      above it; a value that reads as NaN never fails. */
  lemma MiaxValueMeaning(val: string, n: int)
    ensures CheckCode(val, Limits([("miaxValue", n)])) ==
      (if NumberOf(val).Some? && NumberOf(val).value > n then "miaxValue" else "")
    ensures CheckCode("", Limits([("miaxValue", n)])) == (if n < 0 then "miaxValue" else "")
  {
  }

  /** A minValue bound fails exactly the values whose numeric reading lies
      below it; a value that reads as NaN never fails. */
  lemma MinValueMeaning(val: string, n: int)
    ensures CheckCode(val, Limits([("minValue", n)])) ==
      (if NumberOf(val).Some? && NumberOf(val).value < n then "minValue" else "")
    ensures CheckCode("", Limits([("minValue", n)])) == (if n > 0 then "minValue" else "")
  {
  }

  /** A rule can report a code with no message only when its table of
      messages misses a code the rule can produce. */
  predicate Covered(rule: Rule) {
    RuleCodes(rule) <= rule.msg.Keys
  }

  /** Every rule of the table has a message for every code it can report. */
  lemma TableCovered()
    ensures forall name :: name in AllRules ==> Covered(AllRules[name])
  {
    assert RuleCodes(AllRules["namae"]) == {"require", "maxLength"};
    assert RuleCodes(AllRules["hurigana"]) == {"kana", "maxLength"};
    assert RuleCodes(AllRules["pref"]) == {"require"};
    assert RuleCodes(AllRules["mail"]) == {"email", "maxLength"};
  }

  /** For a field of the table, the evaluator's result is "" or a key of
      the rule's messages, so looking the message up is always defined. */
  lemma TableCodesHaveMessages(name: string, val: string)
    requires name in AllRules
    ensures Validate(val, AllRules[name]) == "" || Validate(val, AllRules[name]) in AllRules[name].msg
  {
    TableCovered();
  }

  /** No message of the table is empty. */
  lemma TableMessagesNonEmpty(name: string, code: string)
    requires name in AllRules && code in AllRules[name].msg
    ensures AllRules[name].msg[code] != ""
  {
  }

  lemma EmailExamples()
    ensures CheckCode("a@b.c", Tag("email")) == ""
    ensures CheckCode("not-an-email", Tag("email")) == "email"
  {
    IsEmailComplete("a@b.c", 1, 3);
    assert '@' !in "not-an-email";
  }

  lemma KanaExamples()
    ensures CheckCode("アイウ", Tag("kana")) == ""
    ensures CheckCode("abc", Tag("kana")) == "kana"
  {
    assert "abc"[0] in "abc" && !IsKanaChar("abc"[0]);
  }

  /** The name field: required, at most 20 UTF-16 units. */
  lemma NameFieldVerdict(val: string)
    ensures Validate(val, AllRules["namae"]) ==
      if val == "" then "require" else if Utf16Length(val) > 20 then "maxLength" else ""
  {
    var rule := AllRules["namae"];
    assert rule.require == Lit(true);
    assert rule.checks == Some([Limits([("maxLength", 20)])]);
  }

  /** The reading field: optional, katakana only, at most 20 UTF-16 units;
      the katakana check comes first. */
  lemma ReadingFieldVerdict(val: string)
    ensures Validate(val, AllRules["hurigana"]) ==
      if val != "" && !IsKana(val) then "kana" else if Utf16Length(val) > 20 then "maxLength" else ""
  {
    var rule := AllRules["hurigana"];
    assert rule.require == Lit(false);
    var cs := [Tag("kana"), Limits([("maxLength", 20)])];
    assert rule.checks == Some(cs);
    assert cs[1..] == [Limits([("maxLength", 20)])];
    assert RunChecks(val, cs[1..]) == RunLimits(val, [("maxLength", 20)]);
  }

  /** The prefecture field: required, nothing else. */
  lemma PrefectureFieldVerdict(val: string)
    ensures Validate(val, AllRules["pref"]) == if val == "" then "require" else ""
  {
    assert AllRules["pref"] == Rule(Lit(true), None, map["require" := RequiredMessage]);
  }

  /** The address field: optional, of e-mail shape, at most 20 UTF-16 units;
      the shape check comes first. */
  lemma MailFieldVerdict(val: string)
    ensures Validate(val, AllRules["mail"]) ==
      if val != "" && !EmailPattern(val) then "email" else if Utf16Length(val) > 20 then "maxLength" else ""
  {
    var rule := AllRules["mail"];
    assert rule.require == Lit(false);
    var cs := [Tag("email"), Limits([("maxLength", 20)])];
    assert rule.checks == Some(cs);
    assert cs[1..] == [Limits([("maxLength", 20)])];
    assert RunChecks(val, cs[1..]) == RunLimits(val, [("maxLength", 20)]);
    IsEmailMatchesPattern(val);
  }

  /** The name field on text inside the Basic Multilingual Plane: a
      non-empty value fails with "maxLength" exactly when it has more than 20
      characters (so "x" * 21 fails and "x" * 20 passes). */
  lemma NameFieldLength(val: string)
    requires val != ""
    requires forall j :: 0 <= j < |val| ==> val[j] as int <= 0xFFFF
    ensures Validate(val, AllRules["namae"]) == (if |val| > 20 then "maxLength" else "")
  {
    NameFieldVerdict(val);
    Utf16LengthBmp(val);
  }

  /** List order decides: a reading that is both too long and not katakana
      reports "kana", the earlier check, although its length check fails. */
  lemma ReadingPrecedence(val: string)
    requires Utf16Length(val) > 20 && !IsKana(val)
    ensures Validate(val, AllRules["hurigana"]) == "kana"
    ensures CheckCode(val, AllRules["hurigana"].checks.value[1]) == "maxLength"
  {
    ReadingFieldVerdict(val);
    assert AllRules["hurigana"].checks.value[1] == Limits([("maxLength", 20)]);
  }

  /** List order decides: an address that is both too long and not of
      e-mail shape reports "email", although its length check fails. */
  lemma MailPrecedence(val: string)
    requires Utf16Length(val) > 20 && !EmailPattern(val)
    ensures Validate(val, AllRules["mail"]) == "email"
    ensures CheckCode(val, AllRules["mail"].checks.value[1]) == "maxLength"
  {
    MailFieldVerdict(val);
    assert AllRules["mail"].checks.value[1] == Limits([("maxLength", 20)]);
  }
}
