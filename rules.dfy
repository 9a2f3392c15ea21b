/** The declarative rule table: for each validated field, whether it is
    required, the ordered checks its value must pass, and the message shown
    for each error code. */
module RuleTable {
  import opened Text

  /** A rule's requiredness: a fixed flag, or a predicate that is evaluated
      each time the rule is applied; `now` is what it yields at that moment. */
  datatype Required = Lit(flag: bool) | Pred(now: bool)

  /** One entry of a rule's check list: a named tag such as "email" or
      "kana", or an object of numeric limits whose keys keep their order. */
  datatype Check = Tag(name: string) | Limits(entries: seq<(string, int)>)

  /** A rule; `checks` is None when the rule has no `type` list. */
  datatype Rule = Rule(require: Required, checks: Option<seq<Check>>, msg: map<string, string>)

  /** The requiredness a rule has at the moment it is applied. */
  function Resolve(req: Required): bool {
    match req
    case Lit(flag) => flag
    case Pred(now) => now
  }

  /** Whether a rule can ever demand a value: a predicate may yield true. */
  predicate MayRequire(req: Required) {
    req.Pred? || req.flag
  }

  const RequiredMessage := "必須項目です。"
  const MaxLengthMessage := "20文字以内で入力してください"

  /** The rules of the form, keyed by field name. Fields absent from the
      table ("sex", "mailmag") are never validated. */
  const AllRules: map<string, Rule> := map[
    "namae" := Rule(
      Lit(true),
      Some([Limits([("maxLength", 20)])]),
      map["require" := RequiredMessage, "maxLength" := MaxLengthMessage]),
    "hurigana" := Rule(
      Lit(false),
      Some([Tag("kana"), Limits([("maxLength", 20)])]),
      map["kana" := "カタカナで入力してください。", "maxLength" := MaxLengthMessage]),
    "pref" := Rule(
      Lit(true),
      None,
      map["require" := RequiredMessage]),
    "mail" := Rule(
      Lit(false),
      Some([Tag("email"), Limits([("maxLength", 20)])]),
      map["require" := RequiredMessage, "maxLength" := MaxLengthMessage,
          "email" := "メールアドレスの形式で入力してください。"])
  ]

  /** The table's shape: four validated fields; name and prefecture are
      required, reading and address are not; every check list ends with a
      20-unit length bound; and the reading and address fields test their
      pattern before the length. */
  lemma TableShape()
    ensures AllRules.Keys == {"namae", "hurigana", "pref", "mail"}
    ensures "sex" !in AllRules && "mailmag" !in AllRules
    ensures forall name :: name in AllRules ==>
      (Resolve(AllRules[name].require) <==> name == "namae" || name == "pref")
    ensures forall name :: name in AllRules && AllRules[name].checks.Some? ==>
      var cs := AllRules[name].checks.value;
      cs != [] && cs[|cs| - 1] == Limits([("maxLength", 20)])
    ensures AllRules["pref"].checks.None?
    ensures AllRules["hurigana"].checks.value[0] == Tag("kana")
    ensures AllRules["mail"].checks.value[0] == Tag("email")
  {
  }
}
