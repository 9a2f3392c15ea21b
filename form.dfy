/** The form's state and its transitions: each field's value and shown error,
    the change handler that re-validates one field, the submit-button handler
    that re-validates every field, and the flag that disables the button. */
module Form {
  import opened RuleTable
  import opened Evaluator

  /** One field: its current value and the message shown under it, "" for
      none. */
  datatype Field = Field(value: string, err: string)

  /** The form's state, keyed by field name. */
  type State = map<string, Field>

  /** All six fields start empty and without an error. */
  const InitialState: State := map[
    "namae" := Field("", ""),
    "hurigana" := Field("", ""),
    "sex" := Field("", ""),
    "pref" := Field("", ""),
    "mail" := Field("", ""),
    "mailmag" := Field("", "")
  ]

  /** The field has a rule and the value fails it. */
  predicate Failing(name: string, val: string) {
    name in AllRules && Validate(val, AllRules[name]) != ""
  }

  /** The message a value earns in a field: the rule's message for the
      evaluator's code, or "" when the field has no rule or the value passes. */
  function ErrorMessage(name: string, val: string): (msg: string)
    ensures msg != "" <==> Failing(name, val)
    ensures Failing(name, val) ==> msg in AllRules[name].msg.Values
    ensures Failing(name, val) ==>
      && Validate(val, AllRules[name]) in AllRules[name].msg
      && msg == AllRules[name].msg[Validate(val, AllRules[name])]
  {
    if Failing(name, val) then
      var rule := AllRules[name];
      var code := Validate(val, rule);
      TableCodesHaveMessages(name, val);
      TableMessagesNonEmpty(name, code);
      rule.msg[code]
    else ""
  }

  /** A new value typed into field `name`: that entry is replaced by the
      value and the message it earns, and no other entry changes. */
  function HandleChange(s: State, name: string, val: string): (r: State)
    ensures r.Keys == s.Keys + {name}
    ensures r[name].value == val
    ensures r[name].err == ErrorMessage(name, val)
    ensures r[name].err != "" <==> Failing(name, val)
    ensures r[name].err == "" ==> (name !in AllRules || Validate(val, AllRules[name]) == "")
    ensures forall other :: other in s && other != name ==> r[other] == s[other]
  {
    s[name := Field(val, ErrorMessage(name, val))]
  }

  /** The submit-button handler as a value: every field keeps its value; a
      field whose value fails its rule gets that message; every other field
      keeps the error it had. */
  function Clicked(s: State): (r: State)
    ensures r.Keys == s.Keys
    ensures forall name :: name in s ==> r[name].value == s[name].value
    ensures forall name :: name in s && s[name].err != "" ==> r[name].err != ""
    ensures forall name :: name in s && name !in AllRules ==> r[name] == s[name]
    ensures forall name :: name in s && Failing(name, s[name].value) ==>
      r[name].err == ErrorMessage(name, s[name].value)
    ensures forall name :: name in s && !Failing(name, s[name].value) ==> r[name] == s[name]
  {
    map name | name in s ::
      if Failing(name, s[name].value) then Field(s[name].value, ErrorMessage(name, s[name].value))
      else s[name]
  }

  /** The submit-button handler: visit the fields one by one, in any order,
      and set the error of each field whose value fails its rule. */
  method HandleClick(s: State) returns (r: State)
    ensures r == Clicked(s)
  {
    r := s;
    var names := s.Keys;
    while names != {}
      invariant names <= s.Keys
      invariant r.Keys == s.Keys
      invariant forall name :: name in s && name !in names ==> r[name] == Clicked(s)[name]
      invariant forall name :: name in names ==> r[name] == s[name]
      decreases names
    {
      var name :| name in names;
      var val := s[name].value;
      if name in AllRules {
        var rule := AllRules[name];
        var result := ValidateLoop(val, rule);
        if result != "" {
          TableCodesHaveMessages(name, val);
          r := r[name := r[name].(err := rule.msg[result])];
        }
      }
      names := names - {name};
    }
  }

  /** The flag that disables the submit button: some field shows an error. */
  predicate ErrFlg(s: State)
    ensures ErrFlg(s) ==> exists name :: name in s && s[name].err != ""
    ensures (exists name :: name in s && s[name].err != "") ==> ErrFlg(s)
  {
    exists f :: f in s.Values && f.err != ""
  }

  /** Every field shows exactly the message its value earns. */
  ghost predicate Consistent(s: State) {
    forall name :: name in s ==> s[name].err == ErrorMessage(name, s[name].value)
  }

  /** No field shows a stale message: a field shows nothing or the message
      its current value earns. */
  ghost predicate Sound(s: State) {
    forall name :: name in s ==> s[name].err == "" || s[name].err == ErrorMessage(name, s[name].value)
  }

  /** The initial form has no error, so the submit button starts enabled,
      although the required name and prefecture fields are empty and fail
      their rules. */
  lemma InitialStateEnabled()
    ensures InitialState.Keys == {"namae", "hurigana", "sex", "pref", "mail", "mailmag"}
    ensures forall name :: name in InitialState ==> InitialState[name] == Field("", "")
    ensures !ErrFlg(InitialState)
    ensures Failing("namae", InitialState["namae"].value)
    ensures Failing("pref", InitialState["pref"].value)
    ensures !Consistent(InitialState)
    ensures Sound(InitialState)
  {
    NameFieldVerdict("");
    PrefectureFieldVerdict("");
  }

  /** One press of the submit button on the initial form shows "required" on
      the name and prefecture fields, which raises the flag. */
  lemma ClickOnInitialState()
    ensures Clicked(InitialState)["namae"].err == RequiredMessage
    ensures Clicked(InitialState)["pref"].err == RequiredMessage
    ensures ErrFlg(Clicked(InitialState))
  {
    NameFieldVerdict("");
    PrefectureFieldVerdict("");
    var r := Clicked(InitialState);
    assert r["namae"] in r.Values;
  }

  /** A change leaves every field consistent that was consistent, and makes
      the changed field consistent. */
  lemma ChangeKeepsConsistency(s: State, name: string, val: string)
    ensures Consistent(s) ==> Consistent(HandleChange(s, name, val))
    ensures Sound(s) ==> Sound(HandleChange(s, name, val))
  {
  }

  /** Pressing the button on a form without stale messages leaves every
      field showing exactly the message its value earns. */
  lemma ClickSettles(s: State)
    requires Sound(s)
    ensures Consistent(Clicked(s))
  {
  }

  /** On a consistent form, pressing the button changes nothing. */
  lemma ClickOnConsistentState(s: State)
    requires Consistent(s)
    ensures Clicked(s) == s
  {
  }

  /** Pressing the button twice is the same as pressing it once. */
  lemma ClickIdempotent(s: State)
    ensures Clicked(Clicked(s)) == Clicked(s)
  {
    var r := Clicked(s);
    forall name | name in r ensures Clicked(r)[name] == r[name] {
    }
  }

  /** On a consistent form the button is disabled exactly when some field's
      value fails its rule. */
  lemma ConsistentFlag(s: State)
    requires Consistent(s)
    ensures ErrFlg(s) <==> exists name :: name in s && Failing(name, s[name].value)
  {
  }

  /** On a form without stale messages a raised flag always points at a
      field whose value fails its rule. */
  lemma SoundFlag(s: State)
    requires Sound(s)
    ensures ErrFlg(s) ==> exists name :: name in s && Failing(name, s[name].value)
  {
  }

  /** What the user can do: type into a field, or press the button. */
  datatype Event = Change(name: string, val: string) | Click

  function Step(s: State, e: Event): State {
    match e
    case Change(name, val) => HandleChange(s, name, val)
    case Click => Clicked(s)
  }

  /** The state after a sequence of events, handled one at a time. */
  function Replay(s: State, events: seq<Event>): State
    decreases |events|
  {
    if events == [] then s else Replay(Step(s, events[0]), events[1..])
  }

  /** No sequence of events produces a stale message. */
  lemma {:induction false} ReplayKeepsSound(s: State, events: seq<Event>)
    requires Sound(s)
    ensures Sound(Replay(s, events))
    decreases |events|
  {
    if events != [] {
      var t := Step(s, events[0]);
      match events[0] {
        case Change(name, val) => ChangeKeepsConsistency(s, name, val);
        case Click => ClickSettles(s);
      }
      ReplayKeepsSound(t, events[1..]);
    }
  }

  /** From the initial form, after any events, a disabled button points at
      a field that really fails; and after any events ending with a press of
      the button, the button is disabled exactly when some field fails. */
  lemma ReplayFromInitialState(events: seq<Event>)
    ensures ErrFlg(Replay(InitialState, events)) ==>
      exists name :: name in Replay(InitialState, events) &&
        Failing(name, Replay(InitialState, events)[name].value)
    ensures var s := Clicked(Replay(InitialState, events));
      ErrFlg(s) <==> exists name :: name in s && Failing(name, s[name].value)
  {
    InitialStateEnabled();
    ReplayKeepsSound(InitialState, events);
    SoundFlag(Replay(InitialState, events));
    ClickSettles(Replay(InitialState, events));
    ConsistentFlag(Clicked(Replay(InitialState, events)));
  }
}
