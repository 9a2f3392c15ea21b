# Personal-details form: validation engine

This project models the client-side validation of a personal-details form (name,
katakana reading, sex, prefecture, e-mail address, newsletter opt-in). It has four
modules:

- `Text` (text.dfy): what the evaluator borrows from the script engine. This covers
  string length in UTF-16 code units, and the e-mail pattern `^[^@]+@.+\..+$` and
  katakana pattern `^[ァ-ヶー　]*$` written as character predicates. The e-mail
  pattern is stated twice: as the regular expression's split of the string, and as
  a deterministic scan. The two are proved equivalent. `Text` also holds a partial
  model of the `Number(...)` coercion.
- `RuleTable` (rules.dfy): the `Rule` type and the table `AllRules`. A rule has a
  requiredness, which is a fixed flag or a predicate whose current result is carried
  in the value. It has an optional ordered list of checks, each a tag or an ordered
  object of numeric limits. It has a table of messages keyed by error code.
- `Evaluator` (evaluator.dfy): `Validate` is the reference definition of the
  evaluator. `ValidateLoop` is the procedure as written, with its two nested loops
  and early returns, and it is proved equal to `Validate`. The lemmas cover:
  - the required short-circuit;
  - first-failure precedence, over the list and within a limits object;
  - what each check means;
  - the complete verdict of each field in the table;
  - that every code a table rule can report has a non-empty message.
- `Form` (form.dfy): the form state is a map from field name to (value, error),
  passed in and returned explicitly. `HandleChange` replaces one entry. `Clicked`
  describes the submit-button handler, and `HandleClick` is its loop over the
  fields, proved equal to it. `ErrFlg` is the flag that disables the button. The
  lemmas cover:
  - the button starts enabled although required fields are empty;
  - one press of the button settles every field;
  - the button handler is idempotent;
  - over any sequence of events, no field ever shows a stale message.

Behaviour kept exactly as the code has it:

- The limit key for an upper bound is spelled `miaxValue`, so an upper bound
  written under the key `maxValue` is never tested (`MaxValueKeyIgnored`).
- `maxLength` and `minValue` do not exempt the empty value. Only the `email` and
  `kana` tags do.
- Unknown tags and unknown limit keys never produce an error.
- The button handler only ever sets errors. It never clears one.
- The initial state holds six fields, all `("", "")`, so the flag starts false.

## Model

| member | source | states |
|---|---|---|
| `Text.Utf16Length` | src/Validate.tsx:130 | The length compared with `maxLength` counts UTF-16 code units: between the number of characters and twice that |
| `Text.Utf16LengthBmp` | src/Validate.tsx:130 | On text inside the Basic Multilingual Plane the length is the number of characters |
| `Text.IsEmail` | src/Validate.tsx:114 | A value accepted as an address has an '@' that is not its first character and at least five characters |
| `Text.IsKana` | src/Validate.tsx:120 | A value matches the katakana pattern iff every position holds U+30A1..U+30F6, U+30FC or U+3000 |
| `Text.IsEmailMatchesPattern` | src/Validate.tsx:114 | The first-'@' scan accepts exactly the strings the e-mail regular expression matches: non-'@' run, '@', run, '.', run, with no line terminator after the '@' |
| `Text.NumberOf` | src/Validate.tsx:135 | The numeric reading of a value: the empty string reads as 0, and a value that reads as a number ends in a digit |
| `Text.NumberOfIntString` | src/Validate.tsx:134-143 | The model's numeric reading gives back every integer from its decimal rendering, exactly (a double would round integers above 2^53) |
| `Evaluator.LimitCode` | src/Validate.tsx:128-143 | One key of a limits object reports either "" or its own key, and only for maxLength, minValue and miaxValue |
| `Evaluator.CheckCode` | src/Validate.tsx:111-145 | One check reports "" or a code it can produce (its tag, or a recognised key of its limits object); a tag passes the empty value |
| `Evaluator.RunLimits` | src/Validate.tsx:126-144 | A limits object reports "" or one of its recognised keys |
| `Evaluator.RunChecks` | src/Validate.tsx:110-146 | A check list reports "" or a code that one of its checks can produce |
| `Evaluator.Validate` | src/Validate.tsx:95-148 | The error code is "" or a code the rule can produce ("require" only if the rule may require), and always one of require, email, kana, maxLength, minValue, miaxValue |
| `Evaluator.ValidateLoop` | src/Validate.tsx:95-148 | The loop with early returns over the check list and over the keys of each limits object returns exactly the reference verdict |
| `Evaluator.RunChecksFirstFailure` | src/Validate.tsx:110-147 | A check list reports "" iff every check passes; otherwise it reports the code of the first failing check in list order |
| `Evaluator.RunLimitsFirstFailure` | src/Validate.tsx:126-144 | A limits object reports "" iff every key passes; otherwise it reports the first failing key in key order |
| `Evaluator.RequiredShortCircuit` | src/Validate.tsx:96-105 | A rule that currently requires a value reports "require" for "" whatever its checks are |
| `Evaluator.ValidateFirstFailure` | src/Validate.tsx:107-147 | Past the requiredness test: no check list gives ""; otherwise "" iff every check passes, else the first failing check's code |
| `Evaluator.EmailCheckMeaning` | src/Validate.tsx:113-117 | The email tag passes "" and fails a non-empty value iff it does not match the e-mail pattern |
| `Evaluator.KanaCheckMeaning` | src/Validate.tsx:119-123 | The kana tag fails iff some character lies outside U+30A1..U+30F6, U+30FC and U+3000; so it passes "" |
| `Evaluator.MaxLengthMeaning` | src/Validate.tsx:129-133 | A maxLength bound n fails iff the UTF-16 length exceeds n, and the empty value is not exempt |
| `Evaluator.MiaxValueMeaning` | src/Validate.tsx:139-143 | A miaxValue bound n fails iff the value reads as a number above n; NaN never fails; "" reads as 0 |
| `Evaluator.MinValueMeaning` | src/Validate.tsx:134-138 | A minValue bound n fails iff the value reads as a number below n; NaN never fails; "" reads as 0 |
| `Evaluator.UnknownTagPasses` | src/Validate.tsx:110-123 | A tag other than email or kana never fails |
| `Evaluator.UnknownLimitKeysPass` | src/Validate.tsx:126-144 | A limits object with no recognised key never fails |
| `Evaluator.MaxValueKeyIgnored` | src/Validate.tsx:139-143 | A bound written as maxValue is ignored, while the same bound under miaxValue fails values above it |
| `RuleTable.TableShape` | src/Validate.tsx:59-93 | The table validates name, reading, prefecture and address (not sex or newsletter); exactly name and prefecture are required; every check list ends with a 20-unit maxLength; reading tests kana and address tests email first |
| `Evaluator.TableCovered` | src/Validate.tsx:59-93 | Every table rule has a message for every code it can report |
| `Evaluator.TableCodesHaveMessages` | src/Validate.tsx:270-275 | For a table field the verdict is "" or a key of its messages, so the message lookup is defined |
| `Evaluator.TableMessagesNonEmpty` | src/Validate.tsx:59-93 | No message in the table is empty |
| `Evaluator.EmailExamples` | src/Validate.tsx:113-117 | "a@b.c" passes the email tag and "not-an-email" fails it |
| `Evaluator.KanaExamples` | src/Validate.tsx:119-123 | "アイウ" passes the kana tag and "abc" fails it |
| `Evaluator.NameFieldVerdict` | src/Validate.tsx:62-69 | Name: "" gives require, more than 20 UTF-16 units gives maxLength, anything else passes |
| `Evaluator.ReadingFieldVerdict` | src/Validate.tsx:70-77 | Reading: a non-empty non-katakana value gives kana, else more than 20 units gives maxLength, else passes; "" passes |
| `Evaluator.PrefectureFieldVerdict` | src/Validate.tsx:78-83 | Prefecture: "" gives require, anything else passes |
| `Evaluator.MailFieldVerdict` | src/Validate.tsx:84-92 | Address: a non-empty value off the e-mail pattern gives email, else more than 20 units gives maxLength, else passes; "" passes |
| `Evaluator.NameFieldLength` | src/Validate.tsx:62-69 | For a non-empty name inside the Basic Multilingual Plane: maxLength iff more than 20 characters ("x"*21 fails, "x"*20 passes) |
| `Evaluator.ReadingPrecedence` | src/Validate.tsx:70-77 | A reading both too long and not katakana reports kana, the earlier check, although its length check fails |
| `Evaluator.MailPrecedence` | src/Validate.tsx:84-92 | An address both too long and off the pattern reports email, the earlier check, although its length check fails |
| `Form.ErrorMessage` | src/Validate.tsx:268-276 | The message shown for a value is non-empty iff the field has a rule and the value fails it, and it is then the rule's message keyed by the evaluator's code |
| `Form.HandleChange` | src/Validate.tsx:260-283 | A change sets that entry's value and shows the rule's message for the evaluator's code (`ErrorMessage`), so an error exactly when the value fails the field's rule ("" with no rule or a passing value), and leaves every other entry unchanged |
| `Form.Clicked` | src/Validate.tsx:285-300 | The button keeps all keys and values; it gives failing fields their message, never clears an error, and leaves rule-less and passing fields untouched |
| `Form.HandleClick` | src/Validate.tsx:285-300 | Visiting the fields one by one, in any order, and setting the error of each failing field yields exactly `Clicked` |
| `Form.ErrFlg` | src/Validate.tsx:311-316 | The disable flag is true iff some entry's error is non-empty |
| `Form.InitialStateEnabled` | src/Validate.tsx:303-316 | The initial state holds exactly the six fields, each with empty value and error; this leaves the flag false, though the required name and prefecture fields fail their rules |
| `Form.ClickOnInitialState` | src/Validate.tsx:285-310 | One press on the initial form shows the required message on name and prefecture and raises the flag |
| `Form.ChangeKeepsConsistency` | src/Validate.tsx:267-282 | A change preserves "every field shows exactly the message its value earns" and "no field shows a stale message" |
| `Form.ClickSettles` | src/Validate.tsx:287-299 | On a form without stale messages, one press leaves every field showing exactly the message its value earns |
| `Form.ClickOnConsistentState` | src/Validate.tsx:287-299 | On a form where every field shows what its value earns, a press changes nothing |
| `Form.ClickIdempotent` | src/Validate.tsx:287-299 | Pressing the button twice equals pressing it once |
| `Form.ConsistentFlag` | src/Validate.tsx:311-316 | When every field shows what its value earns, the button is disabled iff some field fails its rule |
| `Form.SoundFlag` | src/Validate.tsx:311-316 | Without stale messages, a raised flag always points at a field that fails its rule |
| `Form.ReplayKeepsSound` | src/Validate.tsx:260-300 | No sequence of changes and presses produces a stale message |
| `Form.ReplayFromInitialState` | src/Validate.tsx:303-316 | From the initial form, after any events, a raised flag points at a failing field; after a press, the flag is raised iff some field fails |

## Left out

- Rendering: `Input`, `InputText`, `InputRadio`, `InputCheckbox`, `Select`, `Icon` and the form markup (src/Validate.tsx:150-258, 317-401) are view code only.
- React hooks: `useState` is called inside plain handlers, which fails at run time. The state is instead a map passed in and returned.
- DOM events: the changed value `event.currentTarget.value` is taken as a plain string argument.
- Side effects: the POST to `./confirm/`, the stylesheet import and the re-render are not modelled. Pressing the button also submits the form, because the default is not prevented; that is not modelled either.
- The function form of `require`: only its result at call time is modelled (`Pred(now)`). Arbitrary callables are not.
- Numeric values: `Val` admits numbers, but every value that reaches the evaluator is a string, so values are strings here.
- Limit bounds are integers. Fractional, infinite or NaN bounds are not modelled.
- Text.NumberOf: this is weaker than `Number(...)`. The empty string gives 0, and an optionally signed run of decimal digits gives its value. Everything else reads as NaN (None), which makes every comparison false. This includes surrounding whitespace, fractions, exponents, `0x`/`0o`/`0b` prefixes and `Infinity`, which `Number(...)` does read as numbers. A value of only whitespace reads as NaN here, while `Number(...)` gives 0. Integers are read exactly, while `Number(...)` rounds to a double, so above 2^53 the two readings differ ("9007199254740993" becomes 9007199254740992).
- Key order of a limits object: keys that look like integers would be enumerated first. Such keys never produce an error, so the verdict does not depend on it. A script object cannot repeat a key; the model's list could, and then the first entry is tried first.
- Aliasing in the button handler: `{...state}` is a shallow copy, so setting `err` also mutates the previous state's field objects. The model updates the map functionally.
- Messages missing from a rule's table: the lookup would give `undefined`. The handlers only use `AllRules`, and for it the lookup is proved defined. An arbitrary rule outside the table is not run through the handlers.
