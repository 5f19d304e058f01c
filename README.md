# ttoolly in Dafny

ttoolly generates test inputs for web forms. A form is a set of typed fields:

- `int`, `smallint`, `decimal`, `str`, `email`, files and so on;
- each field carries constraints such as bounds, steps, lengths and formats;
- each field carries conditional rules: `required`, which may depend on another field being filled or on case maps, and `only`, whose cases define groups of fields that exclude each other.

From a form, ttoolly works out three things:

- which combinations of fields make a valid submission (the case solver);
- which fields to drop or override to break each conditional rule;
- random values that respect each field's constraints.

This project models that core. It proves what each part promises.

- **The case solver** (`Handlers`) is a backtracking search over sets of field names.
  - It removes a whole exclusion group, or the offending field itself, until the set is valid.
  - It then keeps only the maximal results.
  - The required-field scenarios sort the rules into unconditional, filled-if and case-driven kinds.
  - They emit one scenario per rule-breaking event, keyed by the set of names kept.
  - The Dafny keeps the source's imperative form: nested loops that grow result sets and maps.
  - Each method is proved equal to a recursive specification function. Lemmas about that function give the properties: every result is a subset of the start, no result is a proper subset of another, the search terminates, and keys and values come from the rules.
- **The field and form layer** (`Elements`, `Forms`) covers:
  - `Condition` parsing;
  - the unknown-key check that runs before any attribute is set;
  - `required`/`only` conditions;
  - the integer step rounding;
  - the decimal step/places rules;
  - the string length defaults;
  - form registration;
  - exclusion groups;
  - required fields and random payloads.
  The form is a class whose fields (field names in registration order, the field map and the meta settings) its methods update.
- **String synthesis** (`Randomizer`) covers `get_randname`, the domain generator and the email generator. Random picks are read from a caller-supplied tape of numbers. The proofs state:
  - the exact output lengths;
  - the chunk-repeat shape of names;
  - that each rewrite loop terminates and keeps the length;
  - that the email local part holds no "..", never starts with "." and never ends with "." or "\";
  - that the email result is lower case.
- **Small helpers**:
  - `convert_size_to_bytes` (`Utils`), with `float()` modelled as rounding to 53 significant binary digits and overflow from 2^1024 on;
  - the assertions and the dict diff (`Asserts`);
  - `to_json` and the REST payload (`Rest`);
  - the Django email `min_length` default (`Django`);
  - `new_sig` (`Generator`);
  - the `name:type` token check (`FieldTemplate`).
- **Support modules**:
  - `Wrappers` holds Option, Result and Outcome;
  - `Strings` holds `str(int)`, split and join, count, strip and lower;
  - `Values` holds a model of Python values with truthiness, `==` across bool, int and Decimal, date formatting and `str` of a Decimal;
  - `Decimals` holds `Decimal(value)`: numbers by value, text by the decimal module's numeric string syntax, and the type and format errors. `DecimalField.__init__` passes its bounds through it.

The model follows the code wherever the code does less than the project's tests expect. These are not implemented:

- bounds ordering, step divisibility, `Unique` parsing, regex checks and type validation. `Field.validate` stops at a TODO; the model checks unknown keys only.
- turning `not_empty` into a `Condition`. `Field.__init__` never builds one, so `get_not_empty_fields_cases` fails with an `AttributeError` as soon as a field has a truthy `not_empty`. The shared scenario algorithm `Handlers.RuleCases` is proved for any condition map, `not_empty` included.
- defaulting `not_empty` from `required`.

Error paths are modelled as `Result`/`Outcome` values carrying the exception the source raises.

Two details of the decimal step check:

- `str(Decimal("0.1") ** 7)` is `"1E-7"`, which has no point. So the places check `str(step).split(".")[1]` raises `IndexError` for a correct step with seven or more places (`Elements.StepWithoutPointFails`, `Values.TenthPowerText`).
- The step the error message suggests does pass the check for one to six places (`Elements.SuggestedStepPasses`).

## Model

Specification functions that carry no contract of their own (among them `Handlers.RuleCases`, `Forms.RandomData`, `Forms.DrawError`, `Utils.ToDouble`, `Values.PyEq`, `Values.DecimalText` and `Values.IsoFormat`) have no row. The lemmas and methods that state their properties have rows citing the same lines.

| member | source | states |
|---|---|---|
| Handlers.CheckFieldsSetIsValid | ttoolly/handlers.py:16-25 | returns true exactly when no member of the set has every one of its exclusion groups meeting the set |
| Handlers.StepsOf | ttoolly/handlers.py:32-58 | every candidate step taken from a set is a subset of it |
| Handlers.Children | ttoolly/handlers.py:32-58 | with non-empty groups every candidate step is a proper subset, so the search shrinks strictly and terminates |
| Handlers.Maximal | ttoolly/handlers.py:62-65 | the pruned results are among the found ones and none is a proper subset of another |
| Handlers.Filter | ttoolly/handlers.py:27-66 | every result is a subset of the starting set, no result is a proper subset of another, and a valid starting set yields exactly itself |
| Handlers.Gather | ttoolly/handlers.py:38-56 | everything gathered from the recursive calls is a proper subset of the current set |
| Handlers.MaximalAbove | ttoolly/handlers.py:62-65 | every found set lies below some kept maximal set, so pruning loses no coverage |
| Handlers.FilterNonEmpty | ttoolly/handlers.py:59-60 | the search always returns at least one set |
| Handlers.FilterSettled | ttoolly/handlers.py:27-66 | each returned set is valid or has no further step, so names are only removed until the check passes or nothing can be removed |
| Handlers.Prune | ttoolly/handlers.py:62-65 | the discard loop leaves exactly the maximal sets |
| Handlers.FilterByOneOf | ttoolly/handlers.py:27-66 | the recursive backtracking method returns the specified search result |
| Handlers.StepsFor | ttoolly/handlers.py:32-58 | the per-field loop over groups adds the results of all steps derived from that field |
| Handlers.GroupStepsAt | ttoolly/handlers.py:33-58 | the steps derived from one group are proper subsets of the current set |
| Handlers.GroupSteps | ttoolly/handlers.py:33-58 | one group's iteration adds exactly the results of its steps |
| Handlers.Explore | ttoolly/handlers.py:38-43 | exploring one step adds the search result of that step to what was found |
| Handlers.StepsAt | ttoolly/handlers.py:33-58 | the steps from the first k groups of a field are proper subsets of the set |
| Handlers.StepsAtMembers | ttoolly/handlers.py:33-58 | the steps are the set minus each group contained in it, plus the set minus the field for each such group |
| Handlers.StepsOfAdd | ttoolly/handlers.py:32-58 | the steps of one more field are the old steps plus that field's steps |
| Handlers.GatherAdd | ttoolly/handlers.py:38-43 | gathering one more step adds exactly that step's search result |
| Handlers.KindOfRule | ttoolly/handlers.py:81-87 | a rule is case-driven exactly when it has cases, and filled-if only with a non-empty trigger |
| Handlers.Select | ttoolly/handlers.py:80-87 | a name is selected exactly when it is ruled and its rule has the given kind |
| Handlers.SelectNone | ttoolly/handlers.py:80-87 | when no rule has the kind, the selection is empty |
| Handlers.TruthyPart | ttoolly/handlers.py:108 | the override keeps exactly the truthy case entries, with their values |
| Handlers.FilledEvents | ttoolly/handlers.py:92-98 | one scenario per filled-if field: all names minus the field and its trigger, with no overrides |
| Handlers.ApplyKeys | ttoolly/handlers.py:91-135 | after the assignments, the keys are the old keys plus every event key |
| Handlers.ApplyLastWins | ttoolly/handlers.py:91-135 | a key takes the value of its last assignment |
| Handlers.ApplyUntouched | ttoolly/handlers.py:91-135 | a key no event assigns keeps its value |
| Handlers.ApplyGood | ttoolly/handlers.py:91-135 | assignments keep every key within the ruled names and every override truthy and taken from a case |
| Handlers.CaseEventsGood | ttoolly/handlers.py:100-135 | the scenarios of one case keep keys within the ruled names and overrides truthy and from that case |
| Handlers.CasesEventsGood | ttoolly/handlers.py:100-135 | the same holds for the scenarios of a field's first k cases |
| Handlers.WithCaseEventsGood | ttoolly/handlers.py:100-135 | the same holds for the scenarios of all case-driven fields |
| Handlers.RuleCasesShape | ttoolly/handlers.py:91-138 | every result key is a subset of the ruled names, and every override value is truthy and comes from a case of the rules |
| Handlers.CasesEventsContain | ttoolly/handlers.py:100-101 | each case's scenarios are among the field's scenarios |
| Handlers.WithCaseEventsContain | ttoolly/handlers.py:100-101 | each field's scenarios are among all case-driven scenarios |
| Handlers.RuleCasesKeys | ttoolly/handlers.py:137-138 | the result keys are exactly the event keys, or the unconditional names alone when there is no event |
| Handlers.RuleEventListed | ttoolly/handlers.py:91-138 | every emitted event's key is in the result |
| Handlers.RuleCasesUnconditional | ttoolly/handlers.py:137-138 | with only unconditional rules the result is exactly the main names mapped to no overrides |
| Handlers.RuleCasesFilled | ttoolly/handlers.py:92-98 | a filled-if field contributes all names minus the field and its trigger |
| Handlers.CaseEventsListed | ttoolly/handlers.py:100-135 | every scenario of a case has its key in the result |
| Handlers.RuleCasesCaseDrops | ttoolly/handlers.py:102-106 | when a case's falsy keys meet the ruled names, the names without them are a result key |
| Handlers.RuleCasesCaseValues | ttoolly/handlers.py:108-135 | a case with truthy values emits the main names plus the field with those values, then the main names with the values for main names; both keys are in the result |
| Handlers.CaseEventsInRules | ttoolly/handlers.py:100-135 | every scenario of a case is among the rules' scenarios |
| Handlers.RuleCasesLastEvent | ttoolly/handlers.py:91-138 | the result for a key holds the values of the last scenario with that key |
| Handlers.ApplyAppend | ttoolly/handlers.py:91-135 | assigning two event lists in turn is assigning their concatenation |
| Handlers.ApplySnoc | ttoolly/handlers.py:91-135 | one more event overwrites its key |
| Handlers.CollectRuleCases | ttoolly/handlers.py:74-140 | the scenario method returns the specified scenario map |
| Handlers.RuledByKind | ttoolly/handlers.py:80-90 | the ruled names are split completely among the three kinds |
| Handlers.ClassifyRules | ttoolly/handlers.py:80-90 | the sorting loop fills the unconditional, filled-if and case-driven lists in name order |
| Handlers.ApplyFilled | ttoolly/handlers.py:92-98 | the filled-if loop makes the specified assignments |
| Handlers.ApplyWithCase | ttoolly/handlers.py:100-135 | the case-driven loop makes the specified assignments after the earlier ones |
| Handlers.ApplyCases | ttoolly/handlers.py:101-135 | the loop over one field's cases makes the specified assignments |
| Handlers.ApplyCase | ttoolly/handlers.py:102-135 | one case makes its drop, truthy-value and main-only assignments in order |
| Handlers.RequiredRules | ttoolly/handlers.py:81 | the rules are exactly the fields whose `required` is a condition, with that condition |
| Handlers.TestHandler.constructor | ttoolly/handlers.py:6-7 | the handler holds the given form |
| Handlers.TestHandler.GetAllFieldsCases | ttoolly/handlers.py:9-68 | the exclusion groups of the form, then the search from all names |
| Handlers.TestHandler.GetRequiredFieldsCases | ttoolly/handlers.py:70-140 | the scenario map of the form's required conditions |
| Handlers.TestHandler.GetNotEmptyFieldsCases | ttoolly/handlers.py:142-214 | fails with the missing `cases` attribute exactly when some field has a truthy `not_empty`, and otherwise returns the empty-key scenario |
| Elements.EntriesOf | ttoolly/elements/common.py:33-35 | a list of dicts gives their entry maps, one per item in order |
| Elements.DictsOf | ttoolly/elements/common.py:26-35 | entry maps back to dict values, one per case |
| Elements.ParseCondition | ttoolly/elements/common.py:26-35 | a bool gives no trigger, no cases and no condition; a `str` gives the trigger; a dict one case; a list of dicts those cases; no `if` key or a non-dict input fails as Python does |
| Elements.ParseConditionValue | ttoolly/elements/common.py:26-35 | every well-formed condition is parsed back from its value |
| Elements.KindNamed | ttoolly/elements/common.py:340-342 | an unknown type name gives the plain field class |
| Elements.TypeOf | ttoolly/elements/common.py:53-320 | every class but the plain one declares a type name |
| Elements.Defaults | ttoolly/elements/common.py:53-320 | every class has the base attributes, and `type_of` exactly when it declares a type |
| Elements.TypeOfSelectsKind | ttoolly/elements/common.py:340-342 | a class's type name selects that class |
| Elements.KindNamedDeclares | ttoolly/elements/common.py:340-342 | a known type name selects a class declaring that name |
| Elements.Template | ttoolly/elements/common.py:71-82 | the template holds only declared attributes, with `type_of` renamed `type`, and their defaults |
| Elements.TenthPower | ttoolly/elements/common.py:143 | `Decimal("0.1") ** places` is one with exponent minus places |
| Elements.StepPlacesCheckText | ttoolly/elements/common.py:162-169 | a step written with a point passes exactly when it has `places` digits after the point |
| Elements.StepWithoutPointFails | ttoolly/elements/common.py:166 | a step whose text has no point makes the check fail with the index error |
| Elements.SuggestedStepPasses | ttoolly/elements/common.py:165-169 | the suggested step `0.1 ** places` passes for one to six places |
| Elements.Validate | ttoolly/elements/common.py:84-102 | an unknown key fails with the unknown-attribute error; success means there is none; outside the decimal step/places pair, passing is exactly having no unknown key |
| Elements.TemplateValidates | ttoolly/elements/common.py:71-102 | every template is accepted |
| Elements.ConvertSizeAttr | ttoolly/elements/common.py:300-303 | the size key is converted to bytes and nothing else changes; it fails exactly when the conversion fails |
| Elements.ConvertDecimalAttr | ttoolly/elements/common.py:136-138 | a bound present is replaced by `Decimal()` of it and nothing else changes; it fails exactly when `Decimal()` refuses the value, with that error |
| Elements.Prepared | ttoolly/elements/common.py:136-138 | the pre-processing (here and in the file classes at lines 300-304) keeps the keys and changes only the size keys and the decimal bounds; each decimal bound becomes `Decimal()` of it; a refused `max_value`, then a refused `min_value`, is the error; classes without such keys are unchanged |
| Elements.ConditionAttr | ttoolly/elements/common.py:63-66 | a truthy `required`/`only` is parsed into a condition, a falsy one keeps the default, a parse failure is reported |
| Elements.DerivedKeysDeclared | ttoolly/elements/common.py:135-143 | the attributes the constructor derives are declared by the class |
| Elements.DeclaredAttrs | ttoolly/elements/common.py:61-69 | after the key check, every attribute set is declared by the class or is `type` |
| Elements.Finish | ttoolly/elements/common.py:135-241 | the class-specific step sets the given attributes and only derived ones; `max_decimal_places` alone gives `step = 0.1 ** places`; a string field keeps a truthy `max_length` or one beside a dict format, and otherwise gets 254 for the email formats and None for any other; a list format with no `max_length` fails as unhashable |
| Elements.FieldInit | ttoolly/elements/common.py:61-69 | the base constructor (key check, conditions, then the attribute loop) yields the specified field |
| Elements.NewField | ttoolly/elements/common.py:61-69 | a subclass constructor yields the specified field or error |
| Elements.ConstructErrorOrder | ttoolly/elements/common.py:136-139 | decimal-bound and file-size (lines 300-304) conversion errors come first, then unknown keys, before any attribute is set |
| Elements.ConstructAttrs | ttoolly/elements/common.py:61-69 | a built field has no unknown key; its attributes are all declared; every other given key is set, with its value unless converted or derived |
| Elements.ConstructKeeps | ttoolly/elements/common.py:61-69 | an argument that is not a condition, not converted and not derived is the built field's attribute, with the given value |
| Elements.ConstructDecimalBound | ttoolly/elements/common.py:136-139 | a built decimal field holds `Decimal()` of each bound it was given, so an int 5 becomes the Decimal 5 |
| Elements.ConstructBadBound | ttoolly/elements/common.py:136-139 | a bound `Decimal()` refuses makes the construction fail with that error, `max_value` before `min_value` |
| Elements.ConstructStrMaxLength | ttoolly/elements/common.py:236-241 | a built string field's `max_length` is the truthy one given, or the one given beside a dict format, else 254 for "email" and "email_simple" and None for any other format |
| Elements.ConstructConditions | ttoolly/elements/common.py:63-66 | the field's `required` and `only` are the parsed conditions of the arguments |
| Elements.PyMod | ttoolly/elements/common.py:116 | Python's `%` takes the sign of the divisor |
| Elements.RoundToStep | ttoolly/elements/common.py:116 | `v - v % step` is a multiple of the step, at most v and above v minus the step for a positive step |
| Elements.PyRandInt | ttoolly/elements/common.py:115 | `randint(a, b)` fails first on a `b` that cannot take `+ 1`, then on a non-integer `a`, then on a Decimal `b`, then on an empty range; otherwise it is the tape's draw |
| Elements.IntRandomValue | ttoolly/elements/common.py:114-117 | fails in `randint`'s order (a `max_value` without `+ 1`, a non-integer `min_value`, a Decimal `max_value`, an empty range), then on a non-integer step, and a zero step fails too; otherwise the value is a whole number of steps |
| Elements.IntRandomValueBounds | ttoolly/elements/common.py:114-117 | for a positive step the value lies in (min - step, max], and with step one in [min, max] |
| Elements.DefaultIntRange | ttoolly/elements/common.py:106-117 | an int field with no arguments draws from the full signed 64-bit range |
| Elements.StrLengthRange | ttoolly/elements/common.py:244-248 | int bounds give [min_length or 1, max_length or 100000], so 5 and 10 give [5, 10]; falsy bounds give 1 and 100000; a truthy `max_length` without `+ 1` fails before a non-integer `min_length` |
| Elements.StrRandomValue | ttoolly/elements/common.py:243-262 | the length drawn lies in the range or is the one given; an empty range and a dict format fail; the text has that length and is letters only when there is no format |
| Forms.KindFor | ttoolly/elements/common.py:340-342 | a type name selects its class, `group` is not modelled, and an unhashable type fails |
| Forms.FieldFor | ttoolly/elements/common.py:339-344 | a field description without `type` fails with the missing key |
| Forms.Names | ttoolly/elements/common.py:339-344 | the registered names in order |
| Forms.Outcomes | ttoolly/elements/common.py:339-344 | one build result per description, in order |
| Forms.RegisterOk | ttoolly/elements/common.py:339-344 | registration succeeds exactly when every field builds |
| Forms.RegisterEntries | ttoolly/elements/common.py:339-344 | the registered map holds exactly the described names with their fields |
| Forms.RegisterStep | ttoolly/elements/common.py:339-344 | each step adds one field or stops at its error |
| Forms.RegisterFailsLater | ttoolly/elements/common.py:339-344 | once a field fails, later ones change nothing |
| Forms.RegisterOutcomes | ttoolly/elements/common.py:339-344 | building from descriptions succeeds exactly when each builds, and maps each name to its field |
| Forms.BuildFieldsEntries | ttoolly/elements/common.py:337-346 | the form's fields are exactly the described ones, built from their descriptions |
| Forms.CaseGroupsAreFalsyKeys | ttoolly/elements/common.py:357-364 | each group is the non-empty set of falsy-valued keys of some `only` case, and every non-empty one is a group |
| Forms.OneOfFields | ttoolly/elements/common.py:348-366 | every registered field has an entry |
| Forms.OneOfFieldsNonEmpty | ttoolly/elements/common.py:363-364 | no group is empty |
| Forms.RequiredNamesMembers | ttoolly/elements/common.py:368-375 | the required fields are exactly the names whose `required` is a condition |
| Forms.RandomDataShape | ttoolly/elements/common.py:377-384 | when every draw succeeds, the payload keys are the fields plus the additional keys, additional values win, and other fields get their drawn values |
| Forms.Form.constructor | ttoolly/elements/common.py:324-338 | a new form has no fields and the default settings |
| Forms.Form.Item | ttoolly/elements/common.py:330-331 | lookup succeeds exactly for registered names, and fails with the missing attribute |
| Forms.Form.SetItem | ttoolly/elements/common.py:333-335 | the field is stored under its name, a new name is appended, settings are unchanged |
| Forms.Form.GetOneOfFields | ttoolly/elements/common.py:348-366 | the loop builds the specified exclusion groups |
| Forms.Form.GetRequiredFields | ttoolly/elements/common.py:368-375 | the loop collects the specified required names in order |
| Forms.Form.GetRandomData | ttoolly/elements/common.py:377-384 | fails exactly when some chosen or required name is not a field, names a class without `get_random_value`, or its draw fails; the error is the first such name's; otherwise the payload of those names with overrides applied last |
| Forms.Form.DrawPayload | ttoolly/elements/common.py:382-383 | drawing a value per name, then applying the overrides, gives the specified payload, or the error of the first name that is unregistered, has no `get_random_value` (AttributeError) or whose draw fails |
| Forms.NewForm | ttoolly/elements/common.py:337-346 | no `fields` fails; otherwise the form holds exactly the built fields in order, or the first build error |
| Forms.AddFields | ttoolly/elements/common.py:339-344 | the registration loop adds every field in order, or stops with the first error |
| Forms.AddEntry | ttoolly/elements/common.py:339-344 | one iteration registers one field or reports its error |
| Forms.BuildField | ttoolly/elements/common.py:340-344 | one description yields the specified field |
| Randomizer.RandInt | ttoolly/utils/randomizer.py:71-72 | `randint` returns a value within its bounds and fails on an empty range |
| Randomizer.LettersAndDigitsAreAlnum | ttoolly/utils/randomizer.py:26-31 | the letters and digits classes hold only letters and digits |
| Randomizer.ClassOf | ttoolly/utils/randomizer.py:26-33 | a type letter gives its class, and an unknown letter stands for itself |
| Randomizer.Classes | ttoolly/utils/randomizer.py:32-33 | the concatenated classes are empty only for no type letters |
| Randomizer.Alphabet | ttoolly/utils/randomizer.py:22-33 | the alphabet is empty only for an empty type string |
| Randomizer.BuildAlphabet | ttoolly/utils/randomizer.py:22-33 | the `+=` loop builds the specified alphabet |
| Randomizer.Repeat | ttoolly/utils/randomizer.py:36-38 | `s * n` has n times the length, or none for n at most zero |
| Randomizer.RepeatAt | ttoolly/utils/randomizer.py:36-38 | each copy repeats the chunk character for character |
| Randomizer.RepeatChars | ttoolly/utils/randomizer.py:36-40 | a repeat holds only characters of the chunk |
| Randomizer.Chunk | ttoolly/utils/randomizer.py:37 | the chunk has the chunk length |
| Randomizer.DrawShape | ttoolly/utils/randomizer.py:35-41 | the name has exactly the requested length and only alphabet characters |
| Randomizer.DrawRepeatsChunk | ttoolly/utils/randomizer.py:35-40 | every full chunk repeats the first one |
| Randomizer.OneSymbolName | ttoolly/utils/randomizer.py:32-33 | an unknown type letter such as "-" gives a name of that letter only |
| Randomizer.NegativeLengthName | ttoolly/utils/randomizer.py:35-40 | a negative length gives `l % c` characters, as Python's floor division and modulo do |
| Randomizer.RandName | ttoolly/utils/randomizer.py:14-41 | a zero chunk length and an empty alphabet fail as Python does; otherwise the specified draw |
| Randomizer.Name | ttoolly/utils/randomizer.py:14-41 | a name of exactly the length, from the alphabet, consuming tape |
| Randomizer.SubPairs | ttoolly/utils/randomizer.py:89-90 | the two-character substitutions keep the length |
| Randomizer.SubDoubleDotCount | ttoolly/utils/randomizer.py:131-132 | replacing ".." never adds dots and removes one when a pair exists, so the loop terminates |
| Randomizer.FixLabel | ttoolly/utils/randomizer.py:85 | splitting a long label keeps its length |
| Randomizer.FixLabels | ttoolly/utils/randomizer.py:83-88 | the label pass keeps the number of labels and their total length |
| Randomizer.FixLabelsAddsDot | ttoolly/utils/randomizer.py:82-88 | a long label gains a dot |
| Randomizer.LabelPass | ttoolly/utils/randomizer.py:82-88 | each pass keeps the length and strictly raises the dot count within it, so the split loop terminates |
| Randomizer.NoSepTotalCount | ttoolly/utils/randomizer.py:82 | split pieces hold no separator |
| Randomizer.RandomDomainValue | ttoolly/utils/randomizer.py:70-101 | fails exactly below length four; otherwise the domain has exactly the requested length and its last label is 2 to 6 ASCII letters |
| Randomizer.TopLabel | ttoolly/utils/randomizer.py:101 | a dot and 2 to 6 letters at the end of a text are its last label |
| Randomizer.Escape | ttoolly/utils/randomizer.py:135 | escaping never shortens |
| Randomizer.EscapeKeepsNoDoubleDot | ttoolly/utils/randomizer.py:133-135 | escaping then truncating keeps no ".." and the first character's dot status |
| Randomizer.FixEnds | ttoolly/utils/randomizer.py:136 | the end fix keeps the length and only replaces characters |
| Randomizer.FixEndsWellFormed | ttoolly/utils/randomizer.py:136 | after the end fix the local part has no "..", no leading or trailing dot and no trailing backslash |
| Randomizer.RandomLocalPart | ttoolly/utils/randomizer.py:116-138 | the local part has exactly the drawn length, is well formed, and is alphanumeric when safe or one character long |
| Randomizer.CollapseDots | ttoolly/utils/randomizer.py:131-132 | the ".." loop keeps the length and ends with no "..", keeping a plain name plain |
| Randomizer.EscapeAll | ttoolly/utils/randomizer.py:133-135 | the escaping loop keeps the length and no ".." |
| Randomizer.AlnumName | ttoolly/utils/randomizer.py:112 | a `wd` name is letters and digits of exactly the length |
| Randomizer.AlnumAlphabet | ttoolly/utils/randomizer.py:112 | the `wd` alphabet holds only letters and digits |
| Randomizer.ClassesOfWd | ttoolly/utils/randomizer.py:112 | the `wd` alphabet is the ASCII letters followed by the digits |
| Randomizer.RandomEmailValue | ttoolly/utils/randomizer.py:104-140 | fails with the length message exactly below three; otherwise exactly the length, the "@" after a one-character or bounded name, a well-formed local part, alphanumeric when safe, and no upper case |
| Randomizer.LowerLocalPart | ttoolly/utils/randomizer.py:140 | lower-casing keeps the local part well formed and alphanumeric characters alphanumeric |
| Utils.Run | ttoolly/utils/utils.py:26 | the longest prefix of digits and dots |
| Utils.Multiplier | ttoolly/utils/utils.py:25-27 | every unit multiplies by at least one |
| Utils.ConvertSizeToBytes | ttoolly/utils/utils.py:24-28 | a converted size is never negative and is below 2^1024 |
| Utils.SizeOfText | ttoolly/utils/utils.py:26-28 | the conversion of the text of a size is never negative and is below 2^1024 |
| Utils.Quotient | ttoolly/utils/utils.py:27 | the quotient of n by g leaves a remainder below g |
| Utils.RoundTo | ttoolly/utils/utils.py:27 | the nearest multiple of the gap, within half a gap, and the even multiple on a tie |
| Utils.ExactBelowAt | ttoolly/utils/utils.py:27 | every integer up to 2^p keeps its value under rounding to p binary digits |
| Utils.ExactBelow | ttoolly/utils/utils.py:27 | `float(n) == n` for every n up to 2^53 |
| Utils.BinadeAt | ttoolly/utils/utils.py:27 | between 2^p and 2^(p+1) even numbers keep their value and odd ones go to the neighbouring multiple of four |
| Utils.OverflowsAt | ttoolly/utils/utils.py:27 | rounding a number of more than e binary digits keeps it above e digits |
| Utils.DoubleOverflows | ttoolly/utils/utils.py:27 | `float(n)` of a number of 2^1024 or more is infinite |
| Utils.SizeOfDigits | ttoolly/utils/utils.py:24-28 | digits with a unit give `float()` of the number times the unit's multiplier, or the overflow error when that is infinite |
| Utils.ExactSize | ttoolly/utils/utils.py:24-28 | up to 2^53, digits with a unit give the number times the multiplier |
| Utils.PlainSizeRounds | ttoolly/utils/utils.py:24-28 | an integer size gives `float()` of it, or the overflow error when that is infinite |
| Utils.RoundsToEven | ttoolly/utils/utils.py:24-28 | from 2^53 to 2^54 an integer size gives its rounding to even: 9007199254740993 gives 9007199254740992 |
| Utils.OverflowAbove | ttoolly/utils/utils.py:24-28 | a number of 2^1024 or more in the text fails with the overflow error, whatever the unit |
| Utils.RunIsDigits | ttoolly/utils/utils.py:26 | a matched number without a dot is a digit string |
| Utils.FirstMatchSkips | ttoolly/utils/utils.py:26 | characters that cannot start a number are skipped |
| Utils.FirstMatchOfNumber | ttoolly/utils/utils.py:26 | a number followed by a word character matches with that unit |
| Utils.FirstMatchOfPlainNumber | ttoolly/utils/utils.py:26 | a plain number matches with an empty unit |
| Utils.RunOfDigits | ttoolly/utils/utils.py:26 | the run stops at the first character that is not a digit or dot |
| Utils.PlainDigitsUnchanged | ttoolly/utils/utils.py:24-28 | the digits of a number up to 2^53 convert to that number |
| Utils.PlainSizeUnchanged | ttoolly/utils/utils.py:24-28 | an integer from 0 to 2^53 is returned unchanged |
| Utils.SizeWithUnit | ttoolly/utils/utils.py:24-28 | for a number up to 2^53, a K, M or G suffix multiplies by 1024, 1024 squared or 1024 cubed; any other word character, lower-case k included, by one |
| Decimals.DecimalOf | ttoolly/elements/common.py:136-138 | a number becomes a Decimal equal to it, a Decimal is kept, text is parsed, a list is a triple or a length error, and exactly the other types are refused |
| Decimals.DecimalOfText | ttoolly/elements/common.py:136-138 | text gives a Decimal or the invalid-text error naming the text, unless it is outside the modelled syntax |
| Decimals.TextRoundTrip | ttoolly/elements/common.py:136-138 | `Decimal(str(d)) == d` for every finite Decimal, coefficient and exponent alike |
| Decimals.NoDigitInvalid | ttoolly/elements/common.py:136-138 | text without a digit that is not an infinity or a NaN is the invalid-text error |
| Decimals.AssembledValue | ttoolly/elements/common.py:136-138 | sign, digits, an optional point and an optional exponent read as the Decimal of those digits with the exponent minus the places after the point |
| Decimals.BodyValue | ttoolly/elements/common.py:136-138 | a mantissa with an optional exponent reads as its digits and the exponent of its last digit |
| Values.PyEqReflexive | ttoolly/asserts/common.py:104 | every value equals itself under Python's `==` |
| Values.Pad | ttoolly/elements/rest.py:7 | zero padding gives at least the width |
| Values.PadRoundTrip | ttoolly/elements/rest.py:7 | `int()` of a zero-padded number is the number |
| Values.IsoDateFields | ttoolly/elements/rest.py:6-7 | YYYY-MM-DD has ten characters, dashes at 4 and 7, and its fields read back as the year, month and day |
| Values.IsoFormatDate | ttoolly/elements/rest.py:6-7 | `isoformat()` of a date is YYYY-MM-DD; a datetime's starts with it, then the separator |
| Values.IsoDateInjective | ttoolly/elements/rest.py:6-7 | two dates with the same ISO text are equal |
| Values.TenthPowerText | ttoolly/elements/common.py:165-166 | `str` of `0.1 ** p` is "0." and p digits up to six places, and has no point beyond |
| Strings.Split | ttoolly/commands/get_field_template.py:17 | the pieces hold no separator and join back into the input |
| Strings.SplitConcat | ttoolly/utils/randomizer.py:82 | splitting `a + sep + b` gives the pieces of `a` and then those of `b` |
| Strings.SplitTwo | ttoolly/commands/get_field_template.py:17 | two separator-free parts split back into themselves |
| Strings.Strip | ttoolly/asserts/common.py:34 | the result starts and ends with no stripped character |
| Strings.Lower | ttoolly/utils/randomizer.py:140 | the same length with every ASCII capital lowered |
| Strings.JoinLength | ttoolly/utils/randomizer.py:83-88 | a join is the pieces plus one separator between each pair |
| Strings.JoinCount | ttoolly/utils/randomizer.py:83-88 | a join holds the pieces' separators plus one between each pair |
| Strings.NatToString | ttoolly/asserts/common.py:28 | `str(n)` is never empty |
| Strings.ParseNatToString | ttoolly/utils/utils.py:27-28 | `int(str(n)) == n` |
| Asserts.NoFormErrors | ttoolly/asserts/common.py:4-8 | fails exactly for truthy errors, carrying them |
| Asserts.EmptyFormErrorsPass | ttoolly/asserts/common.py:4-8 | `None`, `{}` and `""` pass |
| Asserts.DiffMessage | ttoolly/asserts/common.py:13-19 | "deleted" with the absolute difference, "created" with the difference, or "nothing created or deleted" |
| Asserts.ObjectsCount | ttoolly/asserts/common.py:11-22 | passes exactly when the new count is the initial count plus the additional, and otherwise gives the count message |
| Asserts.ObjectsCountPrefix | ttoolly/asserts/common.py:21 | the message starts "Objects count" without msg and msg followed by " objects count" with one |
| Asserts.StatusCode | ttoolly/asserts/common.py:25-29 | fails exactly when the codes differ, with "Status code X. Expected Y" |
| Asserts.StatusCodeExample | ttoolly/asserts/common.py:25-29 | 100 against 200 gives the literal message, 200 against 200 passes |
| Asserts.HeaderLines | ttoolly/asserts/common.py:35-40 | at most the two missing-key lines |
| Asserts.DictDiffEmpty | ttoolly/asserts/common.py:41-66 | the diff is empty exactly when the dicts are equal under Python's `==` |
| Asserts.DictDiffOrder | ttoolly/asserts/common.py:35-41 | "Not in first dict" comes first, then "Not in second dict", then the per-key lines |
| Asserts.PartialSkip | ttoolly/asserts/common.py:41-42 | an equal key adds no line |
| Asserts.PartialAdd | ttoolly/asserts/common.py:41-64 | a differing key adds its line |
| Asserts.GetDictDiff | ttoolly/asserts/common.py:32-66 | the loop produces a diff meeting the specification: the headers, then one line per differing common key, nested, list or value as the types say |
| Asserts.DiffKeys | ttoolly/asserts/common.py:41-64 | the loop over the common keys keeps the header lines and adds one line for each differing key |
| Asserts.KeyLine | ttoolly/asserts/common.py:42-64 | a differing pair yields its nested diff, list line, or value line shown via repr exactly when the types differ |
| Asserts.AssertDictEqual | ttoolly/asserts/common.py:101-107 | passes exactly for equal dicts, and otherwise fails with a non-empty diff |
| Asserts.SameDictNoDiff | ttoolly/asserts/common.py:101-107 | a dict has no diff against itself |
| Asserts.SingleKeyDiff | ttoolly/asserts/common.py:41-64 | one common differing key gives lines about that key only |
| Asserts.AtMostOneLine | ttoolly/asserts/common.py:41-64 | with no header and one common key there is at most one line |
| Asserts.DistinctKeysBound | ttoolly/asserts/common.py:41 | each key of the intersection is visited once, so there are no more key lines than keys |
| Asserts.ValueDiffExample | ttoolly/asserts/common.py:55-63 | `{"qwe": 123}` against `{"qwe": {"a": 1}}` gives exactly one value line shown via repr |
| Asserts.ValueDiffExampleLine | ttoolly/asserts/common.py:55-63 | the only line that example admits |
| Rest.ToJson | ttoolly/elements/rest.py:5-10 | the result holds no date inside dicts, JSON-ready input is unchanged, and dicts stay dicts with the same keys |
| Rest.DatesBecomeText | ttoolly/elements/rest.py:6-7 | dates and datetimes become their ISO text |
| Rest.LeapDayText | ttoolly/elements/rest.py:6-7 | 29 February 2024 becomes "2024-02-29" |
| Rest.DictConverted | ttoolly/elements/rest.py:8-9 | each dict value is converted under its key |
| Rest.ListUnchanged | ttoolly/elements/rest.py:10 | a list is returned as it is, even holding dates |
| Rest.ToJsonIdempotent | ttoolly/elements/rest.py:5-10 | converting twice is converting once |
| Rest.NestedListKeepsDate | ttoolly/elements/rest.py:5-10 | a date in a list in a dict survives while a dict date becomes text |
| Rest.GetRandomData | ttoolly/elements/rest.py:13-16 | the REST payload is exactly `to_json` of the base payload, with the same errors: the first name that is unregistered, has no `get_random_value` or whose draw fails |
| Django.DjangoStrKwargs | ttoolly/elements/django.py:12-18 | a truthy non-dict format with falsy `min_length` sets it to 6 for email formats and to 0 otherwise; a list format fails; otherwise the arguments are unchanged |
| Django.NewDjangoStrField | ttoolly/elements/django.py:12-19 | the rewrite, then the base string field constructor |
| Django.EmailMinLength | ttoolly/elements/django.py:13-18 | an email format without `min_length` gets 6 and keeps the other arguments |
| Django.EmailFieldMinLength | ttoolly/elements/django.py:12-19 | the built email field holds `min_length` 6 |
| Generator.InsertIndex | ttoolly/generator.py:9-16 | the first variadic position, or the end when there is none |
| Generator.NewParams | ttoolly/generator.py:17-21 | new positional-or-keyword parameters without default, last name first |
| Generator.NewSig | ttoolly/generator.py:5-22 | the loops splice the new parameters in at the insertion index |
| Generator.FirstVariadic | ttoolly/generator.py:10-16 | the loop's exit position is the insertion index |
| Generator.NewParamsSnoc | ttoolly/generator.py:17-21 | each insertion at the same index puts the newer name first |
| Generator.SplicedShape | ttoolly/generator.py:17-22 | one parameter more per name, and the old parameters keep their order |
| Generator.SplicedNewParams | ttoolly/generator.py:17-21 | the new parameters sit at the index in reverse order, positional-or-keyword without default |
| Generator.SplicedBeforeVariadic | ttoolly/generator.py:17-21 | the first variadic parameter follows the new ones |
| Generator.SplicedNothing | ttoolly/generator.py:17-22 | no names leave the list unchanged |
| Generator.SplicedExample | ttoolly/generator.py:5-22 | `(a, *args, b, **kw)` with x, y becomes `(a, y, x, *args, b, **kw)` |
| FieldTemplate.Validate | ttoolly/commands/get_field_template.py:15-27 | a token without exactly one colon has the wrong format; that check comes before the type check; success gives `(name, type)` with `name + ":" + type` the token and a known type |
| FieldTemplate.SplitPieces | ttoolly/commands/get_field_template.py:17 | a split gives one more piece than separators |
| FieldTemplate.NoSepPieces | ttoolly/commands/get_field_template.py:17 | pieces without the separator count none |
| FieldTemplate.CountAbsent | ttoolly/commands/get_field_template.py:17 | an absent character counts zero |
| FieldTemplate.TypeNamesWithoutColon | ttoolly/commands/get_field_template.py:22-23 | no type name holds a colon |
| FieldTemplate.ValidateRoundTrip | ttoolly/commands/get_field_template.py:15-27 | a colon-free name with a known type is accepted as it is |
| FieldTemplate.ValidateUnknownType | ttoolly/commands/get_field_template.py:22-26 | a colon-free name with a colon-free type that is not a type name is refused for its type |
| FieldTemplate.LongNameUnknown | ttoolly/commands/get_field_template.py:22-23 | no type name is longer than eleven characters |
| FieldTemplate.WrongFormatExample | ttoolly/commands/get_field_template.py:16-21 | "f1 str" has the wrong format |
| FieldTemplate.UnknownTypeExample | ttoolly/commands/get_field_template.py:22-26 | "f1:some_wrong_type" names an unexpected type |

## Left out

- The padding loop at ttoolly/utils/randomizer.py:137-138 never runs. The rewrites before it keep the length, so the model has no loop there.
- Utils.ConvertSizeToBytes: a fractional size such as "1.5K" gives the `FractionalSize` error instead of a byte count, because the source computes it in float arithmetic. `str()` of a container gives `TextNotModelled`. `\d` and `\w` are restricted to ASCII: Python's `\d` and `float()` also accept other decimal digits ("٣K" is 3072 bytes), for which the model gives `NoNumber`.
- Utils.PlainDigitsUnchanged, Utils.PlainSizeUnchanged, Utils.SizeWithUnit and Utils.ExactSize hold up to 2^53 only, where `float()` is exact. Past it `Utils.RoundsToEven` and `Utils.PlainSizeRounds` give the rounded value, and `Utils.OverflowAbove` the overflow from 2^1024 on.
- Decimals.DecimalOf: whitespace around the text, `_` digit separators and non-ASCII digits give `NotModelled`, and so do infinities, NaNs and (sign, digits, exponent) triples. A Decimal is its coefficient and exponent, so the sign of a negative zero such as `Decimal("-0")` is lost.
- Elements.Finish: a `step` given without `max_decimal_places` gives a `NotModelled` error instead of the `math.log` derivation (ttoolly/elements/common.py:141), which is a float computation.
- Condition data whose `if` value is neither a `str`, a dict nor a list of dicts is stored by the source and fails later. The model rejects it when parsing.
- The `group` field type (a nested form) is not modelled. `Forms.KindFor` reports it as an error.
- Reflection (`inspect.getmembers`, `get_all_subclasses`, `elements_map`) is replaced by explicit tables of type names and declared attributes per class.
- Forms.NewForm, Forms.Form.constructor: `Form.Meta` is one class shared by every form. `Form(...)` resets `Meta.all_fields` and writes each setting onto that class with `setattr(self.Meta, k, v)` (ttoolly/elements/common.py:338, 345-346), so a form built later sees the settings of earlier forms and changes what earlier forms see. The model gives each form its own names and settings: `meta == MetaDefaults + settings` holds in the source for the first form built only.
- `Form.Meta.all_fields` is class-level state shared by every form. The model keeps names per form, in registration order, which stands for Python's set iteration order. The fallback key `tuple(main)` is the set of unconditional names whatever the order. Only which assignment wins for a repeated key depends on that order.
- Elements.Validate: the source raises on the first unknown key in argument order and names that key. The model's `UnknownAttributes` carries the whole set of unknown keys, because the model's arguments are a map without order.
- `_get_list_diff` is left out. It indexes past the shorter list, and it reads `d1_value` before assignment when the types match. A differing list pair yields one `ListDiff` line carrying both lists.
- Rendering of values in diff lines (`str`, `repr`, `json.dumps`) is left structural. A line carries the values and whether they are shown via `repr`.
- The argument-type messages the asserts' tests expect are not implemented in the source. `msg` is unused in `assert_dict_equal`.
- `Signature.replace` and its validation are not modelled. `new_sig` returns the parameter list it would pass.
- `Form.__getitem__` also returns methods through `getattr`. It is modelled as lookup of registered fields only.
- `not_empty` is never a `Condition`. The not-empty scenarios are modelled as the `AttributeError` the source raises, plus the shared scenario algorithm proved for any condition map.
- The unsorted-tuple branches at ttoolly/handlers.py:44-45 and 57-58 cannot be reached, because groups are never empty (`Forms.OneOfFieldsNonEmpty`).
- Forms.Form.GetRandomData, Forms.Form.DrawPayload and Rest.GetRandomData: each field's `get_random_value()` is a caller-supplied `draw`, which may fail. The model itself raises the `AttributeError` for an unregistered name, and for the plain, file and image classes, which define no `get_random_value`. Whether any other draw raises is up to `draw`: an empty `randint` range, a dict `str_format`, the decimal `step` arithmetic. `Elements.IntRandomValue` and `Elements.StrRandomValue` model the int and str draws on a random tape, but the payload does not call them.
- Elements.IntRandomValue: a float or Decimal `step` gives `NotAnInteger(step)`. In the source, `value - value % step` then computes a float or a Decimal, and the field returns it. Bounds follow Python 3.12's `randrange`, which refuses a Decimal; older versions accept an integral one.
- Floats are outside the value universe. `Value` has no float case, so no condition, payload or diff in the model holds a float, and `==` between a float and an int or a Decimal is not modelled.
- Faker, float, uuid, date, time and choice synthesis, images, colours and datetimes are not modelled, because they rely on floats, libraries or file I/O.
- The exact error text of the field template check is defined (`FieldTemplate.Message`) but not proved. The choices list in it is the type names joined by ", ".
- The CLI, the test-case metaprogramming (`TestCaseMeta`, `param_as_standalone_func`), ttoolly/testcases.py, the loaders, the Django and HTTP adapters and the test projects are not part of this model.
