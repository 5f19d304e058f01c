/** Field descriptions: the `Condition` rule object, the field classes with
    their class-level attribute defaults, field construction (unknown-key
    check, condition parsing, the `setattr` loop and the per-class
    post-processing), and the value synthesis of int and str fields. */
module Elements {
  import opened Wrappers
  import opened Strings
  import opened Values
  import Randomizer
  import Utils
  import Decimals

  /** The rule behind `required`, `only` or `not_empty`: filled when another
      field is filled, or a list of cases (maps from field name to value). */
  datatype Condition = Condition(filled: Option<string>, cases: seq<map<string, Value>>)
  {
    /** `has_condition()`: a non-empty trigger or at least one case. */
    predicate HasCondition() { (filled.Some? && filled.value != "") || cases != [] }

    /** A parsed condition has a trigger or cases, never both. */
    predicate WellFormed() { filled.Some? ==> cases == [] }
  }

  datatype FieldError =
      /** `data["if"]` on a value that is neither a bool nor a dict (TypeError). */
    | NotSubscriptable(data: Value)
      /** A missing dictionary key (KeyError). */
    | MissingKey(key: string)
      /** An `"if"` value that is truthy but neither a string, a dict nor a list of dicts. */
    | UnsupportedCases(cases: Value)
      /** `Exception("Unknown attribute ...")` from `validate`. */
    | UnknownAttributes(keys: set<string>, typeName: Value)
      /** `Exception("With max_decimal_places ... step couldn't be ... Maybe ...?")`. */
    | StepPlacesMismatch(places: Value, step: Value, expected: Value)
      /** `str(step).split(".")[1]` on a step without a point (IndexError). */
    | StepWithoutPoint(step: Value)
      /** `Decimal("0.1") ** places` with a non-numeric `places` (TypeError). */
    | PlacesNotNumber(places: Value)
      /** `math.log(step, ...)` on a string step (TypeError). */
    | LogOfText(step: Value)
      /** A list used as a dictionary key (TypeError). */
    | Unhashable(unhashable: Value)
    | SizeError(sizeError: Utils.SizeError)
      /** `Decimal(value)` on a decimal field's bound. */
    | DecimalConversion(decimalError: Decimals.DecimalError)
      /** `randint` or `%` on a value that is not an integer (TypeError). */
    | NotAnInteger(v: Value)
    | Random(randomError: Randomizer.RandomError)
      /** `Exception("TODO")` for a dict `str_format`. */
    | DictFormat
      /** A truthy `str_format` other than "email" and "email_simple" (KeyError). */
    | UnknownFormat(format: Value)
      /** An outcome that depends on floating point or on `str()` of a container. */
    | NotModelled(what: string)

  predicate AllDicts(items: seq<Value>) { forall i :: 0 <= i < |items| ==> items[i].Dict? }

  /** The entries of a list of dicts. */
  function EntriesOf(items: seq<Value>): (r: seq<map<string, Value>>)
    requires AllDicts(items)
    ensures |r| == |items|
    ensures forall i :: 0 <= i < |r| ==> Dict(r[i]) == items[i]
    decreases |items|
  {
    if items == [] then [] else [items[0].entries] + EntriesOf(items[1..])
  }

  /** A list of dicts, one per case. */
  function DictsOf(cases: seq<map<string, Value>>): (r: seq<Value>)
    ensures |r| == |cases|
    ensures forall i :: 0 <= i < |r| ==> r[i] == Dict(cases[i])
    decreases |cases|
  {
    if cases == [] then [] else [Dict(cases[0])] + DictsOf(cases[1..])
  }

  /** `Condition(data)`. */
  function ParseCondition(data: Value): (r: Result<Condition, FieldError>)
    ensures r.Ok? ==> r.value.WellFormed()
    ensures data.Bool? ==> r == Ok(Condition(Option.None, [])) && !r.value.HasCondition()
    ensures !data.Bool? && !data.Dict? ==> r == Err(NotSubscriptable(data))
    ensures data.Dict? && "if" !in data.entries ==> r == Err(MissingKey("if"))
    ensures data.Dict? && "if" in data.entries && data.entries["if"].Str? ==>
              r == Ok(Condition(Some(data.entries["if"].s), []))
    ensures data.Dict? && "if" in data.entries && data.entries["if"].Dict? ==>
              r == Ok(Condition(Option.None, [data.entries["if"].entries]))
    ensures data.Dict? && "if" in data.entries && data.entries["if"].List? && AllDicts(data.entries["if"].items) ==>
              r.Ok? && r.value.filled.None? && |r.value.cases| == |data.entries["if"].items|
              && forall i :: 0 <= i < |r.value.cases| ==> Dict(r.value.cases[i]) == data.entries["if"].items[i]
  {
    match data
    case Bool(_) => Ok(Condition(Option.None, []))
    case Dict(m) =>
      if "if" !in m then Err(MissingKey("if"))
      else
        (match m["if"]
         case Str(s) => Ok(Condition(Some(s), []))
         case Dict(c) => Ok(Condition(Option.None, [c]))
         case List(items) =>
           if AllDicts(items) then Ok(Condition(Option.None, EntriesOf(items)))
           else Err(UnsupportedCases(m["if"]))
         case other => if Truthy(other) then Err(UnsupportedCases(other)) else Ok(Condition(Option.None, [])))
    case _ => Err(NotSubscriptable(data))
  }

  /** The `{"if": ...}` text of a condition. */
  function ConditionValue(c: Condition): Value
  {
    if c.filled.Some? then Dict(map["if" := Str(c.filled.value)])
    else Dict(map["if" := List(DictsOf(c.cases))])
  }

  /** Parsing gives back every well-formed condition from its `{"if": ...}` form. */
  lemma ParseConditionValue(c: Condition)
    requires c.WellFormed()
    ensures ParseCondition(ConditionValue(c)) == Ok(c)
  {
    if c.filled.None? {
      var items := DictsOf(c.cases);
      assert ConditionValue(c).entries["if"] == List(items);
      assert EntriesOf(items) == c.cases;
    }
  }

  /** One class per field type; `PlainField` is the base `Field`, used for
      any unknown type name. */
  datatype FieldKind =
    | PlainField | IntField | SmallIntField | DecimalField | DateField | DateTimeField | TimeField
    | StrField | UuidField | ChoiceField | MultiselectField | FileField | ImageField | BoolField

  /** The type names of `elements_map`, in the order the class hierarchy lists them. */
  const TypeNames: seq<string> :=
    ["smallint", "int", "decimal", "date", "datetime", "time", "str", "uuid",
     "multiselect", "choice", "image", "file", "bool"]

  /** The class a type name selects; `PlainField` for a name no class declares. */
  function KindNamed(name: string): (kind: FieldKind)
    ensures kind == PlainField <==> name !in TypeNames
  {
    match name
    case "smallint" => SmallIntField
    case "int" => IntField
    case "decimal" => DecimalField
    case "date" => DateField
    case "datetime" => DateTimeField
    case "time" => TimeField
    case "str" => StrField
    case "uuid" => UuidField
    case "multiselect" => MultiselectField
    case "choice" => ChoiceField
    case "image" => ImageField
    case "file" => FileField
    case "bool" => BoolField
    case _ => PlainField
  }

  /** Whether the kind's class defines `get_random_value`: the base `Field`,
      `FieldFile` and `FieldImage` do not, so the call raises AttributeError. */
  predicate HasRandomValue(kind: FieldKind)
  {
    !(kind.PlainField? || kind.FileField? || kind.ImageField?)
  }

  /** `sys.maxsize` on a 64-bit platform. */
  const MaxSize: int := 0x7FFF_FFFF_FFFF_FFFF

  /** `Decimal(sys.float_info.max)`, the exact value of the largest double. */
  const FloatMax: int :=
    179769313486231570814527423731704356798070567525844996598917476803157260780028538760589558632766878171540458953514382464234321326889464182768467546703537516986049910576551282076245490090389328944075868508455133942304583236903222948165808559332123348274797826204144723168738177180919299881250404026184124858368

  /** The public attributes of the base `Field` class and their defaults. */
  const FieldDefaults: map<string, Value> :=
    map["name" := Value.None, "not_empty" := Bool(false), "required" := Bool(false),
        "only" := Value.None, "unique" := Bool(false)]

  /** The attributes shared by the numeric and temporal classes. */
  function Bounded(maxValue: Value, minValue: Value, step: Value): map<string, Value>
  {
    map["max_value" := maxValue, "min_value" := minValue, "lt" := List([]), "lte" := List([]), "step" := step]
  }

  /** The attributes shared by the file and image classes (`extensions`
      defaults to an empty tuple, shown as an empty list). */
  const FileDefaults: map<string, Value> :=
    map["max_length" := Value.None, "min_length" := Int(0), "null_allowed" := Bool(true),
        "max_count" := Int(1), "max_size" := Int(10 * 1024 * 1024),
        "sum_max_size" := Int(10 * 1024 * 1024), "extensions" := List([])]

  /** The `type_of` each class declares; the base `Field` declares none. */
  function TypeOf(kind: FieldKind): (name: Option<string>)
    ensures name.Some? <==> kind != PlainField
  {
    match kind
    case PlainField => Option.None
    case IntField => Some("int")
    case SmallIntField => Some("smallint")
    case DecimalField => Some("decimal")
    case DateField => Some("date")
    case DateTimeField => Some("datetime")
    case TimeField => Some("time")
    case StrField => Some("str")
    case UuidField => Some("uuid")
    case ChoiceField => Some("choice")
    case MultiselectField => Some("multiselect")
    case FileField => Some("file")
    case ImageField => Some("image")
    case BoolField => Some("bool")
  }

  /** The attributes a class adds to or overrides in the base class,
      besides `type_of`. */
  function OwnDefaults(kind: FieldKind): map<string, Value>
  {
    match kind
    case PlainField => map[]
    case IntField => Bounded(Int(MaxSize), Int(-MaxSize - 1), Int(1))
    case SmallIntField => Bounded(Int(32767), Int(-32767 - 1), Int(1))
    case DecimalField =>
      Bounded(Decimal(FloatMax, 0), Decimal(-FloatMax, 0), Decimal(1, -1))["max_decimal_places" := Int(1)]
    case DateField => Bounded(Value.None, Value.None, Duration(24 * 3600 * 1000000))
    case DateTimeField => Bounded(Value.None, Value.None, Duration(1000000))
    case TimeField => Bounded(Value.None, Value.None, Duration(1000000))
    case StrField =>
      map["max_length" := Value.None, "min_length" := Int(0), "str_format" := Value.None, "null_allowed" := Bool(true)]
    case UuidField => map["null_allowed" := Bool(true)]
    case ChoiceField => map["choice_values" := List([])]
    case MultiselectField => map["choice_values" := List([])]
    case FileField => FileDefaults
    case ImageField =>
      FileDefaults + map["min_width" := Int(1), "min_height" := Int(1), "max_width" := Int(10000), "max_height" := Int(10000)]
    case BoolField => map["not_empty" := Bool(true)]
  }

  /** Every public non-method class attribute of a field class, with its
      default: what `inspect.getmembers` lists, written out per class. */
  function Defaults(kind: FieldKind): (d: map<string, Value>)
    ensures FieldDefaults.Keys <= d.Keys
    ensures kind != PlainField <==> "type_of" in d
    ensures kind != PlainField ==> d["type_of"] == Str(TypeOf(kind).value)
  {
    if kind == PlainField then FieldDefaults
    else (FieldDefaults + OwnDefaults(kind))["type_of" := Str(TypeOf(kind).value)]
  }

  /** Each class's `type_of` is the type name that selects it. */
  lemma TypeOfSelectsKind(kind: FieldKind)
    requires kind != PlainField
    ensures KindNamed(TypeOf(kind).value) == kind
  {
    var name := TypeOf(kind).value;
    assert name in TypeNames;
    KindNamedDeclares(name);
  }

  /** Every type name of the map selects a class that declares it. */
  lemma KindNamedDeclares(name: string)
    requires name in TypeNames
    ensures TypeOf(KindNamed(name)) == Some(name)
  {
    var i :| 0 <= i < |TypeNames| && TypeNames[i] == name;
    if i == 0 {} else if i == 1 {} else if i == 2 {} else if i == 3 {} else if i == 4 {}
    else if i == 5 {} else if i == 6 {} else if i == 7 {} else if i == 8 {} else if i == 9 {}
    else if i == 10 {} else if i == 11 {} else {}
  }

  /** `get_template()`: the class attributes without `name`, with
      `type_of` shown as `type`. */
  function Template(kind: FieldKind): (t: map<string, Value>)
    ensures t.Keys <= Defaults(kind).Keys + {"type"}
    ensures forall k :: k in t && k != "type" ==> t[k] == Defaults(kind)[k]
  {
    var d := Defaults(kind);
    (map k | k in d.Keys - {"name", "type_of"} :: d[k])
    + (if "type_of" in d then map["type" := d["type_of"]] else map[])
  }

  /** The keyword arguments `validate` rejects: all but `type` and the class attributes. */
  function UnknownKeys(kind: FieldKind, kwargs: map<string, Value>): set<string>
  {
    kwargs.Keys - {"type"} - Defaults(kind).Keys
  }

  /** `Decimal("0.1") ** places`. */
  function TenthPower(places: Value): (r: Result<Value, FieldError>)
    ensures places.Int? ==> r == Ok(Decimal(1, -places.i))
    ensures r.Ok? ==> r.value.Decimal? && r.value.coef == 1
  {
    match places
    case Int(p) => Ok(Decimal(1, -p))
    case Bool(b) => Ok(Decimal(1, if b then -1 else 0))
    case Decimal(_, _) => Err(NotModelled("a Decimal exponent"))
    case _ => Err(PlacesNotNumber(places))
  }

  /** `FieldDecimal.validate`'s rule: the digits after the first point of
      `str(step)` must number exactly `places`. */
  function StepPlacesCheck(step: Value, places: Value): Outcome<FieldError>
  {
    match TenthPower(places)
    case Err(e) => Fail(e)
    case Ok(expected) =>
      match PyStr(step)
      case None => Fail(NotModelled("str() of the step"))
      case Some(text) =>
        var parts := Split(text, '.');
        if |parts| < 2 then Fail(StepWithoutPoint(step))
        else if !PyEq(Int(|parts[1]|), places) then Fail(StepPlacesMismatch(places, step, expected))
        else Pass
  }

  /** A step written "a.b" (one point) passes exactly when b has `places` digits. */
  lemma StepPlacesCheckText(a: string, b: string, places: int)
    requires '.' !in a && '.' !in b
    ensures StepPlacesCheck(Str(a + "." + b), Int(places)).Pass? <==> |b| == places
  {
    SplitTwo(a, b, '.');
  }

  /** A step without a point fails with IndexError whatever `places` says. */
  lemma StepWithoutPointFails(text: string, places: int)
    requires '.' !in text
    ensures StepPlacesCheck(Str(text), Int(places)) == Fail(StepWithoutPoint(Str(text)))
  {
    SplitNoSep(text, '.');
  }

  /** The step the message suggests, 0.1 ** places, passes for 1 to 6 places. */
  lemma SuggestedStepPasses(places: nat)
    requires 1 <= places <= 6
    ensures StepPlacesCheck(Decimal(1, -(places as int)), Int(places)) == Pass
  {
    TenthPowerText(places);
  }

  /** `validate(**kwargs)`, with `FieldDecimal`'s extra rule: the key check
      comes first, the step and places check second. */
  function Validate(kind: FieldKind, kwargs: map<string, Value>): (r: Outcome<FieldError>)
    ensures UnknownKeys(kind, kwargs) != {} ==>
              r == Fail(UnknownAttributes(UnknownKeys(kind, kwargs), if "type" in kwargs then kwargs["type"] else Value.None))
    ensures r.Pass? ==> UnknownKeys(kind, kwargs) == {}
    ensures kind != DecimalField || "step" !in kwargs || "max_decimal_places" !in kwargs ==>
              (r.Pass? <==> UnknownKeys(kind, kwargs) == {})
  {
    var unknown := UnknownKeys(kind, kwargs);
    if unknown != {} then
      Fail(UnknownAttributes(unknown, if "type" in kwargs then kwargs["type"] else Value.None))
    else if kind == DecimalField && "step" in kwargs && "max_decimal_places" in kwargs then
      StepPlacesCheck(kwargs["step"], kwargs["max_decimal_places"])
    else Pass
  }

  /** Every class's template passes its own validation. */
  lemma TemplateValidates(kind: FieldKind)
    ensures UnknownKeys(kind, Template(kind)) == {}
    ensures Validate(kind, Template(kind)) == Pass
  {
    var t := Template(kind);
    assert UnknownKeys(kind, t) == {} by {
      forall k | k in t.Keys ensures k == "type" || k in Defaults(kind).Keys {}
    }
    if kind == DecimalField {
      DecimalTemplate();
      SuggestedStepPasses(1);
    }
  }

  /** The decimal template carries the default step 0.1 and one place. */
  lemma DecimalTemplate()
    ensures var t := Template(DecimalField);
            && "step" in t && t["step"] == Decimal(1, -1)
            && "max_decimal_places" in t && t["max_decimal_places"] == Int(1)
  {
    var d := Defaults(DecimalField);
    assert "step" in d && d["step"] == Decimal(1, -1);
    assert "max_decimal_places" in d && d["max_decimal_places"] == Int(1);
  }

  /** The size attributes `FieldFile.__init__` converts to bytes. */
  function SizeKeys(kind: FieldKind): set<string>
  {
    if kind == FileField || kind == ImageField then {"max_size", "sum_max_size"} else {}
  }

  function ConvertSizeAttr(kwargs: map<string, Value>, key: string): (r: Result<map<string, Value>, FieldError>)
    ensures r.Ok? ==> r.value.Keys == kwargs.Keys
    ensures r.Ok? ==> forall k :: k in kwargs && k != key ==> r.value[k] == kwargs[k]
    ensures r.Ok? && key in kwargs ==>
              Utils.ConvertSizeToBytes(kwargs[key]).Ok? && r.value[key] == Int(Utils.ConvertSizeToBytes(kwargs[key]).value)
    ensures r.Err? <==> key in kwargs && Utils.ConvertSizeToBytes(kwargs[key]).Err?
  {
    if key in kwargs then
      match Utils.ConvertSizeToBytes(kwargs[key])
      case Err(e) => Err(SizeError(e))
      case Ok(n) => Ok(kwargs[key := Int(n)])
    else Ok(kwargs)
  }

  /** The bounds `FieldDecimal.__init__` converts with `Decimal()`. */
  function DecimalBoundKeys(kind: FieldKind): set<string>
  {
    if kind == DecimalField then {"max_value", "min_value"} else {}
  }

  /** The arguments a class's `__init__` converts before `Field.__init__`. */
  function ConvertedKeys(kind: FieldKind): set<string>
  {
    SizeKeys(kind) + DecimalBoundKeys(kind)
  }

  function ConvertDecimalAttr(kwargs: map<string, Value>, key: string): (r: Result<map<string, Value>, FieldError>)
    ensures r.Ok? ==> r.value.Keys == kwargs.Keys
    ensures r.Ok? ==> forall k :: k in kwargs && k != key ==> r.value[k] == kwargs[k]
    ensures r.Ok? && key in kwargs ==> Decimals.DecimalOf(kwargs[key]) == Ok(r.value[key])
    ensures r.Err? <==> key in kwargs && Decimals.DecimalOf(kwargs[key]).Err?
    ensures r.Err? ==> r.error == DecimalConversion(Decimals.DecimalOf(kwargs[key]).error)
  {
    if key in kwargs then
      match Decimals.DecimalOf(kwargs[key])
      case Err(e) => Err(DecimalConversion(e))
      case Ok(d) => Ok(kwargs[key := d])
    else Ok(kwargs)
  }

  /** The keyword arguments as a class's `__init__` hands them on: file
      sizes converted to bytes, `max_size` first; decimal bounds converted
      with `Decimal()`, `max_value` first. */
  function Prepared(kind: FieldKind, kwargs: map<string, Value>): (r: Result<map<string, Value>, FieldError>)
    ensures r.Ok? ==> r.value.Keys == kwargs.Keys
    ensures r.Ok? ==> forall k :: k in kwargs && k !in ConvertedKeys(kind) ==> r.value[k] == kwargs[k]
    ensures ConvertedKeys(kind) == {} ==> r == Ok(kwargs)
    ensures r.Ok? ==> forall k :: k in kwargs && k in DecimalBoundKeys(kind) ==> Decimals.DecimalOf(kwargs[k]) == Ok(r.value[k])
    ensures kind == DecimalField && "max_value" in kwargs && Decimals.DecimalOf(kwargs["max_value"]).Err? ==>
              r == Err(DecimalConversion(Decimals.DecimalOf(kwargs["max_value"]).error))
    ensures kind == DecimalField && "min_value" in kwargs && Decimals.DecimalOf(kwargs["min_value"]).Err?
            && ("max_value" in kwargs ==> Decimals.DecimalOf(kwargs["max_value"]).Ok?) ==>
              r == Err(DecimalConversion(Decimals.DecimalOf(kwargs["min_value"]).error))
  {
    if kind == FileField || kind == ImageField then
      match ConvertSizeAttr(kwargs, "max_size")
      case Err(e) => Err(e)
      case Ok(kw) => ConvertSizeAttr(kw, "sum_max_size")
    else if kind == DecimalField then
      match ConvertDecimalAttr(kwargs, "max_value")
      case Err(e) => Err(e)
      case Ok(kw) => ConvertDecimalAttr(kw, "min_value")
    else Ok(kwargs)
  }

  /** A truthy `required` or `only` becomes a `Condition`; a falsy or missing
      one leaves the class default (False, None). */
  function ConditionAttr(kwargs: map<string, Value>, key: string): (r: Result<Option<Condition>, FieldError>)
    ensures r.Ok? ==> (r.value.Some? <==> key in kwargs && Truthy(kwargs[key]))
    ensures r.Ok? && r.value.Some? ==> ParseCondition(kwargs[key]) == Ok(r.value.value)
    ensures r.Err? <==> key in kwargs && Truthy(kwargs[key]) && ParseCondition(kwargs[key]).Err?
  {
    if key in kwargs && Truthy(kwargs[key]) then
      match ParseCondition(kwargs[key])
      case Ok(c) => Ok(Some(c))
      case Err(e) => Err(e)
    else Ok(Option.None)
  }

  /** `max_length`'s default for a string format: 254 for the email formats. */
  function EmailMaxLength(format: Value): Value
  {
    if format == Str("email") || format == Str("email_simple") then Int(254) else Value.None
  }

  /** The attributes a class's `__init__` sets after `Field.__init__`. */
  function DerivedKeys(kind: FieldKind): set<string>
  {
    if kind == DecimalField then {"step", "max_decimal_places"}
    else if kind == StrField then {"max_length"}
    else {}
  }

  /** The derived attributes are class attributes of their class. */
  lemma DerivedKeysDeclared(kind: FieldKind)
    ensures DerivedKeys(kind) <= Defaults(kind).Keys
  {
  }

  /** After validation, every attribute set is `type` or a class attribute. */
  lemma DeclaredAttrs(kind: FieldKind, kwargs: map<string, Value>, attrs: map<string, Value>)
    requires UnknownKeys(kind, kwargs) == {}
    requires attrs.Keys <= kwargs.Keys + DerivedKeys(kind)
    ensures forall k :: k in attrs ==> k == "type" || k in Defaults(kind)
  {
    DerivedKeysDeclared(kind);
    forall k | k in attrs
      ensures k == "type" || k in Defaults(kind)
    {
      if k in kwargs && k != "type" {
        assert k !in UnknownKeys(kind, kwargs);
      }
    }
  }

  /** The work after `Field.__init__`: `FieldDecimal` derives the step from
      the places (or the places from the step), `FieldStr` fills in
      `max_length`. `kwargs` are the arguments the class received. */
  function Finish(kind: FieldKind, kwargs: map<string, Value>, attrs: map<string, Value>)
    : (r: Result<map<string, Value>, FieldError>)
    ensures r.Ok? ==> r.value.Keys == attrs.Keys + (r.value.Keys * DerivedKeys(kind))
    ensures r.Ok? ==> forall k :: k in attrs && k !in DerivedKeys(kind) ==> r.value[k] == attrs[k]
    ensures kind == DecimalField && "max_decimal_places" in kwargs && "step" !in kwargs && r.Ok? ==>
              "step" in r.value && Ok(r.value["step"]) == TenthPower(kwargs["max_decimal_places"])
    ensures kind == StrField && r.Ok? ==> "max_length" in r.value
    ensures kind == StrField ==>
              var format := if "str_format" in attrs then attrs["str_format"] else Value.None;
              var given := if "max_length" in attrs then attrs["max_length"] else Value.None;
              && (r.Err? <==> format.List? && !Truthy(given))
              && (r.Ok? && !format.Dict? && !Truthy(given) ==> r.value["max_length"] == EmailMaxLength(format))
              && (r.Ok? && (format.Dict? || Truthy(given)) ==> r.value["max_length"] == given)
  {
    if kind == DecimalField then
      if "step" in kwargs && "max_decimal_places" !in kwargs then
        if kwargs["step"].Str? then Err(LogOfText(kwargs["step"]))
        else Err(NotModelled("max_decimal_places from math.log"))
      else if "max_decimal_places" in kwargs && "step" !in kwargs then
        match TenthPower(kwargs["max_decimal_places"])
        case Err(e) => Err(e)
        case Ok(step) => Ok(attrs["step" := step])
      else Ok(attrs)
    else if kind == StrField then
      var format := if "str_format" in attrs then attrs["str_format"] else Value.None;
      var maxLength := if "max_length" in attrs then attrs["max_length"] else Value.None;
      if !format.Dict? && !Truthy(maxLength) then
        if format.List? then Err(Unhashable(format))
        else Ok(attrs["max_length" := EmailMaxLength(format)])
      else Ok(attrs["max_length" := maxLength])
    else Ok(attrs)
  }

  /** A constructed field: its class, the attributes set on the instance and
      the parsed `required` and `only` rules (None for the class default). */
  datatype Field = Field(kind: FieldKind, attrs: map<string, Value>, required: Option<Condition>, only: Option<Condition>)

  /** Attribute lookup: the instance's own value, else the class default. */
  function Attr(f: Field, name: string): Option<Value>
  {
    if name in f.attrs then Some(f.attrs[name])
    else if name in Defaults(f.kind) then Some(Defaults(f.kind)[name])
    else Option.None
  }

  /** What `Field.__init__` leaves behind: validation first, then a truthy
      `required` and `only` parsed into conditions, then every other
      keyword argument set on the instance. */
  function InitResult(kind: FieldKind, kwargs: map<string, Value>): Result<Field, FieldError>
  {
    match Validate(kind, kwargs)
    case Fail(e) => Err(e)
    case Pass =>
      match ConditionAttr(kwargs, "required")
      case Err(e) => Err(e)
      case Ok(required) =>
        match ConditionAttr(kwargs, "only")
        case Err(e) => Err(e)
        case Ok(only) => Ok(Field(kind, kwargs - {"required", "only"}, required, only))
  }

  /** `Field.__init__`, with its `setattr` loop over the remaining arguments. */
  method FieldInit(kind: FieldKind, kwargs: map<string, Value>) returns (r: Result<Field, FieldError>)
    ensures r == InitResult(kind, kwargs)
  {
    var check := Validate(kind, kwargs);
    if check.Fail? {
      return Err(check.error);
    }
    var required := ConditionAttr(kwargs, "required");
    if required.Err? {
      return Err(required.error);
    }
    var only := ConditionAttr(kwargs, "only");
    if only.Err? {
      return Err(only.error);
    }
    var rest := kwargs - {"required", "only"};
    var attrs: map<string, Value> := map[];
    var todo := rest.Keys;
    while todo != {}
      invariant todo <= rest.Keys
      invariant attrs.Keys == rest.Keys - todo
      invariant forall k :: k in attrs ==> attrs[k] == rest[k]
      decreases todo
    {
      var k :| k in todo;
      attrs := attrs[k := rest[k]];
      todo := todo - {k};
    }
    assert attrs == rest;
    r := Ok(Field(kind, attrs, required.value, only.value));
  }

  /** What a class's `__init__` produces: its own preparation of the
      arguments, `Field.__init__`, then its own post-processing. */
  function Construct(kind: FieldKind, kwargs: map<string, Value>): Result<Field, FieldError>
  {
    match Prepared(kind, kwargs)
    case Err(e) => Err(e)
    case Ok(kw) =>
      match InitResult(kind, kw)
      case Err(e) => Err(e)
      case Ok(base) =>
        match Finish(kind, kw, base.attrs)
        case Err(e) => Err(e)
        case Ok(attrs) => Ok(base.(attrs := attrs))
  }

  /** A class's `__init__`. */
  method NewField(kind: FieldKind, kwargs: map<string, Value>) returns (r: Result<Field, FieldError>)
    ensures r == Construct(kind, kwargs)
  {
    var prepared := Prepared(kind, kwargs);
    if prepared.Err? {
      return Err(prepared.error);
    }
    var base := FieldInit(kind, prepared.value);
    if base.Err? {
      return Err(base.error);
    }
    var finished := Finish(kind, prepared.value, base.value.attrs);
    if finished.Err? {
      return Err(finished.error);
    }
    r := Ok(base.value.(attrs := finished.value));
  }

  /** The conversions fail first, the validation second. */
  lemma ConstructErrorOrder(kind: FieldKind, kwargs: map<string, Value>)
    ensures Prepared(kind, kwargs).Err? ==> Construct(kind, kwargs) == Err(Prepared(kind, kwargs).error)
    ensures Prepared(kind, kwargs).Ok? && Validate(kind, Prepared(kind, kwargs).value).Fail? ==>
              Construct(kind, kwargs) == Err(Validate(kind, Prepared(kind, kwargs).value).error)
  {
  }

  /** A constructed field accepted only known keys, keeps `required` and
      `only` out of its attributes, sets only `type` and class attributes,
      and keeps every other argument, unchanged unless its class converts
      or derives it. */
  lemma ConstructAttrs(kind: FieldKind, kwargs: map<string, Value>)
    requires Construct(kind, kwargs).Ok?
    ensures var f := Construct(kind, kwargs).value;
            && f.kind == kind && UnknownKeys(kind, kwargs) == {}
            && "required" !in f.attrs && "only" !in f.attrs
            && (forall k :: k in f.attrs ==> k == "type" || k in Defaults(kind))
            && (forall k :: k in kwargs && k !in {"required", "only"} ==> k in f.attrs)
            && (forall k :: k in kwargs && k !in {"required", "only"} && k !in ConvertedKeys(kind) + DerivedKeys(kind) ==>
                  f.attrs[k] == kwargs[k])
  {
    ConstructParts(kind, kwargs);
    var kw := Prepared(kind, kwargs).value;
    InitParts(kind, kw);
    var base := InitResult(kind, kw).value;
    var attrs := Finish(kind, kw, base.attrs).value;
    var f := Construct(kind, kwargs).value;
    assert kw.Keys == kwargs.Keys;
    assert UnknownKeys(kind, kw) == UnknownKeys(kind, kwargs);
    DerivedKeysDeclared(kind);
    DeclaredAttrs(kind, kwargs, attrs);
    forall k | k in kwargs && k !in {"required", "only"}
      ensures k in f.attrs
    {
      assert k in base.attrs;
    }
    forall k | k in kwargs && k !in {"required", "only"} && k !in ConvertedKeys(kind) + DerivedKeys(kind)
      ensures f.attrs[k] == kwargs[k]
    {
      assert f.attrs[k] == base.attrs[k] == kw[k];
    }
  }

  /** An argument that is neither a condition nor converted nor derived is
      the built field's attribute. */
  lemma ConstructKeeps(kind: FieldKind, kwargs: map<string, Value>, k: string)
    requires Construct(kind, kwargs).Ok?
    requires k in kwargs && k != "required" && k != "only"
    requires k !in ConvertedKeys(kind) && k !in DerivedKeys(kind)
    ensures Attr(Construct(kind, kwargs).value, k) == Some(kwargs[k])
  {
    ConstructAttrs(kind, kwargs);
  }

  /** A built decimal field's bound is `Decimal()` of the argument. */
  lemma ConstructDecimalBound(kwargs: map<string, Value>, k: string)
    requires Construct(DecimalField, kwargs).Ok?
    requires k in kwargs && (k == "max_value" || k == "min_value")
    ensures Decimals.DecimalOf(kwargs[k]).Ok?
    ensures Attr(Construct(DecimalField, kwargs).value, k) == Some(Decimals.DecimalOf(kwargs[k]).value)
  {
    ConstructParts(DecimalField, kwargs);
    var kw := Prepared(DecimalField, kwargs).value;
    InitParts(DecimalField, kw);
    var base := InitResult(DecimalField, kw).value;
    assert k in base.attrs && base.attrs[k] == kw[k];
    assert k !in DerivedKeys(DecimalField);
  }

  /** A bound `Decimal()` refuses is the construction's error, `max_value`
      before `min_value`. */
  lemma ConstructBadBound(kwargs: map<string, Value>, k: string)
    requires k in kwargs && (k == "max_value" || k == "min_value")
    requires Decimals.DecimalOf(kwargs[k]).Err?
    requires k == "min_value" && "max_value" in kwargs ==> Decimals.DecimalOf(kwargs["max_value"]).Ok?
    ensures Construct(DecimalField, kwargs) == Err(DecimalConversion(Decimals.DecimalOf(kwargs[k]).error))
  {
    ConstructErrorOrder(DecimalField, kwargs);
  }

  /** A built string field's `max_length`: a truthy one, or one beside a
      dict format, is kept; otherwise it is 254 for the email formats and
      None for any other format. */
  lemma ConstructStrMaxLength(kwargs: map<string, Value>)
    requires Construct(StrField, kwargs).Ok?
    ensures var f := Construct(StrField, kwargs).value;
            var format := if "str_format" in kwargs then kwargs["str_format"] else Value.None;
            var given := if "max_length" in kwargs then kwargs["max_length"] else Value.None;
            && (!format.Dict? && !Truthy(given) ==> Attr(f, "max_length") == Some(EmailMaxLength(format)))
            && (format.Dict? || Truthy(given) ==> Attr(f, "max_length") == Some(given))
  {
    ConstructParts(StrField, kwargs);
    assert Prepared(StrField, kwargs) == Ok(kwargs);
    InitParts(StrField, kwargs);
    var attrs := InitResult(StrField, kwargs).value.attrs;
    assert attrs == kwargs - {"required", "only"};
    assert Construct(StrField, kwargs).value.attrs == Finish(StrField, kwargs, attrs).value;
  }

  /** A successful construction goes through each stage successfully. */
  lemma ConstructParts(kind: FieldKind, kwargs: map<string, Value>)
    requires Construct(kind, kwargs).Ok?
    ensures Prepared(kind, kwargs).Ok?
    ensures InitResult(kind, Prepared(kind, kwargs).value).Ok?
    ensures var kw := Prepared(kind, kwargs).value;
            var base := InitResult(kind, kw).value;
            && Finish(kind, kw, base.attrs).Ok?
            && Construct(kind, kwargs).value == base.(attrs := Finish(kind, kw, base.attrs).value)
  {
  }

  /** A successful `Field.__init__` validated the arguments, parsed the
      conditions and set every other argument. */
  lemma InitParts(kind: FieldKind, kwargs: map<string, Value>)
    requires InitResult(kind, kwargs).Ok?
    ensures Validate(kind, kwargs) == Pass
    ensures ConditionAttr(kwargs, "required").Ok? && ConditionAttr(kwargs, "only").Ok?
    ensures InitResult(kind, kwargs).value
            == Field(kind, kwargs - {"required", "only"}, ConditionAttr(kwargs, "required").value, ConditionAttr(kwargs, "only").value)
  {
  }

  /** `required` and `only` are the parsed conditions of the arguments. */
  lemma ConstructConditions(kind: FieldKind, kwargs: map<string, Value>)
    requires Construct(kind, kwargs).Ok?
    ensures Ok(Construct(kind, kwargs).value.required) == ConditionAttr(kwargs, "required")
    ensures Ok(Construct(kind, kwargs).value.only) == ConditionAttr(kwargs, "only")
  {
    ConstructParts(kind, kwargs);
    var kw := Prepared(kind, kwargs).value;
    InitParts(kind, kw);
    assert "required" !in ConvertedKeys(kind) && "only" !in ConvertedKeys(kind);
    SameCondition(kw, kwargs, "required");
    SameCondition(kw, kwargs, "only");
  }

  /** A condition depends on its own argument alone. */
  lemma SameCondition(a: map<string, Value>, b: map<string, Value>, key: string)
    requires key in a <==> key in b
    requires key in a ==> a[key] == b[key]
    ensures ConditionAttr(a, key) == ConditionAttr(b, key)
  {
  }

  /** An integer value: an int, or a bool (a subclass of int). */
  function IntegerValue(v: Value): Option<int>
  {
    match v
    case Int(i) => Some(i)
    case Bool(b) => Some(if b then 1 else 0)
    case _ => Option.None
  }

  /** Python's `a // b`: the quotient rounded toward minus infinity. */
  function PyFloorDiv(a: int, b: int): int
    requires b != 0
  {
    if b > 0 then a / b else -a / -b
  }

  /** Python's `a % b`: the remainder takes the sign of `b`. */
  function PyMod(a: int, b: int): (m: int)
    requires b != 0
    ensures b > 0 ==> 0 <= m < b
    ensures b < 0 ==> b < m <= 0
  {
    a - b * PyFloorDiv(a, b)
  }

  /** `value - value % step`: a whole number of steps (`step * (value //
      step)`), at or below `value` (at or above it for a negative step) and
      less than one step away. */
  function RoundToStep(value: int, step: int): (r: int)
    requires step != 0
    ensures r == step * PyFloorDiv(value, step)
    ensures step > 0 ==> value - step < r <= value
    ensures step < 0 ==> value <= r < value - step
  {
    value - PyMod(value, step)
  }

  /** Whether `v + 1` is defined: bools, ints and Decimals. */
  predicate AddsOne(v: Value) { v.Bool? || v.Int? || v.Decimal? }

  /** `randint(a, b)` is `randrange(a, b + 1)`: `b + 1` is computed first,
      then `a` and `b + 1` must be integers (a Decimal is refused), then the
      range must not be empty. */
  function PyRandInt(a: Value, b: Value, tape: Randomizer.Tape, pos: nat): (r: Result<int, FieldError>)
    ensures !AddsOne(b) ==> r == Err(NotAnInteger(b))
    ensures AddsOne(b) && IntegerValue(a).None? ==> r == Err(NotAnInteger(a))
    ensures IntegerValue(a).Some? && AddsOne(b) && IntegerValue(b).None? ==> r == Err(NotAnInteger(b))
    ensures IntegerValue(a).Some? && IntegerValue(b).Some? ==>
              r == match Randomizer.RandInt(IntegerValue(a).value, IntegerValue(b).value, tape, pos)
                   case Ok(v) => Ok(v)
                   case Err(e) => Err(Random(e))
    ensures r.Ok? <==> IntegerValue(a).Some? && IntegerValue(b).Some? && IntegerValue(a).value <= IntegerValue(b).value
  {
    if !AddsOne(b) then Err(NotAnInteger(b))
    else if IntegerValue(a).None? then Err(NotAnInteger(a))
    else if IntegerValue(b).None? then Err(NotAnInteger(b))
    else
      match Randomizer.RandInt(IntegerValue(a).value, IntegerValue(b).value, tape, pos)
      case Err(e) => Err(Random(e))
      case Ok(v) => Ok(v)
  }

  /** `FieldInt.get_random_value()`: a draw from [min_value, max_value]
      rounded down to the step. */
  function IntRandomValue(f: Field, tape: Randomizer.Tape, pos: nat): (r: Result<int, FieldError>)
    requires f.kind == IntField || f.kind == SmallIntField
    ensures var lowV := Attr(f, "min_value").value;
            var highV := Attr(f, "max_value").value;
            var low := IntegerValue(lowV);
            var high := IntegerValue(highV);
            var step := IntegerValue(Attr(f, "step").value);
            && (r.Ok? <==> low.Some? && high.Some? && low.value <= high.value && step.Some? && step.value != 0)
            && (!AddsOne(highV) ==> r == Err(NotAnInteger(highV)))
            && (AddsOne(highV) && low.None? ==> r == Err(NotAnInteger(lowV)))
            && (low.Some? && AddsOne(highV) && high.None? ==> r == Err(NotAnInteger(highV)))
            && (low.Some? && high.Some? && low.value > high.value ==>
                  r == Err(Random(Randomizer.EmptyRange(low.value, high.value))))
            && (low.Some? && high.Some? && low.value <= high.value && step.None? ==>
                  r == Err(NotAnInteger(Attr(f, "step").value)))
            && (r.Ok? ==> PyMod(r.value, step.value) == 0)
  {
    var step := Attr(f, "step").value;
    match PyRandInt(Attr(f, "min_value").value, Attr(f, "max_value").value, tape, pos)
    case Err(e) => Err(e)
    case Ok(v) =>
      if IntegerValue(step).None? then Err(NotAnInteger(step))
      else if IntegerValue(step).value == 0 then Err(Random(Randomizer.ZeroDivision))
      else
        var s := IntegerValue(step).value;
        MultipleMod(PyFloorDiv(v, s), s);
        Ok(RoundToStep(v, s))
  }

  /** `(s * q) // s == q` for a positive `s`. */
  lemma MultipleDiv(q: int, s: int)
    requires s > 0
    ensures (s * q) / s == q
  {
    var e := (s * q) / s - q;
    assert e * s == (s * q) / s * s - q * s;
    assert e >= 1 ==> e * s >= s;
    assert e <= -1 ==> e * s <= -s;
  }

  /** A whole number of steps leaves no remainder. */
  lemma MultipleMod(q: int, s: int)
    requires s != 0
    ensures PyMod(s * q, s) == 0
  {
    if s > 0 {
      MultipleDiv(q, s);
    } else {
      MultipleDiv(q, -s);
      assert -(s * q) == (-s) * q;
    }
  }

  /** The draw is divisible by the step and within one step below the drawn
      value; with step 1 it stays in [min_value, max_value]. */
  lemma IntRandomValueBounds(f: Field, tape: Randomizer.Tape, pos: nat)
    requires f.kind == IntField || f.kind == SmallIntField
    requires IntRandomValue(f, tape, pos).Ok?
    ensures var low := IntegerValue(Attr(f, "min_value").value).value;
            var high := IntegerValue(Attr(f, "max_value").value).value;
            var step := IntegerValue(Attr(f, "step").value).value;
            var r := IntRandomValue(f, tape, pos).value;
            && (step > 0 ==> low - step < r <= high)
            && (step == 1 ==> low <= r <= high)
  {
  }

  /** An unset field keeps the class's range, so a fresh int field draws
      exactly the tape's value mapped into [-2^63, 2^63 - 1]. */
  lemma DefaultIntRange(tape: Randomizer.Tape, pos: nat)
    ensures IntRandomValue(Field(IntField, map[], Option.None, Option.None), tape, pos)
            == Ok(-MaxSize - 1 + tape(pos) % (2 * MaxSize + 2))
  {
  }

  /** The length range of `FieldStr.get_random_value()`:
      `randint(min_length or 1, max_length or 100000)`'s bounds. */
  function StrLengthRange(f: Field): (r: Result<(int, int), FieldError>)
    requires f.kind == StrField
    ensures var low := Attr(f, "min_length").value;
            var high := Attr(f, "max_length").value;
            && (low.Int? && high.Int? ==>
                  r == Ok((if low.i == 0 then 1 else low.i, if high.i == 0 then 100000 else high.i)))
            && (r.Ok? && !Truthy(low) ==> r.value.0 == 1)
            && (r.Ok? && !Truthy(high) ==> r.value.1 == 100000)
            && (Truthy(high) && !AddsOne(high) ==> r == Err(NotAnInteger(high)))
            && ((!Truthy(high) || AddsOne(high)) && Truthy(low) && IntegerValue(low).None? ==> r == Err(NotAnInteger(low)))
  {
    var low := Attr(f, "min_length").value;
    var high := Attr(f, "max_length").value;
    var low' := if Truthy(low) then low else Int(1);
    var high' := if Truthy(high) then high else Int(100000);
    if !AddsOne(high') then Err(NotAnInteger(high'))
    else if IntegerValue(low').None? then Err(NotAnInteger(low'))
    else if IntegerValue(high').None? then Err(NotAnInteger(high'))
    else Ok((IntegerValue(low').value, IntegerValue(high').value))
  }

  /** `FieldStr.get_random_value(length)`: the text, the length used and
      the tape position after the draw. */
  method StrRandomValue(f: Field, length: Option<int>, tape: Randomizer.Tape, pos: nat)
    returns (r: Result<(string, nat), FieldError>, used: int)
    requires f.kind == StrField
    ensures length.Some? ==> used == length.value
    ensures length.None? && r.Ok? ==> StrLengthRange(f).Ok? && StrLengthRange(f).value.0 <= used <= StrLengthRange(f).value.1
    ensures length.None? && StrLengthRange(f).Ok? && StrLengthRange(f).value.0 > StrLengthRange(f).value.1 ==>
              r == Err(Random(Randomizer.EmptyRange(StrLengthRange(f).value.0, StrLengthRange(f).value.1)))
    ensures Attr(f, "str_format").value.Dict? ==> r.Err?
    ensures r.Ok? && used >= 0 ==> |r.value.0| == used
    ensures r.Ok? && !Truthy(Attr(f, "str_format").value) && used >= 0 ==>
              forall k :: 0 <= k < used ==> IsAsciiLetter(r.value.0[k])
  {
    var p := pos;
    if length.Some? {
      used := length.value;
    } else {
      var range := StrLengthRange(f);
      if range.Err? {
        return Err(range.error), 0;
      }
      var draw := Randomizer.RandInt(range.value.0, range.value.1, tape, p);
      if draw.Err? {
        return Err(Random(draw.error)), 0;
      }
      used := draw.value;
      p := p + 1;
    }
    var format := Attr(f, "str_format").value;
    if format.Dict? {
      return Err(DictFormat), used;
    }
    if Truthy(format) {
      if format == Str("email") || format == Str("email_simple") {
        var email, nameLength := Randomizer.RandomEmailValue(used, format == Str("email_simple"), tape, p);
        if email.Err? {
          return Err(Random(email.error)), used;
        }
        return Ok(email.value), used;
      }
      if format.List? {
        return Err(Unhashable(format)), used;
      }
      return Err(UnknownFormat(format)), used;
    }
    var name := Randomizer.RandName(used, "w", 10, tape, p);
    if used >= 0 {
      Randomizer.DrawShape(Randomizer.Alphabet("w"), used, 10, tape, p);
      assert Randomizer.Alphabet("w") == Randomizer.AsciiLetters by {
        assert "w"[..0] == "";
      }
      Randomizer.LettersAndDigitsAreAlnum();
    }
    r := Ok(name.value);
  }
}
