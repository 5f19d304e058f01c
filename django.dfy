/** The Django flavour of string fields: before the base class runs, a
    truthy non-dict `str_format` gives a falsy `min_length` a default, 6 for
    the email formats and 0 otherwise. */
module Django {
  import opened Wrappers
  import opened Values
  import Elements

  /** `kwargs.get(key)` is truthy. */
  predicate Given(kwargs: map<string, Value>, key: string)
  {
    key in kwargs && Truthy(kwargs[key])
  }

  /** The keyword arguments after the rewrite; `{...}.get(str_format, 0)`
      fails on a list, which cannot be a dictionary key. */
  function DjangoStrKwargs(kwargs: map<string, Value>): (r: Result<map<string, Value>, Elements.FieldError>)
    ensures Given(kwargs, "str_format") && !kwargs["str_format"].Dict? && !Given(kwargs, "min_length") ==>
              if kwargs["str_format"].List? then r == Err(Elements.Unhashable(kwargs["str_format"]))
              else r.Ok? && r.value.Keys == kwargs.Keys + {"min_length"}
                   && r.value == kwargs["min_length" := Int(if kwargs["str_format"] in {Str("email"), Str("email_simple")} then 6 else 0)]
    ensures !Given(kwargs, "str_format") || kwargs["str_format"].Dict? ==> r == Ok(kwargs)
    ensures Given(kwargs, "min_length") ==> r == Ok(kwargs)
  {
    if Given(kwargs, "str_format") && !kwargs["str_format"].Dict? && !Given(kwargs, "min_length") then
      var format := kwargs["str_format"];
      if format.List? then Err(Elements.Unhashable(format))
      else Ok(kwargs["min_length" := Int(if format == Str("email") || format == Str("email_simple") then 6 else 0)])
    else Ok(kwargs)
  }

  /** The Django `FieldStr.__init__`: rewrite `kwargs` in place, then the
      base class's `__init__`. */
  method NewDjangoStrField(kwargs: map<string, Value>) returns (r: Result<Elements.Field, Elements.FieldError>)
    ensures DjangoStrKwargs(kwargs).Err? ==> r == Err(DjangoStrKwargs(kwargs).error)
    ensures DjangoStrKwargs(kwargs).Ok? ==> r == Elements.Construct(Elements.StrField, DjangoStrKwargs(kwargs).value)
  {
    var kw := kwargs;
    if "str_format" in kw && Truthy(kw["str_format"]) {
      var format := kw["str_format"];
      if !format.Dict? && !("min_length" in kw && Truthy(kw["min_length"])) {
        if format.List? {
          return Err(Elements.Unhashable(format));
        }
        kw := kw["min_length" := Int(if format == Str("email") || format == Str("email_simple") then 6 else 0)];
      }
    }
    r := Elements.NewField(Elements.StrField, kw);
  }

  /** An email field with no `min_length` gets 6, and keeps every other
      argument. */
  lemma EmailMinLength(kwargs: map<string, Value>)
    requires "str_format" in kwargs && kwargs["str_format"] in {Str("email"), Str("email_simple")}
    requires !Given(kwargs, "min_length")
    ensures DjangoStrKwargs(kwargs).Ok?
    ensures DjangoStrKwargs(kwargs).value["min_length"] == Int(6)
    ensures forall k :: k in kwargs && k != "min_length" ==> DjangoStrKwargs(kwargs).value[k] == kwargs[k]
  {
  }

  /** A Django email field built without `min_length` holds 6 as its
      `min_length`. */
  lemma EmailFieldMinLength(kwargs: map<string, Value>)
    requires "str_format" in kwargs && kwargs["str_format"] in {Str("email"), Str("email_simple")}
    requires !Given(kwargs, "min_length")
    requires DjangoStrKwargs(kwargs).Ok? && Elements.Construct(Elements.StrField, DjangoStrKwargs(kwargs).value).Ok?
    ensures Elements.Attr(Elements.Construct(Elements.StrField, DjangoStrKwargs(kwargs).value).value, "min_length") == Some(Int(6))
  {
    EmailMinLength(kwargs);
    Elements.ConstructKeeps(Elements.StrField, DjangoStrKwargs(kwargs).value, "min_length");
  }
}
