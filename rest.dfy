/** The REST flavour of forms: payloads are made JSON-ready by `to_json`,
    which turns dates into their ISO text inside dicts. */
module Rest {
  import opened Wrappers
  import opened Values
  import Strings
  import Forms
  import Elements

  /** A value `to_json` leaves as it is: not a date, and when a dict, made of
      such values. Lists are not looked into, so a list may hold dates. */
  predicate JsonReady(v: Value)
  {
    match v
    case Date(_, _, _) => false
    case DateTime(_, _, _, _, _, _, _) => false
    case Dict(m) => forall k :: k in m ==> JsonReady(m[k])
    case _ => true
  }

  /** `to_json(value)`. */
  function ToJson(v: Value): (r: Value)
    ensures JsonReady(r)
    ensures JsonReady(v) ==> r == v
    ensures v.Dict? <==> r.Dict?
    ensures v.Dict? ==> r.entries.Keys == v.entries.Keys
    decreases v
  {
    match v
    case Date(_, _, _) => Str(IsoFormat(v, 'T'))
    case DateTime(_, _, _, _, _, _, _) => Str(IsoFormat(v, 'T'))
    case Dict(m) =>
      var r := Dict(map k | k in m :: ToJson(m[k]));
      assert JsonReady(v) ==> r.entries == m;
      r
    case _ => v
  }

  /** A date or datetime becomes its `isoformat()` text. */
  lemma DatesBecomeText(v: Value)
    requires v.Date? || v.DateTime?
    ensures ToJson(v) == Str(IsoFormat(v, 'T'))
  {
  }

  /** Every value of a dict is converted under its own key. */
  lemma DictConverted(m: map<string, Value>, k: string)
    requires k in m
    ensures k in ToJson(Dict(m)).entries && ToJson(Dict(m)).entries[k] == ToJson(m[k])
  {
  }

  /** A list is returned as it is, even when it holds dates. */
  lemma ListUnchanged(items: seq<Value>)
    ensures ToJson(List(items)) == List(items)
  {
  }

  /** `to_json(to_json(v)) == to_json(v)`. */
  lemma ToJsonIdempotent(v: Value)
    ensures ToJson(ToJson(v)) == ToJson(v)
  {
  }

  /** The ISO text of 29 February 2024. */
  lemma LeapDayText()
    ensures IsoFormat(Date(2024, 2, 29), 'T') == "2024-02-29"
  {
    assert Strings.NatToString(2024) == "2024";
    assert Strings.NatToString(2) == "2";
    assert Strings.NatToString(29) == "29";
    assert Pad(2024, 4) == "2024";
    assert Pad(2, 2) == "02";
    assert Pad(29, 2) == "29";
  }

  /** A date inside a list inside a dict survives the conversion. */
  lemma NestedListKeepsDate()
    ensures var d := Date(2024, 2, 29);
            ToJson(Dict(map["when" := List([d]), "day" := d]))
            == Dict(map["when" := List([d]), "day" := Str("2024-02-29")])
  {
    var d := Date(2024, 2, 29);
    LeapDayText();
    var m := map["when" := List([d]), "day" := d];
    DictConverted(m, "day");
    DictConverted(m, "when");
    ListUnchanged([d]);
    assert ToJson(Dict(m)).entries == map["when" := List([d]), "day" := Str("2024-02-29")];
  }

  /** The REST `Form.get_random_data`: the base payload through `to_json`. */
  method GetRandomData(form: Forms.Form, chosen: Option<seq<string>>, additional: Option<map<string, Value>>,
                       draw: string -> Result<Value, Elements.FieldError>)
    returns (r: Result<Value, Forms.FormError>)
    requires form.Valid()
    ensures var fs := if chosen.Some? then chosen.value else Forms.RequiredNames(form.names, form.fields);
            && (r.Ok? <==> Forms.AllDrawn(fs, form.fields, draw))
            && (r.Ok? ==> (forall f :: f in fs ==> draw(f).Ok?)
                          && r.value == ToJson(Dict(Forms.RandomData(fs, if additional.Some? then additional.value else map[], draw))))
            && (r.Err? ==> exists i :: 0 <= i < |fs| && Forms.DrawError(fs[i], form.fields, draw) == Some(r.error)
                                       && Forms.AllDrawn(fs[..i], form.fields, draw))
    ensures r.Ok? ==> JsonReady(r.value)
  {
    var params := form.GetRandomData(chosen, additional, draw);
    if params.Err? {
      return Err(params.error);
    }
    r := Ok(ToJson(Dict(params.value)));
  }
}
