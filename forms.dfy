/** `Form`: a named collection of field descriptions, the exclusion groups
    derived from their `only` cases, the names of the required fields and
    the random payload built from them. */
module Forms {
  import opened Wrappers
  import opened Values
  import Elements

  datatype FormError =
      /** A missing dictionary key (KeyError). */
    | MissingKey(key: string)
      /** A list or dict used as a type name (TypeError). */
    | Unhashable(typeName: Value)
      /** A field of type "group" (a nested form). */
    | GroupNotModelled(name: string)
      /** The construction of one field failed. */
    | FieldFailed(name: string, error: Elements.FieldError)
      /** `getattr(form, name)` on a name no field was registered under. */
    | NoAttribute(attribute: string)
      /** `get_random_value()` on a field whose class does not define it (AttributeError). */
    | NoRandomValue(name: string)
      /** `get_random_value()` of the field under this name raised. */
    | DrawFailed(name: string, error: Elements.FieldError)

  /** `Form.Meta`'s settings other than `all_fields`. */
  const MetaDefaults: map<string, Value> :=
    map["max_count" := Int(1), "min_count" := Int(0), "name_format" := Str("{field}")]

  /** The class a field's `type` value selects: a known type name selects
      its class, any other hashable value the base `Field`. */
  function KindFor(name: string, typeName: Value): (r: Result<Elements.FieldKind, FormError>)
    ensures typeName.Str? && typeName.s != "group" ==> r == Ok(Elements.KindNamed(typeName.s))
    ensures r.Err? <==> typeName == Str("group") || typeName.List? || typeName.Dict?
    ensures r.Ok? && !typeName.Str? ==> r.value == Elements.PlainField
  {
    match typeName
    case Str(s) => if s == "group" then Err(GroupNotModelled(name)) else Ok(Elements.KindNamed(s))
    case List(_) => Err(Unhashable(typeName))
    case Dict(_) => Err(Unhashable(typeName))
    case _ => Ok(Elements.PlainField)
  }

  /** One entry of `fields`: the class chosen by `data["type"]`, given the
      data with `name` set to the entry's name. */
  function FieldFor(name: string, data: map<string, Value>): (r: Result<Elements.Field, FormError>)
    ensures "type" !in data ==> r == Err(MissingKey("type"))
  {
    if "type" !in data then Err(MissingKey("type"))
    else
      match KindFor(name, data["type"])
      case Err(e) => Err(e)
      case Ok(kind) =>
        match Elements.Construct(kind, data["name" := Str(name)])
        case Err(e) => Err(FieldFailed(name, e))
        case Ok(f) => Ok(f)
  }

  function Names(entries: seq<(string, map<string, Value>)>): (r: seq<string>)
    ensures |r| == |entries|
    ensures forall i :: 0 <= i < |r| ==> r[i] == entries[i].0
  {
    if entries == [] then [] else Names(entries[..|entries| - 1]) + [entries[|entries| - 1].0]
  }

  /** The entries of a dict: no name twice. */
  predicate DistinctNames(entries: seq<(string, map<string, Value>)>)
  {
    forall i, j :: 0 <= i < j < |entries| ==> entries[i].0 != entries[j].0
  }

  /** The result of building each entry's field, with its name. */
  function Outcomes<T>(entries: seq<(string, map<string, Value>)>, build: (string, map<string, Value>) -> Result<T, FormError>)
    : (r: seq<(string, Result<T, FormError>)>)
    ensures |r| == |entries|
    ensures forall i :: 0 <= i < |r| ==> r[i] == (entries[i].0, build(entries[i].0, entries[i].1))
    decreases |entries|
  {
    if entries == [] then []
    else
      var last := entries[|entries| - 1];
      Outcomes(entries[..|entries| - 1], build) + [(last.0, build(last.0, last.1))]
  }

  /** Registering built fields in order: the map of names to fields, or
      the first error. */
  function Register<T>(outs: seq<(string, Result<T, FormError>)>): Result<map<string, T>, FormError>
    decreases |outs|
  {
    if outs == [] then Ok(map[])
    else
      match Register(outs[..|outs| - 1])
      case Err(e) => Err(e)
      case Ok(m) =>
        var (name, out) := outs[|outs| - 1];
        match out
        case Err(e) => Err(e)
        case Ok(f) => Ok(m[name := f])
  }

  /** The registered fields after the entries, in order; the first failing
      entry's error. */
  function BuildFields(entries: seq<(string, map<string, Value>)>): Result<map<string, Elements.Field>, FormError>
  {
    Register(Outcomes(entries, FieldFor))
  }

  /** Registration succeeds exactly when every entry built. */
  lemma {:induction false} RegisterOk<T>(outs: seq<(string, Result<T, FormError>)>)
    ensures Register(outs).Ok? <==> forall i :: 0 <= i < |outs| ==> outs[i].1.Ok?
    decreases |outs|
  {
    if outs != [] {
      var init := outs[..|outs| - 1];
      RegisterOk(init);
      assert forall i :: 0 <= i < |init| ==> init[i] == outs[i];
    }
  }

  /** With distinct names, each name holds its own entry's field, and no
      other name is registered. */
  lemma {:induction false} RegisterEntries<T>(outs: seq<(string, Result<T, FormError>)>)
    requires forall i, j :: 0 <= i < j < |outs| ==> outs[i].0 != outs[j].0
    requires Register(outs).Ok?
    ensures forall n :: n in Register(outs).value ==> exists i :: 0 <= i < |outs| && outs[i].0 == n
    ensures forall i :: 0 <= i < |outs| ==>
              outs[i].1.Ok? && outs[i].0 in Register(outs).value && Register(outs).value[outs[i].0] == outs[i].1.value
    decreases |outs|
  {
    if outs != [] {
      var last := |outs| - 1;
      var init := outs[..last];
      RegisterEntries(init);
      assert forall i :: 0 <= i < |init| ==> init[i] == outs[i];
    }
  }

  /** One more outcome: the prefix's map plus the new field, or the first error. */
  lemma RegisterStep<T>(outs: seq<(string, Result<T, FormError>)>, i: nat)
    requires i < |outs|
    ensures Register(outs[..i]).Ok? && outs[i].1.Ok? ==>
              Register(outs[..i + 1]) == Ok(Register(outs[..i]).value[outs[i].0 := outs[i].1.value])
    ensures Register(outs[..i]).Ok? && outs[i].1.Err? ==> Register(outs[..i + 1]) == Err(outs[i].1.error)
  {
    assert outs[..i + 1][..i] == outs[..i];
  }

  /** Once a prefix fails, every longer prefix fails with the same error. */
  lemma {:induction false} RegisterFailsLater<T>(outs: seq<(string, Result<T, FormError>)>, i: nat)
    requires i <= |outs| && Register(outs[..i]).Err?
    ensures Register(outs) == Register(outs[..i])
    decreases |outs| - i
  {
    if i < |outs| {
      assert outs[..i + 1][..i] == outs[..i];
      RegisterFailsLater(outs, i + 1);
    } else {
      assert outs[..i] == outs;
    }
  }

  /** Registration succeeds exactly when every entry builds; with distinct
      names each name then holds the result of its own entry. */
  lemma RegisterOutcomes<T>(entries: seq<(string, map<string, Value>)>, build: (string, map<string, Value>) -> Result<T, FormError>)
    requires DistinctNames(entries)
    ensures Register(Outcomes(entries, build)).Ok? <==> forall i :: 0 <= i < |entries| ==> build(entries[i].0, entries[i].1).Ok?
    ensures Register(Outcomes(entries, build)).Ok? ==>
              (forall n :: n in Register(Outcomes(entries, build)).value ==> n in Names(entries))
              && forall i :: 0 <= i < |entries| ==>
                   entries[i].0 in Register(Outcomes(entries, build)).value
                   && Register(Outcomes(entries, build)).value[entries[i].0] == build(entries[i].0, entries[i].1).value
  {
    var outs := Outcomes(entries, build);
    RegisterOk(outs);
    if Register(outs).Ok? {
      var m := Register(outs).value;
      RegisterEntries(outs);
      forall i | 0 <= i < |entries|
        ensures entries[i].0 in m && m[entries[i].0] == build(entries[i].0, entries[i].1).value
      {
        assert outs[i] == (entries[i].0, build(entries[i].0, entries[i].1));
      }
      forall n | n in m
        ensures n in Names(entries)
      {
        var i :| 0 <= i < |outs| && outs[i].0 == n;
        assert Names(entries)[i] == n;
      }
    }
  }

  /** The fields are built exactly when every entry builds; with distinct
      names each name then holds the field its own entry describes. */
  lemma BuildFieldsEntries(entries: seq<(string, map<string, Value>)>)
    requires DistinctNames(entries)
    ensures BuildFields(entries).Ok? <==> forall i :: 0 <= i < |entries| ==> FieldFor(entries[i].0, entries[i].1).Ok?
    ensures BuildFields(entries).Ok? ==>
              (forall n :: n in BuildFields(entries).value ==> n in Names(entries))
              && forall i :: 0 <= i < |entries| ==>
                   entries[i].0 in BuildFields(entries).value
                   && BuildFields(entries).value[entries[i].0] == FieldFor(entries[i].0, entries[i].1).value
  {
    RegisterOutcomes(entries, FieldFor);
  }

  /** The falsy-valued keys of one case: the fields it requires to be left out. */
  function FalsyKeys(c: map<string, Value>): set<string>
  {
    set k | k in c && !Truthy(c[k])
  }

  /** The non-empty falsy-key groups of a list of cases, in order. */
  function CaseGroups(cases: seq<map<string, Value>>): (r: seq<set<string>>)
    decreases |cases|
  {
    if cases == [] then []
    else
      var init := CaseGroups(cases[..|cases| - 1]);
      var g := FalsyKeys(cases[|cases| - 1]);
      if g != {} then init + [g] else init
  }

  /** Every group is non-empty and is the falsy-key set of a case, and every
      case with a falsy key contributes its group. */
  lemma {:induction false} CaseGroupsAreFalsyKeys(cases: seq<map<string, Value>>)
    ensures forall i :: 0 <= i < |CaseGroups(cases)| ==> CaseGroups(cases)[i] != {}
    ensures forall i :: 0 <= i < |CaseGroups(cases)| ==>
              exists j :: 0 <= j < |cases| && CaseGroups(cases)[i] == FalsyKeys(cases[j])
    ensures forall j :: 0 <= j < |cases| && FalsyKeys(cases[j]) != {} ==> FalsyKeys(cases[j]) in CaseGroups(cases)
    decreases |cases|
  {
    if cases != [] {
      var init := cases[..|cases| - 1];
      CaseGroupsAreFalsyKeys(init);
      assert forall j :: 0 <= j < |init| ==> init[j] == cases[j];
      var r := CaseGroups(cases);
      forall j | 0 <= j < |cases| && FalsyKeys(cases[j]) != {}
        ensures FalsyKeys(cases[j]) in r
      {
        if j < |init| {
          assert FalsyKeys(init[j]) in CaseGroups(init);
        }
      }
      forall i | 0 <= i < |CaseGroups(cases)|
        ensures exists j :: 0 <= j < |cases| && CaseGroups(cases)[i] == FalsyKeys(cases[j])
      {
        var g := FalsyKeys(cases[|cases| - 1]);
        assert r == if g != {} then CaseGroups(init) + [g] else CaseGroups(init);
        if i < |CaseGroups(init)| {
          var j :| 0 <= j < |init| && CaseGroups(init)[i] == FalsyKeys(init[j]);
          assert r[i] == CaseGroups(init)[i];
          assert init[j] == cases[j];
        } else {
          assert r[i] == g == FalsyKeys(cases[|cases| - 1]);
        }
      }
    } else {
      assert CaseGroups(cases) == [];
    }
  }

  /** The exclusion groups of one field: its `only` cases' groups, or none
      when it has no `only` cases. */
  function FieldGroups(f: Elements.Field): seq<set<string>>
  {
    if f.only.Some? && f.only.value.cases != [] then CaseGroups(f.only.value.cases) else []
  }

  /** `get_one_of_fields()` as a value: every registered name with its groups. */
  function OneOfFields(fields: map<string, Elements.Field>): (r: map<string, seq<set<string>>>)
    ensures r.Keys == fields.Keys
  {
    map n | n in fields :: FieldGroups(fields[n])
  }

  /** The table `get_one_of_fields()` returns never holds an empty group. */
  predicate GroupsNonEmpty(oneOf: map<string, seq<set<string>>>)
  {
    forall n, i :: n in oneOf && 0 <= i < |oneOf[n]| ==> oneOf[n][i] != {}
  }

  lemma OneOfFieldsNonEmpty(fields: map<string, Elements.Field>)
    ensures GroupsNonEmpty(OneOfFields(fields))
  {
    forall n | n in fields
      ensures forall i :: 0 <= i < |FieldGroups(fields[n])| ==> FieldGroups(fields[n])[i] != {}
    {
      var f := fields[n];
      if f.only.Some? && f.only.value.cases != [] {
        CaseGroupsAreFalsyKeys(f.only.value.cases);
      }
    }
  }

  /** The names, in order, whose field has a truthy `required` (a
      `Condition`). */
  function RequiredNames(names: seq<string>, fields: map<string, Elements.Field>): (r: seq<string>)
    requires forall i :: 0 <= i < |names| ==> names[i] in fields
    decreases |names|
  {
    if names == [] then []
    else
      var init := RequiredNames(names[..|names| - 1], fields);
      var n := names[|names| - 1];
      if fields[n].required.Some? then init + [n] else init
  }

  /** A name is listed exactly when it is registered with a truthy `required`. */
  lemma {:induction false} RequiredNamesMembers(names: seq<string>, fields: map<string, Elements.Field>)
    requires forall i :: 0 <= i < |names| ==> names[i] in fields
    ensures forall n :: n in RequiredNames(names, fields) <==> n in names && fields[n].required.Some?
    decreases |names|
  {
    if names != [] {
      var init := names[..|names| - 1];
      RequiredNamesMembers(init, fields);
      assert names == init + [names[|names| - 1]];
    }
  }

  /** What `self[f].get_random_value()` raises, if anything: `getattr`
      on an unregistered name, a class without `get_random_value`, or the
      failure of the field's own draw. */
  function DrawError(f: string, fields: map<string, Elements.Field>, draw: string -> Result<Value, Elements.FieldError>)
    : Option<FormError>
  {
    if f !in fields then Some(NoAttribute(f))
    else if !Elements.HasRandomValue(fields[f].kind) then Some(NoRandomValue(f))
    else if draw(f).Err? then Some(DrawFailed(f, draw(f).error))
    else Option.None
  }

  /** Every name draws a value without raising. */
  predicate AllDrawn(names: seq<string>, fields: map<string, Elements.Field>, draw: string -> Result<Value, Elements.FieldError>)
  {
    forall i :: 0 <= i < |names| ==> DrawError(names[i], fields, draw).None?
  }

  /** The payload of `get_random_data`: the drawn value for each name, then
      the additional values, which win. */
  function RandomData(names: seq<string>, additional: map<string, Value>, draw: string -> Result<Value, Elements.FieldError>)
    : map<string, Value>
    requires forall f :: f in names ==> draw(f).Ok?
  {
    (map f | f in names :: draw(f).value) + additional
  }

  /** The payload's keys are the names and the additional keys; additional
      values win and every other value is the draw for its name. */
  lemma RandomDataShape(names: seq<string>, additional: map<string, Value>, draw: string -> Result<Value, Elements.FieldError>)
    requires forall f :: f in names ==> draw(f).Ok?
    ensures RandomData(names, additional, draw).Keys == (set f | f in names) + additional.Keys
    ensures forall k :: k in additional ==> RandomData(names, additional, draw)[k] == additional[k]
    ensures forall f :: f in names && f !in additional ==> RandomData(names, additional, draw)[f] == draw(f).value
  {
  }

  class Form {
    /** `Meta.all_fields`, in the order the fields were registered. */
    var names: seq<string>
    /** The field registered under each name (`setattr(self, name, field)`). */
    var fields: map<string, Elements.Field>
    /** The other `Meta` settings. */
    var meta: map<string, Value>

    ghost predicate Valid()
      reads this
    {
      (forall i, j :: 0 <= i < j < |names| ==> names[i] != names[j])
      && (forall n :: n in fields <==> n in names)
    }

    constructor ()
      ensures Valid()
      ensures names == [] && fields == map[] && meta == MetaDefaults
    {
      names := [];
      fields := map[];
      meta := MetaDefaults;
    }

    /** `form[name]`: the field registered under `name`. */
    function Item(name: string): (r: Result<Elements.Field, FormError>)
      reads this
      ensures r.Ok? <==> name in fields
      ensures r.Ok? ==> r.value == fields[name]
      ensures r.Err? ==> r.error == NoAttribute(name)
    {
      if name in fields then Ok(fields[name]) else Err(NoAttribute(name))
    }

    /** `form[name] = field`: register the name, then set the field. */
    method SetItem(name: string, field: Elements.Field)
      requires Valid()
      modifies this
      ensures Valid()
      ensures fields == old(fields)[name := field]
      ensures names == if name in old(fields) then old(names) else old(names) + [name]
      ensures meta == old(meta)
    {
      if name !in fields {
        names := names + [name];
      }
      fields := fields[name := field];
    }

    /** `get_one_of_fields()`. */
    method GetOneOfFields() returns (result: map<string, seq<set<string>>>)
      requires Valid()
      ensures result == OneOfFields(fields)
    {
      result := map[];
      for i := 0 to |names|
        invariant result.Keys == set j | 0 <= j < i :: names[j]
        invariant forall n :: n in result ==> n in fields && result[n] == FieldGroups(fields[n])
      {
        var name := names[i];
        var field := fields[name];
        var groups: seq<set<string>> := [];
        if field.only.Some? && field.only.value.cases != [] {
          var cases := field.only.value.cases;
          for c := 0 to |cases|
            invariant groups == CaseGroups(cases[..c])
          {
            var data := cases[c];
            var group: set<string> := {};
            var todo := data.Keys;
            while todo != {}
              invariant todo <= data.Keys
              invariant group == set k | k in data.Keys - todo && !Truthy(data[k])
              decreases todo
            {
              var k :| k in todo;
              if !Truthy(data[k]) {
                group := group + {k};
              }
              todo := todo - {k};
            }
            assert group == FalsyKeys(data);
            assert cases[..c + 1][..c] == cases[..c];
            if group != {} {
              groups := groups + [group];
            }
          }
          assert cases[..|cases|] == cases;
        }
        result := result[name := groups];
      }
      assert forall n :: n in fields ==> n in result;
    }

    /** `get_required_fields()`. */
    method GetRequiredFields() returns (result: seq<string>)
      requires Valid()
      ensures result == RequiredNames(names, fields)
    {
      result := [];
      for i := 0 to |names|
        invariant result == RequiredNames(names[..i], fields)
      {
        assert names[..i + 1][..i] == names[..i];
        if fields[names[i]].required.Some? {
          result := result + [names[i]];
        }
      }
      assert names[..|names|] == names;
    }

    /** `get_random_data(fields, additional)`, with each field's
        `get_random_value()` supplied by `draw`. */
    method GetRandomData(chosen: Option<seq<string>>, additional: Option<map<string, Value>>,
                         draw: string -> Result<Value, Elements.FieldError>)
      returns (r: Result<map<string, Value>, FormError>)
      requires Valid()
      ensures var fs := if chosen.Some? then chosen.value else RequiredNames(names, fields);
              && (r.Ok? <==> AllDrawn(fs, fields, draw))
              && (r.Ok? ==> (forall f :: f in fs ==> draw(f).Ok?)
                            && r.value == RandomData(fs, if additional.Some? then additional.value else map[], draw))
              && (r.Err? ==> exists i :: 0 <= i < |fs| && DrawError(fs[i], fields, draw) == Some(r.error)
                                         && AllDrawn(fs[..i], fields, draw))
    {
      var fs: seq<string>;
      if chosen.None? {
        fs := GetRequiredFields();
      } else {
        fs := chosen.value;
      }
      r := DrawPayload(fs, if additional.Some? then additional.value else map[], draw);
    }

    /** The loop of `get_random_data`: a drawn value for each of `fs`, then
        the additional values; the first name whose draw raises is the error. */
    method DrawPayload(fs: seq<string>, additional: map<string, Value>, draw: string -> Result<Value, Elements.FieldError>)
      returns (r: Result<map<string, Value>, FormError>)
      ensures r.Ok? <==> AllDrawn(fs, fields, draw)
      ensures r.Ok? ==> (forall f :: f in fs ==> draw(f).Ok?) && r.value == RandomData(fs, additional, draw)
      ensures r.Err? ==> exists i :: 0 <= i < |fs| && DrawError(fs[i], fields, draw) == Some(r.error)
                                     && AllDrawn(fs[..i], fields, draw)
    {
      var data: map<string, Value> := map[];
      for i := 0 to |fs|
        invariant AllDrawn(fs[..i], fields, draw)
        invariant forall f :: f in data <==> f in fs[..i]
        invariant forall f :: f in data ==> draw(f).Ok? && data[f] == draw(f).value
      {
        if fs[i] !in fields {
          return Err(NoAttribute(fs[i]));
        }
        if !Elements.HasRandomValue(fields[fs[i]].kind) {
          return Err(NoRandomValue(fs[i]));
        }
        var v := draw(fs[i]);
        if v.Err? {
          return Err(DrawFailed(fs[i], v.error));
        }
        data := data[fs[i] := v.value];
        assert fs[..i + 1] == fs[..i] + [fs[i]];
      }
      assert fs[..|fs|] == fs;
      assert data == map f | f in fs :: draw(f).value;
      r := Ok(data + additional);
    }
  }

  /** `Form(fields=..., **settings)`: register each entry in order, then
      store the settings in `Meta`. */
  method NewForm(entries: Option<seq<(string, map<string, Value>)>>, settings: map<string, Value>)
    returns (r: Result<Form, FormError>)
    requires entries.Some? ==> DistinctNames(entries.value)
    ensures entries.None? ==> r == Err(MissingKey("fields"))
    ensures entries.Some? ==> (r.Ok? <==> BuildFields(entries.value).Ok?)
    ensures entries.Some? && r.Err? ==> r == Err(BuildFields(entries.value).error)
    ensures r.Ok? ==>
              fresh(r.value) && r.value.Valid()
              && r.value.names == Names(entries.value)
              && r.value.fields == BuildFields(entries.value).value
              && r.value.meta == MetaDefaults + settings
  {
    if entries.None? {
      return Err(MissingKey("fields"));
    }
    var form := new Form();
    ghost var outs := Outcomes(entries.value, FieldFor);
    var added := AddFields(form, entries.value, outs);
    if added.Fail? {
      return Err(added.error);
    }
    form.meta := form.meta + settings;
    r := Ok(form);
  }

  /** The loop of `Form.__init__`: build and register each entry in order,
      stopping at the first field that cannot be built. `outs` is each
      entry's name with the outcome of building its field. */
  method AddFields(form: Form, es: seq<(string, map<string, Value>)>, ghost outs: seq<(string, Result<Elements.Field, FormError>)>)
    returns (r: Outcome<FormError>)
    requires form.Valid() && form.names == [] && form.fields == map[]
    requires DistinctNames(es) && |outs| == |es|
    requires forall j {:trigger FieldFor(es[j].0, es[j].1)} :: 0 <= j < |es| ==> outs[j] == (es[j].0, FieldFor(es[j].0, es[j].1))
    modifies form
    ensures form.Valid() && form.meta == old(form.meta)
    ensures r.Pass? <==> Register(outs).Ok?
    ensures r.Fail? ==> r.error == Register(outs).error
    ensures r.Pass? ==> form.names == Names(es) && form.fields == Register(outs).value
  {
    for i := 0 to |es|
      invariant Register(outs[..i]).Ok?
      invariant form.Valid() && form.meta == old(form.meta)
      invariant form.names == Names(es[..i]) && form.fields == Register(outs[..i]).value
    {
      var field := BuildField(es[i].0, es[i].1);
      var added := AddEntry(form, es, outs, i, field);
      if added.Fail? {
        return added;
      }
    }
    assert outs[..|es|] == outs;
    assert es[..|es|] == es;
    r := Pass;
  }

  /** One pass of that loop: the entry at `i`, built as `field`, joins the
      fields registered from the entries before it, or its error ends the
      loop. */
  method AddEntry(form: Form, es: seq<(string, map<string, Value>)>, ghost outs: seq<(string, Result<Elements.Field, FormError>)>, i: nat,
                  field: Result<Elements.Field, FormError>)
    returns (r: Outcome<FormError>)
    requires i < |es| == |outs| && DistinctNames(es)
    requires outs[i] == (es[i].0, field)
    requires Register(outs[..i]).Ok?
    requires form.Valid() && form.names == Names(es[..i]) && form.fields == Register(outs[..i]).value
    modifies form
    ensures form.Valid() && form.meta == old(form.meta)
    ensures r.Fail? ==> Register(outs) == Err(r.error)
    ensures r.Pass? ==>
              Register(outs[..i + 1]).Ok?
              && form.names == Names(es[..i + 1]) && form.fields == Register(outs[..i + 1]).value
  {
    var name := es[i].0;
    RegisterStep(outs, i);
    if field.Err? {
      RegisterFailsLater(outs, i + 1);
      return Fail(field.error);
    }
    assert name !in Names(es[..i]) by {
      assert forall j :: 0 <= j < i ==> Names(es[..i])[j] == es[j].0 != name;
    }
    form.SetItem(name, field.value);
    assert Names(es[..i + 1]) == Names(es[..i]) + [name] by {
      assert es[..i + 1][..i] == es[..i];
    }
    r := Pass;
  }

  /** The field of one entry, as the loop of `Form.__init__` builds it. */
  method BuildField(name: string, data: map<string, Value>) returns (r: Result<Elements.Field, FormError>)
    ensures r == FieldFor(name, data)
  {
    if "type" !in data {
      return Err(MissingKey("type"));
    }
    var kind := KindFor(name, data["type"]);
    if kind.Err? {
      return Err(kind.error);
    }
    var field := Elements.NewField(kind.value, data["name" := Str(name)]);
    if field.Err? {
      return Err(FieldFailed(name, field.error));
    }
    r := Ok(field.value);
  }
}
