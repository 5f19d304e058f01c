/** `tt_get_field_template`'s argument check: a `name:type` token whose type
    is one of the field type names. */
module FieldTemplate {
  import opened Wrappers
  import opened Strings
  import Elements

  datatype TemplateError =
      /** The token does not split on ":" into exactly two parts. */
    | WrongFormat(token: string)
      /** The second part is not a field type name. */
    | UnexpectedType(fieldType: string)

  /** `", ".join(parts)`. */
  function JoinComma(parts: seq<string>): string
    decreases |parts|
  {
    if |parts| == 0 then ""
    else if |parts| == 1 then parts[0]
    else parts[0] + ", " + JoinComma(parts[1..])
  }

  function WrongFormatText(token: string): string
  {
    "Wrong format \"" + token + "\". Should be <field name>:<field type>"
  }

  /** The text of the `AssertionError` each failure raises. */
  function Message(e: TemplateError): string
  {
    match e
    case WrongFormat(token) => WrongFormatText(token)
    case UnexpectedType(t) => "Unexpected field type: \"" + t + "\" (choose from " + JoinComma(Elements.TypeNames) + ")"
  }

  /** `validate(el)`: unpack `el.split(":")` into two names, then look the
      type up among the type names. */
  function Validate(el: string): (r: Result<(string, string), TemplateError>)
    ensures r.Ok? ==> r.value.0 + ":" + r.value.1 == el && ':' !in r.value.0 && r.value.1 in Elements.TypeNames
    ensures r == Err(WrongFormat(el)) <==> Count(el, ':') != 1
    ensures r.Err? && r.error.UnexpectedType? ==> Count(el, ':') == 1 && r.error.fieldType !in Elements.TypeNames
    ensures r.Err? ==> r.error == WrongFormat(el) || r.error.UnexpectedType?
  {
    var parts := Split(el, ':');
    SplitPieces(el, ':');
    if |parts| != 2 then Err(WrongFormat(el))
    else if parts[1] !in Elements.TypeNames then Err(UnexpectedType(parts[1]))
    else
      assert parts[1..] == [parts[1]];
      assert Join(':', parts) == parts[0] + [':'] + Join(':', [parts[1]]);
      Ok((parts[0], parts[1]))
  }

  /** Splitting on a separator gives one more piece than it has
      occurrences. */
  lemma SplitPieces(s: string, sep: char)
    ensures |Split(s, sep)| == Count(s, sep) + 1
  {
    var parts := Split(s, sep);
    JoinCount(sep, parts);
    NoSepPieces(parts, sep);
  }

  lemma {:induction false} NoSepPieces(parts: seq<string>, sep: char)
    requires forall i :: 0 <= i < |parts| ==> sep !in parts[i]
    ensures TotalCount(parts, sep) == 0
    decreases |parts|
  {
    if parts != [] {
      CountAbsent(parts[0], sep);
      NoSepPieces(parts[1..], sep);
    }
  }

  lemma {:induction false} CountAbsent(s: string, c: char)
    requires c !in s
    ensures Count(s, c) == 0
    decreases |s|
  {
    if s != [] {
      assert c !in s[1..];
      CountAbsent(s[1..], c);
    }
  }

  /** No type name holds a colon. */
  lemma TypeNamesWithoutColon(t: string)
    requires t in Elements.TypeNames
    ensures ':' !in t
  {
    var i :| 0 <= i < |Elements.TypeNames| && Elements.TypeNames[i] == t;
    if i == 0 {} else if i == 1 {} else if i == 2 {} else if i == 3 {} else if i == 4 {}
    else if i == 5 {} else if i == 6 {} else if i == 7 {} else if i == 8 {} else if i == 9 {}
    else if i == 10 {} else if i == 11 {} else {}
  }

  /** A name without a colon and a known type are accepted as they are. */
  lemma ValidateRoundTrip(name: string, fieldType: string)
    requires ':' !in name && fieldType in Elements.TypeNames
    ensures Validate(name + ":" + fieldType) == Ok((name, fieldType))
  {
    TypeNamesWithoutColon(fieldType);
    SplitTwo(name, fieldType, ':');
  }

  /** A token with a space instead of the colon has the wrong format. */
  lemma WrongFormatExample()
    ensures Validate("f1 str") == Err(WrongFormat("f1 str"))
  {
    CountAbsent("f1 str", ':');
  }

  /** A colon-free name and a colon-free unknown type fail on the type. */
  lemma ValidateUnknownType(name: string, fieldType: string)
    requires ':' !in name && ':' !in fieldType && fieldType !in Elements.TypeNames
    ensures Validate(name + ":" + fieldType) == Err(UnexpectedType(fieldType))
  {
    SplitTwo(name, fieldType, ':');
  }

  /** No type name is longer than eleven characters. */
  lemma LongNameUnknown(t: string)
    requires |t| > 11
    ensures t !in Elements.TypeNames
  {
    forall i | 0 <= i < |Elements.TypeNames|
      ensures |Elements.TypeNames[i]| <= 11
    {
      if i < 4 {} else if i < 8 {} else {}
    }
  }

  /** The colon is found, the type is not. */
  lemma UnknownTypeExample()
    ensures Validate("f1:some_wrong_type") == Err(UnexpectedType("some_wrong_type"))
  {
    var t := "some_wrong_type";
    LongNameUnknown(t);
    ValidateUnknownType("f1", t);
    assert "f1" + ":" + t == "f1:some_wrong_type";
  }
}
