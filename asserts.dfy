/** The assertion helpers: object counts, status codes, form errors, and
    the key-by-key difference of two dicts. */
module Asserts {
  import opened Wrappers
  import opened Values
  import opened Strings

  /** `assert_no_form_errors(form_errors)`: fails, carrying the errors,
      exactly when they are truthy. */
  function NoFormErrors(formErrors: Value): (r: Outcome<Value>)
    ensures r.Pass? <==> !Truthy(formErrors)
    ensures r.Fail? ==> r.error == formErrors
  {
    if Truthy(formErrors) then Fail(formErrors) else Pass
  }

  /** The text of that failure, for errors rendered by `str()`; a dict is
      rendered by `json.dumps`, which is not modelled. */
  function FormErrorsMessage(formErrors: Value): Option<string>
  {
    if formErrors.Dict? then Option.None
    else match PyStr(formErrors)
      case None => Option.None
      case Some(text) => Some("There are errors on the form: " + text)
  }

  /** `None`, `{}` and `""` are no errors. */
  lemma EmptyFormErrorsPass()
    ensures NoFormErrors(Value.None) == Pass
    ensures NoFormErrors(Dict(map[])) == Pass
    ensures NoFormErrors(Str("")) == Pass
  {
  }

  /** The count change in words. */
  function DiffMessage(diff: int): (s: string)
    ensures diff < 0 ==> s == "deleted " + IntToString(-diff)
    ensures diff > 0 ==> s == "created " + IntToString(diff)
    ensures diff == 0 ==> s == "nothing created or deleted"
  {
    if diff < 0 then "deleted " + IntToString(-diff)
    else if diff > 0 then "created " + IntToString(diff)
    else "nothing created or deleted"
  }

  /** The message's head: `(msg + " o") if msg else "O"` followed by
      "bjects count". */
  function CountHead(msg: string): (s: string)
  {
    if msg != "" then msg + " objects count" else "Objects count"
  }

  /** The message after the head: the count, the expected count and the
      change in words. */
  function CountDetails(newCount: int, expected: int, diff: int): string
  {
    " is " + IntToString(newCount) + ". Expected " + IntToString(expected) + " (" + DiffMessage(diff) + ")"
  }

  /** `assert_objects_count(new_count, initial_obj_count, additional, msg)`. */
  function ObjectsCount(newCount: int, initial: int, additional: int, msg: string): (r: Outcome<string>)
    ensures r.Pass? <==> newCount == initial + additional
    ensures r.Fail? ==> r.error == CountHead(msg) + CountDetails(newCount, initial + additional, newCount - initial)
  {
    if newCount != initial + additional then
      Fail(CountHead(msg) + CountDetails(newCount, initial + additional, newCount - initial))
    else Pass
  }

  /** Without a caller's text the message starts with "Objects count",
      with one it starts with that text and " objects count". */
  lemma ObjectsCountPrefix(newCount: int, initial: int, additional: int, msg: string)
    requires newCount != initial + additional
    ensures var text := ObjectsCount(newCount, initial, additional, msg).error;
            && (msg == "" ==> |text| >= 13 && text[..13] == "Objects count")
            && (msg != "" ==> |text| >= |msg| + 14 && text[..|msg| + 14] == msg + " objects count")
  {
    var head := CountHead(msg);
    var details := CountDetails(newCount, initial + additional, newCount - initial);
    assert (head + details)[..|head|] == head;
  }

  /** `assert_status_code(response_status_code, expected_status_code)`. */
  function StatusCode(response: int, expected: int): (r: Outcome<string>)
    ensures r.Pass? <==> response == expected
    ensures r.Fail? ==> r.error == "Status code " + IntToString(response) + ". Expected " + IntToString(expected)
  {
    if response != expected then Fail("Status code " + IntToString(response) + ". Expected " + IntToString(expected))
    else Pass
  }

  lemma StatusCodeExample()
    ensures StatusCode(100, 200) == Fail("Status code 100. Expected 200")
    ensures StatusCode(200, 200) == Pass
  {
    assert NatToString(1) == "1" && NatToString(2) == "2";
    assert NatToString(10) == "10" && NatToString(20) == "20";
    assert IntToString(100) == "100";
    assert IntToString(200) == "200";
    assert "Status code " + "100" + ". Expected " + "200" == "Status code 100. Expected 200";
  }

  // ---------------------------------------------------------------------
  // _get_dict_diff and assert_dict_equal

  /** One line of `_get_dict_diff`'s text, before rendering: the key sets of
      the two "Not in ... dict" lines, and one line per differing key with
      its path, `parent_key` then `[key]`. */
  datatype Line =
    | NotInFirst(keys: set<string>)
    | NotInSecond(keys: set<string>)
      /** Two dicts: the nested difference, indented under the path. */
    | NestedDiff(key: string, path: string, inner: seq<Line>)
      /** Two lists: the text of `_get_list_diff`, not modelled. */
    | ListDiff(key: string, path: string, leftItems: seq<Value>, rightItems: seq<Value>)
      /** Any other pair: both values, through `repr` when their types differ
          and through `str` otherwise. */
    | ValueDiff(key: string, path: string, left: Value, right: Value, viaRepr: bool)

  /** `"[%s]" % parent_key.strip("[]") if parent_key else ""`. */
  function Normalize(parent: string): string
  {
    if parent == "" then "" else "[" + Strip(parent, {'[', ']'}) + "]"
  }

  /** The "Not in first dict" line, then the "Not in second dict" line,
      each when its key set is not empty. */
  function HeaderLines(d1: map<string, Value>, d2: map<string, Value>): (r: seq<Line>)
    ensures |r| <= 2
  {
    (if d2.Keys - d1.Keys != {} then [NotInFirst(d2.Keys - d1.Keys)] else [])
    + (if d1.Keys - d2.Keys != {} then [NotInSecond(d1.Keys - d2.Keys)] else [])
  }

  predicate IsKeyLine(l: Line) { l.NestedDiff? || l.ListDiff? || l.ValueDiff? }

  /** The key of a per-key line. */
  function KeyOf(l: Line): string
  {
    if IsKeyLine(l) then l.key else ""
  }

  /** `lines` is a text `_get_dict_diff(d1, d2, parent)` can produce: the
      header lines, then one line for each key of both dicts whose values
      differ, in some order of the keys, and nothing else. */
  ghost predicate IsDictDiff(d1: map<string, Value>, d2: map<string, Value>, parent: string, lines: seq<Line>)
    decreases Dict(d1), 3
  {
    var h := HeaderLines(d1, d2);
    && |lines| >= |h| && lines[..|h|] == h
    && Partial(d1, d2, Normalize(parent), |h|, d1.Keys * d2.Keys, lines)
  }

  /** From position `from` on, `lines` holds one line for each key of `done`
      whose values differ, and nothing else. */
  ghost predicate Partial(d1: map<string, Value>, d2: map<string, Value>, p: string, from: nat, done: set<string>,
                          lines: seq<Line>)
    decreases Dict(d1), 2
  {
    && from <= |lines|
    && (forall i :: from <= i < |lines| ==> KeyOf(lines[i]) in done && GoodLine(d1, d2, p, lines[i]))
    && (forall i, j :: from <= i < j < |lines| ==> KeyOf(lines[i]) != KeyOf(lines[j]))
    && (forall k :: k in done && k in d1 && k in d2 && !PyEq(d1[k], d2[k]) ==>
          exists i :: from <= i < |lines| && KeyOf(lines[i]) == k)
  }

  /** A per-key line for a key of both dicts whose values differ. */
  ghost predicate GoodLine(d1: map<string, Value>, d2: map<string, Value>, p: string, l: Line)
    decreases Dict(d1), 1
  {
    && IsKeyLine(l) && l.key in d1 && l.key in d2
    && !PyEq(d1[l.key], d2[l.key])
    && KeyLineFor(d1[l.key], d2[l.key], p, l)
  }

  /** The line for key `l.key` whose values are `v1` and `v2`, under the
      normalized parent path `p`. */
  ghost predicate KeyLineFor(v1: Value, v2: Value, p: string, l: Line)
    requires IsKeyLine(l)
    decreases v1, 4
  {
    && l.path == p + "[" + l.key + "]"
    && match l
       case NestedDiff(_, path, inner) =>
         v1.Dict? && v2.Dict? && inner != [] && IsDictDiff(v1.entries, v2.entries, path, inner)
       case ListDiff(_, _, left, right) =>
         !(v1.Dict? && v2.Dict?) && v1.List? && v2.List? && left == v1.items && right == v2.items
       case ValueDiff(_, _, left, right, viaRepr) =>
         !(v1.Dict? && v2.Dict?) && !(v1.List? && v2.List?) && left == v1 && right == v2 && viaRepr == !SameType(v1, v2)
  }

  /** A dict difference is empty exactly when the dicts are equal. */
  lemma DictDiffEmpty(d1: map<string, Value>, d2: map<string, Value>, parent: string, lines: seq<Line>)
    requires IsDictDiff(d1, d2, parent, lines)
    ensures lines == [] <==> PyEq(Dict(d1), Dict(d2))
  {
    var h := HeaderLines(d1, d2);
    if lines != [] {
      if h != [] {
        assert d1.Keys != d2.Keys;
      } else {
        assert GoodLine(d1, d2, Normalize(parent), lines[0]);
        var k := lines[0].key;
        assert k in d1 && k in d2 && !PyEq(d1[k], d2[k]);
      }
    }
    if !PyEq(Dict(d1), Dict(d2)) {
      if d1.Keys == d2.Keys {
        var k :| k in d1 && !PyEq(d1[k], d2[k]);
        assert k in d1.Keys * d2.Keys;
      } else {
        assert h != [];
      }
    }
  }

  /** The key lines come after the header: the "Not in first dict" line
      first, then the "Not in second dict" line. */
  lemma DictDiffOrder(d1: map<string, Value>, d2: map<string, Value>, parent: string, lines: seq<Line>)
    requires IsDictDiff(d1, d2, parent, lines)
    ensures d2.Keys - d1.Keys != {} ==> lines[0] == NotInFirst(d2.Keys - d1.Keys)
    ensures d1.Keys - d2.Keys != {} ==>
              var at := if d2.Keys - d1.Keys != {} then 1 else 0;
              at < |lines| && lines[at] == NotInSecond(d1.Keys - d2.Keys)
    ensures forall i :: 0 <= i < |lines| && IsKeyLine(lines[i]) ==> i >= |HeaderLines(d1, d2)|
  {
    var h := HeaderLines(d1, d2);
    assert forall i :: 0 <= i < |h| ==> lines[i] == h[i] && !IsKeyLine(h[i]);
  }

  /** A key whose values are equal adds no line. */
  lemma PartialSkip(d1: map<string, Value>, d2: map<string, Value>, p: string, from: nat, done: set<string>,
                    lines: seq<Line>, key: string)
    requires Partial(d1, d2, p, from, done, lines)
    requires key in d1 && key in d2 && PyEq(d1[key], d2[key])
    ensures Partial(d1, d2, p, from, done + {key}, lines)
  {
  }

  /** A key whose values differ adds its line. */
  lemma PartialAdd(d1: map<string, Value>, d2: map<string, Value>, p: string, from: nat, done: set<string>,
                   lines: seq<Line>, line: Line)
    requires Partial(d1, d2, p, from, done, lines)
    requires GoodLine(d1, d2, p, line) && line.key !in done
    ensures Partial(d1, d2, p, from, done + {line.key}, lines + [line])
  {
    var next := lines + [line];
    forall i | from <= i < |next|
      ensures KeyOf(next[i]) in done + {line.key} && GoodLine(d1, d2, p, next[i])
    {
      if i < |lines| {
        assert next[i] == lines[i];
      }
    }
    forall i, j | from <= i < j < |next|
      ensures KeyOf(next[i]) != KeyOf(next[j])
    {
      assert next[i] == lines[i];
      if j < |lines| {
        assert next[j] == lines[j];
      } else {
        assert KeyOf(next[j]) == line.key;
      }
    }
    forall k | k in done + {line.key} && k in d1 && k in d2 && !PyEq(d1[k], d2[k])
      ensures exists i :: from <= i < |next| && KeyOf(next[i]) == k
    {
      if k == line.key {
        assert KeyOf(next[|lines|]) == k;
      } else {
        var i :| from <= i < |lines| && KeyOf(lines[i]) == k;
        assert KeyOf(next[i]) == k;
      }
    }
  }

  /** Appending keeps a prefix. */
  lemma PrefixSnoc<T>(xs: seq<T>, x: T, n: nat)
    requires n <= |xs|
    ensures (xs + [x])[..n] == xs[..n]
  {
  }

  /** `_get_dict_diff(d1, d2, parent_key)`: the header lines, then a loop
      over the common keys in set order, recursing into two dicts. */
  method GetDictDiff(d1: map<string, Value>, d2: map<string, Value>, parent: string) returns (lines: seq<Line>)
    ensures IsDictDiff(d1, d2, parent, lines)
    decreases Dict(d1), 1
  {
    var p := Normalize(parent);
    var notInSecond := d1.Keys - d2.Keys;
    var notInFirst := d2.Keys - d1.Keys;
    lines := [];
    if notInFirst != {} {
      lines := lines + [NotInFirst(notInFirst)];
    }
    if notInSecond != {} {
      lines := lines + [NotInSecond(notInSecond)];
    }
    assert lines == HeaderLines(d1, d2);
    lines := DiffKeys(d1, d2, p, lines);
  }

  /** The loop of `_get_dict_diff` over the common keys, in set order,
      appending the line of each key whose values differ. */
  method DiffKeys(d1: map<string, Value>, d2: map<string, Value>, p: string, h: seq<Line>) returns (lines: seq<Line>)
    ensures |lines| >= |h| && lines[..|h|] == h
    ensures Partial(d1, d2, p, |h|, d1.Keys * d2.Keys, lines)
    decreases Dict(d1), 0
  {
    lines := h;
    var todo := d1.Keys * d2.Keys;
    ghost var done: set<string> := {};
    while todo != {}
      invariant todo + done == d1.Keys * d2.Keys && todo * done == {}
      invariant |lines| >= |h| && lines[..|h|] == h
      invariant Partial(d1, d2, p, |h|, done, lines)
      decreases todo
    {
      var key :| key in todo;
      todo := todo - {key};
      if !PyEq(d1[key], d2[key]) {
        var line := KeyLine(d1[key], d2[key], p, key);
        PartialAdd(d1, d2, p, |h|, done, lines, line);
        PrefixSnoc(lines, line, |h|);
        lines := lines + [line];
      } else {
        PartialSkip(d1, d2, p, |h|, done, lines, key);
      }
      done := done + {key};
    }
  }

  /** The line for one key whose values differ; for two dicts the nested
      difference, which is not empty because they differ. */
  method KeyLine(v1: Value, v2: Value, p: string, key: string) returns (line: Line)
    requires !PyEq(v1, v2)
    ensures IsKeyLine(line) && line.key == key && KeyLineFor(v1, v2, p, line)
    decreases v1, 2
  {
    var path := p + "[" + key + "]";
    if v1.Dict? && v2.Dict? {
      var inner := GetDictDiff(v1.entries, v2.entries, path);
      DictDiffEmpty(v1.entries, v2.entries, path, inner);
      line := NestedDiff(key, path, inner);
    } else if v1.List? && v2.List? {
      line := ListDiff(key, path, v1.items, v2.items);
    } else {
      line := ValueDiff(key, path, v1, v2, !SameType(v1, v2));
    }
  }

  /** `assert_dict_equal(d1, d2)`: fails with the difference exactly when
      the dicts are not equal. */
  method AssertDictEqual(d1: map<string, Value>, d2: map<string, Value>) returns (r: Outcome<seq<Line>>)
    ensures r.Pass? <==> PyEq(Dict(d1), Dict(d2))
    ensures r.Fail? ==> r.error != [] && IsDictDiff(d1, d2, "", r.error)
  {
    if !PyEq(Dict(d1), Dict(d2)) {
      var diff := GetDictDiff(d1, d2, "");
      DictDiffEmpty(d1, d2, "", diff);
      if diff != [] {
        return Fail(diff);
      }
    }
    return Pass;
  }

  /** A dict never differs from itself. */
  lemma SameDictNoDiff(d: map<string, Value>, lines: seq<Line>)
    requires IsDictDiff(d, d, "", lines)
    ensures lines == []
  {
    PyEqReflexive(Dict(d));
    DictDiffEmpty(d, d, "", lines);
  }

  /** Two dicts with the same single key whose values differ: the
      difference is made of lines for that key only. */
  lemma SingleKeyDiff(d1: map<string, Value>, d2: map<string, Value>, parent: string, lines: seq<Line>, k: string)
    requires d1.Keys == {k} && d2.Keys == {k} && !PyEq(d1[k], d2[k])
    requires IsDictDiff(d1, d2, parent, lines)
    ensures lines != []
    ensures forall i :: 0 <= i < |lines| ==> KeyOf(lines[i]) == k && GoodLine(d1, d2, Normalize(parent), lines[i])
  {
    assert HeaderLines(d1, d2) == [];
    assert d1.Keys * d2.Keys == {k};
  }

  /** `{"qwe": 123}` against `{"qwe": {"a": 1}}`: one line for "qwe", with
      both values through `repr`. */
  lemma ValueDiffExample(lines: seq<Line>)
    requires IsDictDiff(map["qwe" := Int(123)], map["qwe" := Dict(map["a" := Int(1)])], "", lines)
    ensures lines == [ValueDiff("qwe", "[qwe]", Int(123), Dict(map["a" := Int(1)]), true)]
  {
    var d1 := map["qwe" := Int(123)];
    var d2 := map["qwe" := Dict(map["a" := Int(1)])];
    SingleKeyDiff(d1, d2, "", lines, "qwe");
    AtMostOneLine(d1, d2, "", lines, "qwe");
    assert Normalize("") == "";
    ValueDiffExampleLine(lines[0]);
  }

  /** With no header, distinct keys from one key set of size one leave
      room for one line only. */
  lemma AtMostOneLine(d1: map<string, Value>, d2: map<string, Value>, parent: string, lines: seq<Line>, k: string)
    requires d1.Keys * d2.Keys == {k} && HeaderLines(d1, d2) == []
    requires IsDictDiff(d1, d2, parent, lines)
    ensures |lines| <= 1
  {
    DistinctKeysBound(lines, {k});
  }

  /** Lines with pairwise distinct keys, all drawn from `keys`, are no more
      than the keys. */
  lemma {:induction false} DistinctKeysBound(lines: seq<Line>, keys: set<string>)
    requires forall i :: 0 <= i < |lines| ==> KeyOf(lines[i]) in keys
    requires forall i, j :: 0 <= i < j < |lines| ==> KeyOf(lines[i]) != KeyOf(lines[j])
    ensures |lines| <= |keys|
    decreases |lines|
  {
    if lines != [] {
      var rest := lines[1..];
      var first := KeyOf(lines[0]);
      forall i | 0 <= i < |rest|
        ensures KeyOf(rest[i]) in keys - {first}
      {
        assert rest[i] == lines[i + 1];
      }
      forall i, j | 0 <= i < j < |rest|
        ensures KeyOf(rest[i]) != KeyOf(rest[j])
      {
        assert rest[i] == lines[i + 1] && rest[j] == lines[j + 1];
      }
      DistinctKeysBound(rest, keys - {first});
    }
  }

  lemma ValueDiffExampleLine(l: Line)
    requires GoodLine(map["qwe" := Int(123)], map["qwe" := Dict(map["a" := Int(1)])], "", l)
    ensures l == ValueDiff("qwe", "[qwe]", Int(123), Dict(map["a" := Int(1)]), true)
  {
    assert l.key == "qwe";
    assert "" + "[" + "qwe" + "]" == "[qwe]";
    assert !SameType(Int(123), Dict(map["a" := Int(1)]));
  }
}
