/** `new_sig(func, attrs)`: a function's parameter list with one new
    parameter per name, inserted before the first `*args` or `**kwargs`. */
module Generator {
  /** `inspect.Parameter` kinds. */
  datatype ParamKind = PositionalOnly | PositionalOrKeyword | VarPositional | KeywordOnly | VarKeyword

  /** A parameter: its name, its kind and whether it has a default
      (`Parameter.empty` when not). */
  datatype Param = Param(name: string, kind: ParamKind, hasDefault: bool)

  predicate Variadic(p: Param) { p.kind == VarPositional || p.kind == VarKeyword }

  /** The first variadic position, or the end when there is none. */
  function InsertIndex(params: seq<Param>): (i: nat)
    ensures i <= |params|
    ensures forall j :: 0 <= j < i ==> !Variadic(params[j])
    ensures i < |params| ==> Variadic(params[i])
    decreases |params|
  {
    if params == [] then 0
    else if Variadic(params[0]) then 0
    else 1 + InsertIndex(params[1..])
  }

  /** `Parameter(name, POSITIONAL_OR_KEYWORD, default=Parameter.empty)`. */
  function NewParam(name: string): Param
  {
    Param(name, PositionalOrKeyword, false)
  }

  /** The new parameters for `attrs`, last name first. */
  function NewParams(attrs: seq<string>): (r: seq<Param>)
    ensures |r| == |attrs|
    ensures forall j :: 0 <= j < |r| ==> r[j] == NewParam(attrs[|attrs| - 1 - j])
    decreases |attrs|
  {
    if attrs == [] then [] else NewParams(attrs[1..]) + [NewParam(attrs[0])]
  }

  /** The parameter list `new_sig` hands to `sig.replace`. */
  function Spliced(params: seq<Param>, attrs: seq<string>): seq<Param>
  {
    var i := InsertIndex(params);
    params[..i] + NewParams(attrs) + params[i..]
  }

  /** `new_sig`: find the insertion index with a `for`/`else` loop, then
      `params.insert(i, newparam)` for each name. */
  method NewSig(params: seq<Param>, attrs: seq<string>) returns (r: seq<Param>)
    ensures r == Spliced(params, attrs)
  {
    var i := 0;
    while i < |params|
      invariant 0 <= i <= |params|
      invariant forall j :: 0 <= j < i ==> !Variadic(params[j])
    {
      if params[i].kind == VarPositional {
        break;
      }
      if params[i].kind == VarKeyword {
        break;
      }
      i := i + 1;
    }
    FirstVariadic(params, i);
    r := params;
    for k := 0 to |attrs|
      invariant r == params[..i] + NewParams(attrs[..k]) + params[i..]
    {
      InsertStep(params, attrs, i, k);
      r := r[..i] + [NewParam(attrs[k])] + r[i..];
    }
    assert attrs[..|attrs|] == attrs;
  }

  /** Inserting the next name at the index extends the spliced list by it. */
  lemma InsertStep(params: seq<Param>, attrs: seq<string>, i: nat, k: nat)
    requires i <= |params| && k < |attrs|
    ensures var r := params[..i] + NewParams(attrs[..k]) + params[i..];
            r[..i] + [NewParam(attrs[k])] + r[i..] == params[..i] + NewParams(attrs[..k + 1]) + params[i..]
  {
    var r := params[..i] + NewParams(attrs[..k]) + params[i..];
    NewParamsSnoc(attrs[..k + 1]);
    assert attrs[..k + 1][..k] == attrs[..k];
    Around(params[..i], NewParams(attrs[..k]), params[i..]);
    assert r[i..] == NewParams(attrs[..k]) + params[i..];
  }

  /** The parts of a three-part concatenation. */
  lemma Around<T>(a: seq<T>, b: seq<T>, c: seq<T>)
    ensures var r := a + b + c;
            && |r| == |a| + |b| + |c|
            && r[..|a|] == a
            && r[|a|..] == b + c
            && r[|a| + |b|..] == c
  {
    var r := a + b + c;
    assert r[..|a|] == a;
    assert r[|a|..] == b + c;
    assert r[|a| + |b|..] == c;
  }

  /** A position before which nothing is variadic and which is variadic or
      the end is the insertion index. */
  lemma FirstVariadic(params: seq<Param>, i: nat)
    requires i <= |params|
    requires forall j :: 0 <= j < i ==> !Variadic(params[j])
    requires i < |params| ==> Variadic(params[i])
    ensures InsertIndex(params) == i
  {
  }

  /** The last name goes first. */
  lemma {:induction false} NewParamsSnoc(attrs: seq<string>)
    requires attrs != []
    ensures NewParams(attrs) == [NewParam(attrs[|attrs| - 1])] + NewParams(attrs[..|attrs| - 1])
    decreases |attrs|
  {
    if |attrs| > 1 {
      NewParamsSnoc(attrs[1..]);
      assert attrs[1..][..|attrs[1..]| - 1] == attrs[..|attrs| - 1][1..];
    } else {
      assert attrs[..0] == [];
    }
  }

  /** The list grows by one parameter per name; taking the new ones out
      gives the original list back in its order. */
  lemma SplicedShape(params: seq<Param>, attrs: seq<string>)
    ensures var r := Spliced(params, attrs);
            var i := InsertIndex(params);
            && |r| == |params| + |attrs|
            && r[..i] == params[..i]
            && r[i + |attrs|..] == params[i..]
            && r[..i] + r[i + |attrs|..] == params
  {
    var i := InsertIndex(params);
    Around(params[..i], NewParams(attrs), params[i..]);
    assert params[..i] + params[i..] == params;
  }

  /** The new parameters sit at the insertion index, in the reverse order
      of `attrs`, positional-or-keyword and without default. */
  lemma SplicedNewParams(params: seq<Param>, attrs: seq<string>, j: nat)
    requires j < |attrs|
    ensures Spliced(params, attrs)[InsertIndex(params) + j] == Param(attrs[|attrs| - 1 - j], PositionalOrKeyword, false)
  {
    var i := InsertIndex(params);
    var added := NewParams(attrs);
    assert (params[..i] + added + params[i..])[i + j] == added[j];
  }

  /** Right after the new parameters comes the first variadic one. */
  lemma SplicedBeforeVariadic(params: seq<Param>, attrs: seq<string>)
    requires InsertIndex(params) < |params|
    ensures Variadic(Spliced(params, attrs)[InsertIndex(params) + |attrs|])
  {
    var i := InsertIndex(params);
    var added := NewParams(attrs);
    assert (params[..i] + added + params[i..])[i + |attrs|] == params[i];
  }

  /** No names, no change. */
  lemma SplicedNothing(params: seq<Param>)
    ensures Spliced(params, []) == params
  {
    assert params[..InsertIndex(params)] + params[InsertIndex(params)..] == params;
  }

  /** `(a, *args, b, **kw)` with the names x, y becomes `(a, y, x, *args, b, **kw)`. */
  lemma SplicedExample()
    ensures var a := Param("a", PositionalOrKeyword, false);
            var args := Param("args", VarPositional, false);
            var b := Param("b", KeywordOnly, true);
            var kw := Param("kw", VarKeyword, false);
            Spliced([a, args, b, kw], ["x", "y"]) == [a, NewParam("y"), NewParam("x"), args, b, kw]
  {
    var a := Param("a", PositionalOrKeyword, false);
    var args := Param("args", VarPositional, false);
    var b := Param("b", KeywordOnly, true);
    var kw := Param("kw", VarKeyword, false);
    FirstVariadic([a, args, b, kw], 1);
    assert NewParams(["x", "y"]) == [NewParam("y"), NewParam("x")];
  }
}
