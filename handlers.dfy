/** `TestHandler`: the case solver. `get_all_fields_cases` searches for the
    largest sets of fields that can be filled together under the `only`
    exclusion groups; `get_required_fields_cases` and
    `get_not_empty_fields_cases` turn conditional rules into scenarios,
    each a set of field names with the values that go with it. */
module Handlers {
  import opened Wrappers
  import opened Values
  import Elements
  import Forms

  /** What `get_one_of_fields()` returns: each name's exclusion groups. */
  type OneOf = map<string, seq<set<string>>>

  // ---------------------------------------------------------------------
  // get_all_fields_cases

  /** `name` rules the set out: it has groups and every one of them shares
      a name with the set. */
  predicate Blocked(oneOf: OneOf, s: set<string>, name: string)
    requires name in oneOf
  {
    oneOf[name] != [] && forall i :: 0 <= i < |oneOf[name]| ==> oneOf[name][i] * s != {}
  }

  /** `check_fields_set_is_valid(fields_set)`: no member of the set rules it out. */
  predicate IsValid(oneOf: OneOf, s: set<string>)
    requires s <= oneOf.Keys
  {
    forall n :: n in s ==> !Blocked(oneOf, s, n)
  }

  /** `check_fields_set_is_valid`, with its `for` loop and the `all(...)`
      over the groups of each name. */
  method CheckFieldsSetIsValid(oneOf: OneOf, s: set<string>) returns (valid: bool)
    requires s <= oneOf.Keys
    ensures valid == IsValid(oneOf, s)
  {
    var todo := s;
    while todo != {}
      invariant todo <= s
      invariant forall n :: n in s - todo ==> !Blocked(oneOf, s, n)
      decreases todo
    {
      var name :| name in todo;
      var groups := oneOf[name];
      if groups != [] {
        var every := true;
        for i := 0 to |groups|
          invariant every <==> forall j :: 0 <= j < i ==> groups[j] * s != {}
        {
          if groups[i] * s == {} {
            every := false;
          }
        }
        if every {
          return false;
        }
      }
      todo := todo - {name};
    }
    return true;
  }

  /** The steps taken for the names in `names`: for each group of such a
      name that lies inside `s`, the set without the group and the set
      without the name. */
  function StepsOf(oneOf: OneOf, s: set<string>, names: set<string>): (r: set<set<string>>)
    requires names <= s <= oneOf.Keys
    ensures forall c :: c in r ==> c <= s
  {
    (set n, i | n in names && 0 <= i < |oneOf[n]| && oneOf[n][i] <= s :: s - oneOf[n][i])
    + (set n, i | n in names && 0 <= i < |oneOf[n]| && oneOf[n][i] <= s :: s - {n})
  }

  /** The sets `filter_by_one_of(s)` recurses on. Every group is non-empty,
      so each of them is strictly smaller than `s`. */
  function Children(oneOf: OneOf, s: set<string>): (r: set<set<string>>)
    requires s <= oneOf.Keys
    ensures Forms.GroupsNonEmpty(oneOf) ==> forall c :: c in r ==> c < s
  {
    var r := StepsOf(oneOf, s, s);
    assert Forms.GroupsNonEmpty(oneOf) ==> forall c :: c in r ==> c < s by {
      if Forms.GroupsNonEmpty(oneOf) {
        forall c | c in r ensures c < s {
          var n, i :| n in s && 0 <= i < |oneOf[n]| && oneOf[n][i] <= s
                      && (c == s - oneOf[n][i] || c == s - {n});
          var g := oneOf[n][i];
          assert g != {};
          var x :| x in g;
          assert (x in s && x !in s - g) && (n in s && n !in s - {n});
        }
      }
    }
    r
  }

  /** The sets with no proper superset among `xs`. */
  function Maximal(xs: set<set<string>>): (r: set<set<string>>)
    ensures r <= xs
    ensures forall x, y :: x in r && y in r ==> !(x < y)
  {
    set x | x in xs && forall y :: y in xs ==> !(x < y)
  }

  /** The result of `filter_by_one_of(fields_set)`: the set itself when it
      is valid; otherwise the largest of the results for its steps, or the
      set itself when it has no step. */
  function Filter(oneOf: OneOf, s: set<string>): (r: set<set<string>>)
    requires Forms.GroupsNonEmpty(oneOf) && s <= oneOf.Keys
    ensures forall t :: t in r ==> t <= s
    ensures forall t, u :: t in r && u in r ==> !(t < u)
    ensures IsValid(oneOf, s) ==> r == {s}
    decreases s, 1
  {
    if IsValid(oneOf, s) then {s}
    else
      var found := Gather(oneOf, Children(oneOf, s), s);
      Maximal(if found == {} then {s} else found)
  }

  /** Every result of the sets in `cs`, each of them smaller than `bound`. */
  function Gather(oneOf: OneOf, cs: set<set<string>>, bound: set<string>): (r: set<set<string>>)
    requires Forms.GroupsNonEmpty(oneOf) && bound <= oneOf.Keys
    requires forall c :: c in cs ==> c < bound
    ensures forall t :: t in r ==> t < bound
    decreases bound, 0
  {
    set t, c | c in cs && t in Filter(oneOf, c) :: t
  }

  /** The members of `xs` strictly above `x`. */
  function Above(xs: set<set<string>>, x: set<string>): set<set<string>>
  {
    set y | y in xs && x < y
  }

  /** Every member of a set of sets lies under one of its maximal members. */
  lemma {:induction false} MaximalAbove(xs: set<set<string>>, x: set<string>)
    requires x in xs
    ensures exists m :: m in Maximal(xs) && x <= m
    decreases Above(xs, x)
  {
    if x !in Maximal(xs) {
      var y :| y in xs && x < y;
      assert Above(xs, y) < Above(xs, x) by {
        assert y in Above(xs, x) && y !in Above(xs, y);
      }
      MaximalAbove(xs, y);
    }
  }

  /** The search always returns at least one set. */
  lemma FilterNonEmpty(oneOf: OneOf, s: set<string>)
    requires Forms.GroupsNonEmpty(oneOf) && s <= oneOf.Keys
    ensures Filter(oneOf, s) != {}
  {
    if !IsValid(oneOf, s) {
      var found := Gather(oneOf, Children(oneOf, s), s);
      var xs := if found == {} then {s} else found;
      var x :| x in xs;
      MaximalAbove(xs, x);
    }
  }

  /** Every returned set is valid, or invalid with no step left to take. */
  lemma {:induction false} FilterSettled(oneOf: OneOf, s: set<string>)
    requires Forms.GroupsNonEmpty(oneOf) && s <= oneOf.Keys
    ensures forall t :: t in Filter(oneOf, s) ==> t <= oneOf.Keys && (IsValid(oneOf, t) || Children(oneOf, t) == {})
    decreases s
  {
    if !IsValid(oneOf, s) {
      var cs := Children(oneOf, s);
      var found := Gather(oneOf, cs, s);
      forall c | c in cs
        ensures Filter(oneOf, c) != {}
        ensures forall t :: t in Filter(oneOf, c) ==> t <= oneOf.Keys && (IsValid(oneOf, t) || Children(oneOf, t) == {})
      {
        FilterNonEmpty(oneOf, c);
        FilterSettled(oneOf, c);
      }
      if cs != {} {
        var c :| c in cs;
        var t :| t in Filter(oneOf, c);
        assert t in found;
      }
    }
  }

  /** The pruning loops of `filter_by_one_of`: every set that is a proper
      subset of another one is discarded. */
  method Prune(found: set<set<string>>) returns (res: set<set<string>>)
    ensures res == Maximal(found)
  {
    res := found;
    var outer := found;
    while outer != {}
      invariant outer <= found
      invariant forall x :: x in res <==> x in found && (x in outer || x in Maximal(found))
      decreases outer
    {
      var el :| el in outer;
      var inner := res;
      ghost var before := res;
      ghost var dropped := false;
      while inner != {}
        invariant inner <= before
        invariant dropped <==> exists y :: y in before - inner && el < y
        invariant res == if dropped then before - {el} else before
        decreases inner
      {
        var el2 :| el2 in inner;
        assert (el != el2 && el2 * el == el) <==> el < el2 by {
          assert el2 * el == el <==> el <= el2;
        }
        assert before - (inner - {el2}) == (before - inner) + {el2};
        if el != el2 && el2 * el == el {
          res := res - {el};
          dropped := true;
        }
        inner := inner - {el2};
      }
      if el !in Maximal(found) {
        MaximalAbove(found, el);
        var m :| m in Maximal(found) && el <= m;
        assert m in before && el < m;
      }
      outer := outer - {el};
    }
  }

  /** `filter_by_one_of(fields_set)`. Every step is strictly smaller than
      the set, so the recursion ends. */
  method FilterByOneOf(oneOf: OneOf, s: set<string>) returns (res: set<set<string>>)
    requires Forms.GroupsNonEmpty(oneOf) && s <= oneOf.Keys
    ensures res == Filter(oneOf, s)
    decreases s, 3
  {
    var valid := CheckFieldsSetIsValid(oneOf, s);
    if valid {
      return {s};
    }
    res := {};
    ghost var seen: set<set<string>> := {};
    var todo := s;
    while todo != {}
      invariant todo <= s
      invariant seen == StepsOf(oneOf, s, s - todo)
      invariant res == Gather(oneOf, seen, s)
      decreases todo
    {
      var name :| name in todo;
      res := StepsFor(oneOf, s, name, res, seen);
      seen := seen + StepsAt(oneOf, s, name, |oneOf[name]|);
      StepsOfAdd(oneOf, s, s - todo, name);
      assert s - (todo - {name}) == (s - todo) + {name};
      todo := todo - {name};
    }
    assert s - todo == s;
    if res == {} {
      res := {s};
    }
    res := Prune(res);
  }

  /** The inner loop of `filter_by_one_of` for one name: for each group of
      the name inside the set, search the set without the group and the set
      without the name, and add what they return. */
  method StepsFor(oneOf: OneOf, s: set<string>, name: string, found: set<set<string>>, ghost seen: set<set<string>>)
    returns (res: set<set<string>>)
    requires Forms.GroupsNonEmpty(oneOf) && name in s && s <= oneOf.Keys
    requires forall c :: c in seen ==> c < s
    requires found == Gather(oneOf, seen, s)
    ensures res == Gather(oneOf, seen + StepsAt(oneOf, s, name, |oneOf[name]|), s)
    decreases s, 2
  {
    res := found;
    assert seen + StepsAt(oneOf, s, name, 0) == seen;
    for i := 0 to |oneOf[name]|
      invariant res == Gather(oneOf, seen + StepsAt(oneOf, s, name, i), s)
    {
      ghost var before := seen + StepsAt(oneOf, s, name, i);
      res := GroupSteps(oneOf, s, name, i, res, before);
      assert before + GroupStepsAt(oneOf, s, name, i) == seen + StepsAt(oneOf, s, name, i + 1);
    }
  }

  /** The steps for the group at `i` of `name`: none when the group is not
      inside the set. */
  function GroupStepsAt(oneOf: OneOf, s: set<string>, name: string, i: nat): (r: set<set<string>>)
    requires name in s && s <= oneOf.Keys && i < |oneOf[name]|
    ensures Forms.GroupsNonEmpty(oneOf) ==> forall c :: c in r ==> c < s
  {
    var group := oneOf[name][i];
    assert Forms.GroupsNonEmpty(oneOf) && group <= s ==> s - group < s by {
      if Forms.GroupsNonEmpty(oneOf) && group <= s {
        var x :| x in group;
        assert x in s && x !in s - group;
      }
    }
    assert name in s && name !in s - {name};
    if group <= s then {s - group, s - {name}} else {}
  }

  /** One pass of that loop, for the group at `i`. */
  method GroupSteps(oneOf: OneOf, s: set<string>, name: string, i: nat, found: set<set<string>>, ghost seen: set<set<string>>)
    returns (res: set<set<string>>)
    requires Forms.GroupsNonEmpty(oneOf) && name in s && s <= oneOf.Keys && i < |oneOf[name]|
    requires forall c :: c in seen ==> c < s
    requires found == Gather(oneOf, seen, s)
    ensures res == Gather(oneOf, seen + GroupStepsAt(oneOf, s, name, i), s)
    decreases s, 1
  {
    var group := oneOf[name][i];
    assert s * group == group <==> group <= s;
    ghost var seen' := seen;
    res := found;
    if s * group == group {
      res, seen' := Explore(oneOf, s, s - group, res, seen');
    }
    if s * group == group {
      res, seen' := Explore(oneOf, s, s - {name}, res, seen');
    }
    assert seen' == seen + GroupStepsAt(oneOf, s, name, i);
  }

  /** One recursive call of that loop: the results for `step` join those
      found so far. */
  method Explore(oneOf: OneOf, s: set<string>, step: set<string>, found: set<set<string>>, ghost seen: set<set<string>>)
    returns (res: set<set<string>>, ghost seen': set<set<string>>)
    requires Forms.GroupsNonEmpty(oneOf) && s <= oneOf.Keys && step < s
    requires forall c :: c in seen ==> c < s
    requires found == Gather(oneOf, seen, s)
    ensures seen' == seen + {step}
    ensures res == Gather(oneOf, seen', s)
    decreases s, 0
  {
    var sub := FilterByOneOf(oneOf, step);
    GatherAdd(oneOf, seen, step, s);
    res := found + sub;
    seen' := seen + {step};
  }

  /** The steps for the first `k` groups of `name`. */
  function StepsAt(oneOf: OneOf, s: set<string>, name: string, k: nat): (r: set<set<string>>)
    requires name in s && s <= oneOf.Keys && k <= |oneOf[name]|
    ensures Forms.GroupsNonEmpty(oneOf) ==> forall c :: c in r ==> c < s
  {
    if k == 0 then {} else StepsAt(oneOf, s, name, k - 1) + GroupStepsAt(oneOf, s, name, k - 1)
  }

  /** Its members: for each of the first `k` groups inside the set, the set
      without the group and the set without the name. */
  lemma {:induction false} StepsAtMembers(oneOf: OneOf, s: set<string>, name: string, k: nat)
    requires name in s && s <= oneOf.Keys && k <= |oneOf[name]|
    ensures StepsAt(oneOf, s, name, k)
            == (set i | 0 <= i < k && oneOf[name][i] <= s :: s - oneOf[name][i])
               + (set i | 0 <= i < k && oneOf[name][i] <= s :: s - {name})
  {
    if k > 0 {
      StepsAtMembers(oneOf, s, name, k - 1);
    }
  }

  lemma StepsOfAdd(oneOf: OneOf, s: set<string>, names: set<string>, name: string)
    requires names <= s <= oneOf.Keys && name in s
    ensures StepsOf(oneOf, s, names + {name}) == StepsOf(oneOf, s, names) + StepsAt(oneOf, s, name, |oneOf[name]|)
  {
    StepsAtMembers(oneOf, s, name, |oneOf[name]|);
  }

  lemma GatherAdd(oneOf: OneOf, cs: set<set<string>>, c: set<string>, bound: set<string>)
    requires Forms.GroupsNonEmpty(oneOf) && bound <= oneOf.Keys
    requires forall d :: d in cs ==> d < bound
    requires c < bound
    ensures Gather(oneOf, cs + {c}, bound) == Gather(oneOf, cs, bound) + Filter(oneOf, c)
  {
  }

  // ---------------------------------------------------------------------
  // get_required_fields_cases and get_not_empty_fields_cases

  /** How a truthy rule is sorted: by its cases, else by a non-empty
      `filled`, else as an unconditional rule. */
  datatype RuleKind = Unconditional | FilledIf | CaseDriven

  function KindOfRule(c: Elements.Condition): (k: RuleKind)
    ensures k == CaseDriven <==> c.cases != []
    ensures k == FilledIf ==> c.filled.Some? && c.filled.value != ""
  {
    if c.cases != [] then CaseDriven
    else if c.filled.Some? && c.filled.value != "" then FilledIf
    else Unconditional
  }

  /** The truthy rule of each field that has one. */
  type Rules = map<string, Elements.Condition>

  /** The names, in order, whose rule is of kind `kind`. */
  function Select(names: seq<string>, rules: Rules, kind: RuleKind): (r: seq<string>)
    ensures forall n :: n in r <==> n in names && n in rules && KindOfRule(rules[n]) == kind
    ensures forall i :: 0 <= i < |r| ==> r[i] in rules && KindOfRule(rules[r[i]]) == kind
    decreases |names|
  {
    if names == [] then []
    else
      var init := Select(names[..|names| - 1], rules, kind);
      var n := names[|names| - 1];
      assert forall m :: m in names <==> m in names[..|names| - 1] || m == n;
      if n in rules && KindOfRule(rules[n]) == kind then init + [n] else init
  }

  /** No field is selected when no rule has the kind. */
  lemma {:induction false} SelectNone(names: seq<string>, rules: Rules, kind: RuleKind)
    requires forall n :: n in names && n in rules ==> KindOfRule(rules[n]) != kind
    ensures Select(names, rules, kind) == []
    decreases |names|
  {
    if names != [] {
      var init := names[..|names| - 1];
      assert forall m :: m in init ==> m in names;
      SelectNone(init, rules, kind);
    }
  }

  /** The names of the fields that have a rule. */
  function Ruled(names: seq<string>, rules: Rules): set<string>
  {
    set n | n in names && n in rules
  }

  /** A scenario: the names of the fields to fill, and the values that go
      with them. */
  type Scenario = (set<string>, map<string, Value>)

  /** The truthy entries of a case. */
  function TruthyPart(c: map<string, Value>): (r: map<string, Value>)
    ensures forall k :: k in r <==> k in c && Truthy(c[k])
    ensures forall k :: k in r ==> r[k] == c[k]
  {
    map k | k in c && Truthy(c[k]) :: c[k]
  }

  /** One scenario for each filled-if name: every ruled field but the name
      and the field it depends on. */
  function FilledEvents(others: seq<string>, rules: Rules, all: set<string>): (r: seq<Scenario>)
    requires forall i :: 0 <= i < |others| ==> others[i] in rules && rules[others[i]].filled.Some?
    ensures |r| == |others|
    ensures forall i :: 0 <= i < |r| ==> r[i] == (all - {others[i], rules[others[i]].filled.value}, map[])
    decreases |others|
  {
    if others == [] then []
    else
      var n := others[|others| - 1];
      FilledEvents(others[..|others| - 1], rules, all) + [(all - {n, rules[n].filled.value}, map[])]
  }

  /** The scenarios of one case of the case-driven field `name`: the ruled
      fields without the case's falsy keys, when that drops any; and when
      the case has truthy values, the unconditional fields with `name` and
      those values, then the unconditional fields with the values for
      them. */
  function CaseEvents(name: string, c: map<string, Value>, all: set<string>, main: seq<string>): seq<Scenario>
  {
    var kept := all - Forms.FalsyKeys(c);
    var extra := TruthyPart(c);
    var mainSet := set n | n in main;
    var nonMain := extra.Keys - mainSet;
    (if all - kept != {} then [(kept, map[])] else [])
    + (if extra != map[] then
         [(mainSet + {name}, extra),
          (mainSet - ({name} + nonMain), map k | k in extra && k !in nonMain :: extra[k])]
       else [])
  }

  /** The scenarios of the cases, in order. */
  function CasesEvents(name: string, cases: seq<map<string, Value>>, all: set<string>, main: seq<string>): seq<Scenario>
    decreases |cases|
  {
    if cases == [] then []
    else CasesEvents(name, cases[..|cases| - 1], all, main) + CaseEvents(name, cases[|cases| - 1], all, main)
  }

  /** The scenarios of each case-driven name, in order. */
  function WithCaseEvents(withCase: seq<string>, rules: Rules, all: set<string>, main: seq<string>): seq<Scenario>
    requires forall i :: 0 <= i < |withCase| ==> withCase[i] in rules
    decreases |withCase|
  {
    if withCase == [] then []
    else
      var n := withCase[|withCase| - 1];
      WithCaseEvents(withCase[..|withCase| - 1], rules, all, main) + CasesEvents(n, rules[n].cases, all, main)
  }

  /** `result[key] = value` for each scenario in order: a later scenario
      with the same names replaces an earlier one. */
  function Apply(events: seq<Scenario>, result: map<set<string>, map<string, Value>>): map<set<string>, map<string, Value>>
    decreases |events|
  {
    if events == [] then result else Apply(events[1..], result[events[0].0 := events[0].1])
  }

  /** Every scenario of the rules, in the order the source assigns them. */
  function RuleEvents(names: seq<string>, rules: Rules): seq<Scenario>
  {
    var main := Select(names, rules, Unconditional);
    var all := Ruled(names, rules);
    FilledEvents(Select(names, rules, FilledIf), rules, all)
    + WithCaseEvents(Select(names, rules, CaseDriven), rules, all, main)
  }

  /** The scenarios `get_required_fields_cases` returns: those of the rules,
      or only the unconditional fields when there are none. */
  function RuleCases(names: seq<string>, rules: Rules): map<set<string>, map<string, Value>>
  {
    var result := Apply(RuleEvents(names, rules), map[]);
    if result == map[] then map[(set n | n in Select(names, rules, Unconditional)) := map[]] else result
  }

  /** The names of a scenario map exactly the starting keys and the
      scenarios' names. */
  lemma {:induction false} ApplyKeys(events: seq<Scenario>, result: map<set<string>, map<string, Value>>)
    ensures forall k :: k in Apply(events, result) <==> k in result || exists i :: 0 <= i < |events| && events[i].0 == k
    decreases |events|
  {
    if events != [] {
      ApplyKeys(events[1..], result[events[0].0 := events[0].1]);
      assert forall i :: 0 <= i < |events[1..]| ==> events[1..][i] == events[i + 1];
    }
  }

  /** Last write wins: a scenario that no later one replaces keeps its
      values. */
  lemma {:induction false} ApplyLastWins(events: seq<Scenario>, result: map<set<string>, map<string, Value>>, i: nat)
    requires i < |events|
    requires forall j :: i < j < |events| ==> events[j].0 != events[i].0
    ensures events[i].0 in Apply(events, result) && Apply(events, result)[events[i].0] == events[i].1
    decreases |events|
  {
    var next := result[events[0].0 := events[0].1];
    if i == 0 {
      ApplyUntouched(events[1..], next, events[0].0);
    } else {
      assert forall j :: i - 1 < j < |events[1..]| ==> events[1..][j].0 != events[1..][i - 1].0 by {
        assert forall j :: i - 1 < j < |events[1..]| ==> events[1..][j] == events[j + 1];
      }
      ApplyLastWins(events[1..], next, i - 1);
    }
  }

  /** A name no scenario uses keeps its starting values. */
  lemma {:induction false} ApplyUntouched(events: seq<Scenario>, result: map<set<string>, map<string, Value>>, k: set<string>)
    requires k in result
    requires forall j :: 0 <= j < |events| ==> events[j].0 != k
    ensures k in Apply(events, result) && Apply(events, result)[k] == result[k]
    decreases |events|
  {
    if events != [] {
      assert forall j :: 0 <= j < |events[1..]| ==> events[1..][j] == events[j + 1];
      ApplyUntouched(events[1..], result[events[0].0 := events[0].1], k);
    }
  }

  /** A value some case of a case-driven rule gives to `x`. */
  ghost predicate CaseValue(names: seq<string>, rules: Rules, x: string, v: Value)
  {
    exists n, j :: n in names && n in rules && 0 <= j < |rules[n].cases| && x in rules[n].cases[j] && rules[n].cases[j][x] == v
  }

  /** A scenario over the ruled fields whose values are truthy values of
      the cases. */
  ghost predicate Good(e: Scenario, names: seq<string>, rules: Rules)
  {
    e.0 <= Ruled(names, rules) && forall x :: x in e.1 ==> Truthy(e.1[x]) && CaseValue(names, rules, x, e.1[x])
  }

  lemma {:induction false} ApplyGood(events: seq<Scenario>, result: map<set<string>, map<string, Value>>, names: seq<string>, rules: Rules)
    requires forall i :: 0 <= i < |events| ==> Good(events[i], names, rules)
    requires forall k :: k in result ==> Good((k, result[k]), names, rules)
    ensures forall k :: k in Apply(events, result) ==> Good((k, Apply(events, result)[k]), names, rules)
    decreases |events|
  {
    if events != [] {
      var next := result[events[0].0 := events[0].1];
      assert forall i :: 0 <= i < |events[1..]| ==> events[1..][i] == events[i + 1];
      assert forall k :: k in next ==> Good((k, next[k]), names, rules) by {
        forall k | k in next ensures Good((k, next[k]), names, rules) {
          if k == events[0].0 {
            assert (k, next[k]) == events[0];
          }
        }
      }
      ApplyGood(events[1..], next, names, rules);
    }
  }

  lemma CaseEventsGood(names: seq<string>, rules: Rules, name: string, j: nat)
    requires name in names && name in rules && j < |rules[name].cases|
    ensures var c := rules[name].cases[j];
            forall e :: e in CaseEvents(name, c, Ruled(names, rules), Select(names, rules, Unconditional)) ==> Good(e, names, rules)
  {
    var c := rules[name].cases[j];
    var all := Ruled(names, rules);
    var main := Select(names, rules, Unconditional);
    var extra := TruthyPart(c);
    var mainSet := set n | n in main;
    var nonMain := extra.Keys - mainSet;
    var sub := map k | k in extra && k !in nonMain :: extra[k];
    forall x | x in extra ensures Truthy(extra[x]) && CaseValue(names, rules, x, extra[x]) {
      assert x in rules[name].cases[j] && rules[name].cases[j][x] == extra[x];
    }
    assert mainSet <= all;
    assert Good((all - Forms.FalsyKeys(c), map[]), names, rules);
    assert Good((mainSet + {name}, extra), names, rules);
    assert Good((mainSet - ({name} + nonMain), sub), names, rules);
  }

  lemma {:induction false} CasesEventsGood(names: seq<string>, rules: Rules, name: string, k: nat)
    requires name in names && name in rules && k <= |rules[name].cases|
    ensures forall e :: e in CasesEvents(name, rules[name].cases[..k], Ruled(names, rules), Select(names, rules, Unconditional)) ==> Good(e, names, rules)
  {
    if k > 0 {
      var cs := rules[name].cases;
      assert cs[..k][..k - 1] == cs[..k - 1];
      CasesEventsGood(names, rules, name, k - 1);
      CaseEventsGood(names, rules, name, k - 1);
    }
  }

  lemma {:induction false} WithCaseEventsGood(names: seq<string>, rules: Rules, withCase: seq<string>)
    requires forall i :: 0 <= i < |withCase| ==> withCase[i] in names && withCase[i] in rules
    ensures forall e :: e in WithCaseEvents(withCase, rules, Ruled(names, rules), Select(names, rules, Unconditional)) ==> Good(e, names, rules)
    decreases |withCase|
  {
    if withCase != [] {
      var n := withCase[|withCase| - 1];
      WithCaseEventsGood(names, rules, withCase[..|withCase| - 1]);
      CasesEventsGood(names, rules, n, |rules[n].cases|);
      assert rules[n].cases[..|rules[n].cases|] == rules[n].cases;
    }
  }

  /** Every scenario is over the ruled fields, and its values are truthy
      values given by the cases. */
  lemma RuleCasesShape(names: seq<string>, rules: Rules)
    ensures forall k :: k in RuleCases(names, rules) ==> k <= Ruled(names, rules)
    ensures forall k, x :: k in RuleCases(names, rules) && x in RuleCases(names, rules)[k] ==>
              Truthy(RuleCases(names, rules)[k][x]) && CaseValue(names, rules, x, RuleCases(names, rules)[k][x])
  {
    var r := RuleCases(names, rules);
    RuleCasesGood(names, rules);
    forall k | k in r ensures k <= Ruled(names, rules) {
      assert Good((k, r[k]), names, rules);
    }
    forall k, x | k in r && x in r[k] ensures Truthy(r[k][x]) && CaseValue(names, rules, x, r[k][x]) {
      assert Good((k, r[k]), names, rules);
    }
  }

  /** Every entry of the scenario map is a good scenario. */
  lemma RuleCasesGood(names: seq<string>, rules: Rules)
    ensures forall k :: k in RuleCases(names, rules) ==> Good((k, RuleCases(names, rules)[k]), names, rules)
  {
    var events := RuleEvents(names, rules);
    RuleEventsGood(names, rules);
    ApplyGood(events, map[], names, rules);
    var mainSet := set n | n in Select(names, rules, Unconditional);
    assert mainSet <= Ruled(names, rules);
    assert Good((mainSet, map[]), names, rules);
  }

  /** Every scenario the rules emit is good. */
  lemma RuleEventsGood(names: seq<string>, rules: Rules)
    ensures forall i :: 0 <= i < |RuleEvents(names, rules)| ==> Good(RuleEvents(names, rules)[i], names, rules)
  {
    var events := RuleEvents(names, rules);
    var all := Ruled(names, rules);
    var others := Select(names, rules, FilledIf);
    var withCase := Select(names, rules, CaseDriven);
    WithCaseEventsGood(names, rules, withCase);
    var filled := FilledEvents(others, rules, all);
    var cased := WithCaseEvents(withCase, rules, all, Select(names, rules, Unconditional));
    assert events == filled + cased;
    forall i | 0 <= i < |events| ensures Good(events[i], names, rules) {
      if i < |filled| {
        assert events[i] == filled[i];
      } else {
        assert events[i] == cased[i - |filled|];
        assert events[i] in cased;
      }
    }
  }

  lemma {:induction false} CasesEventsContain(name: string, cases: seq<map<string, Value>>, all: set<string>, main: seq<string>)
    ensures forall j, e :: 0 <= j < |cases| && e in CaseEvents(name, cases[j], all, main) ==> e in CasesEvents(name, cases, all, main)
    decreases |cases|
  {
    if cases != [] {
      var init := cases[..|cases| - 1];
      CasesEventsContain(name, init, all, main);
      assert forall j :: 0 <= j < |init| ==> init[j] == cases[j];
    }
  }

  lemma {:induction false} WithCaseEventsContain(withCase: seq<string>, rules: Rules, all: set<string>, main: seq<string>)
    requires forall i :: 0 <= i < |withCase| ==> withCase[i] in rules
    ensures forall i, e :: 0 <= i < |withCase| && e in CasesEvents(withCase[i], rules[withCase[i]].cases, all, main) ==>
              e in WithCaseEvents(withCase, rules, all, main)
    decreases |withCase|
  {
    if withCase != [] {
      var init := withCase[..|withCase| - 1];
      WithCaseEventsContain(init, rules, all, main);
      assert forall i :: 0 <= i < |init| ==> init[i] == withCase[i];
    }
  }

  /** The names of the scenarios returned: those of the rules' scenarios,
      or, when the rules give none, the unconditional fields alone. */
  lemma RuleCasesKeys(names: seq<string>, rules: Rules)
    ensures var events := RuleEvents(names, rules);
            forall k :: k in RuleCases(names, rules) <==>
              (exists i :: 0 <= i < |events| && events[i].0 == k)
              || (events == [] && k == set n | n in Select(names, rules, Unconditional))
  {
    var events := RuleEvents(names, rules);
    ApplyKeys(events, map[]);
    if events != [] {
      assert events[0].0 in Apply(events, map[]);
    }
  }

  /** A scenario of the rules is among those returned. */
  lemma RuleEventListed(names: seq<string>, rules: Rules, e: Scenario)
    requires e in RuleEvents(names, rules)
    ensures e.0 in RuleCases(names, rules)
  {
    RuleCasesKeys(names, rules);
    var events := RuleEvents(names, rules);
    var i :| 0 <= i < |events| && events[i] == e;
  }

  /** With only unconditional rules, the one scenario fills exactly the
      fields that have a rule, with no values. */
  lemma RuleCasesUnconditional(names: seq<string>, rules: Rules)
    requires forall n :: n in names && n in rules ==> KindOfRule(rules[n]) == Unconditional
    ensures RuleCases(names, rules) == map[Ruled(names, rules) := map[]]
  {
    SelectNone(names, rules, FilledIf);
    SelectNone(names, rules, CaseDriven);
    assert (set n | n in Select(names, rules, Unconditional)) == Ruled(names, rules);
  }

  /** A filled-if field `name` gives the scenario of every ruled field but
      `name` and the field it depends on. */
  lemma RuleCasesFilled(names: seq<string>, rules: Rules, name: string)
    requires name in names && name in rules && KindOfRule(rules[name]) == FilledIf
    ensures Ruled(names, rules) - {name, rules[name].filled.value} in RuleCases(names, rules)
  {
    var others := Select(names, rules, FilledIf);
    var filled := FilledEvents(others, rules, Ruled(names, rules));
    var i :| 0 <= i < |others| && others[i] == name;
    assert filled[i] in RuleEvents(names, rules);
    RuleEventListed(names, rules, filled[i]);
  }

  /** The scenarios of one case of a case-driven field are among the
      rules' scenarios. */
  lemma CaseEventsInRules(names: seq<string>, rules: Rules, name: string, j: nat)
    requires name in names && name in rules && j < |rules[name].cases|
    ensures forall e :: e in CaseEvents(name, rules[name].cases[j], Ruled(names, rules), Select(names, rules, Unconditional)) ==>
              e in RuleEvents(names, rules)
  {
    var all := Ruled(names, rules);
    var main := Select(names, rules, Unconditional);
    var withCase := Select(names, rules, CaseDriven);
    var i :| 0 <= i < |withCase| && withCase[i] == name;
    CasesEventsContain(name, rules[name].cases, all, main);
    WithCaseEventsContain(withCase, rules, all, main);
    forall e | e in CaseEvents(name, rules[name].cases[j], all, main) ensures e in RuleEvents(names, rules) {
      assert e in WithCaseEvents(withCase, rules, all, main);
    }
  }

  /** The scenarios of one case of a case-driven field are among those
      returned. */
  lemma CaseEventsListed(names: seq<string>, rules: Rules, name: string, j: nat)
    requires name in names && name in rules && j < |rules[name].cases|
    ensures forall e :: e in CaseEvents(name, rules[name].cases[j], Ruled(names, rules), Select(names, rules, Unconditional)) ==>
              e.0 in RuleCases(names, rules)
  {
    CaseEventsInRules(names, rules, name, j);
    forall e | e in CaseEvents(name, rules[name].cases[j], Ruled(names, rules), Select(names, rules, Unconditional))
      ensures e.0 in RuleCases(names, rules)
    {
      RuleEventListed(names, rules, e);
    }
  }

  /** The scenario returned for a set of names holds the values of the
      last of the rules' scenarios with those names. */
  lemma RuleCasesLastEvent(names: seq<string>, rules: Rules, i: nat)
    requires i < |RuleEvents(names, rules)|
    requires forall j :: i < j < |RuleEvents(names, rules)| ==> RuleEvents(names, rules)[j].0 != RuleEvents(names, rules)[i].0
    ensures var e := RuleEvents(names, rules)[i];
            e.0 in RuleCases(names, rules) && RuleCases(names, rules)[e.0] == e.1
  {
    ApplyLastWins(RuleEvents(names, rules), map[], i);
  }

  /** A case of a case-driven field `name` whose falsy keys hold a ruled
      field gives the scenario of the ruled fields without those keys. */
  lemma RuleCasesCaseDrops(names: seq<string>, rules: Rules, name: string, j: nat)
    requires name in names && name in rules && j < |rules[name].cases|
    requires Ruled(names, rules) * Forms.FalsyKeys(rules[name].cases[j]) != {}
    ensures Ruled(names, rules) - Forms.FalsyKeys(rules[name].cases[j]) in RuleCases(names, rules)
  {
    var all := Ruled(names, rules);
    var c := rules[name].cases[j];
    CaseEventsListed(names, rules, name, j);
    var kept := all - Forms.FalsyKeys(c);
    assert all - kept != {};
    assert CaseEvents(name, c, all, Select(names, rules, Unconditional))[0] == (kept, map[]);
  }

  /** A case of a case-driven field `name` with truthy values gives the
      scenario of the unconditional fields with `name` and those values,
      then the scenario of the unconditional fields alone with the values
      for unconditional fields. */
  lemma RuleCasesCaseValues(names: seq<string>, rules: Rules, name: string, j: nat)
    requires name in names && name in rules && j < |rules[name].cases|
    requires TruthyPart(rules[name].cases[j]) != map[]
    ensures var mainSet := set n | n in Select(names, rules, Unconditional);
            var extra := TruthyPart(rules[name].cases[j]);
            && (mainSet + {name}, extra) in RuleEvents(names, rules)
            && (mainSet, map k | k in extra && k in mainSet :: extra[k]) in RuleEvents(names, rules)
            && mainSet + {name} in RuleCases(names, rules) && mainSet in RuleCases(names, rules)
  {
    var all := Ruled(names, rules);
    var main := Select(names, rules, Unconditional);
    var mainSet := set n | n in main;
    var c := rules[name].cases[j];
    CaseEventsInRules(names, rules, name, j);
    var own := CaseEvents(name, c, all, main);
    var extra := TruthyPart(c);
    var nonMain := extra.Keys - mainSet;
    var at := if all - (all - Forms.FalsyKeys(c)) != {} then 1 else 0;
    assert own[at] == (mainSet + {name}, extra);
    assert own[at + 1] == (mainSet - ({name} + nonMain), map k | k in extra && k !in nonMain :: extra[k]);
    assert name !in mainSet;
    assert mainSet - ({name} + nonMain) == mainSet;
    assert (map k | k in extra && k !in nonMain :: extra[k]) == (map k | k in extra && k in mainSet :: extra[k]);
    RuleEventListed(names, rules, own[at]);
    RuleEventListed(names, rules, own[at + 1]);
  }

  /** Applying two runs of scenarios is applying the first, then the second. */
  lemma {:induction false} ApplyAppend(a: seq<Scenario>, b: seq<Scenario>, result: map<set<string>, map<string, Value>>)
    ensures Apply(a + b, result) == Apply(b, Apply(a, result))
    decreases |a|
  {
    if a == [] {
      assert a + b == b;
    } else {
      assert (a + b)[1..] == a[1..] + b;
      ApplyAppend(a[1..], b, result[a[0].0 := a[0].1]);
    }
  }

  /** One more scenario is one more assignment. */
  lemma ApplySnoc(events: seq<Scenario>, e: Scenario, result: map<set<string>, map<string, Value>>)
    ensures Apply(events + [e], result) == Apply(events, result)[e.0 := e.1]
  {
    ApplyAppend(events, [e], result);
  }

  /** The loops of `get_required_fields_cases` over the fields' rules. */
  method CollectRuleCases(names: seq<string>, rules: Rules) returns (result: map<set<string>, map<string, Value>>)
    ensures result == RuleCases(names, rules)
  {
    var main, other, withCase := ClassifyRules(names, rules);
    var all := (set n | n in main) + (set n | n in other) + (set n | n in withCase);
    RuledByKind(names, rules);
    result := ApplyFilled(other, rules, all);
    result := ApplyWithCase(result, FilledEvents(other, rules, all), withCase, rules, all, main);
    if result == map[] {
      result := map[(set n | n in main) := map[]];
    }
  }

  /** Every ruled name has one of the three kinds. */
  lemma RuledByKind(names: seq<string>, rules: Rules)
    ensures Ruled(names, rules)
            == (set n | n in Select(names, rules, Unconditional)) + (set n | n in Select(names, rules, FilledIf))
               + (set n | n in Select(names, rules, CaseDriven))
  {
  }

  /** The first loop: the names with a rule, sorted by kind. */
  method ClassifyRules(names: seq<string>, rules: Rules) returns (main: seq<string>, other: seq<string>, withCase: seq<string>)
    ensures main == Select(names, rules, Unconditional)
    ensures other == Select(names, rules, FilledIf)
    ensures withCase == Select(names, rules, CaseDriven)
  {
    main, other, withCase := [], [], [];
    for i := 0 to |names|
      invariant main == Select(names[..i], rules, Unconditional)
      invariant withCase == Select(names[..i], rules, CaseDriven)
      invariant other == Select(names[..i], rules, FilledIf)
    {
      assert names[..i + 1][..i] == names[..i];
      var name := names[i];
      if name in rules {
        var required := rules[name];
        if required.cases != [] {
          withCase := withCase + [name];
        } else if required.filled.Some? && required.filled.value != "" {
          other := other + [name];
        } else {
          main := main + [name];
        }
      }
    }
    assert names[..|names|] == names;
  }

  /** The loop over the filled-if names. */
  method ApplyFilled(other: seq<string>, rules: Rules, all: set<string>) returns (result: map<set<string>, map<string, Value>>)
    requires forall i :: 0 <= i < |other| ==> other[i] in rules && rules[other[i]].filled.Some?
    ensures result == Apply(FilledEvents(other, rules, all), map[])
  {
    result := map[];
    for i := 0 to |other|
      invariant result == Apply(FilledEvents(other[..i], rules, all), map[])
    {
      assert other[..i + 1][..i] == other[..i];
      var name := other[i];
      var required := rules[name];
      ApplySnoc(FilledEvents(other[..i], rules, all), (all - {name, required.filled.value}, map[]), map[]);
      result := result[all - {name, required.filled.value} := map[]];
    }
    assert other[..|other|] == other;
  }

  /** The loop over the case-driven names. */
  method ApplyWithCase(result: map<set<string>, map<string, Value>>, ghost done: seq<Scenario>,
                       withCase: seq<string>, rules: Rules, all: set<string>, main: seq<string>)
    returns (r: map<set<string>, map<string, Value>>)
    requires forall i :: 0 <= i < |withCase| ==> withCase[i] in rules
    requires result == Apply(done, map[])
    ensures r == Apply(done + WithCaseEvents(withCase, rules, all, main), map[])
  {
    r := result;
    assert done + WithCaseEvents(withCase[..0], rules, all, main) == done;
    for i := 0 to |withCase|
      invariant r == Apply(done + WithCaseEvents(withCase[..i], rules, all, main), map[])
    {
      assert withCase[..i + 1][..i] == withCase[..i];
      var name := withCase[i];
      ghost var before := done + WithCaseEvents(withCase[..i], rules, all, main);
      r := ApplyCases(r, before, name, rules[name].cases, all, main);
      WithCaseEventsSnoc(withCase, rules, all, main, i);
      assert before + CasesEvents(name, rules[name].cases, all, main)
          == done + (WithCaseEvents(withCase[..i], rules, all, main) + CasesEvents(name, rules[name].cases, all, main));
    }
    assert withCase[..|withCase|] == withCase;
  }

  /** One more case-driven name adds the scenarios of its cases. */
  lemma WithCaseEventsSnoc(withCase: seq<string>, rules: Rules, all: set<string>, main: seq<string>, i: nat)
    requires forall k :: 0 <= k < |withCase| ==> withCase[k] in rules
    requires i < |withCase|
    ensures WithCaseEvents(withCase[..i + 1], rules, all, main)
            == WithCaseEvents(withCase[..i], rules, all, main) + CasesEvents(withCase[i], rules[withCase[i]].cases, all, main)
  {
    assert withCase[..i + 1][..i] == withCase[..i];
  }

  /** One more case adds its scenarios. */
  lemma CasesEventsSnoc(name: string, cases: seq<map<string, Value>>, all: set<string>, main: seq<string>, j: nat)
    requires j < |cases|
    ensures CasesEvents(name, cases[..j + 1], all, main)
            == CasesEvents(name, cases[..j], all, main) + CaseEvents(name, cases[j], all, main)
  {
    assert cases[..j + 1][..j] == cases[..j];
  }

  /** The loop over the cases of one case-driven name. */
  method ApplyCases(result: map<set<string>, map<string, Value>>, ghost before: seq<Scenario>,
                    name: string, cases: seq<map<string, Value>>, all: set<string>, main: seq<string>)
    returns (r: map<set<string>, map<string, Value>>)
    requires result == Apply(before, map[])
    ensures r == Apply(before + CasesEvents(name, cases, all, main), map[])
  {
    r := result;
    ghost var acc := before;
    assert before + CasesEvents(name, cases[..0], all, main) == before;
    for j := 0 to |cases|
      invariant acc == before + CasesEvents(name, cases[..j], all, main)
      invariant r == Apply(acc, map[])
    {
      r := ApplyCase(r, acc, name, cases[j], all, main);
      CasesEventsSnoc(name, cases, all, main, j);
      acc := acc + CaseEvents(name, cases[j], all, main);
    }
    assert cases[..|cases|] == cases;
  }

  /** The assignments of one case of `name`. */
  method ApplyCase(result: map<set<string>, map<string, Value>>, ghost events: seq<Scenario>,
                   name: string, requiredCase: map<string, Value>, all: set<string>, main: seq<string>)
    returns (r: map<set<string>, map<string, Value>>)
    requires result == Apply(events, map[])
    ensures r == Apply(events + CaseEvents(name, requiredCase, all, main), map[])
  {
    ghost var done := events;
    r := result;
    var newFieldsList := all - Forms.FalsyKeys(requiredCase);
    if all - newFieldsList != {} {
      ApplySnoc(done, (newFieldsList, map[]), map[]);
      r := r[newFieldsList := map[]];
      done := done + [(newFieldsList, map[])];
    }
    var additionalData := map k | k in requiredCase && Truthy(requiredCase[k]) :: requiredCase[k];
    if additionalData != map[] {
      var mainSet := set n | n in main;
      ApplySnoc(done, (mainSet + {name}, additionalData), map[]);
      r := r[mainSet + {name} := additionalData];
      done := done + [(mainSet + {name}, additionalData)];
      var nonRequiredInAdditional := additionalData.Keys - mainSet;
      var rest := map k | k in additionalData && k !in nonRequiredInAdditional :: additionalData[k];
      ApplySnoc(done, (mainSet - ({name} + nonRequiredInAdditional), rest), map[]);
      r := r[mainSet - ({name} + nonRequiredInAdditional) := rest];
      done := done + [(mainSet - ({name} + nonRequiredInAdditional), rest)];
    }
    assert done == events + CaseEvents(name, requiredCase, all, main);
  }

  /** The truthy `required` rule of each field: a parsed `Condition`
      always is truthy, the class default `False` never is. */
  function RequiredRules(fields: map<string, Elements.Field>): (r: Rules)
    ensures forall n :: n in r <==> n in fields && fields[n].required.Some?
    ensures forall n :: n in r ==> r[n] == fields[n].required.value
  {
    map n | n in fields && fields[n].required.Some? :: fields[n].required.value
  }

  /** The scenarios `get_all_fields_cases` returns for the registered fields. */
  function AllFieldsCases(fields: map<string, Elements.Field>): set<set<string>>
  {
    Forms.OneOfFieldsNonEmpty(fields);
    Filter(Forms.OneOfFields(fields), fields.Keys)
  }

  /** `TestHandler(form)`: the scenario generator of one form. */
  class TestHandler {
    const form: Forms.Form

    constructor (form: Forms.Form)
      ensures this.form == form
    {
      this.form := form;
    }

    /** `get_all_fields_cases`: the largest sets of fields that can be
        filled together under the forms' one-of groups. */
    method GetAllFieldsCases() returns (r: set<set<string>>)
      requires form.Valid()
      ensures r == AllFieldsCases(form.fields)
    {
      var oneOf := form.GetOneOfFields();
      Forms.OneOfFieldsNonEmpty(form.fields);
      var all := set n | n in form.names;
      assert all == form.fields.Keys;
      r := FilterByOneOf(oneOf, all);
    }

    /** `get_required_fields_cases`: the scenarios of the `required` rules. */
    method GetRequiredFieldsCases() returns (r: map<set<string>, map<string, Value>>)
      requires form.Valid()
      ensures r == RuleCases(form.names, RequiredRules(form.fields))
    {
      r := CollectRuleCases(form.names, RequiredRules(form.fields));
    }

    /** `get_not_empty_fields_cases`: `not_empty` is a bool, so the first
        truthy one fails on `.cases` with an AttributeError; with none
        truthy the only scenario is the empty one. */
    method GetNotEmptyFieldsCases() returns (r: Result<map<set<string>, map<string, Value>>, Forms.FormError>)
      requires form.Valid()
      ensures r.Err? <==> exists n :: n in form.fields && NotEmpty(form.fields[n])
      ensures r.Err? ==> r.error == Forms.NoAttribute("cases")
      ensures r.Ok? ==> r.value == map[{} := map[]]
    {
      for i := 0 to |form.names|
        invariant forall j :: 0 <= j < i ==> !NotEmpty(form.fields[form.names[j]])
      {
        var field := form.fields[form.names[i]];
        if NotEmpty(field) {
          return Err(Forms.NoAttribute("cases"));
        }
      }
      assert forall n :: n in form.fields ==> !NotEmpty(form.fields[n]) by {
        forall n | n in form.fields ensures !NotEmpty(form.fields[n]) {
          var j :| 0 <= j < |form.names| && form.names[j] == n;
        }
      }
      return Ok(map[{} := map[]]);
    }
  }

  /** A truthy `not_empty` attribute. */
  predicate NotEmpty(f: Elements.Field)
  {
    Elements.Attr(f, "not_empty").Some? && Truthy(Elements.Attr(f, "not_empty").value)
  }
}
