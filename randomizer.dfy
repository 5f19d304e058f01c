/** Random string synthesis: `get_randname`, `get_random_domain_value` and
    `get_random_email_value`.

    Randomness is a caller-supplied tape: an infinite sequence of natural
    numbers, read from a position that every draw advances by one.
    `random.randint(a, b)` reads one cell as a + cell % (b - a + 1) and
    `random.choice(text)` reads one cell as text[cell % |text|]. */
module Randomizer {
  import opened Wrappers
  import opened Strings

  type Tape = nat -> nat

  datatype RandomError =
    | ValueError(message: string)
      /** `random.randint(low, high)` with low > high. */
    | EmptyRange(low: int, high: int)
      /** Integer division or modulo by zero. */
    | ZeroDivision
      /** `random.choice` on an empty sequence. */
    | EmptySequence

  function Min(a: int, b: int): int { if a <= b then a else b }

  /** `random.randint(low, high)`, reading one tape cell. */
  function RandInt(low: int, high: int, tape: Tape, pos: nat): (r: Result<int, RandomError>)
    ensures r.Ok? <==> low <= high
    ensures r.Ok? ==> low <= r.value <= high
    ensures r.Err? ==> r.error == EmptyRange(low, high)
  {
    if low <= high then Ok(low + tape(pos) % (high - low + 1)) else Err(EmptyRange(low, high))
  }

  // The character classes of Python's `string` module.
  /** The `n` consecutive characters starting at `first`. */
  function CharRange(first: char, n: nat): (r: string)
    requires first as int + n < 0xD800
    ensures |r| == n && forall i :: 0 <= i < n ==> r[i] as int == first as int + i
  {
    if n == 0 then [] else CharRange(first, n - 1) + [(first as int + n - 1) as char]
  }

  const Digits: string := CharRange('0', 10)
  const AsciiLetters: string := CharRange('a', 26) + CharRange('A', 26)
  const Punctuation: string := "!\"#$%&'()*+,-./:;<=>?@[\\]^_`{|}~"
  const Whitespace: string := [' ', '\t', '\n', '\r', 11 as char, 12 as char]
  const Printable: string := Digits + AsciiLetters + Punctuation + Whitespace

  predicate IsAlnum(c: char) { IsDigit(c) || IsAsciiLetter(c) }

  lemma LettersAndDigitsAreAlnum()
    ensures forall i :: 0 <= i < |AsciiLetters| ==> IsAsciiLetter(AsciiLetters[i])
    ensures forall i :: 0 <= i < |Digits| ==> IsDigit(Digits[i])
  {
  }

  /** The characters one type letter stands for: d, w, p and s name a class,
      any other character stands for itself. */
  function ClassOf(t: char): (r: string)
    ensures |r| >= 1
    ensures t !in "dwps" ==> r == [t]
  {
    match t
    case 'd' => Digits
    case 'w' => AsciiLetters
    case 'p' => Punctuation
    case 's' => Whitespace
    case _ => [t]
  }

  /** The classes of the type letters, concatenated in order. */
  function Classes(types: string): (r: string)
    ensures |r| == 0 <==> types == []
    decreases |types|
  {
    if types == [] then [] else Classes(types[..|types| - 1]) + ClassOf(types[|types| - 1])
  }

  /** The alphabet of `get_randname`: "a" (the whole argument) means every
      printable character, anything else the classes of its letters. */
  function Alphabet(types: string): (text: string)
    ensures |text| == 0 <==> types == []
  {
    if types == "a" then Printable else Classes(types)
  }

  /** Builds the alphabet the way `get_randname` does, one `+=` per type letter. */
  method BuildAlphabet(types: string) returns (text: string)
    ensures text == Alphabet(types)
  {
    if types == "a" {
      return Printable;
    }
    text := "";
    for i := 0 to |types|
      invariant text == Classes(types[..i])
    {
      assert types[..i + 1][..i] == types[..i];
      text := text + ClassOf(types[i]);
    }
    assert types[..|types|] == types;
  }

  /** `s * n`. */
  function Repeat(s: string, n: int): (r: string)
    ensures |r| == if n <= 0 then 0 else n * |s|
    decreases n
  {
    if n <= 0 then [] else s + Repeat(s, n - 1)
  }

  /** Copy `j` of `s` inside `s * n` starts at j * |s|. */
  lemma {:induction false} RepeatAt(s: string, n: int, j: nat, i: nat)
    requires j < n && i < |s|
    ensures j * |s| + i < |Repeat(s, n)|
    ensures Repeat(s, n)[j * |s| + i] == s[i]
    decreases n
  {
    if j > 0 {
      RepeatAt(s, n - 1, j - 1, i);
      assert j * |s| + i == (j - 1) * |s| + i + |s|;
    }
  }

  lemma {:induction false} RepeatChars(s: string, n: int)
    ensures forall k :: 0 <= k < |Repeat(s, n)| ==> Repeat(s, n)[k] in s
    decreases n
  {
    if n > 0 {
      RepeatChars(s, n - 1);
      var r := Repeat(s, n);
      forall k | 0 <= k < |r| ensures r[k] in s {
        if k >= |s| {
          assert r[k] == Repeat(s, n - 1)[k - |s|];
        }
      }
    }
  }

  /** The join expression of `get_randname`: one chunk of `chunkLength`
      picks, repeated `length // chunkLength` times, then `length %
      chunkLength` further picks. The chunk is always drawn, even when it is
      repeated zero times. */
  function Draw(text: string, length: int, chunkLength: int, tape: Tape, pos: nat): string
    requires chunkLength != 0 && (chunkLength > 0 ==> text != [])
  {
    if chunkLength < 0 then []
    else
      Repeat(Chunk(text, chunkLength, tape, pos), length / chunkLength)
      + seq(length % chunkLength, j requires 0 <= j < length % chunkLength =>
        text[tape(pos + chunkLength + j) % |text|])
  }

  /** The `chunkLength` picks of the repeated chunk. */
  function Chunk(text: string, chunkLength: nat, tape: Tape, pos: nat): (r: string)
    requires text != []
    ensures |r| == chunkLength
  {
    seq(chunkLength, i requires 0 <= i < chunkLength => text[tape(pos + i) % |text|])
  }

  /** The tape position after `get_randname`. */
  function DrawNext(length: int, chunkLength: int, pos: nat): nat
    requires chunkLength != 0
  {
    if chunkLength < 0 then pos else pos + chunkLength + length % chunkLength
  }

  /** A name of non-negative length has exactly that many characters, all from the alphabet. */
  lemma DrawShape(text: string, length: int, chunkLength: int, tape: Tape, pos: nat)
    requires chunkLength > 0 && text != [] && length >= 0
    ensures |Draw(text, length, chunkLength, tape, pos)| == length
    ensures forall k :: 0 <= k < length ==> Draw(text, length, chunkLength, tape, pos)[k] in text
  {
    var chunk := Chunk(text, chunkLength, tape, pos);
    var n := length / chunkLength;
    var head := Repeat(chunk, n);
    assert |head| == n * chunkLength;
    assert n * chunkLength + length % chunkLength == length;
    RepeatChars(chunk, n);
    var r := Draw(text, length, chunkLength, tape, pos);
    forall k | 0 <= k < length ensures r[k] in text {
      if k < |head| {
        assert r[k] == head[k];
      }
    }
  }

  /** Copy `j` of the chunk repeats the first copy: the name is periodic
      with period `chunkLength` up to its tail. */
  lemma DrawRepeatsChunk(text: string, length: int, chunkLength: int, tape: Tape, pos: nat, j: nat, i: nat)
    requires chunkLength > 0 && text != [] && length >= 0
    requires j < length / chunkLength && i < chunkLength
    ensures j * chunkLength + i < |Draw(text, length, chunkLength, tape, pos)|
    ensures Draw(text, length, chunkLength, tape, pos)[j * chunkLength + i] == Draw(text, length, chunkLength, tape, pos)[i]
  {
    var chunk := Chunk(text, chunkLength, tape, pos);
    var n := length / chunkLength;
    RepeatAt(chunk, n, j, i);
    RepeatAt(chunk, n, 0, i);
  }

  /** A type letter that names no class stands for itself: a name drawn
      from it repeats that one character, so "-" gives "-----". */
  lemma OneSymbolName(t: char, length: nat, tape: Tape, pos: nat)
    requires t !in "adwps"
    ensures Alphabet([t]) == [t]
    ensures Draw(Alphabet([t]), length, 10, tape, pos) == seq(length, _ => t)
  {
    assert [t] != "a";
    assert [t][..0] == [];
    assert Classes([t]) == ClassOf(t);
    DrawShape([t], length, 10, tape, pos);
  }

  /** A negative length repeats the chunk no times, but `l % c` is
      Python's non-negative remainder: `get_randname(-3)` has 7 characters. */
  lemma NegativeLengthName(text: string, length: int, chunkLength: int, tape: Tape, pos: nat)
    requires chunkLength > 0 && text != [] && length < 0
    ensures |Draw(text, length, chunkLength, tape, pos)| == length % chunkLength
    ensures 0 <= length % chunkLength < chunkLength
  {
    assert length / chunkLength < 0;
  }

  /** `get_randname(length, types, chunkLength)`, returning the name and the
      tape position after it. */
  method RandName(length: int, types: string, chunkLength: int, tape: Tape, pos: nat)
    returns (r: Result<(string, nat), RandomError>)
    ensures chunkLength == 0 ==> r == Err(ZeroDivision)
    ensures chunkLength > 0 && types == [] ==> r == Err(EmptySequence)
    ensures r.Ok? <==> chunkLength != 0 && (chunkLength > 0 ==> types != [])
    ensures r.Ok? ==> r.value == (Draw(Alphabet(types), length, chunkLength, tape, pos), DrawNext(length, chunkLength, pos))
  {
    var text := BuildAlphabet(types);
    if chunkLength == 0 {
      return Err(ZeroDivision);
    }
    if chunkLength > 0 && text == [] {
      return Err(EmptySequence);
    }
    r := Ok((Draw(text, length, chunkLength, tape, pos), DrawNext(length, chunkLength, pos)));
  }

  /** `get_randname(length, types)` with the default chunk of 10, for the
      call sites whose alphabet is never empty. */
  method Name(length: nat, types: string, tape: Tape, pos: nat) returns (s: string, next: nat)
    requires types != []
    ensures |s| == length
    ensures forall k :: 0 <= k < |s| ==> s[k] in Alphabet(types)
    ensures next > pos
  {
    var r := RandName(length, types, 10, tape, pos);
    s, next := r.value.0, r.value.1;
    DrawShape(Alphabet(types), length, 10, tape, pos);
  }

  /** True when some `first` character is directly followed by one in `second`. */
  predicate HasPair(s: string, first: char, second: set<char>)
  {
    exists i :: 0 <= i < |s| - 1 && s[i] == first && s[i + 1] in second
  }

  /** Left-to-right replacement of non-overlapping two-character matches
      (`first` then a character of `second`) by the two characters `repl`,
      as `str.replace` and `re.sub` do for these patterns. */
  function SubPairs(s: string, first: char, second: set<char>, repl: string): (r: string)
    requires |repl| == 2
    ensures |r| == |s|
    decreases |s|
  {
    if |s| < 2 then s
    else if s[0] == first && s[1] in second then repl + SubPairs(s[2..], first, second, repl)
    else [s[0]] + SubPairs(s[1..], first, second, repl)
  }

  /** Replacing ".." by "x." removes a dot for every match, so the dot
      count never grows and drops whenever there is a match. */
  lemma {:induction false} SubDoubleDotCount(s: string, x: char)
    requires x != '.'
    ensures Count(SubPairs(s, '.', {'.'}, [x, '.']), '.') <= Count(s, '.')
    ensures HasPair(s, '.', {'.'}) ==> Count(SubPairs(s, '.', {'.'}, [x, '.']), '.') < Count(s, '.')
    decreases |s|
  {
    if |s| >= 2 {
      if s[0] == '.' && s[1] == '.' {
        var rest := SubPairs(s[2..], '.', {'.'}, [x, '.']);
        SubDoubleDotCount(s[2..], x);
        CountConcat([x, '.'], rest, '.');
        assert [x, '.'][1..] == ['.'];
        assert s[1..][1..] == s[2..];
      } else {
        SubDoubleDotCount(s[1..], x);
        assert HasPair(s, '.', {'.'}) ==> HasPair(s[1..], '.', {'.'}) by {
          if HasPair(s, '.', {'.'}) {
            var i :| 0 <= i < |s| - 1 && s[i] == '.' && s[i + 1] in {'.'};
            assert i > 0;
            assert s[1..][i - 1] == s[i] && s[1..][i] == s[i + 1];
          }
        }
        var rest := SubPairs(s[1..], '.', {'.'}, [x, '.']);
        assert ([s[0]] + rest)[1..] == rest;
      }
    } else {
      assert !HasPair(s, '.', {'.'});
    }
  }

  /** A label longer than 62 characters gets a dot in place of its 62nd
      character: `el[:61] + "." + el[62:]`. */
  function FixLabel(el: string): (r: string)
    ensures |r| == |el|
  {
    if |el| <= 62 then el else el[..61] + "." + el[62..]
  }

  function FixLabels(parts: seq<string>): (r: seq<string>)
    ensures |r| == |parts|
    ensures TotalLength(r) == TotalLength(parts)
    decreases |parts|
  {
    if parts == [] then [] else [FixLabel(parts[0])] + FixLabels(parts[1..])
  }

  /** Splitting a long dot-free label puts at least one dot into the labels. */
  lemma {:induction false} FixLabelsAddsDot(parts: seq<string>)
    requires exists i :: 0 <= i < |parts| && |parts[i]| > 62 && '.' !in parts[i]
    ensures TotalCount(FixLabels(parts), '.') >= 1
    decreases |parts|
  {
    var r := FixLabels(parts);
    assert r[1..] == FixLabels(parts[1..]);
    if |parts[0]| > 62 && '.' !in parts[0] {
      var el := parts[0];
      CountConcat(el[..61], ".", '.');
      CountConcat(el[..61] + ".", el[62..], '.');
      assert Count(".", '.') == 1 by { assert "."[1..] == []; }
    } else {
      var i :| 0 <= i < |parts| && |parts[i]| > 62 && '.' !in parts[i];
      assert parts[1..][i - 1] == parts[i];
      FixLabelsAddsDot(parts[1..]);
    }
  }

  /** One pass of the label-splitting loop keeps the length and adds dots. */
  lemma LabelPass(s: string)
    requires exists i :: 0 <= i < |Split(s, '.')| && |Split(s, '.')[i]| > 62
    ensures |Join('.', FixLabels(Split(s, '.')))| == |s|
    ensures Count(Join('.', FixLabels(Split(s, '.'))), '.') > Count(s, '.')
    ensures Count(Join('.', FixLabels(Split(s, '.'))), '.') <= |s|
  {
    var parts := Split(s, '.');
    var fixed := FixLabels(parts);
    JoinLength('.', parts);
    JoinLength('.', fixed);
    JoinCount('.', parts);
    JoinCount('.', fixed);
    FixLabelsAddsDot(parts);
    assert TotalCount(parts, '.') == 0 by {
      NoSepTotalCount(parts, '.');
    }
    CountBound(Join('.', fixed), '.');
  }

  lemma {:induction false} NoSepTotalCount(parts: seq<string>, c: char)
    requires forall i :: 0 <= i < |parts| ==> c !in parts[i]
    ensures TotalCount(parts, c) == 0
    decreases |parts|
  {
    if parts != [] {
      CountBound(parts[0], c);
      NoSepTotalCount(parts[1..], c);
    }
  }

  /** `get_random_domain_value(length)`: subdomain (optional), domain, a
      dot and a top-level label of 2 to 6 letters, `length` characters in
      all. A length below 4 leaves `randint` an empty range. */
  method RandomDomainValue(length: int, tape: Tape, pos: nat) returns (r: Result<(string, nat), RandomError>)
    ensures length < 4 <==> r.Err?
    ensures r.Ok? ==> |r.value.0| == length
    ensures r.Ok? ==> TopLevelLetters(r.value.0)
    ensures r.Ok? ==> r.value.1 > pos
  {
    var p := pos;
    var endDraw := RandInt(2, Min(length - 2, 6), tape, p);
    if endDraw.Err? {
      return Err(endDraw.error);
    }
    var endLength := endDraw.value;
    p := p + 1;
    var domainLength := RandInt(1, Min(length - endLength - 1, 62), tape, p).value;
    p := p + 1;
    var subdomainLength := length - endLength - 1 - domainLength - 1;
    var subdomain: string;
    if subdomainLength <= 1 {
      subdomain := "";
      if subdomainLength >= 0 {
        domainLength := domainLength + 1 + subdomainLength;
      }
    } else {
      var head, body;
      head, p := Name(1, "w", tape, p);
      body, p := Name(subdomainLength - 1, "wd.-", tape, p);
      subdomain := head + body + ".";
      while exists i :: 0 <= i < |Split(subdomain, '.')| && |Split(subdomain, '.')[i]| > 62
        invariant |subdomain| == subdomainLength + 1
        decreases |subdomain| - Count(subdomain, '.')
      {
        CountBound(subdomain, '.');
        LabelPass(subdomain);
        subdomain := Join('.', FixLabels(Split(subdomain, '.')));
      }
      var x, y;
      x, p := Name(1, "w", tape, p);
      subdomain := SubPairs(subdomain, '.', {'.', '-'}, ['.', x[0]]);
      y, p := Name(1, "w", tape, p);
      subdomain := SubPairs(subdomain, '-', {'.'}, [y[0], '.']);
    }
    var domain: string;
    if domainLength < 3 {
      domain, p := Name(domainLength, "wd", tape, p);
    } else {
      var first, middle, last, z;
      first, p := Name(1, "w", tape, p);
      middle, p := Name(domainLength - 2, "wd-", tape, p);
      last, p := Name(1, "w", tape, p);
      domain := first + middle + last;
      z, p := Name(1, "w", tape, p);
      domain := SubPairs(domain, '-', {'-'}, [z[0], '-']);
    }
    var top;
    top, p := Name(endLength, "w", tape, p);
    TopLabel(subdomain + domain, top);
    r := Ok((subdomain + domain + "." + top, p));
  }

  /** The last label of a domain has 2 to 6 characters, all letters. */
  predicate TopLevelLetters(domain: string)
  {
    var labels := Split(domain, '.');
    var top := labels[|labels| - 1];
    2 <= |top| <= 6 && forall k :: 0 <= k < |top| ==> IsAsciiLetter(top[k])
  }

  /** A dot and 2 to 6 letters end the text: they are its last label. */
  lemma TopLabel(front: string, top: string)
    requires 2 <= |top| <= 6
    requires forall k :: 0 <= k < |top| ==> top[k] in Alphabet("w")
    ensures TopLevelLetters(front + "." + top)
  {
    LetterAlphabet();
    assert forall k :: 0 <= k < |top| ==> IsAsciiLetter(top[k]);
    assert '.' !in top;
    SplitConcat(front, top, '.');
    SplitNoSep(top, '.');
    assert front + "." + top == front + ['.'] + top;
  }

  /** The `w` alphabet is the ASCII letters. */
  lemma LetterAlphabet()
    ensures Alphabet("w") == AsciiLetters
    ensures forall k :: 0 <= k < |Alphabet("w")| ==> IsAsciiLetter(Alphabet("w")[k])
  {
    assert "w"[..0] == "";
    LettersAndDigitsAreAlnum();
  }

  /** `s.replace(ch, "\\" + ch)`: a backslash before every `ch`. */
  function Escape(s: string, ch: char): (r: string)
    ensures |r| >= |s|
    decreases |s|
  {
    if s == [] then [] else (if s[0] == ch then ['\\', s[0]] else [s[0]]) + Escape(s[1..], ch)
  }

  /** No two dots side by side. */
  predicate NoDoubleDot(s: string)
  {
    forall i :: 0 <= i < |s| - 1 ==> !(s[i] == '.' && s[i + 1] == '.')
  }

  /** Escaping a character other than "." never puts two dots side by side. */
  lemma {:induction false} EscapeKeepsNoDoubleDot(s: string, ch: char)
    requires ch != '.' && NoDoubleDot(s)
    ensures NoDoubleDot(Escape(s, ch))
    ensures Escape(s, ch) != [] ==> (Escape(s, ch)[0] == '.' <==> s[0] == '.')
    decreases |s|
  {
    if s != [] {
      var rest := Escape(s[1..], ch);
      assert NoDoubleDot(s[1..]) by {
        forall i | 0 <= i < |s[1..]| - 1 ensures !(s[1..][i] == '.' && s[1..][i + 1] == '.') {
          assert s[1..][i] == s[i + 1] && s[1..][i + 1] == s[i + 2];
        }
      }
      EscapeKeepsNoDoubleDot(s[1..], ch);
      var head := if s[0] == ch then ['\\', s[0]] else [s[0]];
      var r := head + rest;
      assert r == Escape(s, ch);
      forall i | 0 <= i < |r| - 1 ensures !(r[i] == '.' && r[i + 1] == '.') {
        if i >= |head| {
          assert r[i] == rest[i - |head|] && r[i + 1] == rest[i - |head| + 1];
        } else if i == |head| - 1 {
          assert r[i] == s[0] && r[i + 1] == rest[0];
          assert rest[0] == '.' <==> s[1] == '.';
        } else {
          assert r[i] == '\\';
        }
      }
    }
  }

  /** `re.sub(r"(\.$)|(^\.)|(\\$)", x, s)`: a leading ".", a trailing "."
      and a trailing backslash each become `x`. */
  function FixEnds(s: string, x: char): (r: string)
    ensures |r| == |s|
    ensures forall k :: 0 <= k < |s| ==> r[k] == s[k] || r[k] == x
  {
    if s == [] then []
    else if |s| == 1 then (if s[0] == '.' || s[0] == '\\' then [x] else s)
    else
      [if s[0] == '.' then x else s[0]] + s[1..|s| - 1]
      + [if s[|s| - 1] == '.' || s[|s| - 1] == '\\' then x else s[|s| - 1]]
  }

  /** The local part: no "..", no leading or trailing ".", and no trailing
      backslash. */
  predicate WellFormedLocalPart(u: string)
  {
    NoDoubleDot(u) && (u != [] ==> u[0] != '.' && u[|u| - 1] != '.' && u[|u| - 1] != '\\')
  }

  /** With a replacement other than "." and "\\", the ends are fixed and
      no ".." appears. */
  lemma FixEndsWellFormed(s: string, x: char)
    requires x != '.' && x != '\\' && NoDoubleDot(s)
    ensures WellFormedLocalPart(FixEnds(s, x))
  {
    var r := FixEnds(s, x);
    forall i | 0 <= i < |r| - 1 ensures !(r[i] == '.' && r[i + 1] == '.') {
      assert r[i] == s[i] || r[i] == x;
      assert r[i + 1] == s[i + 1] || r[i + 1] == x;
    }
  }

  // The extra characters of an unsafe local part, and those of them that get a backslash.
  const LocalSymbols := "!#$%&'*+-/=?^_`{|}~."
  const Escaped := "\\\"(),:;<>@[]"

  /** The local part of `get_random_email_value`: `nameLength` characters
      with no "..", no leading or trailing ".", and only letters and digits
      when `safe` holds or the part is one character long. */
  method RandomLocalPart(nameLength: nat, safe: bool, tape: Tape, pos: nat) returns (username: string, next: nat)
    ensures |username| == nameLength
    ensures WellFormedLocalPart(username)
    ensures (safe || nameLength <= 1) ==> forall k :: 0 <= k < nameLength ==> IsAlnum(username[k])
  {
    var p := pos;
    var plain := safe || nameLength <= 1;
    if plain {
      username, p := AlnumName(nameLength, tape, p);
    } else {
      username, p := Name(nameLength, "wd" + LocalSymbols + Escaped, tape, p);
    }
    username, p := CollapseDots(username, plain, tape, p);
    if !plain {
      username := EscapeAll(username);
    }
    var y;
    y, p := AlnumName(1, tape, p);
    FixEndsWellFormed(username, y[0]);
    username := FixEnds(username, y[0]);
    next := p;
  }

  /** The `while ".." in username` loop: each pass replaces every ".." by
      a letter or digit and a dot, until no ".." is left. */
  method CollapseDots(name: string, plain: bool, tape: Tape, pos: nat) returns (username: string, next: nat)
    requires plain ==> forall k :: 0 <= k < |name| ==> IsAlnum(name[k])
    ensures |username| == |name| && NoDoubleDot(username)
    ensures plain ==> forall k :: 0 <= k < |username| ==> IsAlnum(username[k])
  {
    username, next := name, pos;
    while HasPair(username, '.', {'.'})
      invariant |username| == |name|
      invariant plain ==> forall k :: 0 <= k < |username| ==> IsAlnum(username[k])
      decreases Count(username, '.')
    {
      var x;
      x, next := AlnumName(1, tape, next);
      SubDoubleDotCount(username, x[0]);
      username := SubPairs(username, '.', {'.'}, [x[0], '.']);
    }
  }

  /** The escaping loop: a backslash before each character of `Escaped`,
      one character at a time, cutting the result back to its length. */
  method EscapeAll(name: string) returns (username: string)
    requires NoDoubleDot(name)
    ensures |username| == |name| && NoDoubleDot(username)
  {
    username := name;
    for i := 0 to |Escaped|
      invariant |username| == |name|
      invariant NoDoubleDot(username)
    {
      if Escaped[i] in username {
        EscapeKeepsNoDoubleDot(username, Escaped[i]);
        var longer := Escape(username, Escaped[i]);
        username := longer[..|name|];
        assert forall j :: 0 <= j < |username| ==> username[j] == longer[j];
      }
    }
  }

  /** `get_randname(length, "wd")`: letters and digits only. */
  method AlnumName(length: nat, tape: Tape, pos: nat) returns (s: string, next: nat)
    ensures |s| == length
    ensures forall k :: 0 <= k < |s| ==> IsAlnum(s[k])
    ensures next > pos
  {
    s, next := Name(length, "wd", tape, pos);
    AlnumAlphabet();
  }

  /** The letters-and-digits alphabet "wd". */
  lemma AlnumAlphabet()
    ensures forall k :: 0 <= k < |Alphabet("wd")| ==> IsAlnum(Alphabet("wd")[k])
  {
    ClassesOfWd();
    LettersAndDigitsAreAlnum();
    var t := AsciiLetters + Digits;
    forall k | 0 <= k < |t| ensures IsAlnum(t[k]) {
      if k >= |AsciiLetters| {
        assert t[k] == Digits[k - |AsciiLetters|];
      }
    }
  }

  lemma ClassesOfWd()
    ensures Alphabet("wd") == AsciiLetters + Digits
  {
    assert "wd"[..1] == "w" && "w"[..0] == "";
    assert Classes("w") == ClassOf('w');
  }

  /** `get_random_email_value(length, safe)`: the address, the length of
      its local part and the tape position after it. */
  method RandomEmailValue(length: int, safe: bool, tape: Tape, pos: nat)
    returns (r: Result<(string, nat), RandomError>, nameLength: nat)
    ensures length < 3 <==> r.Err?
    ensures r.Err? ==> r.error == ValueError("Email length cannot be less than 3")
    ensures r.Ok? ==> |r.value.0| == length
    ensures r.Ok? ==> 1 <= nameLength < length && r.value.0[nameLength] == '@'
    ensures r.Ok? && length < 6 ==> nameLength == 1
    ensures r.Ok? && length >= 6 ==> Min(2, length - 5) <= nameLength <= Min(64, length - 5)
    ensures r.Ok? ==> WellFormedLocalPart(r.value.0[..nameLength])
    ensures r.Ok? && (safe || nameLength == 1) ==> forall k :: 0 <= k < nameLength ==> IsAlnum(r.value.0[k])
    ensures r.Ok? ==> forall k :: 0 <= k < |r.value.0| ==> !IsAsciiUpper(r.value.0[k])
  {
    if length < 3 {
      return Err(ValueError("Email length cannot be less than 3")), 0;
    }
    var p := pos;
    var username, domain;
    if length < 6 {
      nameLength := 1;
      username, p := AlnumName(1, tape, p);
      domain, p := AlnumName(length - 2, tape, p);
    } else {
      nameLength := RandInt(Min(2, length - 5), Min(64, length - 5), tape, p).value;
      p := p + 1;
      username, p := RandomLocalPart(nameLength, safe, tape, p);
      var domainDraw := RandomDomainValue(length - nameLength - 1, tape, p);
      domain, p := domainDraw.value.0, domainDraw.value.1;
    }
    var text := Lower(username + "@" + domain);
    LowerLocalPart(username, domain);
    r := Ok((text, p));
  }

  /** Lower-casing keeps a well-formed local part well formed and letters
      and digits letters and digits. */
  lemma LowerLocalPart(username: string, domain: string)
    requires WellFormedLocalPart(username)
    ensures Lower(username + "@" + domain)[..|username|] == Lower(username)
    ensures WellFormedLocalPart(Lower(username))
    ensures forall k :: 0 <= k < |username| && IsAlnum(username[k]) ==> IsAlnum(Lower(username)[k])
  {
    var u := Lower(username);
    forall i | 0 <= i < |u| - 1 ensures !(u[i] == '.' && u[i + 1] == '.') {
      assert u[i] == LowerChar(username[i]) && u[i + 1] == LowerChar(username[i + 1]);
    }
  }
}
