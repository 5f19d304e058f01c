/** `decimal.Decimal(value)` on the values a field's bounds can hold:
    numbers are taken by value, text is read by the numeric string syntax
    of the decimal module, and other types are refused. */
module Decimals {
  import opened Wrappers
  import opened Strings
  import opened Values

  datatype DecimalError =
      /** A type `Decimal()` does not convert: "conversion from ... to
          Decimal is not supported" (TypeError). */
    | NotSupported(v: Value)
      /** Text outside the numeric string syntax (decimal.InvalidOperation). */
    | InvalidText(text: string)
      /** A list that is not a (sign, digits, exponent) triple: "argument
          must be a sequence of length 3" (ValueError). */
    | NotATriple(v: Value)
      /** Infinities, NaNs, text with spaces, underscores or characters
          outside printable ASCII, and digit triples. */
    | NotModelled(what: string)

  /** A character whose role in the text syntax the model leaves open:
      whitespace (stripped by `Decimal()`), `_` (a digit separator) and
      anything beyond printable ASCII (such as other Unicode digits). */
  predicate Unmodelled(c: char) { c <= ' ' || c == '_' || c > '~' }

  /** The first position of `s` holding one of `cs`, or the end. */
  function IndexOf(s: string, cs: set<char>): (i: nat)
    ensures i <= |s|
    decreases |s|
  {
    if s == [] || s[0] in cs then 0 else 1 + IndexOf(s[1..], cs)
  }

  /** A possibly empty run of digits. */
  predicate AllDigits(s: string) { forall i :: 0 <= i < |s| ==> IsDigit(s[i]) }

  /** Whether `s` starts with a minus sign, and `s` without its leading sign. */
  function Unsigned(s: string): (r: (bool, string))
    ensures r.0 <==> s != [] && s[0] == '-'
    ensures r.1 == if s != [] && (s[0] == '+' || s[0] == '-') then s[1..] else s
  {
    if s != [] && (s[0] == '+' || s[0] == '-') then (s[0] == '-', s[1..]) else (false, s)
  }

  /** The spellings of infinity and NaN, in any case: "inf", "infinity",
      and "nan" or "snan" followed by an optional payload of digits. */
  predicate IsSpecial(body: string)
  {
    var b := Lower(body);
    b == "inf" || b == "infinity"
    || (|b| >= 3 && b[..3] == "nan" && AllDigits(b[3..]))
    || (|b| >= 4 && b[..4] == "snan" && AllDigits(b[4..]))
  }

  /** `n` with the sign the text gave it. */
  function Signed(neg: bool, n: nat): (i: int)
    ensures neg ==> i == -(n as int)
    ensures !neg ==> i == n
  {
    if neg then -(n as int) else n
  }

  /** The text holds a character the model leaves open. */
  predicate HasUnmodelled(text: string)
  {
    exists i :: 0 <= i < |text| && Unmodelled(text[i])
  }

  /** The exponent after "e" or "E": an optional sign and at least one digit. */
  function ParseExponent(s: string): Option<int>
  {
    var (neg, digits) := Unsigned(s);
    if IsDigits(digits) then Some(Signed(neg, ParseDigits(digits))) else Option.None
  }

  /** Digits around an optional point, at least one of them: the digits
      read as one integer, and how many follow the point. */
  function ParseMantissa(m: string): Option<(nat, nat)>
  {
    var p := IndexOf(m, {'.'});
    var whole := m[..p];
    var fraction := if p < |m| then m[p + 1..] else "";
    if AllDigits(whole) && AllDigits(fraction) && |whole| + |fraction| > 0 then
      DigitsConcat(whole, fraction);
      Some((ParseDigits(whole + fraction), |fraction|))
    else Option.None
  }

  /** A number without its sign: a mantissa, then an optional exponent. The
      result is the mantissa's digits as one integer and the exponent of its
      last digit. */
  function ParseUnsigned(body: string): Option<(nat, int)>
  {
    var e := IndexOf(body, {'e', 'E'});
    var exponent := if e < |body| then ParseExponent(body[e + 1..]) else Some(0);
    match (ParseMantissa(body[..e]), exponent)
    case (Some((digits, places)), Some(x)) => Some((digits, x - places))
    case _ => Option.None
  }

  /** `Decimal(text)`. */
  function DecimalOfText(text: string): (r: Result<Value, DecimalError>)
    ensures r.Ok? ==> r.value.Decimal?
    ensures r.Err? ==> r.error == InvalidText(text) || r.error.NotModelled?
  {
    if HasUnmodelled(text) then
      Err(NotModelled("text with spaces, underscores or characters beyond ASCII"))
    else
      var (neg, body) := Unsigned(text);
      if IsSpecial(body) then Err(NotModelled("an infinity or a NaN"))
      else
        match ParseUnsigned(body)
        case None => Err(InvalidText(text))
        case Some((digits, exp)) => Ok(Decimal(Signed(neg, digits), exp))
  }

  /** `Decimal(value)`: a bool or an int becomes the Decimal of its value, a
      Decimal stays as it is, text is parsed, a list is read as a triple, and
      every other type is refused. */
  function DecimalOf(v: Value): (r: Result<Value, DecimalError>)
    ensures r.Ok? ==> r.value.Decimal?
    ensures IsNumber(v) ==> r.Ok? && PyEq(r.value, v)
    ensures v.Decimal? ==> r == Ok(v)
    ensures v.Str? ==> r == DecimalOfText(v.s)
    ensures r == Err(NotSupported(v)) <==> !(IsNumber(v) || v.Str? || v.List?)
  {
    match v
    case Bool(b) => Ok(Decimal(if b then 1 else 0, 0))
    case Int(i) => Ok(Decimal(i, 0))
    case Decimal(_, _) => Ok(v)
    case Str(s) => DecimalOfText(s)
    case List(items) =>
      if |items| == 3 then Err(NotModelled("a (sign, digits, exponent) triple")) else Err(NotATriple(v))
    case _ => Err(NotSupported(v))
  }

  /** `IndexOf` stops at the first character from `cs`. */
  lemma {:induction false} IndexOfAt(a: string, x: char, b: string, cs: set<char>)
    requires forall i :: 0 <= i < |a| ==> a[i] !in cs
    requires x in cs
    ensures IndexOf(a + [x] + b, cs) == |a|
    decreases |a|
  {
    var s := a + [x] + b;
    if a == [] {
      assert s[0] == x;
    } else {
      assert s[0] == a[0];
      assert s[1..] == a[1..] + [x] + b;
      IndexOfAt(a[1..], x, b, cs);
    }
  }

  /** Without a character from `cs`, `IndexOf` reaches the end. */
  lemma {:induction false} IndexOfNone(s: string, cs: set<char>)
    requires forall i :: 0 <= i < |s| ==> s[i] !in cs
    ensures IndexOf(s, cs) == |s|
    decreases |s|
  {
    if s != [] {
      assert s[0] !in cs;
      IndexOfNone(s[1..], cs);
    }
  }

  /** Two runs of digits, not both empty, make a number. */
  lemma DigitsConcat(a: string, b: string)
    requires AllDigits(a) && AllDigits(b) && |a| + |b| > 0
    ensures IsDigits(a + b)
  {
    assert forall i :: 0 <= i < |a + b| ==> (a + b)[i] == if i < |a| then a[i] else b[i - |a|];
  }

  /** The mantissa `w` or `w.f`. */
  function MantissaText(w: string, f: string, point: bool): string
  {
    if point then w + "." + f else w
  }

  /** `w.f` reads back as the digits `wf` with `|f|` after the point. */
  lemma MantissaPoint(m: string, w: string, f: string, digits: nat)
    requires m == w + "." + f
    requires AllDigits(w) && AllDigits(f) && IsDigits(w + f) && digits == ParseDigits(w + f)
    ensures ParseMantissa(m) == Some((digits, |f|))
  {
    IndexOfAt(w, '.', f, {'.'});
    assert m == w + ['.'] + f;
    assert m[..|w|] == w;
    assert m[|w| + 1..] == f;
  }

  /** Digits without a point read back as themselves. */
  lemma MantissaPlain(m: string, f: string, digits: nat)
    requires f == "" && IsDigits(m + f) && digits == ParseDigits(m + f)
    ensures ParseMantissa(m) == Some((digits, |f|))
  {
    assert m + f == m;
    IndexOfNone(m, {'.'});
    assert m[..|m|] == m;
    assert m + "" == m;
  }

  /** A mantissa reads back as its digits and the number after the point. */
  lemma MantissaValue(m: string, w: string, f: string, point: bool, digits: nat)
    requires m == MantissaText(w, f, point)
    requires AllDigits(w) && AllDigits(f) && (!point ==> f == "")
    requires IsDigits(w + f) && digits == ParseDigits(w + f)
    ensures ParseMantissa(m) == Some((digits, |f|))
  {
    if point {
      MantissaPoint(m, w, f, digits);
    } else {
      MantissaPlain(m, f, digits);
    }
  }

  /** A mantissa holds no exponent mark. */
  lemma MantissaWithoutMark(w: string, f: string, point: bool)
    requires AllDigits(w) && AllDigits(f)
    ensures forall i :: 0 <= i < |MantissaText(w, f, point)| ==> MantissaText(w, f, point)[i] !in {'e', 'E'}
  {
    var m := MantissaText(w, f, point);
    assert forall i :: 0 <= i < |m| ==> m[i] == if i < |w| then w[i] else (if i == |w| then '.' else f[i - |w| - 1]);
  }

  /** The unsigned text: a mantissa, then "E" and an exponent when there is one. */
  function BodyText(w: string, f: string, point: bool, expo: Option<string>): string
  {
    MantissaText(w, f, point) + (if expo.Some? then "E" + expo.value else "")
  }

  /** A mantissa without an exponent mark, then "E" and an exponent. */
  lemma SplitAtMark(body: string, m: string, x: string, digits: nat, places: nat, k: int, e: int)
    requires body == m + "E" + x && e == k - places
    requires forall i :: 0 <= i < |m| ==> m[i] !in {'e', 'E'}
    requires ParseMantissa(m) == Some((digits, places)) && ParseExponent(x) == Some(k)
    ensures ParseUnsigned(body) == Some((digits, e))
  {
    IndexOfAt(m, 'E', x, {'e', 'E'});
    assert body == m + ['E'] + x;
    assert body[..|m|] == m;
    assert body[|m| + 1..] == x;
  }

  /** A mantissa without an exponent mark has exponent 0. */
  lemma SplitWithoutMark(m: string, digits: nat, places: nat)
    requires forall i :: 0 <= i < |m| ==> m[i] !in {'e', 'E'}
    requires ParseMantissa(m) == Some((digits, places))
    ensures ParseUnsigned(m) == Some((digits, 0 - places))
  {
    IndexOfNone(m, {'e', 'E'});
    assert m[..|m|] == m;
  }

  /** The exponent follows the first "E". */
  lemma BodyValue(body: string, w: string, f: string, point: bool, expo: Option<string>, digits: nat, e: int)
    requires body == BodyText(w, f, point, expo)
    requires AllDigits(w) && AllDigits(f) && |w| + |f| > 0 && (!point ==> f == "")
    requires expo.Some? ==> ParseExponent(expo.value).Some?
    requires IsDigits(w + f) && digits == ParseDigits(w + f)
    requires (if expo.Some? then ParseExponent(expo.value).value else 0) - |f| == e
    ensures ParseUnsigned(body) == Some((digits, e))
  {
    MantissaValue(MantissaText(w, f, point), w, f, point, digits);
    MantissaWithoutMark(w, f, point);
    if expo.Some? {
      SplitAtMark(body, MantissaText(w, f, point), expo.value, digits, |f|, ParseExponent(expo.value).value, e);
    } else {
      MantissaOnly(body, MantissaText(w, f, point), digits, |f|, e);
    }
  }

  lemma MantissaOnly(body: string, m: string, digits: nat, places: nat, e: int)
    requires body == m && e == 0 - places
    requires forall i :: 0 <= i < |m| ==> m[i] !in {'e', 'E'}
    requires ParseMantissa(m) == Some((digits, places))
    ensures ParseUnsigned(body) == Some((digits, e))
  {
    SplitWithoutMark(m, digits, places);
  }

  /** A signed exponent reads back as written. */
  lemma ExponentText(k: nat, minus: bool)
    ensures ParseExponent((if minus then "-" else "+") + NatToString(k)) == Some(if minus then -(k as int) else k)
  {
    var t := (if minus then "-" else "+") + NatToString(k);
    ParseNatToString(k);
    assert t[1..] == NatToString(k);
  }

  /** A text that starts with a digit after its sign spells no infinity or
      NaN. */
  lemma DigitNotSpecial(body: string)
    requires body != [] && IsDigit(body[0])
    ensures !IsSpecial(body)
  {
    var b := Lower(body);
    assert b[0] == body[0];
    assert "inf"[0] == 'i' && "infinity"[0] == 'i';
  }

  /** The characters `str()` writes for a Decimal. */
  predicate NumberChar(c: char) { IsDigit(c) || c == '.' || c == '-' || c == '+' || c == 'E' }

  predicate NumberText(s: string) { forall i :: 0 <= i < |s| ==> NumberChar(s[i]) }

  lemma NumberTextConcat(a: string, b: string)
    requires NumberText(a) && NumberText(b)
    ensures NumberText(a + b)
  {
    assert forall i :: 0 <= i < |a + b| ==> (a + b)[i] == if i < |a| then a[i] else b[i - |a|];
  }

  /** The text of a number: its sign, then the unsigned text. */
  function Assemble(minus: bool, w: string, f: string, point: bool, expo: Option<string>): string
  {
    (if minus then "-" else "") + BodyText(w, f, point, expo)
  }

  /** The assembled text is made of number characters, and its sign comes
      off as written. */
  lemma AssembledText(minus: bool, w: string, f: string, point: bool, expo: Option<string>)
    requires w != [] && AllDigits(w) && AllDigits(f)
    requires expo.Some? ==> NumberText(expo.value)
    ensures !HasUnmodelled(Assemble(minus, w, f, point, expo))
    ensures Unsigned(Assemble(minus, w, f, point, expo)) == (minus, BodyText(w, f, point, expo))
    ensures BodyText(w, f, point, expo)[0] == w[0]
  {
    var body := BodyText(w, f, point, expo);
    var text := Assemble(minus, w, f, point, expo);
    assert body[0] == w[0];
    if minus {
      assert text[0] == '-' && text[1..] == body;
    } else {
      assert text == body;
    }
    assert NumberText(w) && NumberText(f);
    if point {
      NumberTextConcat(w, ".");
      NumberTextConcat(w + ".", f);
    }
    if expo.Some? {
      NumberTextConcat("E", expo.value);
    }
    NumberTextConcat(MantissaText(w, f, point), if expo.Some? then "E" + expo.value else "");
    NumberTextConcat(if minus then "-" else "", body);
    assert forall i :: 0 <= i < |text| ==> NumberChar(text[i]);
  }

  /** An assembled text reads back as the number whose digits and
      exponent it was assembled from. */
  lemma AssembledValue(text: string, minus: bool, w: string, f: string, point: bool, expo: Option<string>, c: int, e: int)
    requires text == Assemble(minus, w, f, point, expo)
    requires w != [] && AllDigits(w) && AllDigits(f) && (!point ==> f == "")
    requires expo.Some? ==> ParseExponent(expo.value).Some? && NumberText(expo.value)
    requires IsDigits(w + f) && Signed(minus, ParseDigits(w + f)) == c
    requires (if expo.Some? then ParseExponent(expo.value).value else 0) - |f| == e
    ensures DecimalOfText(text) == Ok(Decimal(c, e))
  {
    AssembledText(minus, w, f, point, expo);
    BodyValue(BodyText(w, f, point, expo), w, f, point, expo, ParseDigits(w + f), e);
    DigitNotSpecial(BodyText(w, f, point, expo));
  }

  /** The digits of a coefficient, without its sign. */
  function Magnitude(c: int): nat { if c < 0 then -c else c }

  /** Plain notation is a mantissa: the digits with the point `-e` of
      them from the end, or "0." and zeros before all of them. */
  lemma PlainShape(d: string, e: int, w: string, f: string, point: bool)
    requires e <= 0
    requires var n := |d|;
      if e == 0 then w == d && f == "" && !point
      else if n + e > 0 then w == d[..n + e] && f == d[n + e..] && point
      else w == "0" && f == Zeros(-(n + e)) + d && point
    ensures PlainNotation(d, e) == MantissaText(w, f, point)
  {
    if e != 0 && |d| + e <= 0 {
      assert PlainNotation(d, e) == "0" + "." + (Zeros(-(|d| + e)) + d);
    }
  }

  /** Scientific notation is a mantissa of the first digit and the others,
      then "E" and the exponent. */
  lemma ScientificShape(d: string, x: string, w: string, f: string, point: bool)
    requires |d| >= 1 && w == d[..1] && f == (if |d| > 1 then d[1..] else "") && point == (|d| > 1)
    ensures ScientificNotation(d, x) == BodyText(w, f, point, Some(x))
  {
    var tail := if point then "." + f else "";
    assert MantissaText(w, f, point) == w + tail;
    assert ScientificNotation(d, x) == (w + tail) + ("E" + x);
  }

  /** The parts of plain notation keep the digits. */
  lemma PlainParts(d: string, e: int) returns (w: string, f: string, point: bool)
    requires IsDigits(d) && e <= 0
    ensures PlainNotation(d, e) == MantissaText(w, f, point)
    ensures w != [] && AllDigits(w) && AllDigits(f) && (!point ==> f == "")
    ensures IsDigits(w + f) && ParseDigits(w + f) == ParseDigits(d) && -|f| == e
  {
    var n := |d|;
    if e == 0 {
      w, f, point := d, "", false;
      assert w + f == d;
    } else if n + e > 0 {
      w, f, point := d[..n + e], d[n + e..], true;
      assert w + f == d;
    } else {
      var z := Zeros(-(n + e));
      w, f, point := "0", z + d, true;
      assert w + f == ("0" + z) + d;
      LeadingZeros("0" + z, d);
      assert AllDigits(f) by {
        assert forall i :: 0 <= i < |f| ==> f[i] == if i < |z| then '0' else d[i - |z|];
      }
    }
    PlainShape(d, e, w, f, point);
  }

  /** A signed exponent text: the sign of `adjusted`, then its digits. */
  function ExponentTextOf(adjusted: int): string
  {
    (if adjusted >= 0 then "+" else "-") + NatToString(if adjusted >= 0 then adjusted else -adjusted)
  }

  /** The parts of scientific notation keep the digits, and the exponent
      text reads back as the adjusted exponent. */
  lemma ScientificParts(d: string, adjusted: int) returns (w: string, f: string, point: bool)
    requires IsDigits(d)
    ensures ScientificNotation(d, ExponentTextOf(adjusted)) == BodyText(w, f, point, Some(ExponentTextOf(adjusted)))
    ensures w != [] && AllDigits(w) && AllDigits(f) && (!point ==> f == "")
    ensures ParseExponent(ExponentTextOf(adjusted)) == Some(adjusted) && NumberText(ExponentTextOf(adjusted))
    ensures IsDigits(w + f) && ParseDigits(w + f) == ParseDigits(d) && |f| == |d| - 1
  {
    var n := |d|;
    var k: nat := if adjusted >= 0 then adjusted else -adjusted;
    w, f, point := d[..1], (if n > 1 then d[1..] else ""), n > 1;
    assert w + f == d;
    ExponentText(k, adjusted < 0);
    NatToStringIsDigits(k);
    NumberTextConcat(if adjusted >= 0 then "+" else "-", NatToString(k));
    ScientificShape(d, ExponentTextOf(adjusted), w, f, point);
  }

  /** `str()` of a Decimal in plain notation is assembled from a mantissa. */
  lemma PlainText(c: int, e: int) returns (w: string, f: string, point: bool)
    requires e <= 0 && e + |NatToString(Magnitude(c))| - 1 >= -6
    ensures DecimalText(c, e) == Assemble(c < 0, w, f, point, Option.None)
    ensures w != [] && AllDigits(w) && AllDigits(f) && (!point ==> f == "")
    ensures IsDigits(w + f) && ParseDigits(w + f) == Magnitude(c) && -|f| == e
  {
    var d := NatToString(Magnitude(c));
    ParseNatToString(Magnitude(c));
    NatToStringIsDigits(Magnitude(c));
    w, f, point := PlainParts(d, e);
    assert DecimalText(c, e) == (if c < 0 then "-" else "") + PlainNotation(d, e);
  }

  /** `str()` of a Decimal in scientific notation is assembled from a
      mantissa and the adjusted exponent. */
  lemma ScientificText(c: int, e: int) returns (w: string, f: string, point: bool, x: string)
    requires !(e <= 0 && e + |NatToString(Magnitude(c))| - 1 >= -6)
    ensures DecimalText(c, e) == Assemble(c < 0, w, f, point, Some(x))
    ensures w != [] && AllDigits(w) && AllDigits(f) && (!point ==> f == "")
    ensures ParseExponent(x).Some? && NumberText(x)
    ensures IsDigits(w + f) && ParseDigits(w + f) == Magnitude(c) && ParseExponent(x).value - |f| == e
  {
    var d := NatToString(Magnitude(c));
    ParseNatToString(Magnitude(c));
    NatToStringIsDigits(Magnitude(c));
    var adjusted := e + |d| - 1;
    w, f, point := ScientificParts(d, adjusted);
    x := ExponentTextOf(adjusted);
    assert DecimalText(c, e) == (if c < 0 then "-" else "") + ScientificNotation(d, x);
  }

  /** The text of a Decimal is assembled from its digits: plain notation
      with the point `-e` digits from the end, or scientific notation after
      the first digit. */
  lemma TextShape(c: int, e: int) returns (w: string, f: string, point: bool, expo: Option<string>)
    ensures DecimalText(c, e) == Assemble(c < 0, w, f, point, expo)
    ensures w != [] && AllDigits(w) && AllDigits(f) && (!point ==> f == "")
    ensures expo.Some? ==> ParseExponent(expo.value).Some? && NumberText(expo.value)
    ensures IsDigits(w + f) && ParseDigits(w + f) == Magnitude(c)
    ensures (if expo.Some? then ParseExponent(expo.value).value else 0) - |f| == e
  {
    if e <= 0 && e + |NatToString(Magnitude(c))| - 1 >= -6 {
      w, f, point := PlainText(c, e);
      expo := Option.None;
    } else {
      var x;
      w, f, point, x := ScientificText(c, e);
      expo := Some(x);
    }
  }

  /** `Decimal(str(d)) == d`: the text of every Decimal reads back as the
      same coefficient and exponent. */
  lemma TextRoundTrip(c: int, e: int)
    ensures DecimalOfText(DecimalText(c, e)) == Ok(Decimal(c, e))
  {
    var w, f, point, expo := TextShape(c, e);
    assert Signed(c < 0, ParseDigits(w + f)) == c;
    AssembledValue(DecimalText(c, e), c < 0, w, f, point, expo, c, e);
  }

  /** A mantissa needs a digit. */
  lemma MantissaNeedsDigit(m: string)
    requires forall i :: 0 <= i < |m| ==> !IsDigit(m[i])
    ensures ParseMantissa(m) == Option.None
  {
    var p := IndexOf(m, {'.'});
    if p > 0 {
      assert m[..p][0] == m[0];
    }
    if p + 1 < |m| {
      assert m[p + 1..][0] == m[p + 1];
    }
  }

  /** A number needs a digit before its exponent. */
  lemma UnsignedNeedsDigit(body: string)
    requires forall i :: 0 <= i < |body| ==> !IsDigit(body[i])
    ensures ParseUnsigned(body) == Option.None
  {
    var e := IndexOf(body, {'e', 'E'});
    assert forall i :: 0 <= i < e ==> body[..e][i] == body[i];
    MantissaNeedsDigit(body[..e]);
  }

  /** `Decimal(text)` of a text without a digit that spells no infinity or
      NaN is an invalid operation, naming the text. */
  lemma NoDigitInvalid(text: string)
    requires forall i :: 0 <= i < |text| ==> !IsDigit(text[i])
    requires !HasUnmodelled(text) && !IsSpecial(Unsigned(text).1)
    ensures DecimalOfText(text) == Err(InvalidText(text))
  {
    var body := Unsigned(text).1;
    assert forall i :: 0 <= i < |body| ==> body[i] == text[i + |text| - |body|];
    UnsignedNeedsDigit(body);
  }
}
