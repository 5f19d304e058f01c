/** The Python values that flow through schemas, condition cases, payloads
    and assertion helpers: truthiness, equality (`==`) and the ISO text of
    dates, as Python defines them for these types. */
module Values {
  import Strings
  import Wrappers

  datatype Value =
    | None
    | Bool(b: bool)
    | Int(i: int)
      /** A finite `decimal.Decimal`, equal to coef * 10^exp. */
    | Decimal(coef: int, exp: int)
    | Str(s: string)
    | Date(year: nat, month: nat, day: nat)
    | DateTime(year: nat, month: nat, day: nat, hour: nat, minute: nat, second: nat, microsecond: nat)
      /** A `datetime.timedelta`, as its total number of microseconds. */
    | Duration(micros: int)
    | List(items: seq<Value>)
    | Dict(entries: map<string, Value>)

  /** Python truthiness: None, False, zero, and empty strings, lists and
      dicts are falsy; dates are always truthy. */
  predicate Truthy(v: Value)
  {
    match v
    case None => false
    case Bool(b) => b
    case Int(i) => i != 0
    case Decimal(c, _) => c != 0
    case Str(s) => s != ""
    case Date(_, _, _) => true
    case DateTime(_, _, _, _, _, _, _) => true
    case Duration(m) => m != 0
    case List(items) => items != []
    case Dict(entries) => entries != map[]
  }

  function Pow10(n: nat): (r: nat)
    ensures r >= 1
  {
    if n == 0 then 1 else 10 * Pow10(n - 1)
  }

  predicate IsNumber(v: Value) { v.Bool? || v.Int? || v.Decimal? }

  /** A number as the fraction num / 10^scale. */
  function AsFraction(v: Value): (int, nat)
    requires IsNumber(v)
  {
    match v
    case Bool(b) => (if b then 1 else 0, 0)
    case Int(i) => (i, 0)
    case Decimal(c, e) => if e >= 0 then (c * Pow10(e), 0) else (c, -e)
  }

  /** Python `==`. Numbers compare by value across bool, int and Decimal
      (`True == 1`, `Decimal("2.0") == 2`); a date never equals a datetime;
      lists compare element-wise and dicts key by key. */
  predicate PyEq(a: Value, b: Value)
  {
    if IsNumber(a) && IsNumber(b) then
      var (n1, s1) := AsFraction(a);
      var (n2, s2) := AsFraction(b);
      n1 * Pow10(s2) == n2 * Pow10(s1)
    else match (a, b)
      case (None, None) => true
      case (Str(x), Str(y)) => x == y
      case (Date(y1, m1, d1), Date(y2, m2, d2)) => (y1, m1, d1) == (y2, m2, d2)
      case (DateTime(_, _, _, _, _, _, _), DateTime(_, _, _, _, _, _, _)) => a == b
      case (Duration(x), Duration(y)) => x == y
      case (List(xs), List(ys)) =>
        |xs| == |ys| && forall i :: 0 <= i < |xs| ==> PyEq(xs[i], ys[i])
      case (Dict(m1), Dict(m2)) =>
        m1.Keys == m2.Keys && forall k :: k in m1 ==> PyEq(m1[k], m2[k])
      case _ => false
  }

  lemma {:induction false} PyEqReflexive(v: Value)
    ensures PyEq(v, v)
  {
    match v
    case List(xs) =>
      forall i | 0 <= i < |xs| ensures PyEq(xs[i], xs[i]) {
        PyEqReflexive(xs[i]);
      }
    case Dict(m) =>
      forall k | k in m ensures PyEq(m[k], m[k]) {
        PyEqReflexive(m[k]);
      }
    case _ =>
  }

  /** Python's `type(a) == type(b)` for these values. */
  predicate SameType(a: Value, b: Value)
  {
    match (a, b)
    case (None, None) => true
    case (Bool(_), Bool(_)) => true
    case (Int(_), Int(_)) => true
    case (Decimal(_, _), Decimal(_, _)) => true
    case (Str(_), Str(_)) => true
    case (Date(_, _, _), Date(_, _, _)) => true
    case (DateTime(_, _, _, _, _, _, _), DateTime(_, _, _, _, _, _, _)) => true
    case (Duration(_), Duration(_)) => true
    case (List(_), List(_)) => true
    case (Dict(_), Dict(_)) => true
    case _ => false
  }

  /** `"%0<width>d" % n`. */
  function Pad(n: nat, width: nat): (r: string)
    ensures |r| == if |Strings.NatToString(n)| < width then width else |Strings.NatToString(n)|
  {
    var digits := Strings.NatToString(n);
    if |digits| < width then seq(width - |digits|, _ => '0') + digits else digits
  }

  /** `date.isoformat()` and `datetime.isoformat(sep)`: YYYY-MM-DD, and for
      a datetime `sep` then HH:MM:SS, followed by .ffffff when the
      microsecond is not 0. */
  function IsoFormat(v: Value, sep: char): string
    requires v.Date? || v.DateTime?
  {
    var date := IsoDate(v.year, v.month, v.day);
    if v.Date? then date
    else
      date + [sep] + Pad(v.hour, 2) + ":" + Pad(v.minute, 2) + ":" + Pad(v.second, 2)
      + (if v.microsecond == 0 then "" else "." + Pad(v.microsecond, 6))
  }

  /** YYYY-MM-DD. */
  function IsoDate(year: nat, month: nat, day: nat): string
  {
    Pad(year, 4) + "-" + Pad(month, 2) + "-" + Pad(day, 2)
  }

  function Zeros(n: nat): (r: string)
    ensures |r| == n && '.' !in r
  {
    seq(n, _ => '0')
  }

  /** `str(n)` has at most `w` digits when `n < 10^w`. */
  lemma {:induction false} ShortDigits(n: nat, w: nat)
    requires w >= 1 && n < Pow10(w)
    ensures |Strings.NatToString(n)| <= w
    decreases n
  {
    if n >= 10 {
      assert w >= 2;
      ShortDigits(n / 10, w - 1);
    }
  }

  /** `ParseDigits` ignores leading zeros. */
  lemma {:induction false} LeadingZeros(z: string, d: string)
    requires forall i :: 0 <= i < |z| ==> z[i] == '0'
    requires Strings.IsDigits(d)
    ensures Strings.IsDigits(z + d) && Strings.ParseDigits(z + d) == Strings.ParseDigits(d)
    decreases |d|
  {
    assert forall i :: 0 <= i < |z + d| ==> (z + d)[i] == if i < |z| then z[i] else d[i - |z|];
    var s := z + d;
    assert s[..|s| - 1] == z + d[..|d| - 1];
    if |d| > 1 {
      LeadingZeros(z, d[..|d| - 1]);
    } else if z != [] {
      ZerosValue(z);
    }
  }

  lemma {:induction false} ZerosValue(z: string)
    requires z != [] && forall i :: 0 <= i < |z| ==> z[i] == '0'
    ensures Strings.IsDigits(z) && Strings.ParseDigits(z) == 0
    decreases |z|
  {
    if |z| > 1 {
      ZerosValue(z[..|z| - 1]);
    }
  }

  /** `int()` of a zero-padded number gives the number back. */
  lemma PadRoundTrip(n: nat, width: nat)
    ensures Strings.IsDigits(Pad(n, width)) && Strings.ParseDigits(Pad(n, width)) == n
  {
    Strings.ParseNatToString(n);
    var digits := Strings.NatToString(n);
    if |digits| < width {
      assert Pad(n, width) == Zeros(width - |digits|) + digits;
      LeadingZeros(Zeros(width - |digits|), digits);
    }
  }

  /** YYYY-MM-DD has ten characters, and its three fields read back as
      the year, month and day. */
  lemma IsoDateFields(year: nat, month: nat, day: nat)
    requires year < 10000 && month < 100 && day < 100
    ensures var t := IsoDate(year, month, day);
            && |t| == 10 && t[4] == '-' && t[7] == '-'
            && Strings.IsDigits(t[..4]) && Strings.ParseDigits(t[..4]) == year
            && Strings.IsDigits(t[5..7]) && Strings.ParseDigits(t[5..7]) == month
            && Strings.IsDigits(t[8..]) && Strings.ParseDigits(t[8..]) == day
  {
    assert Pow10(2) == 100 && Pow10(4) == 10000;
    ShortDigits(year, 4);
    ShortDigits(month, 2);
    ShortDigits(day, 2);
    PadRoundTrip(year, 4);
    PadRoundTrip(month, 2);
    PadRoundTrip(day, 2);
    var t := IsoDate(year, month, day);
    assert t[..4] == Pad(year, 4);
    assert t[5..7] == Pad(month, 2);
    assert t[8..] == Pad(day, 2);
  }

  /** The ISO text of a date is its YYYY-MM-DD; that of a datetime starts
      with it and continues with `sep`. */
  lemma IsoFormatDate(v: Value, sep: char)
    requires v.Date? || v.DateTime?
    requires v.year < 10000 && v.month < 100 && v.day < 100
    ensures var t := IsoFormat(v, sep);
            && |t| >= 10 && t[..10] == IsoDate(v.year, v.month, v.day)
            && (v.Date? <==> |t| == 10) && (v.DateTime? ==> t[10] == sep)
  {
    IsoDateFields(v.year, v.month, v.day);
  }

  /** Two dates with the same ISO text are the same date. */
  lemma IsoDateInjective(a: Value, b: Value, sep: char)
    requires a.Date? && a.year < 10000 && a.month < 100 && a.day < 100
    requires b.Date? && b.year < 10000 && b.month < 100 && b.day < 100
    requires IsoFormat(a, sep) == IsoFormat(b, sep)
    ensures a == b
  {
    IsoFormatDate(a, sep);
    IsoFormatDate(b, sep);
    IsoDateFields(a.year, a.month, a.day);
    IsoDateFields(b.year, b.month, b.day);
  }

  /** `str(Decimal)`: plain notation when the exponent is not positive and
      the adjusted exponent is at least -6, scientific notation otherwise. */
  function DecimalText(coef: int, exp: int): string
  {
    var digits := Strings.NatToString(if coef < 0 then -coef else coef);
    var sign := if coef < 0 then "-" else "";
    var adjusted := exp + |digits| - 1;
    if exp <= 0 && adjusted >= -6 then sign + PlainNotation(digits, exp)
    else
      sign + ScientificNotation(digits, (if adjusted >= 0 then "+" else "-")
                                        + Strings.NatToString(if adjusted >= 0 then adjusted else -adjusted))
  }

  /** The digits with the point `-exp` of them from the end, after "0." and
      zeros when there are fewer digits than that. */
  function PlainNotation(digits: string, exp: int): string
    requires exp <= 0
  {
    if exp == 0 then digits
    else if |digits| + exp > 0 then digits[..|digits| + exp] + "." + digits[|digits| + exp..]
    else "0." + Zeros(-(|digits| + exp)) + digits
  }

  /** The first digit, the others after a point, then "E" and the signed
      adjusted exponent. */
  function ScientificNotation(digits: string, exponent: string): string
    requires |digits| >= 1
  {
    digits[..1] + (if |digits| > 1 then "." + digits[1..] else "") + "E" + exponent
  }

  /** `str(v)` for the values whose text the model needs; containers and
      timedeltas are not rendered. */
  function PyStr(v: Value): Wrappers.Option<string>
  {
    match v
    case None => Wrappers.Some("None")
    case Bool(b) => Wrappers.Some(if b then "True" else "False")
    case Int(i) => Wrappers.Some(Strings.IntToString(i))
    case Decimal(c, e) => Wrappers.Some(DecimalText(c, e))
    case Str(s) => Wrappers.Some(s)
    case Date(_, _, _) => Wrappers.Some(IsoFormat(v, 'T'))
    case DateTime(_, _, _, _, _, _, _) => Wrappers.Some(IsoFormat(v, ' '))
    case _ => Wrappers.None
  }

  /** `str(Decimal("0.1") ** p)` has exactly p digits after its point for
      1 <= p <= 6, and no point at all from p = 7 on ("1E-7"). */
  lemma TenthPowerText(p: nat)
    requires p >= 1
    ensures p <= 6 ==> Strings.Split(DecimalText(1, -(p as int)), '.') == ["0", Zeros(p - 1) + "1"]
    ensures p > 6 ==> '.' !in DecimalText(1, -(p as int))
  {
    assert Strings.NatToString(1) == "1";
    if p <= 6 {
      assert DecimalText(1, -(p as int)) == "0" + "." + (Zeros(p - 1) + "1");
      Strings.SplitTwo("0", Zeros(p - 1) + "1", '.');
    } else {
      var e := Strings.NatToString(p);
      Strings.NatToStringIsDigits(p);
      assert DecimalText(1, -(p as int)) == "1E-" + e;
      assert forall i :: 0 <= i < |e| ==> e[i] != '.';
    }
  }
}
