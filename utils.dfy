/** `convert_size_to_bytes`: the first run of digits and dots in the text of
    a size, optionally followed by one word character that picks the unit
    (K, M or G for 1024, 1024² or 1024³; anything else for bytes). */
module Utils {
  import opened Wrappers
  import opened Strings
  import Values

  datatype SizeError =
      /** The text holds no digit or dot: `re.findall(...)[0]` raises IndexError. */
    | NoNumber
      /** The run has no digit or more than one dot: `float` raises ValueError. */
    | NotAFloat(run: string)
      /** A run with one dot, such as "1.5": float arithmetic, not modelled. */
    | FractionalSize(run: string)
      /** `str()` of a container or a timedelta, not rendered by the model. */
    | TextNotModelled
      /** The size overflows a float to infinity: `int(inf)` raises OverflowError. */
    | Overflow(run: string)

  /** A character of `[\d\.]`. */
  predicate IsNumberChar(c: char) { IsDigit(c) || c == '.' }

  /** A character of `\w`, restricted to ASCII. */
  predicate IsWordChar(c: char) { IsDigit(c) || IsAsciiLetter(c) || c == '_' }

  /** The longest prefix of `s` made of digits and dots. */
  function Run(s: string): (r: string)
    ensures |r| <= |s| && r == s[..|r|]
    ensures forall i :: 0 <= i < |r| ==> IsNumberChar(r[i])
    ensures |r| < |s| ==> !IsNumberChar(s[|r|])
    decreases |s|
  {
    if s != [] && IsNumberChar(s[0]) then [s[0]] + Run(s[1..]) else []
  }

  /** The first match of `([\d\.]+)(\w?)`: the run and the optional unit. */
  function FirstMatch(s: string): Option<(string, string)>
    decreases |s|
  {
    if s == [] then None
    else if IsNumberChar(s[0]) then
      var run := Run(s);
      var rest := s[|run|..];
      Some((run, if rest != [] && IsWordChar(rest[0]) then [rest[0]] else ""))
    else FirstMatch(s[1..])
  }

  /** `1024 ** SYMBOLS.index(symbol if symbol in SYMBOLS else "")`. */
  function Multiplier(symbol: string): (m: nat)
    ensures m >= 1
  {
    if symbol == "K" then 1024
    else if symbol == "M" then 1024 * 1024
    else if symbol == "G" then 1024 * 1024 * 1024
    else 1
  }

  /** The significant binary digits of a float. */
  const Precision: nat := 53

  /** Finite floats are below 2^MaxExponent. */
  const MaxExponent: nat := 1024

  function Pow2(k: nat): (p: nat)
    ensures p >= 1
  {
    if k == 0 then 1 else 2 * Pow2(k - 1)
  }

  /** The number of binary digits of `n`. */
  function BitLength(n: nat): nat
  {
    if n == 0 then 0 else 1 + BitLength(n / 2)
  }

  /** The distance between neighbouring numbers of `p` significant binary
      digits around `n`: 1 up to 2^p, then doubling with every further
      binary digit. */
  function GapAt(n: nat, p: nat): (g: nat)
    ensures g >= 1
  {
    if BitLength(n) <= p then 1 else Pow2(BitLength(n) - p)
  }

  /** `n` as a multiple of `g`: the nearer of the two multiples around
      it, the even one on a tie. */
  function RoundTo(n: nat, g: nat): (k: nat)
    requires g >= 1
    ensures 2 * (k * g - n) <= g && 2 * (n - k * g) <= g
    ensures 2 * (k * g - n) == g || 2 * (n - k * g) == g ==> k % 2 == 0
  {
    var q := Quotient(n, g);
    var r := n - q * g;
    var k := if 2 * r > g || (2 * r == g && q % 2 == 1) then q + 1 else q;
    RoundingStep(n, g, q, r, k);
    k
  }

  /** `n / g`, by halving `n`. */
  function Quotient(n: nat, g: nat): (q: nat)
    requires g >= 1
    ensures q * g <= n < q * g + g
    decreases n
  {
    if n < g then 0 else
      var h := Quotient(n / 2, g);
      HalvingStep(n, g, h);
      if n - 2 * h * g >= g then 2 * h + 1 else 2 * h
  }

  lemma HalvingStep(n: nat, g: nat, h: nat)
    requires g >= 1 && h * g <= n / 2 < h * g + g
    ensures 2 * h * g <= n < 2 * h * g + 2 * g
    ensures (2 * h + 1) * g == 2 * h * g + g
  {
  }

  /** Rounding `n = q * g + r` to the nearer of `q` and `q + 1` multiples
      of `g`, the even one on a tie. */
  lemma RoundingStep(n: int, g: int, q: int, r: int, k: int)
    requires g >= 1 && n == q * g + r && 0 <= r < g
    requires k == if 2 * r > g || (2 * r == g && q % 2 == 1) then q + 1 else q
    ensures 2 * (k * g - n) <= g && 2 * (n - k * g) <= g
    ensures 2 * (k * g - n) == g || 2 * (n - k * g) == g ==> k % 2 == 0
  {
    assert (q + 1) * g == q * g + g;
  }

  /** `n` rounded to `p` significant binary digits. */
  function ToDoubleAt(n: nat, p: nat): nat
  {
    Scale(RoundTo(n, GapAt(n, p)), GapAt(n, p))
  }

  /** `float(n)`. The result may be 2^1024 or more, where the float is
      infinite. */
  function ToDouble(n: nat): nat
  {
    ToDoubleAt(n, Precision)
  }

  /** `x * m` on naturals. */
  function Scale(x: nat, m: nat): nat { x * m }

  /** A number below 2^1024, the bound of finite floats. */
  predicate FiniteFloat(x: nat) { BitLength(x) <= MaxExponent }

  /** `convert_size_to_bytes(size)` for a size given as an int or a string:
      the conversion of its text. */
  function ConvertSizeToBytes(size: Values.Value): (r: Result<int, SizeError>)
    ensures r.Ok? ==> r.value >= 0 && FiniteFloat(r.value)
  {
    match Values.PyStr(size)
    case None => Err(TextNotModelled)
    case Some(text) => SizeOfText(text)
  }

  /** The bytes of the first number and unit in `text`. */
  function SizeOfText(text: string): (r: Result<int, SizeError>)
    ensures r.Ok? ==> r.value >= 0 && FiniteFloat(r.value)
  {
    match FirstMatch(text)
    case None => Err(NoNumber)
    case Some((run, symbol)) =>
      if '.' in run then
        if IsDigits(Remove(run, '.')) && Count(run, '.') == 1 then Err(FractionalSize(run)) else Err(NotAFloat(run))
      else
        assert IsDigits(run) by { RunIsDigits(text); }
        var bytes := Scale(ToDouble(ParseDigits(run)), Multiplier(symbol));
        if FiniteFloat(bytes) then Ok(bytes) else Err(Overflow(run))
  }

  /** `s` without the occurrences of `c`. */
  function Remove(s: string, c: char): (r: string)
    ensures |r| <= |s|
    decreases |s|
  {
    if s == [] then [] else (if s[0] == c then [] else [s[0]]) + Remove(s[1..], c)
  }

  lemma {:induction false} RunIsDigits(text: string)
    requires FirstMatch(text).Some? && '.' !in FirstMatch(text).value.0
    ensures IsDigits(FirstMatch(text).value.0)
    decreases |text|
  {
    if text != [] && !IsNumberChar(text[0]) {
      RunIsDigits(text[1..]);
    } else {
      var run := Run(text);
      assert run != [] && run[0] == text[0];
      assert forall i :: 0 <= i < |run| ==> IsNumberChar(run[i]) && run[i] != '.';
    }
  }

  /** Text without digits or dots in front of the number is skipped. */
  lemma {:induction false} FirstMatchSkips(junk: string, s: string)
    requires forall i :: 0 <= i < |junk| ==> !IsNumberChar(junk[i])
    ensures FirstMatch(junk + s) == FirstMatch(s)
    decreases |junk|
  {
    if junk != [] {
      assert (junk + s)[1..] == junk[1..] + s;
      FirstMatchSkips(junk[1..], s);
    } else {
      assert junk + s == s;
    }
  }

  /** The number of `str(n)` followed by a non-digit word character `c` is the
      first match, whatever follows it. */
  lemma FirstMatchOfNumber(n: nat, c: char, rest: string)
    requires IsWordChar(c) && !IsDigit(c)
    ensures FirstMatch(NatToString(n) + [c] + rest) == Some((NatToString(n), [c]))
  {
    var digits := NatToString(n);
    var s := digits + [c] + rest;
    NatToStringIsDigits(n);
    RunOfDigits(digits, [c] + rest);
    assert s == digits + ([c] + rest);
    assert s[|digits|..] == [c] + rest;
  }

  /** The number of `str(n)` alone is the first match, with no unit. */
  lemma FirstMatchOfPlainNumber(n: nat)
    ensures FirstMatch(NatToString(n)) == Some((NatToString(n), ""))
  {
    var digits := NatToString(n);
    NatToStringIsDigits(n);
    RunOfDigits(digits, "");
    assert digits + "" == digits;
  }

  lemma {:induction false} RunOfDigits(digits: string, rest: string)
    requires IsDigits(digits) && (rest != [] ==> !IsNumberChar(rest[0]))
    ensures Run(digits + rest) == digits
    decreases |digits|
  {
    var s := digits + rest;
    if |digits| > 1 {
      assert s[1..] == digits[1..] + rest;
      RunOfDigits(digits[1..], rest);
      assert [digits[0]] + digits[1..] == digits;
    } else {
      assert s[1..] == rest;
      if rest != [] {
        assert Run(rest) == [];
      }
    }
  }

  /** The digits of a number hold no dot. */
  lemma DigitsHaveNoDot(n: nat)
    ensures '.' !in NatToString(n)
  {
    NatToStringIsDigits(n);
    var d := NatToString(n);
    assert forall i :: 0 <= i < |d| ==> d[i] != '.';
  }

  /** The size of digits with an optional unit: `float()` of the digits
      times the unit's multiplier. */
  lemma SizeOfDigits(n: nat, symbol: string, text: string)
    requires FirstMatch(text) == Some((NatToString(n), symbol))
    ensures SizeOfText(text)
            == if FiniteFloat(Scale(ToDouble(n), Multiplier(symbol))) then Ok(Scale(ToDouble(n), Multiplier(symbol)))
               else Err(Overflow(NatToString(n)))
  {
    ParseNatToString(n);
    DigitsHaveNoDot(n);
  }

  /** Up to 2^53 the digits are exact, and the size is the number times
      the unit's multiplier. */
  lemma ExactSize(n: nat, symbol: string, text: string)
    requires FirstMatch(text) == Some((NatToString(n), symbol)) && n <= Pow2(Precision)
    ensures SizeOfText(text) == Ok(Scale(n, Multiplier(symbol)))
  {
    SizeOfDigits(n, symbol, text);
    ExactBelow(n);
    MultiplierBound(symbol);
    SmallIsFinite(n, Multiplier(symbol));
  }

  /** The digits of a number up to 2^53 convert back to the number. */
  lemma PlainDigitsUnchanged(n: nat)
    requires n <= Pow2(Precision)
    ensures ConvertSizeToBytes(Values.Str(NatToString(n))) == Ok(n)
  {
    FirstMatchOfPlainNumber(n);
    ExactSize(n, "", NatToString(n));
    SizeOfStr(NatToString(n));
    PlainMultiplier(n);
  }

  /** A plain integer from 0 to 2^53 is returned unchanged. */
  lemma PlainSizeUnchanged(n: nat)
    requires n <= Pow2(Precision)
    ensures ConvertSizeToBytes(Values.Int(n)) == Ok(n)
  {
    assert Values.PyStr(Values.Int(n)) == Some(NatToString(n));
    FirstMatchOfPlainNumber(n);
    ExactSize(n, "", NatToString(n));
    PlainMultiplier(n);
  }

  /** A unit letter multiplies by its power of 1024; any other word
      character, such as a lower-case "k", leaves the number as it is; only
      the first number and unit of the text count. Up to 2^53 the number
      is exact. */
  lemma SizeWithUnit(n: nat, c: char, rest: string)
    requires IsWordChar(c) && !IsDigit(c) && n <= Pow2(Precision)
    ensures c == 'K' ==> ConvertSizeToBytes(Values.Str(NatToString(n) + [c] + rest)) == Ok(1024 * n)
    ensures c == 'M' ==> ConvertSizeToBytes(Values.Str(NatToString(n) + [c] + rest)) == Ok(1024 * 1024 * n)
    ensures c == 'G' ==> ConvertSizeToBytes(Values.Str(NatToString(n) + [c] + rest)) == Ok(1024 * 1024 * 1024 * n)
    ensures c !in "KMG" ==> ConvertSizeToBytes(Values.Str(NatToString(n) + [c] + rest)) == Ok(n)
  {
    var text := NatToString(n) + [c] + rest;
    FirstMatchOfNumber(n, c, rest);
    ExactSize(n, [c], text);
    SizeOfStr(text);
    UnitMultiplier(n, c);
  }

  /** The multiplier of a one-letter unit, spelt out. */
  lemma UnitMultiplier(x: nat, c: char)
    ensures c == 'K' ==> Scale(x, Multiplier([c])) == 1024 * x
    ensures c == 'M' ==> Scale(x, Multiplier([c])) == 1024 * 1024 * x
    ensures c == 'G' ==> Scale(x, Multiplier([c])) == 1024 * 1024 * 1024 * x
    ensures c !in "KMG" ==> Scale(x, Multiplier([c])) == x
  {
  }

  /** A string size is converted from the string itself. */
  lemma SizeOfStr(text: string)
    ensures ConvertSizeToBytes(Values.Str(text)) == SizeOfText(text)
  {
  }

  /** Without a unit the size is the number itself. */
  lemma PlainMultiplier(x: nat)
    ensures Scale(x, Multiplier("")) == x
  {
  }

  /** A plain integer size is `float()` of it, unless that is infinite. */
  lemma PlainSizeRounds(n: nat)
    ensures ConvertSizeToBytes(Values.Int(n))
            == if FiniteFloat(ToDouble(n)) then Ok(ToDouble(n)) else Err(Overflow(NatToString(n)))
  {
    assert Values.PyStr(Values.Int(n)) == Some(NatToString(n));
    FirstMatchOfPlainNumber(n);
    SizeOfDigits(n, "", NatToString(n));
    PlainMultiplier(ToDouble(n));
  }

  /** From 2^53 to 2^54 the size is `float()`'s rounding to even numbers:
      the even ones are kept, an odd one goes to the neighbour that is a
      multiple of four, the even one of the tie (2^53 + 1 becomes 2^53). */
  lemma RoundsToEven(n: nat)
    requires Pow2(Precision) <= n < Pow2(Precision + 1)
    ensures ConvertSizeToBytes(Values.Int(n))
            == Ok(if n % 4 == 1 then n - 1 else if n % 4 == 3 then n + 1 else n)
  {
    BinadeAt(n, Precision);
    var d := ToDouble(n);
    Pow2Order(Precision + 1, MaxExponent);
    BitLengthMeans(d, MaxExponent);
    RoundedSize(n, d);
  }

  /** Between 2^p and 2^(p+1), rounding to p significant binary digits
      keeps the even numbers and takes an odd one to the neighbouring
      multiple of four. */
  lemma BinadeAt(n: nat, p: nat)
    requires p >= 2 && Pow2(p) <= n < Pow2(p + 1)
    ensures ToDoubleAt(n, p) == if n % 4 == 1 then n - 1 else if n % 4 == 3 then n + 1 else n
    ensures ToDoubleAt(n, p) <= Pow2(p + 1)
  {
    PowerFour(p);
    var j := Quarter(n, Pow2(p - 2), Pow2(p - 1));
    BinadeRounding(j, p);
  }

  /** The multiple of four at or below `n`, in a range between multiples
      of four. */
  lemma Quarter(n: nat, a: nat, b: nat) returns (j: nat)
    requires 4 * a <= n < 4 * b
    ensures 4 * a <= 4 * j && 4 * j + 4 <= 4 * b
    ensures n == 4 * j + n % 4
  {
    j := n / 4;
  }

  lemma PowerFour(p: nat)
    requires p >= 2
    ensures Pow2(p) == 4 * Pow2(p - 2) && Pow2(p + 1) == 4 * Pow2(p - 1)
  {
  }

  /** An integer size whose `float()` is finite is that float. */
  lemma RoundedSize(n: nat, d: nat)
    requires ToDouble(n) == d && FiniteFloat(d)
    ensures ConvertSizeToBytes(Values.Int(n)) == Ok(d)
  {
    PlainSizeRounds(n);
  }

  /** A size of 2^1024 or more overflows `float()` to infinity, and `int()`
      of it raises OverflowError. */
  lemma OverflowAbove(n: nat, symbol: string, text: string)
    requires FirstMatch(text) == Some((NatToString(n), symbol))
    requires n >= Pow2(MaxExponent)
    ensures ConvertSizeToBytes(Values.Str(text)) == Err(Overflow(NatToString(n)))
  {
    SizeOfStr(text);
    SizeOfDigits(n, symbol, text);
    FiniteFloatMeans(n);
    DoubleOverflows(n);
    FiniteFloatMeans(ToDouble(n));
    Positive(Multiplier(symbol), ToDouble(n));
    FiniteFloatMeans(Scale(ToDouble(n), Multiplier(symbol)));
  }

  lemma {:induction false} Pow2Add(a: nat, b: nat)
    ensures Pow2(a + b) == Pow2(a) * Pow2(b)
    decreases a
  {
    if a > 0 {
      Pow2Add(a - 1, b);
    }
  }

  lemma {:induction false} Pow2Order(a: nat, b: nat)
    ensures a < b <==> Pow2(a) < Pow2(b)
    decreases a + b
  {
    if a > 0 && b > 0 {
      Pow2Order(a - 1, b - 1);
    } else if b > 0 {
      Pow2Order(0, b - 1);
    } else if a > 0 {
      Pow2Order(a - 1, 0);
    }
  }

  /** The multipliers of the units are at most 2^30. */
  lemma MultiplierBound(symbol: string)
    ensures Multiplier(symbol) <= Pow2(30)
  {
    assert Pow2(10) == 1024;
    Pow2Add(10, 10);
    Pow2Add(20, 10);
  }

  /** `n` has `BitLength(n)` binary digits. */
  lemma {:induction false} BitLengthBounds(n: nat)
    requires n >= 1
    ensures BitLength(n) >= 1 && Pow2(BitLength(n) - 1) <= n < Pow2(BitLength(n))
    decreases n
  {
    if n >= 2 {
      BitLengthBounds(n / 2);
    }
  }

  lemma BitLengthOf(n: nat, k: nat)
    requires Pow2(k) <= n < Pow2(k + 1)
    ensures BitLength(n) == k + 1
  {
    BitLengthBounds(n);
    Pow2Order(BitLength(n) - 1, k + 1);
    Pow2Order(k, BitLength(n));
  }

  /** A number below 2^p has at most p binary digits. */
  lemma BitLengthBelow(n: nat, p: nat)
    requires n < Pow2(p)
    ensures BitLength(n) <= p
  {
    if n >= 1 {
      BitLengthBounds(n);
      Pow2Order(BitLength(n) - 1, p);
    }
  }

  /** A number at least 2^m has more than m binary digits. */
  lemma AtLeastPower(x: nat, m: nat)
    requires Pow2(m) <= x
    ensures BitLength(x) > m
  {
    BitLengthBounds(x);
    Pow2Order(m, BitLength(x));
  }

  /** `BitLength(x) <= e` is `x < 2^e`. */
  lemma BitLengthMeans(x: nat, e: nat)
    ensures BitLength(x) <= e <==> x < Pow2(e)
  {
    if x >= 1 {
      BitLengthBounds(x);
      Pow2Order(BitLength(x) - 1, e);
      Pow2Order(e, BitLength(x));
    }
  }

  /** `FiniteFloat` is `x < 2^1024`. */
  lemma FiniteFloatMeans(x: nat)
    ensures FiniteFloat(x) <==> x < Pow2(MaxExponent)
  {
    BitLengthMeans(x, MaxExponent);
  }

  /** 2^k and 2^k + 1 have k + 1 binary digits. */
  lemma BitLengthOfPower(k: nat)
    requires k >= 1
    ensures BitLength(Pow2(k)) == k + 1 && BitLength(Pow2(k) + 1) == k + 1
  {
    Pow2Order(0, k);
    BitLengthOf(Pow2(k), k);
    BitLengthOf(Pow2(k) + 1, k);
  }

  lemma PowerEven(k: nat)
    requires k >= 1
    ensures Pow2(k) == 2 * Pow2(k - 1)
  {
  }

  /** Below 2^p consecutive integers have p binary digits. */
  lemma GapOfSmall(n: nat, p: nat)
    requires n < Pow2(p)
    ensures GapAt(n, p) == 1
  {
    BitLengthBelow(n, p);
  }

  /** A number of one digit more than p lies among neighbours two apart. */
  lemma GapAbove(n: nat, p: nat)
    requires BitLength(n) == p + 1
    ensures GapAt(n, p) == 2
  {
    assert Pow2(1) == 2;
  }

  /** A multiple of the gap is its own rounding. */
  lemma ExactAtGap(n: nat, p: nat, g: nat, m: nat)
    requires GapAt(n, p) == g && (g == 1 || (g == 2 && n == 2 * m))
    ensures ToDoubleAt(n, p) == n
  {
    var k := RoundTo(n, g);
    assert ToDoubleAt(n, p) == k * g;
  }

  /** Every integer up to 2^p has p significant binary digits. */
  lemma ExactBelowAt(n: nat, p: nat)
    requires p >= 1 && n <= Pow2(p)
    ensures ToDoubleAt(n, p) == n
  {
    if n < Pow2(p) {
      GapOfSmall(n, p);
      ExactAtGap(n, p, 1, 0);
    } else {
      PowerEven(p);
      BitLengthOf(n, p);
      GapAbove(n, p);
      ExactAtGap(n, p, 2, Pow2(p - 1));
    }
  }

  /** `float(n) == n` up to 2^53: up to there every integer is a float. */
  lemma ExactBelow(n: nat)
    requires n <= Pow2(Precision)
    ensures ToDouble(n) == n
  {
    ExactBelowAt(n, Precision);
  }

  /** An odd number between neighbours two apart rounds to the multiple
      of four, the even one of its two neighbours. */
  lemma TieDown(n: nat, p: nat, j: nat)
    requires GapAt(n, p) == 2 && n == 4 * j + 1
    ensures ToDoubleAt(n, p) == 4 * j
  {
    var k := RoundTo(n, 2);
    assert ToDoubleAt(n, p) == k * 2;
    assert k == 2 * j || k == 2 * j + 1;
  }

  lemma TieUp(n: nat, p: nat, j: nat)
    requires GapAt(n, p) == 2 && n == 4 * j + 3
    ensures ToDoubleAt(n, p) == 4 * j + 4
  {
    var k := RoundTo(n, 2);
    assert ToDoubleAt(n, p) == k * 2;
    assert k == 2 * j + 1 || k == 2 * j + 2;
  }

  /** The block 4j .. 4j + 3 between 2^p and 2^(p+1), rounded to p
      significant binary digits. */
  lemma BinadeRounding(j: nat, p: nat)
    requires p >= 1 && Pow2(p) <= 4 * j && 4 * j + 4 <= Pow2(p + 1)
    ensures ToDoubleAt(4 * j, p) == 4 * j && ToDoubleAt(4 * j + 1, p) == 4 * j
    ensures ToDoubleAt(4 * j + 2, p) == 4 * j + 2 && ToDoubleAt(4 * j + 3, p) == 4 * j + 4
  {
    BitLengthOf(4 * j, p);
    BitLengthOf(4 * j + 1, p);
    BitLengthOf(4 * j + 2, p);
    BitLengthOf(4 * j + 3, p);
    GapAbove(4 * j, p);
    GapAbove(4 * j + 1, p);
    GapAbove(4 * j + 2, p);
    GapAbove(4 * j + 3, p);
    ExactAtGap(4 * j, p, 2, 2 * j);
    TieDown(4 * j + 1, p, j);
    ExactAtGap(4 * j + 2, p, 2, 2 * j + 1);
    TieUp(4 * j + 3, p, j);
  }

  /** A multiple of `g` within half of `g` of a number at least `a * g`
      is at least `a * g`. */
  lemma RoundedNotBelow(t: nat, a: nat, g: nat, n: nat, k: nat)
    requires g >= 1 && t == a * g && t <= n && 2 * (n - k * g) <= g
    ensures t <= k * g
  {
    if k < a {
      MulLe(k, a - 1, g, g);
      assert (a - 1) * g == a * g - g;
    }
  }

  lemma Positive(x: int, g: int)
    requires g >= 1
    ensures x >= 1 ==> x * g >= g
  {
  }

  /** The power of two below a number of `l > p` digits is 2^(p-1) gaps of 2^(l-p). */
  lemma TopPower(l: nat, p: nat)
    requires l > p >= 1
    ensures Pow2(l - 1) == Pow2(p - 1) * Pow2(l - p)
  {
    Pow2Add(p - 1, l - p);
  }

  /** Rounding to a multiple of 2^(l-p) stays at or above 2^(l-1) <= n. */
  lemma RoundedAbove(n: nat, l: nat, p: nat, k: nat)
    requires l > p >= 1 && Pow2(l - 1) <= n
    requires 2 * (n - k * Pow2(l - p)) <= Pow2(l - p)
    ensures Pow2(l - 1) <= k * Pow2(l - p)
  {
    TopPower(l, p);
    RoundedNotBelow(Pow2(l - 1), Pow2(p - 1), Pow2(l - p), n, k);
  }

  /** Rounding to p digits keeps a number of more than e >= p digits
      above e digits: it stays at least the power of two below it. */
  lemma OverflowsAt(n: nat, p: nat, e: nat)
    requires 1 <= p <= e < BitLength(n)
    ensures BitLength(ToDoubleAt(n, p)) > e
  {
    var l := BitLength(n);
    BitLengthBounds(n);
    RoundedStaysAbove(n, p, l);
    AtLeastPower(ToDoubleAt(n, p), l - 1);
  }

  /** A number of `l > p` digits rounds to at least 2^(l-1). */
  lemma RoundedStaysAbove(n: nat, p: nat, l: nat)
    requires l == BitLength(n) && l > p >= 1 && Pow2(l - 1) <= n
    ensures Pow2(l - 1) <= ToDoubleAt(n, p)
  {
    var g := GapAt(n, p);
    assert g == Pow2(l - p);
    var k := RoundTo(n, g);
    RoundedAbove(n, l, p, k);
  }

  /** From 2^1024 on, `float(n)` is infinite. */
  lemma DoubleOverflows(n: nat)
    requires !FiniteFloat(n)
    ensures !FiniteFloat(ToDouble(n))
  {
    OverflowsAt(n, Precision, MaxExponent);
  }

  /** A product of at most 2^a and at most 2^b with a + b < e has at most
      e binary digits. */
  lemma ProductBits(n: nat, m: nat, a: nat, b: nat, e: nat)
    requires n <= Pow2(a) && m <= Pow2(b) && a + b < e
    ensures BitLength(Scale(n, m)) <= e && BitLength(n) <= e
  {
    Pow2Add(a, b);
    Pow2Order(a + b, e);
    Pow2Order(a, e);
    MulLe(n, Pow2(a), m, Pow2(b));
    BitLengthMeans(Scale(n, m), e);
    BitLengthMeans(n, e);
  }

  /** Up to 2^53 times a unit of at most 2^30 the size is a finite float. */
  lemma SmallIsFinite(n: nat, m: nat)
    requires n <= Pow2(Precision) && m <= Pow2(30)
    ensures FiniteFloat(Scale(n, m)) && FiniteFloat(n)
  {
    ProductBits(n, m, Precision, 30, MaxExponent);
  }

  lemma MulLe(a: nat, b: nat, c: nat, d: nat)
    requires a <= b && c <= d
    ensures a * c <= b * d
  {
    assert a * c <= b * c;
    assert b * c <= b * d;
  }
}
