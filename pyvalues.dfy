/**
 * The Python value semantics the connector depends on: the kinds of value a
 * configuration mapping may hold, `str()` of such a value, and `int()` of
 * such a value (decimal parsing with surrounding whitespace, an optional sign
 * and single underscores between digits).
 */
module PyValues {
  import opened Wrappers

  /** A configuration value: a string, an integer, a boolean, or None. */
  datatype Value = Str(s: string) | Int(i: int) | Bool(b: bool) | NoneValue

  predicate IsDigit(c: char) {
    '0' <= c <= '9'
  }

  function DigitValue(c: char): (d: nat)
    requires IsDigit(c)
    ensures d < 10
  {
    c as int - '0' as int
  }

  function DigitChar(d: nat): (c: char)
    requires d < 10
    ensures IsDigit(c) && DigitValue(c) == d
  {
    ('0' as int + d) as char
  }

  /** A nonempty run of decimal digits. */
  predicate AllDigits(d: string) {
    d != [] && forall k :: 0 <= k < |d| ==> IsDigit(d[k])
  }

  /** The decimal digits of `n`, most significant first, without leading zeros. */
  function Digits(n: nat): (d: string)
    ensures AllDigits(d)
    ensures n > 0 ==> d[0] != '0'
    decreases n
  {
    if n < 10 then [DigitChar(n)] else Digits(n / 10) + [DigitChar(n % 10)]
  }

  /** The number a string of decimal digits denotes. */
  function DigitsValue(d: string): nat
    requires forall k :: 0 <= k < |d| ==> IsDigit(d[k])
  {
    if d == [] then 0 else 10 * DigitsValue(d[..|d| - 1]) + DigitValue(d[|d| - 1])
  }

  lemma {:induction false} DigitsValueOfDigits(n: nat)
    ensures DigitsValue(Digits(n)) == n
    decreases n
  {
    if n >= 10 {
      var d := Digits(n);
      assert d[..|d| - 1] == Digits(n / 10);
      DigitsValueOfDigits(n / 10);
    }
  }

  /**
   * `str()` of an integer: the digits denoting its magnitude, without leading
   * zeros, preceded by a minus sign for a negative number.
   */
  function DecimalString(i: int): (d: string)
    ensures i >= 0 ==> AllDigits(d) && DigitsValue(d) == i
    ensures i < 0 ==> |d| > 1 && d[0] == '-' && AllDigits(d[1..]) && DigitsValue(d[1..]) == -i
    ensures i > 0 ==> d[0] != '0'
    ensures i < 0 ==> d[1] != '0'
    ensures i == 0 ==> d == "0"
  {
    if i < 0 then
      DigitsValueOfDigits(-i);
      assert ("-" + Digits(-i))[1..] == Digits(-i);
      "-" + Digits(-i)
    else
      DigitsValueOfDigits(i);
      Digits(i)
  }

  /**
   * `str()` (and f-string formatting) of a value: a string is itself, an
   * integer its decimal text, and `True`, `False` and `None` their names,
   * none of which reads back as an integer.
   */
  function Format(v: Value): (f: string)
    ensures v.Str? ==> f == v.s
    ensures v.Int? && v.i >= 0 ==> AllDigits(f) && DigitsValue(f) == v.i
    ensures v.Int? && v.i < 0 ==> |f| > 1 && f[0] == '-' && AllDigits(f[1..]) && DigitsValue(f[1..]) == -v.i
    ensures v.Int? && v.i > 0 ==> f[0] != '0'
    ensures v.Int? && v.i < 0 ==> f[1] != '0'
    ensures v.Int? && v.i == 0 ==> f == "0"
    ensures v.Bool? || v.NoneValue? ==> ParseInt(f).None?
  {
    match v
    case Str(s) => s
    case Int(i) => DecimalString(i)
    case Bool(b) =>
      var w := if b then "True" else "False";
      NameIsNotLiteral(w);
      w
    case NoneValue =>
      NameIsNotLiteral("None");
      "None"
  }

  /** The whitespace `int()` skips around a literal: tab, line feed, vertical tab, form feed, carriage return and space. */
  predicate IsSpace(c: char) {
    9 <= c as int <= 13 || c == ' '
  }

  function TrimLeft(s: string): string {
    if s != [] && IsSpace(s[0]) then TrimLeft(s[1..]) else s
  }

  function TrimRight(s: string): string {
    if s != [] && IsSpace(s[|s| - 1]) then TrimRight(s[..|s| - 1]) else s
  }

  function TrimSpace(s: string): string {
    TrimRight(TrimLeft(s))
  }

  /** Digits, with single underscores allowed between two digits. */
  predicate IsDigitGroups(u: string) {
    && |u| > 0
    && IsDigit(u[0])
    && IsDigit(u[|u| - 1])
    && (forall k :: 0 <= k < |u| ==> IsDigit(u[k]) || u[k] == '_')
    && (forall k :: 0 <= k < |u| - 1 && u[k] == '_' ==> u[k + 1] != '_')
  }

  function DropUnderscores(u: string): (d: string)
    requires forall k :: 0 <= k < |u| ==> IsDigit(u[k]) || u[k] == '_'
    ensures forall k :: 0 <= k < |d| ==> IsDigit(d[k])
  {
    if u == [] then []
    else (if u[0] == '_' then [] else [u[0]]) + DropUnderscores(u[1..])
  }

  lemma {:induction false} DropUnderscoresOfDigits(d: string)
    requires forall k :: 0 <= k < |d| ==> IsDigit(d[k])
    ensures DropUnderscores(d) == d
  {
    if d != [] {
      DropUnderscoresOfDigits(d[1..]);
    }
  }

  /** What trimming and underscore removal do to a run of digits, with or without a minus sign. */
  lemma DigitRunFacts(s: string)
    ensures AllDigits(s) ==> TrimSpace(s) == s && IsDigitGroups(s) && DropUnderscores(s) == s
    ensures |s| > 1 && (s[0] == '-' || s[0] == '+') && AllDigits(s[1..]) ==>
      TrimSpace(s) == s && IsDigitGroups(s[1..]) && DropUnderscores(s[1..]) == s[1..]
  {
    if AllDigits(s) {
      TrimSpaceKeeps(s);
      DropUnderscoresOfDigits(s);
    }
    if |s| > 1 && (s[0] == '-' || s[0] == '+') && AllDigits(s[1..]) {
      assert s[|s| - 1] == s[1..][|s| - 2];
      TrimSpaceKeeps(s);
      DropUnderscoresOfDigits(s[1..]);
    }
  }

  /**
   * `int(s)` for a string `s`, or None where Python raises ValueError. A run of
   * digits reads as the number it denotes, a minus sign before one as its
   * negation, and only a leading minus sign gives a negative result.
   */
  function ParseInt(s: string): (r: Option<int>)
    ensures AllDigits(s) ==> r == Some(DigitsValue(s))
    ensures |s| > 1 && s[0] == '-' && AllDigits(s[1..]) ==> r == Some(-(DigitsValue(s[1..]) as int))
    ensures |s| > 1 && s[0] == '+' && AllDigits(s[1..]) ==> r == Some(DigitsValue(s[1..]))
    ensures r.Some? && r.value < 0 ==> TrimSpace(s) != [] && TrimSpace(s)[0] == '-'
  {
    DigitRunFacts(s);
    var t := TrimSpace(s);
    if t != [] && (t[0] == '-' || t[0] == '+') then
      var u := t[1..];
      if IsDigitGroups(u) then
        var n: int := DigitsValue(DropUnderscores(u));
        Some(if t[0] == '-' then -n else n)
      else None
    else if IsDigitGroups(t) then Some(DigitsValue(DropUnderscores(t)))
    else None
  }

  /** The characters an integer literal is made of. */
  predicate IsLiteralChar(c: char) {
    IsDigit(c) || IsSpace(c) || c == '+' || c == '-' || c == '_'
  }

  /** Trimming at the front removes a run of whitespace and nothing else. */
  lemma {:induction false} TrimLeftShape(s: string)
    ensures |TrimLeft(s)| <= |s|
    ensures TrimLeft(s) == s[|s| - |TrimLeft(s)|..]
    ensures forall k :: 0 <= k < |s| - |TrimLeft(s)| ==> IsSpace(s[k])
  {
    if s != [] && IsSpace(s[0]) {
      TrimLeftShape(s[1..]);
    }
  }

  /** Trimming at the back removes a run of whitespace and nothing else. */
  lemma {:induction false} TrimRightShape(s: string)
    ensures |TrimRight(s)| <= |s|
    ensures TrimRight(s) == s[..|TrimRight(s)|]
    ensures forall k :: |TrimRight(s)| <= k < |s| ==> IsSpace(s[k])
  {
    if s != [] && IsSpace(s[|s| - 1]) {
      TrimRightShape(s[..|s| - 1]);
    }
  }

  /** `TrimSpace(s)` is a slice of `s` with only whitespace around it. */
  lemma TrimSpaceShape(s: string) returns (i: nat, j: nat)
    ensures i <= j <= |s| && TrimSpace(s) == s[i..j]
    ensures forall k :: 0 <= k < i ==> IsSpace(s[k])
    ensures forall k :: j <= k < |s| ==> IsSpace(s[k])
  {
    TrimLeftShape(s);
    var l := TrimLeft(s);
    TrimRightShape(l);
    i := |s| - |l|;
    j := i + |TrimRight(l)|;
    assert forall k :: j <= k < |s| ==> s[k] == l[k - i];
  }

  /**
   * What `int()` accepts: every character of an accepted string is a digit,
   * whitespace, a sign or an underscore, and at least one is a digit. So a
   * string holding any other character, or no digit, is rejected.
   */
  lemma ParseIntCharacters(s: string)
    ensures ParseInt(s).Some? ==> forall k :: 0 <= k < |s| ==> IsLiteralChar(s[k])
    ensures ParseInt(s).Some? ==> exists k :: 0 <= k < |s| && IsDigit(s[k])
  {
    var i, j := TrimSpaceShape(s);
    var t := TrimSpace(s);
    if ParseInt(s).Some? {
      assert t != [];
      var u := if t[0] == '-' || t[0] == '+' then t[1..] else t;
      assert IsDigitGroups(u);
      assert forall k :: 0 <= k < |t| ==> IsLiteralChar(t[k]) by {
        forall k | 0 <= k < |t|
          ensures IsLiteralChar(t[k])
        {
          if k > 0 || u == t {
            assert t[k] == u[k - (|t| - |u|)];
          }
        }
      }
      forall k | 0 <= k < |s|
        ensures IsLiteralChar(s[k])
      {
        if i <= k < j {
          assert s[k] == t[k - i];
        }
      }
      assert s[j - 1] == t[|t| - 1] == u[|u| - 1];
    }
  }

  /** Whitespace before or after a string does not change what `int()` makes of it. */
  lemma ParseIntIgnoresSpace(c: char, s: string)
    requires IsSpace(c)
    ensures ParseInt([c] + s) == ParseInt(s)
    ensures ParseInt(s + [c]) == ParseInt(s)
  {
    assert ([c] + s)[1..] == s;
    assert TrimSpace([c] + s) == TrimSpace(s);
    TrimSpaceAppend(s, c);
  }

  lemma TrimSpaceAppend(s: string, c: char)
    requires IsSpace(c)
    ensures TrimSpace(s + [c]) == TrimSpace(s)
  {
    TrimLeftAppend(s, c);
    var l := TrimLeft(s);
    if l != [] {
      assert (l + [c])[..|l|] == l;
      assert TrimRight(l + [c]) == TrimRight(l);
    }
  }

  lemma {:induction false} TrimLeftAppend(s: string, c: char)
    requires IsSpace(c)
    ensures TrimLeft(s + [c]) == if TrimLeft(s) == [] then [] else TrimLeft(s) + [c]
  {
    if s == [] {
      assert TrimLeft([c]) == TrimLeft([c][1..]);
    } else if IsSpace(s[0]) {
      assert (s + [c])[1..] == s[1..] + [c];
      TrimLeftAppend(s[1..], c);
    }
  }

  /** `int()` of the name of a constant such as `True` or `None` fails. */
  lemma NameIsNotLiteral(w: string)
    requires |w| > 1 && 'A' <= w[0] <= 'Z' && 'a' <= w[|w| - 1] <= 'z'
    ensures ParseInt(w).None?
  {
    TrimSpaceKeeps(w);
  }

  /** Python's rendering of a string in an error message (without escaping). */
  function Repr(s: string): string {
    "'" + s + "'"
  }

  /** The longest rendering of the literal that `int()`'s message quotes. */
  const ReprLimit := 200

  /** The message of `int()`'s ValueError; the rendering is cut to `ReprLimit` characters. */
  function InvalidLiteral(s: string): string {
    var r := Repr(s);
    "invalid literal for int() with base 10: " + (if |r| <= ReprLimit then r else r[..ReprLimit])
  }

  /**
   * `int(v)`, with the message of the exception Python raises on failure: an
   * integer is itself, a boolean is 1 or 0, a string converts exactly when it
   * is an integer literal, and None is refused with a TypeError.
   */
  function ToInt(v: Value): (r: Result<int, string>)
    ensures v.Int? ==> r == Success(v.i)
    ensures v.Bool? ==> r == Success(if v.b then 1 else 0)
    ensures v.Str? ==> (r.Success? <==> ParseInt(v.s).Some?)
    ensures v.Str? && r.Success? ==> r.value == ParseInt(v.s).value
    ensures v.Str? && r.Failure? ==> r.error == InvalidLiteral(v.s)
    ensures v.NoneValue? ==> r.Failure?
  {
    match v
    case Int(i) => Success(i)
    case Bool(b) => Success(if b then 1 else 0)
    case Str(s) =>
      (match ParseInt(s)
       case Some(n) => Success(n)
       case None => Failure(InvalidLiteral(s)))
    case NoneValue =>
      Failure("int() argument must be a string, a bytes-like object or a real number, not 'NoneType'")
  }

  lemma TrimSpaceKeeps(s: string)
    requires s != [] && !IsSpace(s[0]) && !IsSpace(s[|s| - 1])
    ensures TrimSpace(s) == s
  {
    assert TrimLeft(s) == s;
  }

  /** `int(str(i)) == i` for every integer: formatting then parsing loses nothing. */
  lemma IntOfStrRoundTrip(i: int)
    ensures ToInt(Str(Format(Int(i)))) == Success(i)
  {
  }

  /** `int(str(b))` fails for a boolean: "True" and "False" are not integer literals. */
  lemma IntOfStrBoolFails(b: bool)
    ensures ToInt(Str(Format(Bool(b)))).Failure?
  {
  }
}
