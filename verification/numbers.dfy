/** The integer coercions of the parameter mapping: Python's `int(text)`
    on a decimal string, and `int(x)` on a float, which truncates toward
    zero. */
module Numbers {
  import opened Outcomes
  import opened Strings

  predicate IsDigit(c: char) {
    '0' <= c <= '9'
  }

  function DigitValue(c: char): nat
    requires IsDigit(c)
  {
    c as int - '0' as int
  }

  function DigitChar(d: nat): char
    requires d < 10
  {
    ('0' as int + d) as char
  }

  /** The body of a decimal literal `int()` accepts: ASCII digits, with
      single underscores allowed between two digits. */
  predicate ValidDigits(s: string) {
    && |s| > 0
    && IsDigit(s[0]) && IsDigit(s[|s| - 1])
    && (forall i :: 0 <= i < |s| ==> IsDigit(s[i]) || s[i] == '_')
    && (forall i :: 0 <= i < |s| - 1 ==> s[i] == '_' ==> s[i + 1] != '_')
  }

  /** The value of a digit string, underscores ignored. */
  function DigitsValue(s: string): nat
    decreases |s|
  {
    if s == [] then 0
    else
      var last := s[|s| - 1];
      if IsDigit(last) then DigitsValue(s[..|s| - 1]) * 10 + DigitValue(last)
      else DigitsValue(s[..|s| - 1])
  }

  /** The ASCII information separators U+001C to U+001F. `str.strip()`
      removes them, but `int()` does not skip them: among ASCII characters
      it skips only space, tab, `\n`, `\v`, `\f` and `\r`, while every
      non-ASCII whitespace character counts as a space. */
  predicate IsSeparator(c: char) {
    '\U{1C}' <= c <= '\U{1F}'
  }

  predicate HasSeparator(s: string) {
    exists i :: 0 <= i < |s| && IsSeparator(s[i])
  }

  /** `int(text)` on a string: surrounding whitespace is ignored, one
      optional sign, then a decimal digit string. Anything else (an empty
      string, a fraction such as `"3.0"`, a sign alone) raises
      `ValueError`, modelled as `None`. A separator can never be part of
      the number, and `int()` does not skip it as whitespace, so wherever
      it stands the text is refused. */
  function ParseInt(text: string): (r: Option<int>)
    ensures HasSeparator(text) ==> r.None?
    ensures r.Some? ==> Strip(text) != []
  {
    var t := Strip(text);
    if HasSeparator(text) then None
    else if |t| > 0 && (t[0] == '-' || t[0] == '+') then
      if ValidDigits(t[1..]) then
        var v: int := DigitsValue(t[1..]);
        Some(if t[0] == '-' then -v else v)
      else None
    else if ValidDigits(t) then Some(DigitsValue(t))
    else None
  }

  /** `str(n)` for a natural number. */
  function ShowNat(n: nat): string
    decreases n
  {
    if n < 10 then [DigitChar(n)] else ShowNat(n / 10) + [DigitChar(n % 10)]
  }

  /** `str(n)` for an integer. */
  function ShowInt(n: int): string
  {
    if n < 0 then "-" + ShowNat(-n) else ShowNat(n)
  }

  /** `str(n)` is a plain digit string whose value is `n`. */
  lemma {:induction false} ShowNatDigits(n: nat)
    ensures ValidDigits(ShowNat(n))
    ensures forall i :: 0 <= i < |ShowNat(n)| ==> IsDigit(ShowNat(n)[i])
    ensures DigitsValue(ShowNat(n)) == n
    decreases n
  {
    if n >= 10 {
      ShowNatDigits(n / 10);
      var s := ShowNat(n);
      assert s[..|s| - 1] == ShowNat(n / 10);
    }
  }

  /** `int(str(n)) == n` for every integer. */
  lemma ParseShow(n: int)
    ensures ParseInt(ShowInt(n)) == Some(n)
  {
    if n < 0 {
      ShowNatDigits(-n);
      ParseSigned(ShowNat(-n));
    } else {
      ShowNatDigits(n);
      ParseUnsigned(ShowNat(n));
    }
  }

  /** A plain digit string parses to its value. */
  lemma ParseUnsigned(t: string)
    requires ValidDigits(t)
    ensures ParseInt(t) == Some(DigitsValue(t))
  {
    assert Bordered(t) by {
      assert IsDigit(t[0]) && IsDigit(t[|t| - 1]);
    }
    StripOf([], t, []);
    assert [] + t + [] == t;
  }

  /** A minus sign before a digit string negates its value. */
  lemma ParseSigned(t: string)
    requires ValidDigits(t)
    ensures ParseInt("-" + t) == Some(-(DigitsValue(t) as int))
  {
    var u := "-" + t;
    assert u[1..] == t;
    assert Strip(u) == u by {
      assert Bordered(u) by {
        assert u[|u| - 1] == t[|t| - 1];
      }
      StripOf([], u, []);
      assert [] + u + [] == u;
    }
  }

  /** Whitespace around the number, an explicit plus sign and single
      underscores between digits are accepted. */
  lemma ParseIntAccepts()
    ensures ParseInt(" 65 ") == Some(65)
    ensures ParseInt("+3") == Some(3)
    ensures ParseInt("1_000") == Some(1000)
  {
    SpacedAccepted();
    PlusAccepted();
    UnderscoreAccepted();
  }

  lemma SpacedAccepted()
    ensures ParseInt(" 65 ") == Some(65)
  {
    StripOf(" ", "65", " ");
    assert " " + "65" + " " == " 65 ";
    assert !HasSeparator(" 65 ") by {
      var s := " 65 ";
      assert s[0] == ' ' && s[1] == '6' && s[2] == '5' && s[3] == ' ';
    }
    assert ValidDigits("65");
    assert "65"[..1] == "6";
    assert DigitsValue("65") == 65;
  }

  lemma PlusAccepted()
    ensures ParseInt("+3") == Some(3)
  {
    StripOf([], "+3", []);
    assert [] + "+3" + [] == "+3";
    assert "+3"[1..] == "3";
  }

  lemma UnderscoreAccepted()
    ensures ParseInt("1_000") == Some(1000)
  {
    StripOf([], "1_000", []);
    assert [] + "1_000" + [] == "1_000";
    assert "1_000"[..4] == "1_00";
    assert "1_00"[..3] == "1_0";
    assert "1_0"[..2] == "1_";
    assert "1_"[..1] == "1";
    assert DigitsValue("1_") == 1;
  }

  /** A fraction, an empty value, a doubled underscore and a leading
      information separator are refused, although `strip()` would remove
      the separator. */
  lemma ParseIntRefuses()
    ensures ParseInt("3.0") == None
    ensures ParseInt("") == None
    ensures ParseInt("1__0") == None
    ensures ParseInt("\U{1C}65") == None && Strip("\U{1C}65") == "65"
  {
    assert IsSeparator("\U{1C}65"[0]);
    StripOf("\U{1C}", "65", []);
    assert "\U{1C}" + "65" + [] == "\U{1C}65";
    StripOf([], "3.0", []);
    assert [] + "3.0" + [] == "3.0";
    assert !IsDigit("3.0"[1]);
    StripOf([], "1__0", []);
    assert [] + "1__0" + [] == "1__0";
    assert "1__0"[1] == '_' && "1__0"[2] == '_';
  }

  /** `int(x)` for a float `x`: the integer part, rounding toward zero. */
  function Trunc(r: real): (n: int)
    ensures r >= 0.0 ==> 0 <= n && n as real <= r < n as real + 1.0
    ensures r < 0.0 ==> n <= 0 && n as real - 1.0 < r <= n as real
  {
    if r >= 0.0 then r.Floor else -((-r).Floor)
  }

  /** Truncation is not flooring: they part on negative fractions. */
  lemma TruncIsNotFloor()
    ensures Trunc(1234.9) == 1234
    ensures Trunc(-1.5) == -1 && (-1.5).Floor == -2
  {
  }
}
