/** Python's `int(s)` on a string, base 10, and its inverse `str(n)`.

    `int` ignores white space around the literal, accepts one optional sign,
    leading zeros, and single underscores between digits; anything else
    raises `ValueError`, which is `None` here. Its white space is narrower
    than `str.isspace()`: the ASCII separators FS..US (28..31) are not
    skipped. */
module IntLiteral {
  import opened Common
  import opened Text

  predicate IsDigit(c: char) {
    '0' <= c <= '9'
  }

  predicate AllDigits(s: string) {
    forall i :: 0 <= i < |s| ==> IsDigit(s[i])
  }

  /** The unsigned part of a literal: digits, where an underscore may stand
      only between two digits. */
  predicate IsDigitGroup(s: string) {
    s != [] && forall i :: 0 <= i < |s| ==> DigitOrJoiner(s, i)
  }

  predicate DigitOrJoiner(s: string, i: nat)
    requires i < |s|
  {
    || IsDigit(s[i])
    || (s[i] == '_' && 0 < i < |s| - 1 && IsDigit(s[i - 1]) && IsDigit(s[i + 1]))
  }

  /** `s` with its underscores removed. */
  function Digits(s: string): (r: string)
    ensures |r| <= |s|
    ensures forall c :: c in r ==> c in s && c != '_'
  {
    if s == [] then []
    else (if s[0] == '_' then [] else [s[0]]) + Digits(s[1..])
  }

  function DigitValue(c: char): (d: nat)
    requires IsDigit(c)
    ensures d < 10
  {
    c as int - '0' as int
  }

  function DigitChar(d: nat): (c: char)
    requires d < 10
    ensures IsDigit(c) && DigitValue(c) == d
  {
    ('0' as int + d) as char
  }

  /** The number a string of decimal digits denotes, most significant first. */
  function Value(ds: string): nat
    requires AllDigits(ds)
  {
    if ds == [] then 0 else 10 * Value(ds[..|ds| - 1]) + DigitValue(ds[|ds| - 1])
  }

  /** `int(s)`: `None` where Python raises `ValueError`. */
  function ParseInt(s: string): Option<int>
  {
    var t := StripWith(s, IntSpace);
    if t == [] then None
    else
      var body := if t[0] == '-' || t[0] == '+' then t[1..] else t;
      if !IsDigitGroup(body) then None
      else
        DigitGroupDigits(body);
        var n: int := Value(Digits(body));
        Some(if t[0] == '-' then -n else n)
  }

  lemma DigitGroupDigits(s: string)
    requires IsDigitGroup(s)
    ensures AllDigits(Digits(s))
  {
    forall i | 0 <= i < |Digits(s)|
      ensures IsDigit(Digits(s)[i])
    {
      var c := Digits(s)[i];
      assert c in Digits(s);
      assert c in s && c != '_';
      var j :| 0 <= j < |s| && s[j] == c;
      assert DigitOrJoiner(s, j);
    }
  }

  /** `str(n)` for a natural number: its decimal digits, no leading zero. */
  function ShowNat(n: nat): (s: string)
    ensures s != [] && AllDigits(s) && Value(s) == n
    ensures |s| > 1 ==> s[0] != '0'
  {
    if n < 10 then [DigitChar(n)]
    else
      var s := ShowNat(n / 10) + [DigitChar(n % 10)];
      assert s[..|s| - 1] == ShowNat(n / 10);
      s
  }

  /** `str(n)`. */
  function Show(n: int): string
  {
    if n < 0 then "-" + ShowNat(-n) else ShowNat(n)
  }

  lemma {:induction false} DigitsOfDigits(s: string)
    requires AllDigits(s)
    ensures Digits(s) == s
  {
    if s != [] {
      DigitsOfDigits(s[1..]);
    }
  }

  /** The literal `str(n)` is a digit group with nothing to strip. */
  lemma ShowShape(n: int)
    ensures IsStrippedWith(Show(n), IntSpace) && Show(n) != []
    ensures Show(n)[0] == '-' <==> n < 0
    ensures Show(n)[0] != '+'
    ensures IsDigitGroup(if n < 0 then Show(n)[1..] else Show(n))
  {
    var digits := ShowNat(if n < 0 then -n else n);
    assert IsDigit(digits[0]) && IsDigit(digits[|digits| - 1]);
    if n < 0 {
      assert Show(n)[1..] == digits;
    }
  }

  /** Parsing the decimal form of any integer gives it back. */
  lemma ParseShow(n: int)
    ensures ParseInt(Show(n)) == Some(n)
  {
    ShowShape(n);
    StripProperties(Show(n), IntSpace);
    var digits := ShowNat(if n < 0 then -n else n);
    if n < 0 {
      assert Show(n)[1..] == digits;
    }
    DigitsOfDigits(digits);
  }

  /** White space that `int()` skips, around a literal, does not change its value. */
  lemma ParseShowPadded(n: int, left: string, right: string)
    requires forall i :: 0 <= i < |left| ==> IsSpaceOf(IntSpace, left[i])
    requires forall i :: 0 <= i < |right| ==> IsSpaceOf(IntSpace, right[i])
    ensures ParseInt(left + Show(n) + right) == Some(n)
  {
    ShowShape(n);
    StripPadded(left, Show(n), right, IntSpace);
    ParseShow(n);
    StripProperties(Show(n), IntSpace);
  }

  /** An information separator (FS..US) at either end is not skipped, so the
      text is no literal, although `str.isspace()` calls it white space. */
  lemma ParseSeparatorControl(c: char, s: string)
    requires 28 <= c as int <= 31
    ensures IsSpace(c)
    ensures ParseInt([c] + s) == None && ParseInt(s + [c]) == None
  {
    NotSkippedAtStart(c, [c] + s);
    NotSkippedAtEnd(c, s + [c]);
  }

  /** A character that `int()` does not skip and that cannot start a
      literal makes a text that starts with it no literal. */
  lemma NotSkippedAtStart(c: char, s: string)
    requires !IsSpaceOf(IntSpace, c) && !IsDigit(c) && c != '-' && c != '+'
    requires s != [] && s[0] == c
    ensures ParseInt(s) == None
  {
    var u := TrimStart(s, IntSpace);
    assert u == s;
    var t := TrimEnd(u, IntSpace);
    assert t != [] && t[0] == c;
    assert !DigitOrJoiner(t, 0);
  }

  /** A character that `int()` does not skip and that cannot end a literal
      makes a text that ends with it no literal. */
  lemma NotSkippedAtEnd(c: char, s: string)
    requires !IsSpaceOf(IntSpace, c) && !IsDigit(c)
    requires s != [] && s[|s| - 1] == c
    ensures ParseInt(s) == None
  {
    var u := TrimStart(s, IntSpace);
    assert u != [] && u[|u| - 1] == c;
    var t := TrimEnd(u, IntSpace);
    assert t == u;
    var body := if t[0] == '-' || t[0] == '+' then t[1..] else t;
    if body != [] {
      assert body[|body| - 1] == c;
      assert !DigitOrJoiner(body, |body| - 1);
    }
  }

  /** Leading zeros are accepted and ignored: `int("007") == 7`. */
  lemma ParseLeadingZeros(zeros: nat, n: nat)
    ensures ParseInt(seq(zeros, _ => '0') + ShowNat(n)) == Some(n)
  {
    var z := seq(zeros, _ => '0');
    var digits := ShowNat(n);
    var s := z + digits;
    ZerosValue(zeros, digits);
    assert s[|s| - 1] == digits[|digits| - 1];
    assert IsDigit(s[0]) by {
      if zeros == 0 {
        assert s[0] == digits[0];
      } else {
        assert s[0] == z[0];
      }
    }
    StripProperties(s, IntSpace);
    DigitsOfDigits(s);
    ParseDigitGroup(s);
  }

  /** A literal of plain digits denotes the number they spell. */
  lemma ParseDigitGroup(s: string)
    requires s != [] && AllDigits(s)
    ensures ParseInt(s) == Some(Value(s))
  {
    assert IsDigit(s[0]) && IsDigit(s[|s| - 1]);
    StripProperties(s, IntSpace);
    assert StripWith(s, IntSpace) == s;
    assert s[0] != '-' && s[0] != '+';
    DigitsOfDigits(s);
    assert IsDigitGroup(s);
  }

  lemma {:induction false} ZerosValue(zeros: nat, ds: string)
    requires AllDigits(ds)
    ensures AllDigits(seq(zeros, _ => '0') + ds)
    ensures Value(seq(zeros, _ => '0') + ds) == Value(ds)
    decreases |ds|
  {
    var z := seq(zeros, _ => '0');
    if ds == [] {
      assert z + ds == z;
      ZerosValueOfZeros(zeros);
    } else {
      var init := ds[..|ds| - 1];
      ZerosValue(zeros, init);
      assert (z + ds)[..|z + ds| - 1] == z + init;
    }
  }

  lemma {:induction false} ZerosValueOfZeros(zeros: nat)
    ensures AllDigits(seq(zeros, _ => '0'))
    ensures Value(seq(zeros, _ => '0')) == 0
  {
    if zeros > 0 {
      ZerosValueOfZeros(zeros - 1);
      assert seq(zeros, _ => '0')[..zeros - 1] == seq(zeros - 1, _ => '0');
    }
  }

  /** A blank string (by `str.isspace()`) is not a literal. */
  lemma ParseBlank(s: string)
    requires forall i :: 0 <= i < |s| ==> IsSpace(s[i])
    ensures ParseInt(s) == None
  {
    var t := StripWith(s, IntSpace);
    if t != [] {
      var u := TrimStart(s, IntSpace);
      assert t[0] == u[0] == s[|s| - |u|];
      assert !DigitOrJoiner(t, 0);
    }
  }
}
