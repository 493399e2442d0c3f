/**
 * The string primitives the version class relies on: splitting and joining on '.'
 * (PHP's `explode` and `implode`), the integer cast of a string (PHP's `(int)`),
 * and the decimal rendering of an integer.
 */
module Text {

  predicate IsDigit(c: char) {
    '0' <= c <= '9'
  }

  predicate AllDigits(s: string) {
    forall i :: 0 <= i < |s| ==> IsDigit(s[i])
  }

  /** A canonical decimal numeral: digits only, no leading zero except in "0" itself. */
  predicate IsNumeral(s: string) {
    |s| >= 1 && AllDigits(s) && (s[0] == '0' ==> |s| == 1)
  }

  function DigitValue(c: char): (d: nat)
    requires IsDigit(c)
    ensures d < 10
  {
    (c as int) - ('0' as int)
  }

  function DigitChar(d: nat): (c: char)
    requires d < 10
    ensures IsDigit(c) && DigitValue(c) == d
    ensures c == '0' <==> d == 0
  {
    (('0' as int) + d) as char
  }

  /** The value of a string of decimal digits, most significant digit first. */
  function DigitsValue(d: string): nat
    requires AllDigits(d)
    decreases |d|
  {
    if d == [] then 0 else DigitsValue(d[..|d| - 1]) * 10 + DigitValue(d[|d| - 1])
  }

  /** The longest prefix of `s` made only of decimal digits. */
  function LeadingDigits(s: string): (d: string)
    ensures AllDigits(d) && d <= s
    ensures |d| < |s| ==> !IsDigit(s[|d|])
  {
    if s == [] || !IsDigit(s[0]) then "" else [s[0]] + LeadingDigits(s[1..])
  }

  /**
   * PHP's `(int)` cast of a string, restricted to its digit rule: the value of the
   * longest leading run of decimal digits, and 0 when there is none.
   */
  function ToInt(s: string): (n: nat)
    ensures s == [] || !IsDigit(s[0]) ==> n == 0
  {
    DigitsValue(LeadingDigits(s))
  }

  /** The decimal rendering of a natural number. */
  function NatToString(n: nat): (s: string)
    ensures IsNumeral(s)
    ensures s[0] == '0' <==> n == 0
    decreases n
  {
    if n < 10 then [DigitChar(n)] else NatToString(n / 10) + [DigitChar(n % 10)]
  }

  /** PHP's conversion of an integer to a string: a '-' sign, then the digits. */
  function IntToString(i: int): (s: string)
    ensures |s| >= 1 && '.' !in s
    ensures i >= 0 ==> IsNumeral(s)
    ensures i < 0 ==> s[0] == '-'
    ensures i >= 0 ==> ToInt(s) == i
    ensures i < 0 ==> IsNumeral(s[1..]) && ToInt(s[1..]) == -i
  {
    if i < 0 then
      ToIntOfNatToString(-i);
      assert ("-" + NatToString(-i))[1..] == NatToString(-i);
      "-" + NatToString(-i)
    else
      ToIntOfNatToString(i);
      NatToString(i)
  }

  /** PHP's `explode('.', s)`: the maximal dot-free pieces between the dots, in order. */
  function Split(s: string): (parts: seq<string>)
    ensures |parts| >= 1
    ensures forall i :: 0 <= i < |parts| ==> '.' !in parts[i]
    decreases |s|
  {
    if s == [] then [""]
    else if s[0] == '.' then [""] + Split(s[1..])
    else
      var rest := Split(s[1..]);
      [[s[0]] + rest[0]] + rest[1..]
  }

  /** PHP's `implode('.', parts)`: dot-free parts are joined with one dot between neighbours. */
  function Join(parts: seq<string>): (r: string)
    ensures |parts| >= 1 && (forall i :: 0 <= i < |parts| ==> '.' !in parts[i]) ==>
              CountDots(r) == |parts| - 1
    decreases |parts|
  {
    if parts == [] then ""
    else
      assert '.' !in parts[0] ==> CountDots(parts[0]) == 0 by {
        if '.' !in parts[0] {
          DotFreeCountsNoDots(parts[0]);
        }
      }
      if |parts| == 1 then parts[0]
      else
        CountDotsAppend(parts[0] + ".", Join(parts[1..]));
        CountDotsAppend(parts[0], ".");
        parts[0] + "." + Join(parts[1..])
  }

  function CountDots(s: string): nat
    decreases |s|
  {
    if s == [] then 0 else (if s[0] == '.' then 1 else 0) + CountDots(s[1..])
  }

  lemma {:induction false} DotFreeCountsNoDots(s: string)
    requires '.' !in s
    ensures CountDots(s) == 0
    decreases |s|
  {
    if s != [] {
      assert s[0] in s;
      DotFreeCountsNoDots(s[1..]);
    }
  }

  lemma {:induction false} CountDotsAppend(a: string, b: string)
    ensures CountDots(a + b) == CountDots(a) + CountDots(b)
    decreases |a|
  {
    if a != [] {
      CountDotsAppend(a[1..], b);
      assert (a + b)[1..] == a[1..] + b;
    } else {
      assert a + b == b;
    }
  }

  // ---- explode / implode ----

  /** Splitting yields one more piece than there are dots. */
  lemma {:induction false} SplitLength(s: string)
    ensures |Split(s)| == CountDots(s) + 1
    decreases |s|
  {
    if s != [] {
      SplitLength(s[1..]);
    }
  }

  /** Joining the pieces of a split gives the original string back. */
  lemma {:induction false} JoinSplit(s: string)
    ensures Join(Split(s)) == s
    decreases |s|
  {
    if s != [] {
      var rest := Split(s[1..]);
      JoinSplit(s[1..]);
      if s[0] == '.' {
        assert Split(s) == [""] + rest;
        assert Join(Split(s)) == "" + "." + Join(rest);
      } else if |rest| == 1 {
        assert Join(Split(s)) == [s[0]] + rest[0];
      } else {
        var parts := Split(s);
        assert parts[1..] == rest[1..];
        assert Join(parts) == ([s[0]] + rest[0]) + "." + Join(rest[1..]);
        assert Join(rest) == rest[0] + "." + Join(rest[1..]);
      }
      assert s == [s[0]] + s[1..];
    }
  }

  /** A dot-free string splits into itself. */
  lemma {:induction false} SplitDotFree(p: string)
    requires '.' !in p
    ensures Split(p) == [p]
    decreases |p|
  {
    if p != [] {
      SplitDotFree(p[1..]);
      assert p == [p[0]] + p[1..];
    }
  }

  /** A dot-free head followed by a dot splits off as the first piece. */
  lemma {:induction false} SplitDotFreeHead(p: string, rest: string)
    requires '.' !in p
    ensures Split(p + "." + rest) == [p] + Split(rest)
    decreases |p|
  {
    var s := p + "." + rest;
    if p == [] {
      assert s == "." + rest && s[1..] == rest;
    } else {
      assert s[0] == p[0] && s[1..] == p[1..] + "." + rest;
      SplitDotFreeHead(p[1..], rest);
      assert p == [p[0]] + p[1..];
    }
  }

  /** Three pieces are joined with two dots. */
  lemma JoinThree(a: string, b: string, c: string)
    ensures Join([a, b, c]) == a + "." + b + "." + c
  {
    assert [a, b, c][1..] == [b, c];
    assert [b, c][1..] == [c];
    assert Join([c]) == c;
    assert Join([b, c]) == b + "." + Join([c]);
    assert Join([a, b, c]) == a + "." + Join([b, c]);
    assert a + "." + (b + "." + c) == a + "." + b + "." + c;
  }

  /** Splitting the join of dot-free pieces gives the pieces back. */
  lemma {:induction false} SplitJoin(parts: seq<string>)
    requires |parts| >= 1
    requires forall i :: 0 <= i < |parts| ==> '.' !in parts[i]
    ensures Split(Join(parts)) == parts
    decreases |parts|
  {
    if |parts| == 1 {
      SplitDotFree(parts[0]);
    } else {
      SplitJoin(parts[1..]);
      SplitDotFreeHead(parts[0], Join(parts[1..]));
      assert parts == [parts[0]] + parts[1..];
    }
  }

  // ---- the integer cast ----

  /** A string of digits is its own leading run of digits. */
  lemma LeadingDigitsOfDigits(s: string)
    requires AllDigits(s)
    ensures LeadingDigits(s) == s
  {
  }

  lemma {:induction false} DigitsValueOfNatToString(n: nat)
    ensures DigitsValue(NatToString(n)) == n
    decreases n
  {
    if n >= 10 {
      var s := NatToString(n);
      DigitsValueOfNatToString(n / 10);
      assert s[..|s| - 1] == NatToString(n / 10);
    }
  }

  /** Casting the rendering of a natural number gives the number back. */
  lemma ToIntOfNatToString(n: nat)
    ensures ToInt(NatToString(n)) == n
  {
    LeadingDigitsOfDigits(NatToString(n));
    DigitsValueOfNatToString(n);
  }

  /** A digit string without a leading zero has a positive value. */
  lemma {:induction false} DigitsValuePositive(s: string)
    requires |s| >= 1 && AllDigits(s) && s[0] != '0'
    ensures DigitsValue(s) >= 1
    decreases |s|
  {
    if |s| > 1 {
      DigitsValuePositive(s[..|s| - 1]);
    }
  }

  /** Rendering the value of a canonical numeral gives the numeral back. */
  lemma {:induction false} NatToStringOfNumeral(s: string)
    requires IsNumeral(s)
    ensures NatToString(DigitsValue(s)) == s
    decreases |s|
  {
    var n := DigitsValue(s);
    var last := s[|s| - 1];
    if |s| == 1 {
      assert n == DigitsValue(s[..0]) * 10 + DigitValue(last);
      assert DigitChar(n) == s[0];
    } else {
      var p := s[..|s| - 1];
      DigitsValuePositive(p);
      NatToStringOfNumeral(p);
      assert n == DigitsValue(p) * 10 + DigitValue(last);
      assert n / 10 == DigitsValue(p) && n % 10 == DigitValue(last);
      assert DigitChar(DigitValue(last)) == last;
      assert s == p + [last];
    }
  }

  lemma {:induction false} DigitsValueLeadingZero(d: string)
    requires AllDigits(d)
    ensures DigitsValue("0" + d) == DigitsValue(d)
    decreases |d|
  {
    var z := "0" + d;
    if d == [] {
      assert DigitsValue(z) == DigitsValue(z[..0]) * 10 + DigitValue('0');
    } else {
      DigitsValueLeadingZero(d[..|d| - 1]);
      assert z[..|z| - 1] == "0" + d[..|d| - 1];
    }
  }

  /** A leading zero does not change the cast: "01" casts to 1. */
  lemma ToIntLeadingZero(s: string)
    ensures ToInt("0" + s) == ToInt(s)
  {
    var z := "0" + s;
    assert z[1..] == s;
    assert LeadingDigits(z) == "0" + LeadingDigits(s);
    DigitsValueLeadingZero(LeadingDigits(s));
  }

  /** The leading run of digits ends at the first character that is not a digit. */
  lemma {:induction false} LeadingDigitsStop(d: string, rest: string)
    requires AllDigits(d)
    requires rest == [] || !IsDigit(rest[0])
    ensures LeadingDigits(d + rest) == d
    decreases |d|
  {
    if d == [] {
      assert d + rest == rest;
    } else {
      LeadingDigitsStop(d[1..], rest);
      assert (d + rest)[1..] == d[1..] + rest;
      assert d == [d[0]] + d[1..];
    }
  }

  /** The cast reads the digits up to the first character that is not a digit: "01x" casts to 1. */
  lemma ToIntStopsAtNonDigit(d: string, rest: string)
    requires AllDigits(d)
    requires rest == [] || !IsDigit(rest[0])
    ensures ToInt(d + rest) == DigitsValue(d)
  {
    LeadingDigitsStop(d, rest);
  }
}
