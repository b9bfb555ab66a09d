/**
 * Reading the arguments of a text command such as `/tmute 5m` or `/clean 30`.
 * The handlers split the message text on single spaces and read the token at
 * index 1; `/clean` then reads it as a number with JavaScript's `parseInt`.
 */
module Command {
  import opened Common

  /** The pieces of `s` between single spaces, as `String.prototype.split(" ")` gives them. */
  function Split(s: string): (parts: seq<string>)
    ensures |parts| >= 1
    ensures forall i :: 0 <= i < |parts| ==> ' ' !in parts[i]
    ensures Join(parts) == s
  {
    if s == [] then [""]
    else
      var rest := Split(s[1..]);
      if s[0] == ' ' then
        assert Join([""] + rest) == "" + " " + Join(rest);
        [""] + rest
      else
        var parts := [[s[0]] + rest[0]] + rest[1..];
        assert parts[1..] == rest[1..];
        assert |rest| > 1 ==> Join(rest) == rest[0] + " " + Join(rest[1..]);
        parts
  }

  /** The pieces put back together with a single space between neighbours. */
  function Join(parts: seq<string>): string
    requires |parts| >= 1
  {
    if |parts| == 1 then parts[0] else parts[0] + " " + Join(parts[1..])
  }

  /** `text.split(" ")[i]`, which is `undefined` when there are not that many pieces. */
  function Arg(text: string, i: nat): (a: Option<string>)
    ensures a.Some? ==> ' ' !in a.value
    ensures i == 0 ==> a.Some?
    ensures a.Some? && i >= 1 ==> ' ' in text
  {
    var parts := Split(text);
    if i < |parts| then
      if i >= 1 then JoinedPartsHaveSpace(parts); Some(parts[i]) else Some(parts[i])
    else None
  }

  lemma {:induction false} JoinedPartsHaveSpace(parts: seq<string>)
    requires |parts| >= 2
    ensures ' ' in Join(parts)
  {
    var j := Join(parts);
    assert j == parts[0] + " " + Join(parts[1..]);
    assert j[|parts[0]|] == ' ';
  }

  lemma {:induction false} SplitNoSpace(p: string)
    requires ' ' !in p
    ensures Split(p) == [p]
  {
    if p != [] {
      assert ' ' !in p[1..] by { assert forall c :: c in p[1..] ==> c in p; }
      SplitNoSpace(p[1..]);
    }
  }

  lemma {:induction false} SplitAtSpace(p: string, r: string)
    requires ' ' !in p
    ensures Split(p + " " + r) == [p] + Split(r)
  {
    if p == [] {
      assert p + " " + r == " " + r;
      assert (" " + r)[1..] == r;
    } else {
      assert ' ' !in p[1..] by { assert forall c :: c in p[1..] ==> c in p; }
      SplitAtSpace(p[1..], r);
      assert (p + " " + r)[1..] == p[1..] + " " + r;
      assert [p[0]] + p[1..] == p;
    }
  }

  /** Splitting undoes joining: space-free pieces come back unchanged. */
  lemma {:induction false} SplitJoin(parts: seq<string>)
    requires |parts| >= 1
    requires forall i :: 0 <= i < |parts| ==> ' ' !in parts[i]
    ensures Split(Join(parts)) == parts
  {
    if |parts| == 1 {
      SplitNoSpace(parts[0]);
    } else {
      SplitAtSpace(parts[0], Join(parts[1..]));
      SplitJoin(parts[1..]);
    }
  }

  /** The argument of a command written `<command> <argument>`. */
  lemma CommandArg(command: string, arg: string)
    requires ' ' !in command && ' ' !in arg
    ensures Arg(command + " " + arg, 1) == Some(arg)
  {
    assert Join([command, arg]) == command + " " + arg by {
      assert Join([command, arg][1..]) == arg;
    }
    SplitJoin([command, arg]);
  }

  // ---------------------------------------------------------------------
  // parseInt(string) with no radix, following the ECMAScript steps:
  // skip leading white space, read one optional sign, drop a "0x"/"0X"
  // prefix (radix 16) and read the longest run of digits of the radix.
  // No digit at all gives NaN, written None here.
  // ---------------------------------------------------------------------

  /** The white space and line terminators that `parseInt` skips at the start. */
  predicate IsJsSpace(c: char)
  {
    || c == '\t' || c == '\n' || c == '\U{000B}' || c == '\U{000C}' || c == '\r' || c == ' '
    || c == '\U{00A0}' || c == '\U{1680}' || ('\U{2000}' <= c <= '\U{200A}')
    || c == '\U{2028}' || c == '\U{2029}' || c == '\U{202F}' || c == '\U{205F}'
    || c == '\U{3000}' || c == '\U{FEFF}'
  }

  predicate IsDecimalDigit(c: char) { '0' <= c <= '9' }

  /** The value of `c` as a digit of base `radix` (10 or 16), if it is one. */
  function DigitValue(c: char, radix: nat): (d: Option<nat>)
    requires radix == 10 || radix == 16
    ensures d.Some? ==> d.value < radix
    ensures radix == 10 ==> (d.Some? <==> IsDecimalDigit(c))
  {
    if '0' <= c <= '9' then Some(c as nat - '0' as nat)
    else if radix == 16 && 'a' <= c <= 'f' then Some(c as nat - 'a' as nat + 10)
    else if radix == 16 && 'A' <= c <= 'F' then Some(c as nat - 'A' as nat + 10)
    else None
  }

  predicate AllDigits(s: string, radix: nat)
    requires radix == 10 || radix == 16
  {
    forall i :: 0 <= i < |s| ==> DigitValue(s[i], radix).Some?
  }

  /** The value of a string of digits of base `radix`, most significant first. */
  function DigitsValue(s: string, radix: nat): nat
    requires radix == 10 || radix == 16
    requires AllDigits(s, radix)
  {
    if s == [] then 0
    else DigitsValue(s[..|s| - 1], radix) * radix + DigitValue(s[|s| - 1], radix).value
  }

  /** The longest prefix of `s` made of digits of base `radix`. */
  function LeadingDigits(s: string, radix: nat): (z: string)
    requires radix == 10 || radix == 16
    ensures AllDigits(z, radix)
  {
    if s == [] || DigitValue(s[0], radix).None? then ""
    else [s[0]] + LeadingDigits(s[1..], radix)
  }

  /** The run read is a prefix of `s` and stops at the first character that is not a digit. */
  lemma {:induction false} LeadingDigitsIsLongestRun(s: string, radix: nat)
    requires radix == 10 || radix == 16
    ensures LeadingDigits(s, radix) <= s
    ensures |LeadingDigits(s, radix)| < |s| ==> DigitValue(s[|LeadingDigits(s, radix)|], radix).None?
  {
    if s != [] && DigitValue(s[0], radix).Some? {
      LeadingDigitsIsLongestRun(s[1..], radix);
      assert s == [s[0]] + s[1..];
    }
  }

  function SkipSpace(s: string): (t: string)
  {
    if s != [] && IsJsSpace(s[0]) then SkipSpace(s[1..]) else s
  }

  /** Skipping drops a prefix of white space and stops at the first other character. */
  lemma {:induction false} SkipSpaceDropsSpace(s: string)
    ensures |SkipSpace(s)| <= |s| && SkipSpace(s) == s[|s| - |SkipSpace(s)|..]
    ensures AllSpace(s[..|s| - |SkipSpace(s)|])
    ensures SkipSpace(s) != [] ==> !IsJsSpace(SkipSpace(s)[0])
  {
    if s != [] && IsJsSpace(s[0]) {
      SkipSpaceDropsSpace(s[1..]);
      var k := |s| - |SkipSpace(s)|;
      assert s[1..][..k - 1] == s[1..k];
      assert forall i :: 1 <= i < k ==> s[i] == s[1..][..k - 1][i - 1];
    }
  }

  /** `u` starts with the prefix `0x` or `0X`, which makes `parseInt` read base 16. */
  predicate HexPrefixed(u: string)
  {
    |u| >= 2 && u[0] == '0' && (u[1] == 'x' || u[1] == 'X')
  }

  /** `parseInt(s)`: None stands for NaN. */
  function ParseInt(s: string): (r: Option<int>)
  {
    ParseSigned(SkipSpace(s))
  }

  /** After the white space: one optional sign, then the magnitude. */
  function ParseSigned(t: string): (r: Option<int>)
  {
    var negative := t != [] && t[0] == '-';
    var u := if t != [] && (t[0] == '-' || t[0] == '+') then t[1..] else t;
    match ParseMagnitude(u)
    case None => None
    case Some(n) => Some(if negative then -(n as int) else n as int)
  }

  /** After the sign: `0x` or `0X` selects base 16, then the longest run of digits is read; no digit gives NaN. */
  function ParseMagnitude(u: string): (r: Option<nat>)
  {
    var hex := HexPrefixed(u);
    var radix := if hex then 16 else 10;
    var z := LeadingDigits(if hex then u[2..] else u, radix);
    if z == [] then None else Some(DigitsValue(z, radix))
  }

  lemma {:induction false} LeadingDigitsOfDigits(s: string)
    requires AllDigits(s, 10)
    ensures LeadingDigits(s, 10) == s
  {
    if s != [] {
      assert AllDigits(s[1..], 10) by {
        forall i | 0 <= i < |s[1..]| ensures DigitValue(s[1..][i], 10).Some? {
          assert s[1..][i] == s[i + 1];
        }
      }
      LeadingDigitsOfDigits(s[1..]);
    }
  }

  predicate AllSpace(ws: string)
  {
    forall i :: 0 <= i < |ws| ==> IsJsSpace(ws[i])
  }

  /** An optional sign, as `parseInt` accepts it. */
  predicate IsSign(sign: string)
  {
    sign == "" || sign == "+" || sign == "-"
  }

  /** Leading white space is skipped up to the first other character. */
  lemma {:induction false} SkipSpacePrefix(ws: string, t: string)
    requires AllSpace(ws)
    requires t == [] || !IsJsSpace(t[0])
    ensures SkipSpace(ws + t) == t
  {
    if ws != [] {
      assert (ws + t)[0] == ws[0];
      assert (ws + t)[1..] == ws[1..] + t;
      SkipSpacePrefix(ws[1..], t);
    }
  }

  /** The digit run read is `d` when the character after it is not a digit of the radix. */
  lemma {:induction false} LeadingDigitsPrefix(d: string, junk: string, radix: nat)
    requires radix == 10 || radix == 16
    requires AllDigits(d, radix)
    requires junk == [] || DigitValue(junk[0], radix).None?
    ensures LeadingDigits(d + junk, radix) == d
  {
    if d != [] {
      assert (d + junk)[0] == d[0];
      assert (d + junk)[1..] == d[1..] + junk;
      assert AllDigits(d[1..], radix) by {
        forall i | 0 <= i < |d[1..]| ensures DigitValue(d[1..][i], radix).Some? {
          assert d[1..][i] == d[i + 1];
        }
      }
      LeadingDigitsPrefix(d[1..], junk, radix);
    } else {
      assert d + junk == junk;
    }
  }

  /** The sign is read and applied to the magnitude that follows it. */
  lemma SignThenMagnitude(sign: string, u: string)
    requires IsSign(sign)
    requires u == [] || (u[0] != '+' && u[0] != '-')
    ensures ParseMagnitude(u).None? ==> ParseSigned(sign + u).None?
    ensures ParseMagnitude(u).Some? ==>
      ParseSigned(sign + u) == Some(if sign == "-" then -(ParseMagnitude(u).value as int) else ParseMagnitude(u).value as int)
  {
    var t := sign + u;
    if sign != "" {
      assert t[0] == sign[0] && t[1..] == u;
    } else {
      assert t == u;
    }
  }

  /** Decimal digits `d` followed by text not starting with a digit: the magnitude is the value of `d`. */
  lemma MagnitudeDecimal(d: string, junk: string)
    requires d != [] && AllDigits(d, 10)
    requires junk == [] || !IsDecimalDigit(junk[0])
    requires !HexPrefixed(d + junk)
    ensures ParseMagnitude(d + junk) == Some(DigitsValue(d, 10))
  {
    LeadingDigitsPrefix(d, junk, 10);
  }

  /** `0x` and hexadecimal digits `h` followed by text not starting with one: the magnitude is `h` read in base 16. */
  lemma MagnitudeHex(x: char, h: string, junk: string)
    requires x == 'x' || x == 'X'
    requires h != [] && AllDigits(h, 16)
    requires junk == [] || DigitValue(junk[0], 16).None?
    ensures ParseMagnitude(['0', x] + h + junk) == Some(DigitsValue(h, 16))
  {
    var u := ['0', x] + h + junk;
    assert HexPrefixed(u);
    assert u[2..] == h + junk;
    LeadingDigitsPrefix(h, junk, 16);
  }

  /** White space, then a first character that is not white space: the white space is dropped. */
  lemma SpaceThenSigned(ws: string, sign: string, u: string)
    requires AllSpace(ws) && IsSign(sign)
    requires u == [] || !IsJsSpace(u[0])
    ensures ParseInt(ws + sign + u) == ParseSigned(sign + u)
  {
    var t := sign + u;
    assert ws + sign + u == ws + t;
    if t != [] {
      assert !IsJsSpace(t[0]) by { if sign == "" { assert t[0] == u[0]; } else { assert t[0] == sign[0]; } }
    }
    SkipSpacePrefix(ws, t);
  }

  /** Concatenation regrouped so that the tail after the sign is one piece. */
  lemma Regroup4<T>(a: seq<T>, b: seq<T>, c: seq<T>, d: seq<T>)
    ensures a + b + c + d == a + b + (c + d)
  {
  }

  lemma Regroup5<T>(a: seq<T>, b: seq<T>, c: seq<T>, d: seq<T>, e: seq<T>)
    ensures a + b + c + d + e == a + b + (c + d + e)
  {
  }

  /** White space, a sign and a magnitude `n`: `parseInt` gives `n` with that sign. */
  lemma SignedAfterSpace(ws: string, sign: string, u: string, n: nat)
    requires AllSpace(ws) && IsSign(sign)
    requires u == [] || (!IsJsSpace(u[0]) && u[0] != '+' && u[0] != '-')
    requires ParseMagnitude(u) == Some(n)
    ensures ParseInt(ws + sign + u) == Some(if sign == "-" then -(n as int) else n as int)
  {
    SpaceThenSigned(ws, sign, u);
    SignThenMagnitude(sign, u);
  }

  /** The value `parseInt` gives a digit run `d` of radix `radix` after the sign `sign`. */
  function Signed(sign: string, d: string, radix: nat): int
    requires radix == 10 || radix == 16
    requires AllDigits(d, radix)
  {
    if sign == "-" then -(DigitsValue(d, radix) as int) else DigitsValue(d, radix) as int
  }

  /**
   * White space, an optional sign, decimal digits `d` and anything after them
   * that does not start with a digit: `parseInt` gives the signed value of `d`
   * and ignores the rest (`" -12x"` is -12), unless the text after the sign
   * starts `0x`.
   */
  lemma ParseIntDecimal(ws: string, sign: string, d: string, junk: string)
    requires AllSpace(ws) && IsSign(sign)
    requires d != [] && AllDigits(d, 10)
    requires junk == [] || !IsDecimalDigit(junk[0])
    requires !HexPrefixed(d + junk)
    ensures ParseInt(ws + sign + d + junk) == Some(Signed(sign, d, 10))
  {
    Regroup4(ws, sign, d, junk);
    DecimalAfterSign(ws, sign, d, junk);
  }

  /** `ParseIntDecimal` with the digits and what follows them taken as one piece. */
  lemma DecimalAfterSign(ws: string, sign: string, d: string, junk: string)
    requires AllSpace(ws) && IsSign(sign)
    requires d != [] && AllDigits(d, 10)
    requires junk == [] || !IsDecimalDigit(junk[0])
    requires !HexPrefixed(d + junk)
    ensures ParseInt(ws + sign + (d + junk)) == Some(Signed(sign, d, 10))
  {
    var u := d + junk;
    assert u[0] == d[0];
    MagnitudeDecimal(d, junk);
    SignedAfterSpace(ws, sign, u, DigitsValue(d, 10));
  }

  /**
   * White space, an optional sign, `0x` or `0X`, hexadecimal digits `h` and
   * anything after them that does not start with one: `parseInt` reads `h` in
   * base 16 (`"0x1F"` is 31).
   */
  lemma ParseIntHex(ws: string, sign: string, x: char, h: string, junk: string)
    requires AllSpace(ws) && IsSign(sign) && (x == 'x' || x == 'X')
    requires h != [] && AllDigits(h, 16)
    requires junk == [] || DigitValue(junk[0], 16).None?
    ensures ParseInt(ws + sign + ['0', x] + h + junk) == Some(Signed(sign, h, 16))
  {
    Regroup5(ws, sign, ['0', x], h, junk);
    HexAfterSign(ws, sign, x, h, junk);
  }

  /** `ParseIntHex` with the prefix, the digits and what follows them taken as one piece. */
  lemma HexAfterSign(ws: string, sign: string, x: char, h: string, junk: string)
    requires AllSpace(ws) && IsSign(sign) && (x == 'x' || x == 'X')
    requires h != [] && AllDigits(h, 16)
    requires junk == [] || DigitValue(junk[0], 16).None?
    ensures ParseInt(ws + sign + (['0', x] + h + junk)) == Some(Signed(sign, h, 16))
  {
    MagnitudeHex(x, h, junk);
    SignedAfterSpace(ws, sign, ['0', x] + h + junk, DigitsValue(h, 16));
  }

  /** `0x` or `0X` with no hexadecimal digit after it gives NaN (`"0xg"`, `"-0x"`). */
  lemma ParseIntHexNaN(ws: string, sign: string, x: char, junk: string)
    requires AllSpace(ws) && IsSign(sign) && (x == 'x' || x == 'X')
    requires junk == [] || DigitValue(junk[0], 16).None?
    ensures ParseInt(ws + sign + ['0', x] + junk) == None
  {
    var u := ['0', x] + junk;
    Regroup4(ws, sign, ['0', x], junk);
    assert u[0] == '0';
    SpaceThenSigned(ws, sign, u);
    SignThenMagnitude(sign, u);
    assert u[2..] == junk;
    assert LeadingDigits(junk, 16) == [];
  }

  /**
   * With no digit where the number should start, `parseInt` gives NaN
   * (`"abc"`, `"-"`, `""`).
   */
  lemma ParseIntNaN(ws: string, sign: string, rest: string)
    requires AllSpace(ws) && IsSign(sign)
    requires rest == [] || (!IsDecimalDigit(rest[0]) && !IsJsSpace(rest[0]) && rest[0] != '+' && rest[0] != '-')
    ensures ParseInt(ws + sign + rest) == None
  {
    SpaceThenSigned(ws, sign, rest);
    SignThenMagnitude(sign, rest);
    assert !HexPrefixed(rest);
    assert LeadingDigits(rest, 10) == [];
  }

  /** On a non-empty run of decimal digits, `parseInt` is the decimal value of the run. */
  lemma ParseIntOfDigits(s: string)
    requires s != [] && AllDigits(s, 10)
    ensures ParseInt(s) == Some(DigitsValue(s, 10))
  {
    assert !HexPrefixed(s) by { assert |s| >= 2 ==> IsDecimalDigit(s[1]); }
    assert "" + "" + s + "" == s;
    ParseIntDecimal("", "", s, "");
  }

  /** The decimal numeral of `n`, without leading zeros ("0" for zero). */
  function Decimal(n: nat): (s: string)
    ensures s != [] && AllDigits(s, 10)
    ensures DigitsValue(s, 10) == n
    decreases n
  {
    var last := ['0' + (n % 10) as char];
    assert DigitValue(last[0], 10) == Some(n % 10);
    if n < 10 then
      assert DigitsValue(last, 10) == DigitsValue([], 10) * 10 + n % 10;
      last
    else
      var s := Decimal(n / 10) + last;
      assert s[..|s| - 1] == Decimal(n / 10);
      s
  }
}
