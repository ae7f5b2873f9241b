/** `parseInt(s)` with no radix argument, as ECMAScript defines it: skip
    leading white space, take an optional sign, switch to base 16 after a
    `0x`/`0X` prefix, then read the longest run of digits of that base.
    `NaN` (no digits at all) is `None`. */
module JsNumbers {
  import opened Wrappers
  import opened JsStrings

  /** The value of `ch` as a digit in bases up to 36, or 36 when it is none. */
  function DigitValue(ch: char): (d: nat)
    ensures d <= 36
  {
    if '0' <= ch <= '9' then ch as int - '0' as int
    else if 'a' <= ch <= 'z' then ch as int - 'a' as int + 10
    else if 'A' <= ch <= 'Z' then ch as int - 'A' as int + 10
    else 36
  }

  predicate IsDigit(ch: char, radix: nat)
  {
    DigitValue(ch) < radix
  }

  /** Length of the longest run of digits of `radix` that `s` starts with. */
  function DigitSpan(s: string, radix: nat): (n: nat)
    ensures n <= |s|
    ensures forall i :: 0 <= i < n ==> IsDigit(s[i], radix)
    ensures n < |s| ==> !IsDigit(s[n], radix)
  {
    if s == [] || !IsDigit(s[0], radix) then 0 else 1 + DigitSpan(s[1..], radix)
  }

  /** The longest prefix of `s` made of digits of `radix`. */
  function DigitPrefix(s: string, radix: nat): string
  {
    s[..DigitSpan(s, radix)]
  }

  /** The number the digit string `z` denotes in base `radix`. */
  function Value(z: string, radix: nat): nat
  {
    if z == [] then 0 else Value(z[..|z| - 1], radix) * radix + DigitValue(z[|z| - 1])
  }

  /** The number `parseInt` reads from text that has no leading white space
      and no sign left: a `0x`/`0X` prefix selects base 16, otherwise base
      10; `None` when no digit follows. */
  function ParseMagnitude(u: string): Option<nat>
  {
    var hex := |u| >= 2 && u[0] == '0' && (u[1] == 'x' || u[1] == 'X');
    var radix := if hex then 16 else 10;
    var z := DigitPrefix(if hex then u[2..] else u, radix);
    if z == [] then None else Some(Value(z, radix))
  }

  function Negate(m: Option<nat>): Option<int>
  {
    match m
    case None => None
    case Some(v) => Some(-(v as int))
  }

  function Widen(m: Option<nat>): Option<int>
  {
    match m
    case None => None
    case Some(v) => Some(v)
  }

  /** A number is read only when the text, after white space, starts with a
      sign or a decimal digit, and it is negative only after a minus sign. */
  function ParseInt(s: string): (r: Option<int>)
    ensures var t := TrimStart(s);
      r.Some? ==> |t| > 0 && (IsDigit(t[0], 10) || t[0] == '-' || t[0] == '+')
    ensures var t := TrimStart(s);
      r.Some? && r.value < 0 ==> |t| > 0 && t[0] == '-'
  {
    var t := TrimStart(s);
    if |t| > 0 && t[0] == '-' then Negate(ParseMagnitude(t[1..]))
    else if |t| > 0 && t[0] == '+' then Widen(ParseMagnitude(t[1..]))
    else Widen(ParseMagnitude(t))
  }

  /** The decimal numeral of `n`, without sign or leading zeros. */
  function Decimal(n: nat): (z: string)
    ensures |z| > 0
    ensures forall i :: 0 <= i < |z| ==> IsDigit(z[i], 10)
    ensures z[0] == '0' ==> n == 0
  {
    var last := ('0' as int + n % 10) as char;
    if n < 10 then [last] else Decimal(n / 10) + [last]
  }

  /** Reading back a decimal numeral gives the number it was made from. */
  lemma {:induction false} DecimalValue(n: nat)
    ensures Value(Decimal(n), 10) == n
  {
    if n >= 10 {
      var z := Decimal(n);
      DecimalValue(n / 10);
      assert z[..|z| - 1] == Decimal(n / 10);
    }
  }

  /** The digit run of a numeral followed by a non-digit is that numeral. */
  lemma DigitPrefixOf(z: string, rest: string, radix: nat)
    requires forall i :: 0 <= i < |z| ==> IsDigit(z[i], radix)
    requires rest == [] || !IsDigit(rest[0], radix)
    ensures DigitPrefix(z + rest, radix) == z
  {
    var s := z + rest;
    var n := DigitSpan(s, radix);
    assert s[..|z|] == z;
  }

  /** A decimal numeral followed by text that does not continue it reads
      back as the numeral's value. */
  lemma {:induction false} ParseMagnitudeDecimal(n: nat, rest: string)
    requires rest == [] || !IsDigit(rest[0], 10)
    requires n == 0 && rest != [] ==> rest[0] != 'x' && rest[0] != 'X'
    ensures ParseMagnitude(Decimal(n) + rest) == Some(n)
  {
    var z := Decimal(n);
    var u := z + rest;
    assert u[0] == z[0];
    assert |u| >= 2 && u[0] == '0' ==> |z| == 1 && u[1] == rest[0];
    DigitPrefixOf(z, rest, 10);
    DecimalValue(n);
  }

  /** A decimal digit is neither white space nor a sign. */
  lemma DecimalDigitIsPlain(ch: char)
    requires IsDigit(ch, 10)
    ensures '0' <= ch <= '9'
    ensures !IsJsSpace(ch) && ch != '-' && ch != '+'
  {
  }

  /** Without leading white space or sign, `parseInt` reads the magnitude. */
  lemma ParseIntUnsigned(s: string)
    requires s != [] && !IsJsSpace(s[0]) && s[0] != '-' && s[0] != '+'
    ensures ParseInt(s) == Widen(ParseMagnitude(s))
  {
    assert TrimStart(s) == s;
  }

  /** After a leading minus sign, `parseInt` reads the negated magnitude. */
  lemma ParseIntMinus(s: string)
    requires s != [] && s[0] == '-'
    ensures ParseInt(s) == Negate(ParseMagnitude(s[1..]))
  {
    assert TrimStart(s) == s;
  }

  /** `parseInt` reads back a decimal numeral followed by any text that
      does not continue the number, such as the `w` of a width descriptor:
      `parseInt("400w") === 400`. The text after the numeral must not be a
      digit, and after a lone `0` must not be `x` or `X`, which would make it
      a hexadecimal prefix. */
  lemma {:induction false} ParseIntDecimal(n: nat, rest: string)
    requires rest == [] || !IsDigit(rest[0], 10)
    requires n == 0 && rest != [] ==> rest[0] != 'x' && rest[0] != 'X'
    ensures ParseInt(Decimal(n) + rest) == Some(n)
  {
    var u := Decimal(n) + rest;
    ParseMagnitudeDecimal(n, rest);
    DecimalDigitIsPlain(Decimal(n)[0]);
    assert u[0] == Decimal(n)[0];
    ParseIntUnsigned(u);
  }

  /** The same with a minus sign in front: `parseInt("-400w") === -400`. */
  lemma {:induction false} ParseIntNegatedDecimal(n: nat, rest: string)
    requires rest == [] || !IsDigit(rest[0], 10)
    requires n == 0 && rest != [] ==> rest[0] != 'x' && rest[0] != 'X'
    ensures ParseInt("-" + (Decimal(n) + rest)) == Some(-(n as int))
  {
    var s := "-" + (Decimal(n) + rest);
    ParseMagnitudeDecimal(n, rest);
    assert s[1..] == Decimal(n) + rest;
    ParseIntMinus(s);
  }

  /** Text that, after leading white space, starts with neither a sign nor a
      decimal digit is `NaN`: the contrapositive of `ParseInt`'s first
      postcondition, kept as the readable statement of the `NaN` rule. */
  lemma ParseIntNaN(s: string)
    requires TrimStart(s) == [] ||
             (!IsDigit(TrimStart(s)[0], 10) && TrimStart(s)[0] != '-' && TrimStart(s)[0] != '+')
    ensures ParseInt(s) == None
  {
  }

  /** Leading white space does not change what `parseInt` reads. */
  lemma ParseIntSkipsSpace(pad: string, s: string)
    requires AllSpace(pad)
    ensures ParseInt(pad + s) == ParseInt(s)
  {
    TrimStartSkips(pad, s);
  }

  /** `parseInt` reads any run of decimal digits, leading zeros included,
      followed by text that does not continue it: `parseInt("0400w") ===
      400`. Only a lone `0` followed by `x` or `X` is read otherwise, as a
      hexadecimal prefix. */
  lemma ParseIntDigits(z: string, rest: string)
    requires |z| > 0 && forall i :: 0 <= i < |z| ==> IsDigit(z[i], 10)
    requires rest == [] || !IsDigit(rest[0], 10)
    requires z == "0" && rest != [] ==> rest[0] != 'x' && rest[0] != 'X'
    ensures ParseInt(z + rest) == Some(Value(z, 10))
  {
    var u := z + rest;
    assert u[0] == z[0];
    DecimalDigitIsPlain(z[0]);
    assert |u| >= 2 && u[0] == '0' ==> (|z| == 1 && u[1] == rest[0]) || (|z| >= 2 && u[1] == z[1]);
    if |z| >= 2 {
      DecimalDigitIsPlain(z[1]);
    }
    DigitPrefixOf(z, rest, 10);
    ParseIntUnsigned(u);
  }

  /** A sign right at the start applies to whatever follows it: `+` leaves
      the magnitude as it is, `-` negates it, and a sign followed by no
      number is `NaN` (`parseInt("+0400w") === 400`,
      `parseInt("-0x1A") === -26`, `parseInt("-w")` is `NaN`). */
  lemma ParseIntSigned(u: string)
    ensures ParseInt("+" + u) == Widen(ParseMagnitude(u))
    ensures ParseInt("-" + u) == Negate(ParseMagnitude(u))
  {
    var plus, minus := "+" + u, "-" + u;
    assert plus[1..] == u && minus[1..] == u;
    assert LeadingSpace(plus) == 0 && LeadingSpace(minus) == 0;
    assert TrimStart(plus) == plus && TrimStart(minus) == minus;
  }

  /** Without a hexadecimal prefix, text that does not start with a decimal
      digit has no magnitude: after a sign it makes `parseInt` return `NaN`. */
  lemma ParseMagnitudeNaN(u: string)
    requires u == [] || !IsDigit(u[0], 10)
    ensures ParseMagnitude(u) == None
  {
  }

  /** A `0x` or `0X` prefix switches to base 16: the run of hexadecimal
      digits after it, up to the first non-hexadecimal character, is read in
      base 16 (`parseInt("0x1Aw") === 26`), and an empty run is `NaN`
      (`parseInt("0xg")`). */
  lemma ParseIntHexNumeral(x: char, z: string, rest: string)
    requires x == 'x' || x == 'X'
    requires forall i :: 0 <= i < |z| ==> IsDigit(z[i], 16)
    requires rest == [] || !IsDigit(rest[0], 16)
    ensures ParseInt(['0', x] + (z + rest)) == if z == [] then None else Some(Value(z, 16))
    ensures ParseMagnitude(['0', x] + (z + rest)) == if z == [] then None else Some(Value(z, 16))
  {
    var u := ['0', x] + (z + rest);
    assert u[0] == '0' && u[1] == x;
    assert LeadingSpace(u) == 0;
    assert TrimStart(u) == u;
    assert u[2..] == z + rest;
    DigitPrefixOf(z, rest, 16);
  }

  /** Leading zeros are read as decimal digits: `"0400w"` and `"+0400w"` both give 400. */
  lemma ParseIntLeadingZeros(z: string, rest: string)
    requires z == "0400" && rest == "w"
    ensures ParseInt(z + rest) == Some(400)
    ensures ParseInt("+" + (z + rest)) == Some(400)
  {
    assert forall i :: 0 <= i < |z| ==> IsDigit(z[i], 10);
    ParseIntDigits(z, rest);
    assert Value(z, 10) == 400 by {
      assert z[..3][..2] == z[..2] && z[..2][..1] == z[..1] && z[..1][..0] == [];
      assert Value(z[..1], 10) == 0;
      assert Value(z[..2], 10) == 4;
      assert Value(z[..3], 10) == 40;
    }
    ParseIntSigned(z + rest);
  }

  /** A sign may precede an upper-case `0X` prefix: `"-0X1A"` gives -26. */
  lemma ParseIntSignedHex(z: string)
    requires z == "1A"
    ensures ParseInt("-" + (['0', 'X'] + z)) == Some(-26)
  {
    assert forall i :: 0 <= i < |z| ==> IsDigit(z[i], 16);
    ParseIntHexNumeral('X', z, []);
    assert z + [] == z;
    assert Value(z, 16) == 26 by {
      assert z[..1][..0] == [];
      assert Value(z[..1], 16) == 1;
    }
    ParseIntSigned(['0', 'X'] + z);
  }

  /** A sign with no digit after it is NaN: `"-w"` gives NaN. */
  lemma ParseIntBareSign()
    ensures ParseInt("-w") == None
  {
    ParseMagnitudeNaN("w");
    ParseIntSigned("w");
    assert "-" + "w" == "-w";
  }
}
