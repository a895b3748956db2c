/** Integer formatting and bounded output (src/lib/stdio.c), and atoi (src/lib/stdlib.c). */
module Stdio {
  import opened Common

  datatype Flags = Flags(minus: bool, plus: bool, space: bool, pound: bool, zero: bool, group: bool)

  /** A printf conversion; a negative precision means none was given. */
  datatype Conversion = Conversion(flags: Flags, width: nat, precision: int)

  datatype Base = Base(base: nat, upper: bool, x: string, group: nat)

  const DECIMAL := Base(10, false, "", 3)
  const OCTAL := Base(8, false, "", 3)
  const HEX := Base(16, false, "0x", 4)
  const UPPER_HEX := Base(16, true, "0X", 4)

  predicate IsBase(b: Base) {
    b == DECIMAL || b == OCTAL || b == HEX || b == UPPER_HEX
  }

  // ----- Digits -----

  function Digit(b: Base, d: nat): (c: char)
    requires d < 16
  {
    if d < 10 then '0' + d as char
    else if b.upper then 'A' + (d - 10) as char
    else 'a' + (d - 10) as char
  }

  predicate IsDigit(c: char) {
    '0' <= c <= '9'
  }

  function DigitValue(c: char): (d: nat) {
    if IsDigit(c) then (c as int) - ('0' as int)
    else if 'a' <= c <= 'f' then (c as int) - ('a' as int) + 10
    else if 'A' <= c <= 'F' then (c as int) - ('A' as int) + 10
    else 0
  }

  lemma DigitIs(b: Base, d: nat)
    requires d < 16
    ensures DigitValue(Digit(b, d)) == d && Digit(b, d) != ',' && (d < 10 <==> IsDigit(Digit(b, d)))
    ensures d < 8 ==> '0' <= Digit(b, d) <= '7'
    ensures d >= 10 ==> if b.upper then 'A' <= Digit(b, d) <= 'F' else 'a' <= Digit(b, d) <= 'f'
  {
  }

  /** The number whose digits, least significant first, are s and whose higher part is rest;
      commas do not count. */
  function Value(base: nat, s: string, rest: nat): (v: nat) {
    if s == "" then rest
    else if s[0] == ',' then Value(base, s[1..], rest)
    else DigitValue(s[0]) + base * Value(base, s[1..], rest)
  }

  lemma {:induction false} ValueAppend(base: nat, s: string, c: char, rest: nat)
    ensures Value(base, s + [c], rest) == Value(base, s, if c == ',' then rest else DigitValue(c) + base * rest)
  {
    if s == "" {
      assert s + [c] == [c] && [c][1..] == "";
    } else {
      assert (s + [c])[1..] == s[1..] + [c];
      ValueAppend(base, s[1..], c, rest);
    }
  }

  function Power(base: nat, n: nat): (p: nat) {
    if n == 0 then 1 else base * Power(base, n - 1)
  }

  lemma DivMod(v: nat, base: nat)
    requires base > 0
    ensures v == v % base + base * (v / base) && 0 <= v % base < base && v / base >= 0
  {
    assert v == base * (v / base) + v % base;
  }

  lemma Eight22()
    ensures Power(8, 22) == 0x4_0000_0000_0000_0000
  {
    assert Power(8, 2) == 64 && Power(8, 4) == 0x1000;
    assert Power(8, 8) == 0x100_0000 by { assert Power(8, 6) == 64 * Power(8, 4); }
    assert Power(8, 12) == 0x10_0000_0000 by { assert Power(8, 10) == 64 * Power(8, 8); }
    assert Power(8, 16) == 0x1_0000_0000_0000 by { assert Power(8, 14) == 64 * Power(8, 12); }
    assert Power(8, 20) == 0x1000_0000_0000_0000 by { assert Power(8, 18) == 64 * Power(8, 16); }
  }

  /** n digits so far: what is left, times 8^n, is at most the whole. */
  lemma FewDigits(value: U64, v: nat, base: nat, n: nat)
    requires 8 <= base && v > 0 && n <= 22 && v * Power(8, n) <= value
    ensures n < 22 && v / base * Power(8, n + 1) <= value
  {
    Eight22();
    MulLe(1, v, Power(8, n));
    DivMod(v, base);
    MulLe(8, base, v / base);
    MulLe(v / base * 8, v, Power(8, n));
    assert v / base * 8 * Power(8, n) == v / base * Power(8, n + 1);
  }

  /** The digits of the base, or a comma. */
  ghost predicate Printed(b: Base, c: char, group: bool) {
    (group && c == ',') || exists d: nat :: d < b.base && d < 16 && c == Digit(b, d)
  }

  /** The characters of n digits, with a comma between groups. */
  function Width(b: Base, group: bool, n: nat): (w: nat) {
    if group && n > 0 && b.group > 0 then n + (n - 1) / b.group else n
  }

  /** Counting from the least significant digit, there is a comma after each full group of digits
      and nowhere else. */
  ghost predicate Commas(b: Base, group: bool, s: string) {
    forall p | 0 <= p < |s| :: s[p] == ',' <==> group && p % (b.group + 1) == b.group
  }

  /** The state of the digit loop after `count` digits s, the rest of the number being `left`. Once
      nothing is left, s is the numeral of the value: grouped, and without a leading zero. */
  ghost predicate Digits(value: U64, b: Base, group: bool, s: string, left: nat, count: nat) {
    && count <= 22 && |s| == Width(b, group, count)
    && Value(b.base, s, left) == value && left * Power(8, count) <= value
    && (forall i | 0 <= i < |s| :: Printed(b, s[i], group)) && Commas(b, group, s)
    && left * Power(b.base, count) <= value < (left + 1) * Power(b.base, count)
    && (count > 0 ==> Power(b.base, count - 1) <= value)
    && (left == 0 && s != "" ==> s[|s| - 1] != '0' && s[|s| - 1] != ',')
  }

  /** Where the next digit goes, and whether a comma goes before it. */
  lemma WidthNext(b: Base, group: bool, n: nat, comma: bool)
    requires IsBase(b) && comma == (group && n > 0 && n % b.group == 0)
    ensures Width(b, group, n + 1) == Width(b, group, n) + (if comma then 2 else 1)
    ensures group ==> var w := Width(b, group, n) + if comma then 1 else 0;
                      w % (b.group + 1) != b.group && (comma ==> (w - 1) % (b.group + 1) == b.group)
    ensures n <= Width(b, group, n) <= 2 * n
  {
    if n > 0 {
      if b.group == 3 { GroupOf3(n); } else { GroupOf4(n); }
    }
  }

  lemma GroupOf3(n: nat)
    requires n > 0
    ensures n % 3 == 0 ==> (n + (n - 1) / 3) % 4 == 3 && n / 3 == (n - 1) / 3 + 1
    ensures n % 3 != 0 ==> (n + (n - 1) / 3) % 4 != 3 && n / 3 == (n - 1) / 3
  {
    var k, r := (n - 1) / 3, (n - 1) % 3;
    assert n == 3 * k + r + 1;
  }

  lemma GroupOf4(n: nat)
    requires n > 0
    ensures n % 4 == 0 ==> (n + (n - 1) / 4) % 5 == 4 && n / 4 == (n - 1) / 4 + 1
    ensures n % 4 != 0 ==> (n + (n - 1) / 4) % 5 != 4 && n / 4 == (n - 1) / 4
  {
    var k, r := (n - 1) / 4, (n - 1) % 4;
    assert n == 4 * k + r + 1;
  }

  lemma DigitsStart(value: U64, b: Base, group: bool)
    ensures Digits(value, b, group, "", value, 0)
  {
  }

  lemma PowerStep(value: U64, v: nat, base: nat, n: nat)
    requires base > 0 && v > 0 && v * Power(base, n) <= value < (v + 1) * Power(base, n)
    ensures v / base * Power(base, n + 1) <= value < (v / base + 1) * Power(base, n + 1) && Power(base, n) <= value
  {
    DivMod(v, base);
    MulLe(1, v, Power(base, n));
    MulLe(v / base * base, v, Power(base, n));
    assert v / base * base * Power(base, n) == v / base * Power(base, n + 1);
    assert v + 1 <= (v / base + 1) * base;
    MulLe(v + 1, (v / base + 1) * base, Power(base, n));
    assert (v / base + 1) * base * Power(base, n) == (v / base + 1) * Power(base, n + 1);
  }

  /** One turn of the digit loop; `comma` says whether a comma goes first. */
  lemma DigitsNext(value: U64, b: Base, group: bool, s: string, left: nat, count: nat, comma: bool)
    requires Digits(value, b, group, s, left, count) && IsBase(b) && left > 0
    requires comma == (group && count > 0 && count % b.group == 0)
    ensures var t := if comma then s + [','] else s;
            Digits(value, b, group, t + [Digit(b, left % b.base)], left / b.base, count + 1)
  {
    hide Value, Power, DigitValue, Width;
    var t, c := if comma then s + [','] else s, Digit(b, left % b.base);
    DivMod(left, b.base);
    DigitIs(b, left % b.base);
    ValueAppend(b.base, s, ',', left);
    ValueAppend(b.base, t, c, left / b.base);
    FewDigits(value, left, b.base, count);
    PowerStep(value, left, b.base, count);
    assert Printed(b, c, group);
    WidthNext(b, group, count, comma);
    LeadingDigit(b, left);
    CommasNext(b, group, s, comma, c);
    forall i | 0 <= i < |t| + 1
      ensures Printed(b, (t + [c])[i], group)
    {
    }
  }

  lemma CommasNext(b: Base, group: bool, s: string, comma: bool, c: char)
    requires Commas(b, group, s) && c != ',' && (comma ==> group)
    requires group ==> var w := |s| + if comma then 1 else 0;
                       w % (b.group + 1) != b.group && (comma ==> (w - 1) % (b.group + 1) == b.group)
    ensures Commas(b, group, (if comma then s + [','] else s) + [c])
  {
  }

  /** The last digit to be written is not zero. */
  lemma LeadingDigit(b: Base, left: nat)
    requires IsBase(b) && left > 0
    ensures left / b.base == 0 ==> Digit(b, left % b.base) != '0'
  {
    DivMod(left, b.base);
    DigitIs(b, left % b.base);
  }

  lemma {:induction false} ValueZero(base: nat, s: string, n: nat)
    ensures Value(base, s + Repeat('0', n), 0) == Value(base, s, 0)
    decreases n
  {
    if n == 0 {
      assert s + Repeat('0', 0) == s;
    } else {
      ValueAppend(base, s + Repeat('0', n - 1), '0', 0);
      assert s + Repeat('0', n) == s + Repeat('0', n - 1) + ['0'];
      ValueZero(base, s, n - 1);
    }
  }

  function Repeat(c: char, n: int): (s: string)
    ensures |s| == if n < 0 then 0 else n
    ensures forall i | 0 <= i < |s| :: s[i] == c
  {
    if n <= 0 then "" else seq(n, _ => c)
  }

  function Reversed(s: string): (r: string)
    ensures |r| == |s| && forall i | 0 <= i < |s| :: r[i] == s[|s| - 1 - i]
  {
    seq(|s|, i requires 0 <= i < |s| => s[|s| - 1 - i])
  }

  lemma ReversedTwice(s: string)
    ensures Reversed(Reversed(s)) == s
  {
  }

  /** The digits go into the buffer, least significant first. */
  method StoreDigits(value: U64, b: Base, group: bool, buf: array<char>) returns (cp: nat, ghost digits: nat)
    requires IsBase(b) && buf.Length == 64
    modifies buf
    ensures cp <= 44 && Digits(value, b, group, buf[..cp], 0, digits)
  {
    hide Digits, Value, Power, Printed, Digit;
    var left, count := value, 0;
    cp := 0;
    assert buf[..0] == "";
    DigitsStart(value, b, group);
    while left > 0
      invariant left >= 0 && cp <= 44 && Digits(value, b, group, buf[..cp], left, count)
      decreases left
    {
      DigitsBounds(value, b, group, buf[..cp], left, count);
      ghost var s, comma := buf[..cp], group && count > 0 && count % b.group == 0;
      DigitsNext(value, b, group, s, left, count, comma);
      if group && count > 0 && count % b.group == 0 {
        buf[cp] := ',';
        cp := cp + 1;
      }
      DivMod(left, b.base);
      assert buf[..cp] == if comma then s + [','] else s;
      buf[cp] := Digit(b, left % b.base);
      assert buf[..cp + 1] == (if comma then s + [','] else s) + [Digit(b, left % b.base)];
      cp := cp + 1;
      Smaller(left, b.base);
      left := left / b.base;
      count := count + 1;
      DigitsBounds(value, b, group, buf[..cp], left, count);
    }
    digits := count;
  }

  lemma Smaller(v: nat, base: nat)
    requires v > 0 && base >= 8
    ensures v / base < v
  {
    DivMod(v, base);
    MulLe(8, base, v / base);
  }

  lemma DigitsBounds(value: U64, b: Base, group: bool, s: string, left: nat, count: nat)
    requires Digits(value, b, group, s, left, count) && IsBase(b)
    ensures |s| <= 44 && (left > 0 ==> count < 22 && |s| <= 42) && count >= 0
  {
    WidthNext(b, group, count, group && count > 0 && count % b.group == 0);
    if left > 0 { FewDigits(value, left, b.base, count); }
  }

  // ----- format_integer -----

  function SignOf(isSigned: bool, negative: bool, f: Flags): (s: string) {
    if !isSigned then ""
    else if f.plus then (if negative then "-" else "+")
    else if f.space then (if negative then "-" else " ")
    else if negative then "-" else ""
  }

  function Prefix(value: int, b: Base, f: Flags): (x: string) {
    if f.pound && value != 0 then b.x else ""
  }

  // What the output is to look like.

  ghost predicate AllOf(s: string, c: char) {
    forall i | 0 <= i < |s| :: s[i] == c
  }

  /** At most one sign character, and which. */
  ghost predicate IsSign(s: string, isSigned: bool, negative: bool, f: Flags) {
    && (s == "-" <==> isSigned && negative)
    && (s == "+" <==> isSigned && !negative && f.plus)
    && (s == " " <==> isSigned && !negative && !f.plus && f.space)
    && (s == "" || s == "-" || s == "+" || s == " ")
  }

  /** The mark of hexadecimal numbers. */
  ghost predicate IsMark(x: string, value: int, b: Base, f: Flags) {
    && (x == "0x" <==> f.pound && value != 0 && b == HEX)
    && (x == "0X" <==> f.pound && value != 0 && b == UPPER_HEX)
    && (x == "" || x == "0x" || x == "0X")
  }

  /** The output of n characters has to be padded by this much. */
  function Lacking(width: nat, n: nat): (pad: nat) {
    if width > n then width - n else 0
  }

  /** The output piece by piece: spaces, sign, mark, zeros, number, spaces. */
  ghost predicate Arranged(out: string, left: string, sign: string, x: string, zeros: string, body: string, right: string,
                           c: Conversion) {
    && out == left + sign + x + zeros + body + right && AllOf(left, ' ') && AllOf(zeros, '0') && AllOf(right, ' ')
    && var pad := Lacking(c.width, |sign| + |x| + |body|);
       && |left| == (if c.flags.minus || c.flags.zero then 0 else pad)
       && |zeros| == (if c.flags.zero then pad else 0)
       && |right| == (if c.flags.minus then pad else 0)
  }

  ghost predicate Formatted(value: U64, isSigned: bool, negative: bool, b: Base, c: Conversion, body: string, out: string) {
    exists left, sign, x, zeros, right ::
      Arranged(out, left, sign, x, zeros, body, right, c) && IsSign(sign, isSigned, negative, c.flags) && IsMark(x, value, b, c.flags)
  }

  /** The output is as long as asked for, or as long as it has to be, exactly if not both the minus and the
      zero flag ask for padding. */
  lemma FormatLength(value: U64, isSigned: bool, negative: bool, b: Base, c: Conversion, body: string, out: string)
    requires Formatted(value, isSigned, negative, b, c, body, out) && IsBase(b)
    ensures var n := |body| + (if isSigned && (negative || c.flags.plus || c.flags.space) then 1 else 0)
                     + if c.flags.pound && value != 0 && b.base == 16 then 2 else 0;
            |out| == (if c.width > n then c.width else n) <==> !(c.flags.minus && c.flags.zero && c.width > n)
  {
    var left, sign, x, zeros, right :|
      Arranged(out, left, sign, x, zeros, body, right, c) && IsSign(sign, isSigned, negative, c.flags) && IsMark(x, value, b, c.flags);
    SignLength(sign, isSigned, negative, c.flags);
    MarkLength(x, value, b, c.flags);
  }

  lemma SignLength(s: string, isSigned: bool, negative: bool, f: Flags)
    requires IsSign(s, isSigned, negative, f)
    ensures |s| == if isSigned && (negative || f.plus || f.space) then 1 else 0
  {
  }

  lemma MarkLength(x: string, value: int, b: Base, f: Flags)
    requires IsMark(x, value, b, f) && IsBase(b)
    ensures |x| == if f.pound && value != 0 && b.base == 16 then 2 else 0
  {
  }

  function Precision(c: Conversion): (p: nat) {
    if c.precision < 0 then 1 else c.precision
  }

  /** How many characters a numeral of n characters is padded to: the precision, at most 63, and
      one more zero for the alternate octal form if there is none yet. */
  function BodySize(c: Conversion, b: Base, n: nat): (size: nat) {
    var p := if Precision(c) <= n then n else if Precision(c) < 63 then Precision(c) else 63;
    if c.flags.pound && b.base == 8 && p == n then p + 1 else p
  }

  /** body is the numeral s, least significant digit first, after as many zeros as asked for. */
  ghost predicate Shape(value: U64, b: Base, c: Conversion, body: string, s: string, digits: nat) {
    && Digits(value, b, c.flags.group, s, 0, digits)
    && |s| <= |body| == BodySize(c, b, |s|) && body == Repeat('0', |body| - |s|) + Reversed(s)
  }

  /** body is the rendering of value. */
  ghost predicate Renders(value: U64, b: Base, c: Conversion, body: string) {
    && |body| <= 63 && Value(b.base, Reversed(body), 0) == value
    && (forall i | 0 <= i < |body| :: Printed(b, body[i], c.flags.group))
    && (exists s, digits :: Shape(value, b, c, body, s, digits))
    && (!c.flags.group && !c.flags.pound && |body| > Precision(c) ==> Power(b.base, |body| - 1) <= value)
    && (Precision(c) <= |body| || |body| == 63)
  }

  /** Zeros up to the precision. */
  method StoreZeros(buf: array<char>, start: nat, precision: nat) returns (cp: nat)
    requires buf.Length == 64 && start <= 63
    modifies buf
    ensures start <= cp <= 63 && buf[..cp] == old(buf[..start]) + Repeat('0', cp - start)
    ensures cp == if precision <= start then start else if precision < 63 then precision else 63
  {
    cp := start;
    assert buf[..cp] == old(buf[..start]) + Repeat('0', 0);
    while cp < precision && cp < 63
      invariant start <= cp <= 63 && (precision <= start ==> cp == start) && (precision > start ==> cp <= precision)
      invariant buf[..cp] == old(buf[..start]) + Repeat('0', cp - start)
    {
      ghost var s := buf[..cp];
      buf[cp] := '0';
      assert buf[..cp + 1] == s + ['0'];
      assert Repeat('0', cp + 1 - start) == Repeat('0', cp - start) + ['0'];
      cp := cp + 1;
    }
  }

  method OutputDup(out: string, c: char, cnt: int) returns (r: string)
    ensures r == out + Repeat(c, cnt)
  {
    r := out;
    var i := 0;
    while i < cnt
      invariant 0 <= i && (i <= cnt || i == 0) && r == out + Repeat(c, i)
    {
      assert Repeat(c, i + 1) == Repeat(c, i) + [c];
      r := r + [c];
      i := i + 1;
    }
  }

  method OutputReversed(out: string, buf: array<char>, n: nat) returns (r: string)
    requires n <= buf.Length
    ensures r == out + Reversed(buf[..n])
  {
    r := out;
    var cp := n;
    while cp > 0
      invariant 0 <= cp <= n && r == out + Reversed(buf[cp..n])
    {
      cp := cp - 1;
      assert Reversed(buf[cp..n]) == Reversed(buf[cp + 1..n]) + [buf[cp]];
      r := r + [buf[cp]];
    }
    assert buf[0..n] == buf[..n];
  }

  /** The buffer of 64 characters never overflows, and its contents render the value. */
  method RenderDigits(value: U64, b: Base, c: Conversion, buf: array<char>) returns (cp: nat)
    requires IsBase(b) && buf.Length == 64
    modifies buf
    ensures cp <= 63 && Renders(value, b, c, Reversed(buf[..cp]))
  {
    hide Value, Power, Printed, Digits;
    var start;
    ghost var digits;
    start, digits := StoreDigits(value, b, c.flags.group, buf);
    ghost var s := buf[..start];
    NumeralFacts(value, b, c.flags.group, s, digits);
    cp := StoreZeros(buf, start, Precision(c));
    ghost var t := buf[..cp];
    assert cp > 0 ==> (buf[cp - 1] != '0' <==> cp == start) by { assert cp > 0 ==> t[cp - 1] == buf[cp - 1]; }
    if c.flags.pound && b.base == 8 && (cp == 0 || buf[cp - 1] != '0') {
      buf[cp] := '0';
      cp := cp + 1;
      assert buf[..cp] == t + ['0'] == s + Repeat('0', 1);
    }
    assert buf[..cp] == s + Repeat('0', cp - start);
    RendersIs(value, b, c, s, digits, cp - start);
  }

  lemma NumeralFacts(value: U64, b: Base, group: bool, s: string, digits: nat)
    requires Digits(value, b, group, s, 0, digits)
    ensures Value(b.base, s, 0) == value && (forall i | 0 <= i < |s| :: Printed(b, s[i], group))
    ensures s != "" ==> s[|s| - 1] != '0'
    ensures !group && s != "" ==> Power(b.base, |s| - 1) <= value
  {
    hide Value, Power, Printed;
  }

  lemma RendersIs(value: U64, b: Base, c: Conversion, s: string, digits: nat, zeros: nat)
    requires IsBase(b) && Digits(value, b, c.flags.group, s, 0, digits) && |s| <= 44
    requires |s| + zeros == BodySize(c, b, |s|)
    ensures Renders(value, b, c, Reversed(s + Repeat('0', zeros)))
  {
    hide Value, Power, Digits, Printed, Reversed;
    NumeralFacts(value, b, c.flags.group, s, digits);
    ValueZero(b.base, s, zeros);
    var t := s + Repeat('0', zeros);
    ReversedTwice(t);
    ReversedPadded(s, zeros);
    PrintedPadded(b, c.flags.group, s, zeros);
    assert Shape(value, b, c, Reversed(t), s, digits);
  }

  lemma ReversedPadded(s: string, zeros: nat)
    ensures Reversed(s + Repeat('0', zeros)) == Repeat('0', zeros) + Reversed(s)
  {
  }

  lemma PrintedPadded(b: Base, group: bool, s: string, zeros: nat)
    requires IsBase(b) && forall i | 0 <= i < |s| :: Printed(b, s[i], group)
    ensures var r := Reversed(s + Repeat('0', zeros)); forall i | 0 <= i < |r| :: Printed(b, r[i], group)
  {
    var t := s + Repeat('0', zeros);
    assert Digit(b, 0) == '0';
    forall i | 0 <= i < |t|
      ensures Printed(b, t[i], group)
    {
      if i < |s| { assert t[i] == s[i]; }
    }
  }

  lemma SignIs(isSigned: bool, negative: bool, f: Flags)
    ensures IsSign(SignOf(isSigned, negative, f), isSigned, negative, f)
  {
  }

  lemma MarkIs(value: int, b: Base, f: Flags)
    requires IsBase(b)
    ensures IsMark(Prefix(value, b, f), value, b, f)
  {
  }

  /** format_integer, with the output as a string. */
  method FormatInteger(value: U64, isSigned: bool, negative: bool, b: Base, c: Conversion)
    returns (out: string, ghost body: string)
    requires IsBase(b)
    ensures Renders(value, b, c, body) && Formatted(value, isSigned, negative, b, c, body, out)
  {
    hide Renders, Reversed, SignOf, Prefix, Formatted, Arranged, IsSign, IsMark;
    var sign, x := SignOf(isSigned, negative, c.flags), Prefix(value, b, c.flags);
    SignIs(isSigned, negative, c.flags);
    MarkIs(value, b, c.flags);
    var buf := new char[64];
    var cp := RenderDigits(value, b, c, buf);
    body := Reversed(buf[..cp]);
    var pad := c.width - cp - |x| - |sign|;
    out := "";
    if !c.flags.minus && !c.flags.zero {
      out := OutputDup(out, ' ', pad);
    }
    ghost var left := out;
    out := out + sign + x;
    ghost var a := out;
    if c.flags.zero {
      out := OutputDup(out, '0', pad);
    }
    ghost var zeros := if c.flags.zero then Repeat('0', pad) else "";
    assert out == a + zeros;
    out := OutputReversed(out, buf, cp);
    ghost var e := out;
    if c.flags.minus {
      out := OutputDup(out, ' ', pad);
    }
    ghost var right := if c.flags.minus then Repeat(' ', pad) else "";
    assert out == e + right;
    ArrangedNow(out, left, sign, x, zeros, body, right, c);
    FormattedIs(value, isSigned, negative, b, c, body, out, left, sign, x, zeros, right);
  }

  lemma ArrangedNow(out: string, left: string, sign: string, x: string, zeros: string, body: string, right: string, c: Conversion)
    requires out == left + sign + x + zeros + body + right
    requires var pad := c.width - |body| - |x| - |sign|;
             && left == (if !c.flags.minus && !c.flags.zero then Repeat(' ', pad) else "")
             && zeros == (if c.flags.zero then Repeat('0', pad) else "")
             && right == (if c.flags.minus then Repeat(' ', pad) else "")
    ensures Arranged(out, left, sign, x, zeros, body, right, c)
  {
  }

  lemma FormattedIs(value: U64, isSigned: bool, negative: bool, b: Base, c: Conversion, body: string, out: string,
                    left: string, sign: string, x: string, zeros: string, right: string)
    requires Arranged(out, left, sign, x, zeros, body, right, c)
    requires IsSign(sign, isSigned, negative, c.flags) && IsMark(x, value, b, c.flags)
    ensures Formatted(value, isSigned, negative, b, c, body, out)
  {
    hide Arranged, IsSign, IsMark;
  }

  // ----- vsnprintf -----

  /** vsnprintf for a given text: the longest prefix that fits, a null character, and the length
      of the whole text as the result. */
  method Vsnprintf(buffer: array<char>, size: nat, text: string) returns (length: nat)
    requires size <= buffer.Length
    modifies buffer
    ensures length == |text|
    ensures size > 0 ==> var n := if |text| < size then |text| else size - 1;
                         buffer[..n] == text[..n] && buffer[n] == '\0' && buffer[n + 1..] == old(buffer[n + 1..])
    ensures size == 0 ==> buffer[..] == old(buffer[..])
  {
    var maxLength := if size > 0 then size - 1 else 0;
    var p := 0;
    length := 0;
    while length < |text|
      invariant length <= |text| && p == (if length < maxLength then length else maxLength)
      invariant buffer[..p] == text[..p] && buffer[p..] == old(buffer[p..])
    {
      if length < maxLength {
        ghost var b := buffer[..];
        assert b[..p] == text[..p] && b[p..] == old(buffer[p..]);
        buffer[p] := text[length];
        assert buffer[..p + 1] == b[..p] + [text[length]] && buffer[p + 1..] == b[p..][1..];
        p := p + 1;
      }
      length := length + 1;
    }
    if size > 0 {
      ghost var b := buffer[..];
      assert b[..p] == text[..p] && b[p..] == old(buffer[p..]);
      buffer[p] := '\0';
      assert buffer[..p] == b[..p];
      assert buffer[p + 1..] == b[p..][1..] == old(buffer[p + 1..]);
    }
  }

  // ----- atoi -----

  predicate IsSpace(c: char) {
    c == ' ' || c == '\t' || c == '\n' || c == '\r' || c as int == 11 || c as int == 12
  }

  /** The number read from the digits at the start of s, v having been read before. */
  function Parse(s: string, v: nat): (r: nat)
    ensures r >= v
  {
    if s == "" || !IsDigit(s[0]) then v else Parse(s[1..], 10 * v + DigitValue(s[0]))
  }

  function SkipSpace(s: string): (t: string) {
    if s != "" && IsSpace(s[0]) then SkipSpace(s[1..]) else s
  }

  /** What atoi is to compute. */
  function Meaning(s: string): (v: int) {
    var t := SkipSpace(s);
    if t != "" && t[0] == '-' then -(Parse(t[1..], 0) as int)
    else if t != "" && t[0] == '+' then Parse(t[1..], 0)
    else Parse(t, 0)
  }

  method SkipWhite(s: string) returns (i: nat)
    ensures i <= |s| && s[i..] == SkipSpace(s)
  {
    i := 0;
    assert s[0..] == s;
    while i < |s| && IsSpace(s[i])
      invariant 0 <= i <= |s| && SkipSpace(s) == SkipSpace(s[i..])
    {
      assert s[i..][1..] == s[i + 1..];
      i := i + 1;
    }
  }

  /** The digit loop, which accumulates the negated value so that the least int can be read. */
  method ReadDigits(s: string, start: nat) returns (v: S32)
    requires start <= |s| && Parse(s[start..], 0) <= 0x8000_0000
    ensures v as int == -(Parse(s[start..], 0) as int)
  {
    var i := start;
    v := 0;
    ghost var read: nat := 0;
    while i < |s| && IsDigit(s[i])
      invariant start <= i <= |s| && v as int == -(read as int) && Parse(s[start..], 0) == Parse(s[i..], read)
    {
      assert s[i..][1..] == s[i + 1..];
      read := 10 * read + DigitValue(s[i]);
      assert Parse(s[i..][1..], read) >= read;
      v := v * 10 - DigitValue(s[i]);
      i := i + 1;
    }
  }

  /** atoi of a number that an int can hold; no intermediate value overflows. */
  method Atoi(s: string) returns (v: S32)
    requires -0x8000_0000 <= Meaning(s) < 0x8000_0000
    ensures v == Meaning(s)
  {
    hide Parse, SkipSpace;
    var i := SkipWhite(s);
    ghost var t := s[i..];
    assert i < |s| ==> t[0] == s[i] && t[1..] == s[i + 1..];
    var negative := false;
    if i < |s| && s[i] == '+' {
      i := i + 1;
    } else if i < |s| && s[i] == '-' {
      negative := true;
      i := i + 1;
    }
    v := ReadDigits(s, i);
    if !negative {
      v := 0 - v;
    }
  }

  /** White space, as isspace has it. */
  ghost predicate IsWhite(s: string) {
    forall i | 0 <= i < |s| :: s[i] in [' ', '\t', '\n', '\r', 11 as char, 12 as char]
  }

  ghost predicate AllDigits(s: string) {
    forall i | 0 <= i < |s| :: '0' <= s[i] <= '9'
  }

  lemma {:induction false} SkipWhiteSpace(space: string, t: string)
    requires IsWhite(space) && (t != "" ==> !IsSpace(t[0]))
    ensures SkipSpace(space + t) == t
    decreases |space|
  {
    if space == "" {
      assert space + t == t;
    } else {
      assert (space + t)[0] == space[0] && (space + t)[1..] == space[1..] + t;
      SkipWhiteSpace(space[1..], t);
    }
  }

  lemma {:induction false} ParseStops(digits: string, rest: string, v: nat)
    requires AllDigits(digits) && (rest != "" ==> !IsDigit(rest[0]))
    ensures Parse(digits + rest, v) == Value(10, Reversed(digits), v)
    decreases |digits|
  {
    if digits == "" {
      assert digits + rest == rest;
    } else {
      assert (digits + rest)[0] == digits[0] && (digits + rest)[1..] == digits[1..] + rest;
      ParseStops(digits[1..], rest, 10 * v + DigitValue(digits[0]));
      assert Reversed(digits) == Reversed(digits[1..]) + [digits[0]];
      ValueAppend(10, Reversed(digits[1..]), digits[0], v);
    }
  }

  /** atoi of white space, an optional sign, digits, and whatever follows them. */
  lemma MeaningIs(space: string, sign: string, digits: string, rest: string)
    requires IsWhite(space) && (sign == "" || sign == "+" || sign == "-") && AllDigits(digits)
    requires rest != "" ==> !IsDigit(rest[0])
    requires sign == "" && digits == "" && rest != "" ==> !IsSpace(rest[0]) && rest[0] != '+' && rest[0] != '-'
    ensures Meaning(space + sign + digits + rest)
            == if sign == "-" then -(Value(10, Reversed(digits), 0) as int) else Value(10, Reversed(digits), 0)
  {
    hide Value, Reversed, Parse, SkipSpace;
    var t := sign + digits + rest;
    assert space + sign + digits + rest == space + t;
    assert t != "" ==> !IsSpace(t[0]);
    SkipWhiteSpace(space, t);
    ParseStops(digits, rest, 0);
    if sign == "" {
      assert t == digits + rest;
    } else {
      assert t[0] == sign[0] && t[1..] == digits + rest;
    }
  }

  // ----- What a printed number means -----

  lemma DecimalDigits(value: U64, c: Conversion, body: string)
    requires Renders(value, DECIMAL, c, body) && !c.flags.group
    ensures AllDigits(body) && Value(10, Reversed(body), 0) == value
  {
    forall i | 0 <= i < |body|
      ensures IsDigit(body[i])
    {
      var d: nat :| d < 10 && d < 16 && body[i] == Digit(DECIMAL, d);
    }
  }

  /** Letters are upper case exactly in the upper-case base, and there are none but in hexadecimal. */
  lemma Letters(value: U64, b: Base, c: Conversion, body: string, i: nat)
    requires Renders(value, b, c, body) && IsBase(b) && i < |body|
    ensures '0' <= body[i] <= '9' || (c.flags.group && body[i] == ',') || (b == HEX && 'a' <= body[i] <= 'f')
            || (b == UPPER_HEX && 'A' <= body[i] <= 'F')
  {
    hide Value, Shape, Power, Digit;
    assert Printed(b, body[i], c.flags.group);
    if !(c.flags.group && body[i] == ',') {
      var d: nat :| d < b.base && d < 16 && body[i] == Digit(b, d);
      DigitIs(b, d);
    }
  }

  /** Whatever the flags, the width and the precision, a decimal number without grouping means the value
      it was printed from. */
  lemma DecimalMeaning(value: U64, isSigned: bool, negative: bool, c: Conversion, body: string, out: string)
    requires Renders(value, DECIMAL, c, body) && !c.flags.group && Formatted(value, isSigned, negative, DECIMAL, c, body, out)
    ensures Meaning(out) == if isSigned && negative then -(value as int) else value
  {
    hide Renders, Meaning, Value, Reversed, AllOf, AllDigits, Arranged, IsSign, IsMark;
    DecimalDigits(value, c, body);
    var left, sign, x, zeros, right :|
      && Arranged(out, left, sign, x, zeros, body, right, c) && IsSign(sign, isSigned, negative, c.flags)
      && IsMark(x, value, DECIMAL, c.flags);
    NoMark(value, out, left, sign, x, zeros, body, right, c);
    SignMeans(sign, isSigned, negative, c.flags);
    PiecesMean(left, sign, zeros, body, right);
  }

  lemma NoMark(value: U64, out: string, left: string, sign: string, x: string, zeros: string, body: string, right: string,
               c: Conversion)
    requires Arranged(out, left, sign, x, zeros, body, right, c) && IsMark(x, value, DECIMAL, c.flags)
    ensures out == left + sign + zeros + body + right && AllOf(left, ' ') && AllOf(zeros, '0') && AllOf(right, ' ')
  {
    hide AllOf;
    assert x == "";
  }

  lemma SignMeans(s: string, isSigned: bool, negative: bool, f: Flags)
    requires IsSign(s, isSigned, negative, f)
    ensures (s == "" || s == "-" || s == "+" || s == " ") && (s == "-" <==> isSigned && negative)
  {
  }

  /** What the pieces of a decimal number mean together. */
  lemma PiecesMean(left: string, sign: string, zeros: string, body: string, right: string)
    requires AllOf(left, ' ') && AllOf(zeros, '0') && AllOf(right, ' ') && AllDigits(body)
    requires sign == "" || sign == "-" || sign == "+" || sign == " "
    ensures Meaning(left + sign + zeros + body + right)
            == if sign == "-" then -(Value(10, Reversed(body), 0) as int) else Value(10, Reversed(body), 0)
  {
    hide Meaning, Value, Reversed;
    ZerosBefore(zeros, body);
    var digits := zeros + body;
    assert left + sign + zeros + body + right == left + sign + digits + right;
    if sign == "+" || sign == "-" {
      MeaningIs(left, sign, digits, right);
    } else if digits != "" {
      assert left + sign + digits + right == (left + sign) + "" + digits + right;
      MeaningIs(left + sign, "", digits, right);
    } else {
      assert left + sign + digits + right == (left + sign + right) + "" + "" + "";
      MeaningIs(left + sign + right, "", "", "");
    }
  }

  lemma ZerosBefore(zeros: string, body: string)
    requires AllOf(zeros, '0') && AllDigits(body)
    ensures AllDigits(zeros + body) && Value(10, Reversed(zeros + body), 0) == Value(10, Reversed(body), 0)
  {
    hide Value;
    assert zeros == Repeat('0', |zeros|);
    ReversedBehind(zeros, body);
    ValueZero(10, Reversed(body), |zeros|);
  }

  lemma ReversedBehind(zeros: string, body: string)
    requires AllOf(zeros, '0')
    ensures Reversed(zeros + body) == Reversed(body) + Repeat('0', |zeros|)
  {
  }

  /** Printing an int with any conversion without grouping, and reading it back. */
  method PrintThenRead(v: S32, c: Conversion) returns (r: S32)
    requires !c.flags.group
    ensures r == v
  {
    hide Renders, Formatted, Meaning;
    var out;
    ghost var body;
    out, body := FormatInteger(if v < 0 then -(v as int) else v, true, v < 0, DECIMAL, c);
    DecimalMeaning(if v < 0 then -(v as int) else v, true, v < 0, c, body, out);
    r := Atoi(out);
  }

  // ----- How long a number is -----

  lemma {:induction false} PowerGrows(base: nat, a: nat, b: nat)
    requires a <= b && base >= 1
    ensures Power(base, a) <= Power(base, b)
    decreases b
  {
    if a < b {
      PowerGrows(base, a, b - 1);
      MulLe(1, base, Power(base, b - 1));
    }
  }

  /** The number of digits of the value, 0 for zero. */
  ghost predicate IsLength(value: nat, base: nat, k: nat) {
    value < Power(base, k) && (k > 0 ==> Power(base, k - 1) <= value)
  }

  lemma NumeralLength(value: U64, b: Base, group: bool, s: string, digits: nat, k: nat)
    requires IsBase(b) && Digits(value, b, group, s, 0, digits) && IsLength(value, b.base, k)
    ensures k <= 22 && |s| == k + if group && k > 0 then (k - 1) / (if b.base == 16 then 4 else 3) else 0
  {
    hide Value, Printed, Power, Commas;
    assert value < Power(b.base, digits) by { assert 1 * Power(b.base, digits) == Power(b.base, digits); }
    if k < digits { PowerGrows(b.base, k, digits - 1); }
    if digits < k { PowerGrows(b.base, digits, k - 1); }
  }

  /** A number has its digits with a comma between groups of 3, or of 4 in hexadecimal, or as many
      characters as the precision asks for, at most 63; in the alternate octal form it begins with a
      zero, which is added if need be. */
  lemma BodyLength(value: U64, b: Base, c: Conversion, body: string, k: nat)
    requires IsBase(b) && Renders(value, b, c, body) && IsLength(value, b.base, k)
    ensures var p := if c.precision < 0 then 1 else if c.precision < 63 then c.precision else 63;
            var n := k + if c.flags.group && k > 0 then (k - 1) / (if b.base == 16 then 4 else 3) else 0;
            |body| == if p > n then p else if c.flags.pound && b.base == 8 then n + 1 else n
    ensures c.flags.pound && b.base == 8 ==> body != "" && body[0] == '0'
  {
    hide Value, Printed, Power, Digits, Reversed, IsLength;
    var s, digits :| Shape(value, b, c, body, s, digits);
    NumeralLength(value, b, c.flags.group, s, digits, k);
  }

  /** Where the commas are, counting from the last character of a number that the precision does not lengthen. */
  lemma CommaPlaces(value: U64, b: Base, c: Conversion, body: string, i: nat)
    requires IsBase(b) && Renders(value, b, c, body) && i < |body| && body[0] != '0'
    ensures body[|body| - 1 - i] == ',' <==> c.flags.group && i % (if b.base == 16 then 5 else 4) == (if b.base == 16 then 4 else 3)
  {
    hide Value, Printed, Power;
    var s, digits :| Shape(value, b, c, body, s, digits);
    assert |s| == |body|;
    assert body[|body| - 1 - i] == s[i];
  }

  /** For example "%0*d" with -5 and 1, where the negative width sets the minus flag after the zero flag
      has been looked at, gives nine characters. */
  method PaddedTwice() returns (out: string)
    ensures |out| == 9
  {
    hide Renders, Formatted;
    var c := Conversion(Flags(true, false, false, false, true, false), 5, -1);
    ghost var body;
    out, body := FormatInteger(1, true, false, DECIMAL, c);
    assert IsLength(1, 10, 1) by { assert Power(10, 1) == 10 * Power(10, 0); }
    BodyLength(1, DECIMAL, c, body, 1);
    TwicePadded(body, out);
  }

  lemma TwicePadded(body: string, out: string)
    requires Formatted(1, true, false, DECIMAL, Conversion(Flags(true, false, false, false, true, false), 5, -1), body, out)
    requires |body| == 1
    ensures |out| == 9
  {
    var c := Conversion(Flags(true, false, false, false, true, false), 5, -1);
    var left, sign, x, zeros, right :|
      Arranged(out, left, sign, x, zeros, body, right, c) && IsSign(sign, true, false, c.flags) && IsMark(x, 1, DECIMAL, c.flags);
    SignLength(sign, true, false, c.flags);
    MarkLength(x, 1, DECIMAL, c.flags);
  }
}
