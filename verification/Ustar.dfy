/** ustar archive headers (src/lib/ustar.c; the ustar interchange format of the pax utility, IEEE
    Std 1003.1). A header is 512 characters with codes below 256. */
module Ustar {
  import opened Common
  import opened Stdio

  const HEADER: nat := 512
  const CHKSUM: nat := 148
  const CHKSUM_END: nat := 156

  datatype Kind = Regular | Directory

  function TypeFlag(k: Kind): (c: char) {
    if k == Regular then '0' else '5'
  }

  /** What parsing a header yields. */
  datatype Parsed = EndOfArchive | Entry(name: string, kind: Kind, size: nat) | Bad(message: string)

  // ----- Names -----

  function AfterSlash(s: string): (t: string)
    ensures |t| <= |s| && ('/' in s ==> |t| < |s|)
  {
    if s == "" then "" else if s[0] == '/' then s[1..] else AfterSlash(s[1..])
  }

  predicate Antisocial(s: string) {
    (s != "" && s[0] == '/') || (|s| >= 2 && s[..2] == "./") || (|s| >= 3 && s[..3] == "../")
  }

  lemma AntisocialSlash(s: string)
    requires Antisocial(s)
    ensures '/' in s
  {
    if s[0] != '/' {
      if |s| >= 2 && s[..2] == "./" { assert s[1] == s[..2][1] == '/'; }
      else { assert s[2] == s[..3][2] == '/'; }
    }
  }

  /** What strip_antisocial_prefixes returns. */
  function Stripped(s: string): (r: string)
    decreases |s|
  {
    if Antisocial(s) then (AntisocialSlash(s); Stripped(AfterSlash(s)))
    else if s == "" || s == ".." then "." else s
  }

  ghost predicate BeginsWith(s: string, p: string) {
    |p| <= |s| && s[..|p|] == p
  }

  ghost function Joined(parts: seq<string>): (s: string) {
    if parts == [] then "" else parts[0] + Joined(parts[1..])
  }

  ghost predicate IsPrefixPart(p: string) {
    p == "/" || p == "./" || p == "../"
  }

  /** The name is some of the parts "/", "./" and "../", one after the other, followed by something that
      begins with none of them. */
  ghost predicate Splits(name: string, parts: seq<string>, rest: string) {
    && name == Joined(parts) + rest && (forall i | 0 <= i < |parts| :: IsPrefixPart(parts[i]))
    && !BeginsWith(rest, "/") && !BeginsWith(rest, "./") && !BeginsWith(rest, "../")
  }

  /** r is that rest, or "." in place of nothing and of "..". */
  ghost predicate StripsTo(name: string, r: string) {
    exists parts: seq<string>, rest: string :: Splits(name, parts, rest) && r == Shown(rest)
  }

  function Shown(rest: string): string {
    if rest == "" || rest == ".." then "." else rest
  }

  /** The part a name begins with. */
  lemma FirstPart(s: string) returns (p: string)
    requires Antisocial(s)
    ensures IsPrefixPart(p) && s == p + AfterSlash(s)
  {
    AntisocialSlash(s);
    if s[0] == '/' {
      p := "/";
    } else if |s| >= 2 && s[..2] == "./" {
      p := "./";
      assert s[0] == s[..2][0] == '.' && s[1] == s[..2][1] == '/';
      assert AfterSlash(s) == AfterSlash(s[1..]) == s[1..][1..] == s[2..];
    } else {
      p := "../";
      assert s[0] == s[..3][0] == '.' && s[1] == s[..3][1] == '.' && s[2] == s[..3][2] == '/';
      assert s[1..][0] == '.' && s[1..][1..][0] == '/';
      assert AfterSlash(s) == AfterSlash(s[1..]) == AfterSlash(s[1..][1..]) == s[1..][1..][1..] == s[3..];
    }
  }

  lemma {:induction false} StrippedSplits(s: string) returns (parts: seq<string>, rest: string)
    ensures Splits(s, parts, rest) && Stripped(s) == Shown(rest)
    decreases |s|
  {
    hide IsPrefixPart, Joined;
    if Antisocial(s) {
      AntisocialSlash(s);
      var p := FirstPart(s);
      var more;
      more, rest := StrippedSplits(AfterSlash(s));
      parts := [p] + more;
      OnePartMore(p, AfterSlash(s), more, rest);
    } else {
      parts, rest := [], s;
      NoPartsYet(s);
    }
  }

  lemma NoPartsYet(s: string)
    ensures Joined([]) + s == s
  {
  }

  lemma OnePartMore(p: string, s: string, parts: seq<string>, rest: string)
    requires IsPrefixPart(p) && Splits(s, parts, rest)
    ensures Splits(p + s, [p] + parts, rest)
  {
    hide BeginsWith, IsPrefixPart;
    var all := [p] + parts;
    assert all[1..] == parts;
    assert Joined(all) == p + Joined(parts);
    assert Joined(all) + rest == p + (Joined(parts) + rest);
  }

  /** There is one way to split a name, so one result. */
  lemma {:induction false} SplitsOnce(name: string, parts: seq<string>, rest: string, parts': seq<string>, rest': string)
    requires Splits(name, parts, rest) && Splits(name, parts', rest')
    ensures parts == parts' && rest == rest'
    decreases |parts|
  {
    if parts == [] || parts' == [] {
      NoPart(name, parts, rest);
      NoPart(name, parts', rest');
    } else {
      SplitMore(name, parts, rest);
      SplitMore(name, parts', rest');
      SamePart(name, parts[0], parts'[0]);
      SplitsOnce(name[|parts[0]|..], parts[1..], rest, parts'[1..], rest');
      assert parts == [parts[0]] + parts[1..] && parts' == [parts'[0]] + parts'[1..];
    }
  }

  /** A name is split with parts exactly if it begins with one. */
  lemma NoPart(name: string, parts: seq<string>, rest: string)
    requires Splits(name, parts, rest)
    ensures parts != [] <==> BeginsWith(name, "/") || BeginsWith(name, "./") || BeginsWith(name, "../")
    ensures parts == [] ==> rest == name
  {
    if parts != [] {
      SplitMore(name, parts, rest);
    } else {
      assert name == rest;
    }
  }

  lemma SplitMore(name: string, parts: seq<string>, rest: string)
    requires Splits(name, parts, rest) && parts != []
    ensures BeginsWith(name, parts[0]) && IsPrefixPart(parts[0]) && Splits(name[|parts[0]|..], parts[1..], rest)
  {
    assert name == parts[0] + (Joined(parts[1..]) + rest);
    assert name[|parts[0]|..] == Joined(parts[1..]) + rest;
  }

  lemma SamePart(name: string, p: string, q: string)
    requires BeginsWith(name, p) && BeginsWith(name, q) && IsPrefixPart(p) && IsPrefixPart(q)
    ensures p == q
  {
    assert p[0] == name[0] == q[0];
    if |p| > 1 && |q| > 1 { assert p[1] == name[1] == q[1]; }
  }

  /** The result of stripping, and the only one there can be. */
  lemma StrippedIs(name: string, r: string)
    ensures StripsTo(name, r) <==> r == Stripped(name)
  {
    var parts, rest := StrippedSplits(name);
    if StripsTo(name, r) {
      var parts', rest' :| Splits(name, parts', rest') && r == Shown(rest');
      SplitsOnce(name, parts, rest, parts', rest');
    }
  }

  /** strip_antisocial_prefixes */
  method Strip(name: string) returns (r: string)
    ensures StripsTo(name, r) && r == Stripped(name)
  {
    r := name;
    while Antisocial(r)
      invariant Stripped(r) == Stripped(name)
      decreases |r|
    {
      AntisocialSlash(r);
      r := AfterSlash(r);
    }
    if r == "" || r == ".." {
      r := ".";
    }
    StrippedIs(name, r);
  }

  /** A stripped name is relative, is neither empty nor "..", begins with neither "./" nor "../", and
      stripping it again changes nothing. */
  lemma {:induction false} StripIdempotent(s: string)
    ensures !Antisocial(Stripped(s)) && Stripped(s) != "" && Stripped(s) != ".."
    ensures Stripped(Stripped(s)) == Stripped(s)
    decreases |s|
  {
    if Antisocial(s) {
      AntisocialSlash(s);
      StripIdempotent(AfterSlash(s));
    }
  }

  /** Parts of a name after its first component are not looked at. */
  lemma InnerDotsSurvive()
    ensures Stripped("a/../../x") == "a/../../x"
  {
    var s := "a/../../x";
    assert s[..2] == "a/" && s[..3] == "a/.";
    assert s[..2][0] == 'a' && s[..3][0] == 'a';
  }

  lemma {:induction false} StrippedClean(s: string)
    requires forall i | 0 <= i < |s| :: s[i] != '\0' && s[i] as int < 256
    ensures forall i | 0 <= i < |Stripped(s)| :: Stripped(s)[i] != '\0' && Stripped(s)[i] as int < 256
    decreases |s|
  {
    if Antisocial(s) {
      AntisocialSlash(s);
      AfterSlashClean(s);
      StrippedClean(AfterSlash(s));
    }
  }

  lemma {:induction false} AfterSlashClean(s: string)
    requires forall i | 0 <= i < |s| :: s[i] != '\0' && s[i] as int < 256
    ensures forall i | 0 <= i < |AfterSlash(s)| :: AfterSlash(s)[i] != '\0' && AfterSlash(s)[i] as int < 256
  {
    if s != "" && s[0] != '/' {
      AfterSlashClean(s[1..]);
    }
  }

  // ----- Checksums -----

  function Counted(h: string, i: nat): (n: nat)
    requires i < |h|
  {
    if CHKSUM <= i < CHKSUM_END then 32 else h[i] as int
  }

  /** The sum over the first n characters, those of the checksum field counting as spaces. */
  function SumTo(h: string, n: nat): (s: nat)
    requires n <= |h|
  {
    if n == 0 then 0 else SumTo(h, n - 1) + Counted(h, n - 1)
  }

  method CalculateChksum(h: string) returns (s: nat)
    requires |h| == HEADER
    ensures s == SumTo(h, HEADER)
  {
    s := 0;
    for i := 0 to HEADER
      invariant s == SumTo(h, i)
    {
      s := s + if CHKSUM <= i < CHKSUM_END then 32 else h[i] as int;
    }
  }

  /** The checksum does not depend on the checksum field. */
  lemma {:induction false} SumFrame(h: string, g: string, n: nat)
    requires n <= |h| == |g| && forall i | 0 <= i < n && !(CHKSUM <= i < CHKSUM_END) :: h[i] == g[i]
    ensures SumTo(h, n) == SumTo(g, n)
  {
    if n > 0 { SumFrame(h, g, n - 1); }
  }

  /** What the sum starts from: the eight spaces. With SumChanged this determines it. */
  lemma ZeroSum(h: string)
    requires |h| == HEADER && forall i | 0 <= i < HEADER :: h[i] == '\0'
    ensures SumTo(h, HEADER) == 8 * 32
  {
    ZeroSumTo(h, HEADER);
  }

  lemma {:induction false} ZeroSumTo(h: string, n: nat)
    requires n <= |h| == HEADER && forall i | 0 <= i < HEADER :: h[i] == '\0'
    ensures SumTo(h, n) == 32 * (if n <= CHKSUM then 0 else if n <= CHKSUM_END then n - CHKSUM else 8)
  {
    if n > 0 { ZeroSumTo(h, n - 1); }
  }

  lemma {:induction false} SumBound(h: string, n: nat)
    requires n <= |h| && forall i | 0 <= i < n :: h[i] as int < 256
    ensures SumTo(h, n) <= 255 * n
  {
    if n > 0 { SumBound(h, n - 1); }
  }

  // ----- Octal fields -----

  predicate IsOctal(c: char) {
    '0' <= c <= '7'
  }

  /** The value of the octal digits at the start of s, v having been read before; overflow of 32
      bits, a bad character and a field without end are failures. */
  function Octal(s: string, v: nat, first: bool): (r: Option<nat>) {
    if s == "" then None
    else if IsOctal(s[0]) then
      if v > 0x1FFF_FFFF then None else Octal(s[1..], 8 * v + DigitValue(s[0]), false)
    else if s[0] == ' ' || s[0] == '\0' then (if first then None else Some(v))
    else None
  }

  /** parse_octal_field */
  method ParseOctalField(s: string) returns (r: Option<nat>)
    ensures r == Octal(s, 0, true)
  {
    var value: nat := 0;
    assert s[0..] == s;
    for ofs := 0 to |s|
      invariant Octal(s, 0, true) == Octal(s[ofs..], value, ofs == 0) && value >= 0
    {
      assert s[ofs..][1..] == s[ofs + 1..];
      var c := s[ofs];
      if IsOctal(c) {
        if value > 0xFFFF_FFFF / 8 {
          return None;
        }
        value := DigitValue(c) + value * 8;
      } else if c == ' ' || c == '\0' {
        return if ofs > 0 then Some(value) else None;
      } else {
        return None;
      }
    }
    return None;
  }

  /** Digits are read as their value exactly if there is one, a space or a null character follows them and
      the value fits in 32 bits. */
  lemma {:induction false} OctalReads(s: string, tail: string, v: nat, first: bool)
    requires (forall i | 0 <= i < |s| :: IsOctal(s[i])) && (tail != "" ==> !IsOctal(tail[0])) && v < 0x1_0000_0000
    ensures Octal(s + tail, v, first)
            == if !(first && s == "") && tail != "" && (tail[0] == ' ' || tail[0] == '\0') && Value(8, Reversed(s), v) < 0x1_0000_0000
               then Some(Value(8, Reversed(s), v)) else None
    decreases |s|
  {
    if s == "" {
      assert s + tail == tail;
    } else {
      assert (s + tail)[0] == s[0] && (s + tail)[1..] == s[1..] + tail;
      assert Reversed(s) == Reversed(s[1..]) + [s[0]];
      ValueAppend(8, Reversed(s[1..]), s[0], v);
      ValueAtLeast(Reversed(s[1..]), DigitValue(s[0]) + 8 * v);
      if v <= 0x1FFF_FFFF {
        OctalReads(s[1..], tail, 8 * v + DigitValue(s[0]), false);
      }
    }
  }

  lemma {:induction false} ValueAtLeast(s: string, v: nat)
    ensures Value(8, s, v) >= v
  {
    if s != "" { ValueAtLeast(s[1..], v); }
  }

  lemma {:induction false} PowerMonotone(a: nat, b: nat)
    requires a <= b
    ensures Power(8, a) <= Power(8, b)
    decreases b
  {
    if a < b { PowerMonotone(a, b - 1); }
  }

  /** "%0*o": octal, padded with zeros to the width. */
  function Padded(width: nat): (c: Conversion) {
    Conversion(Flags(false, false, false, false, true, false), width, -1)
  }

  /** s is the number v in octal. */
  ghost predicate OctalText(s: string, v: nat) {
    s != "" && (forall i | 0 <= i < |s| :: IsOctal(s[i])) && Value(8, Reversed(s), 0) == v
  }

  lemma OctalBody(value: U64, c: Conversion, body: string)
    requires Renders(value, OCTAL, c, body) && value < Power(8, c.width) && c.width >= 1
    requires !c.flags.group && !c.flags.pound && c.precision < 0
    ensures 1 <= |body| <= c.width && OctalText(body, value)
  {
    if |body| > 1 && c.width < |body| { PowerMonotone(c.width, |body| - 1); }
    forall i | 0 <= i < |body|
      ensures IsOctal(body[i])
    {
      var d: nat :| d < 8 && d < 16 && body[i] == Digit(OCTAL, d);
    }
  }

  lemma ZeroPadded(body: string, value: nat, n: nat)
    requires OctalText(body, value)
    ensures OctalText(Repeat('0', n) + body, value)
  {
    var s := Repeat('0', n) + body;
    assert Reversed(s) == Reversed(body) + Repeat('0', n);
    ValueZero(8, Reversed(body), n);
  }

  /** With the zero flag alone an unsigned number is zeros and digits. */
  lemma ZeroFlagOnly(value: U64, width: nat, body: string, out: string)
    requires Formatted(value, false, false, OCTAL, Padded(width), body, out) && |body| <= width
    ensures out == Repeat('0', width - |body|) + body
  {
    var c := Padded(width);
    var left, sign, x, zeros, right :|
      Arranged(out, left, sign, x, zeros, body, right, c) && IsSign(sign, false, false, c.flags) && IsMark(x, value, OCTAL, c.flags);
    assert left == "" && sign == "" && x == "" && right == "";
    assert zeros == Repeat('0', width - |body|);
  }

  /** snprintf with "%0*o" into a field one character wider than the number. */
  method FormatOctal(value: U64, width: nat) returns (out: string)
    requires 1 <= width && value < Power(8, width)
    ensures |out| == width && OctalText(out, value)
  {
    hide Renders, Formatted, OctalText, Power;
    ghost var body;
    out, body := FormatInteger(value, false, false, OCTAL, Padded(width));
    OctalBody(value, Padded(width), body);
    ZeroPadded(body, value, width - |body|);
    ZeroFlagOnly(value, width, body, out);
  }

  // ----- Headers -----

  datatype UstarHeader = UstarHeader(
    name: string, mode: string, uid: string, gid: string, size: string, mtime: string, chksum: string, typeflag: char,
    linkname: string, magic: string, version: string, uname: string, gname: string, devmajor: string, devminor: string,
    prefix: string, padding: string)

  predicate Sized(h: UstarHeader) {
    && |h.name| == 100 && |h.mode| == 8 && |h.uid| == 8 && |h.gid| == 8 && |h.size| == 12 && |h.mtime| == 12
    && |h.chksum| == 8 && |h.linkname| == 100 && |h.magic| == 6 && |h.version| == 2 && |h.uname| == 32 && |h.gname| == 32
    && |h.devmajor| == 8 && |h.devminor| == 8 && |h.prefix| == 155 && |h.padding| == 12
  }

  /** The part before the checksum field and the part after it. */
  function Front(h: UstarHeader): (s: string) {
    h.name + h.mode + h.uid + h.gid + h.size + h.mtime
  }

  function Back(h: UstarHeader): (s: string) {
    [h.typeflag] + h.linkname + h.magic + h.version + h.uname + h.gname + h.devmajor + h.devminor + h.prefix + h.padding
  }

  /** The struct as characters. */
  function Bytes(h: UstarHeader): (s: string)
    requires Sized(h)
    ensures |s| == HEADER
  {
    Front(h) + h.chksum + Back(h)
  }

  /** Characters as the struct. */
  function Unpack(s: string): (h: UstarHeader)
    requires |s| == HEADER
    ensures Sized(h)
  {
    UstarHeader(s[0..100], s[100..108], s[108..116], s[116..124], s[124..136], s[136..148], s[148..156], s[156],
                s[157..257], s[257..263], s[263..265], s[265..297], s[297..329], s[329..337], s[337..345], s[345..500],
                s[500..512])
  }

  lemma UnpackFront(h: UstarHeader, tail: string)
    requires Sized(h) && |tail| == 364
    ensures var s := Front(h) + tail;
            && |s| == HEADER && s[0..100] == h.name && s[100..108] == h.mode && s[108..116] == h.uid && s[116..124] == h.gid
            && s[124..136] == h.size && s[136..148] == h.mtime && s[148..] == tail
  {
  }

  lemma UnpackBack(h: UstarHeader)
    requires Sized(h)
    ensures var s := Back(h);
            && |s| == 356 && s[0] == h.typeflag && s[1..101] == h.linkname && s[101..107] == h.magic && s[107..109] == h.version
            && s[109..141] == h.uname && s[141..173] == h.gname && s[173..181] == h.devmajor && s[181..189] == h.devminor
            && s[189..344] == h.prefix && s[344..356] == h.padding
  {
  }

  lemma UnpackBytes(h: UstarHeader)
    requires Sized(h)
    ensures Unpack(Bytes(h)) == h
  {
    var tail := h.chksum + Back(h);
    UnpackBack(h);
    assert Bytes(h) == Front(h) + tail;
    UnpackFront(h, tail);
    var s, b := Bytes(h), Back(h);
    assert s[156..] == b;
    hide Front, Back;
    assert s[148..156] == s[148..][..8] == h.chksum;
    assert s[156] == b[0] && s[157..257] == b[1..101] && s[257..263] == b[101..107] && s[263..265] == b[107..109];
    assert s[265..297] == b[109..141] && s[297..329] == b[141..173] && s[329..337] == b[173..181];
    assert s[337..345] == b[181..189] && s[345..500] == b[189..344] && s[500..512] == b[344..356];
  }

  ghost predicate Narrow(s: string) {
    forall i | 0 <= i < |s| :: s[i] as int < 256
  }

  lemma NarrowBytes(h: UstarHeader)
    requires Sized(h) && Narrow(h.name) && Narrow(h.mode) && Narrow(h.uid) && Narrow(h.gid) && Narrow(h.size)
    requires Narrow(h.mtime) && Narrow(h.chksum) && h.typeflag as int < 256 && Narrow(h.linkname) && Narrow(h.magic)
    requires Narrow(h.version) && Narrow(h.uname) && Narrow(h.gname) && Narrow(h.devmajor) && Narrow(h.devminor)
    requires Narrow(h.prefix) && Narrow(h.padding)
    ensures Narrow(Bytes(h))
  {
    var a := h.name + h.mode + h.uid + h.gid;
    assert Narrow(a) by { assert Narrow(h.name + h.mode); assert Narrow(h.name + h.mode + h.uid); }
    assert Narrow(a + h.size) && Narrow(Front(h));
    var b := [h.typeflag] + h.linkname + h.magic + h.version;
    assert Narrow(b) by { assert Narrow([h.typeflag] + h.linkname); assert Narrow([h.typeflag] + h.linkname + h.magic); }
    var c := b + h.uname + h.gname;
    assert Narrow(c) by { assert Narrow(b + h.uname); }
    var d := c + h.devmajor + h.devminor;
    assert Narrow(d) by { assert Narrow(c + h.devmajor); }
    assert Narrow(d + h.prefix) && Narrow(Back(h));
    hide Front, Back;
    assert Narrow(Front(h) + h.chksum);
  }

  /** strlcpy or snprintf into a zeroed field of n characters. */
  function Field(s: string, n: nat): (f: string)
    requires n > 0
    ensures |f| == n && (|s| < n ==> f == s + Repeat('\0', n - |s|)) && (Narrow(s) ==> Narrow(f))
  {
    var k := if |s| < n then |s| else n - 1;
    s[..k] + Repeat('\0', n - k)
  }

  /** The string in a field. */
  function TextOf(s: string): (t: string) {
    if s == "" || s[0] == '\0' then "" else [s[0]] + TextOf(s[1..])
  }

  lemma {:induction false} FieldText(s: string, n: nat)
    requires n > 0 && forall i | 0 <= i < |s| :: s[i] != '\0'
    ensures TextOf(s + Repeat('\0', n)) == s
    decreases |s|
  {
    if s != "" {
      assert (s + Repeat('\0', n))[1..] == s[1..] + Repeat('\0', n);
      FieldText(s[1..], n);
    }
  }

  // ----- Making and parsing -----

  /** ustar_parse_header */
  function ParseResult(header: string): (r: Parsed)
    requires |header| == HEADER
  {
    var h := Unpack(header);
    var chksum := Octal(h.chksum, 0, true);
    if forall i | 0 <= i < |header| :: header[i] == '\0' then EndOfArchive
    else if h.magic != "ustar\0" then Bad("not a ustar archive")
    else if h.version != "00" then Bad("invalid ustar version")
    else if chksum.None? then Bad("corrupt chksum field")
    else if chksum.value != SumTo(header, HEADER) then Bad("checksum mismatch")
    else if h.name[99] != '\0' || h.prefix[0] != '\0' then Bad("file name too long")
    else if h.typeflag != '0' && h.typeflag != '5' then Bad("unimplemented file type")
    else if h.typeflag == '5' then Entry(Stripped(TextOf(h.name)), Directory, 0)
    else
      var size := Octal(h.size, 0, true);
      if size.None? then Bad("corrupt file size field")
      else if size.value > 0x7FFF_FFFF then Bad("file too large")
      else Entry(Stripped(TextOf(h.name)), Regular, size.value)
  }

  /** is_all_zeros */
  method AllZeros(s: string) returns (b: bool)
    ensures b <==> forall i | 0 <= i < |s| :: s[i] == '\0'
  {
    for i := 0 to |s|
      invariant forall k | 0 <= k < i :: s[k] == '\0'
    {
      if s[i] != '\0' {
        return false;
      }
    }
    return true;
  }

  method ParseHeader(header: string) returns (r: Parsed)
    requires |header| == HEADER
    ensures r == ParseResult(header)
  {
    hide SumTo, Octal, Stripped, TextOf, Unpack;
    var h := Unpack(header);
    var zeros := AllZeros(header);
    if zeros {
      return EndOfArchive;
    }
    if h.magic != "ustar\0" {
      return Bad("not a ustar archive");
    } else if h.version != "00" {
      return Bad("invalid ustar version");
    }
    var chksum := ParseOctalField(h.chksum);
    if chksum.None? {
      return Bad("corrupt chksum field");
    }
    var sum := CalculateChksum(header);
    if chksum.value != sum {
      return Bad("checksum mismatch");
    } else if h.name[99] != '\0' || h.prefix[0] != '\0' {
      return Bad("file name too long");
    } else if h.typeflag != '0' && h.typeflag != '5' {
      return Bad("unimplemented file type");
    }
    var size := 0;
    if h.typeflag == '0' {
      var field := ParseOctalField(h.size);
      if field.None? {
        return Bad("corrupt file size field");
      } else if field.value > 0x7FFF_FFFF {
        return Bad("file too large");
      }
      size := field.value;
    }
    var name := Strip(TextOf(h.name));
    return Entry(name, if h.typeflag == '0' then Regular else Directory, size);
  }

  /** What a header must be like to be accepted. */
  predicate Acceptable(header: string)
    requires |header| == HEADER
  {
    var h := Unpack(header);
    && h.magic == "ustar\0" && h.version == "00" && Octal(h.chksum, 0, true) == Some(SumTo(header, HEADER))
    && h.name[99] == '\0' && h.prefix[0] == '\0'
    && (h.typeflag == '5' || (h.typeflag == '0' && SizeOf(h).Some?))
  }

  /** The size of a regular file, if an int can hold it. */
  function SizeOf(h: UstarHeader): (r: Option<nat>)
    ensures r.Some? ==> r.value <= 0x7FFF_FFFF
  {
    var size := Octal(h.size, 0, true);
    if size.Some? && size.value > 0x7FFF_FFFF then None else size
  }

  lemma {:induction false} TextLength(s: string, n: nat)
    requires n < |s| && s[n] == '\0'
    ensures |TextOf(s)| <= n && forall i | 0 <= i < |TextOf(s)| :: TextOf(s)[i] != '\0'
    decreases n
  {
    if n > 0 && s[0] != '\0' { TextLength(s[1..], n - 1); }
  }

  lemma {:induction false} StrippedLength(s: string, n: nat)
    requires |s| <= n && n > 0
    ensures |Stripped(s)| <= n
    decreases |s|
  {
    if Antisocial(s) {
      AntisocialSlash(s);
      StrippedLength(AfterSlash(s), n);
    }
  }

  lemma NonzeroChksum(header: string)
    requires |header| == HEADER && Octal(Unpack(header).chksum, 0, true).Some?
    ensures exists i :: 0 <= i < |header| && header[i] != '\0'
  {
    assert Unpack(header).chksum[0] == header[148];
  }

  /** A header is accepted exactly if it is acceptable, and what comes out is then a relative name of
      1 to 99 characters and a size an int can hold, zero for a directory. */
  lemma Accepted(header: string)
    requires |header| == HEADER
    ensures ParseResult(header).Entry? <==> Acceptable(header)
    ensures ParseResult(header).Entry? ==>
              var r, h := ParseResult(header), Unpack(header);
              && StripsTo(TextOf(h.name), r.name)
              && 0 < |r.name| <= 99 && !BeginsWith(r.name, "/") && !BeginsWith(r.name, "./") && !BeginsWith(r.name, "../")
              && r.name != ".." && (r.kind == Directory <==> h.typeflag == '5') && r.size <= 0x7FFF_FFFF
              && (if r.kind == Directory then r.size == 0 else Octal(h.size, 0, true) == Some(r.size))
  {
    hide SumTo, Octal, Stripped, TextOf, Unpack;
    var h := Unpack(header);
    if Octal(h.chksum, 0, true).Some? { NonzeroChksum(header); }
    if h.name[99] == '\0' { TextLength(h.name, 99); }
    if |TextOf(h.name)| <= 99 { StrippedLength(TextOf(h.name), 99); }
    StripIdempotent(TextOf(h.name));
    StrippedIs(TextOf(h.name), Stripped(TextOf(h.name)));
  }

  /** The end of the archive is a header of zeros, and nothing else is. */
  lemma EndOfArchiveExactly(header: string)
    requires |header| == HEADER
    ensures ParseResult(header) == EndOfArchive <==> forall i | 0 <= i < HEADER :: header[i] == '\0'
  {
    hide SumTo, Octal, Stripped, TextOf, Unpack;
  }

  /** What is wrong with a header that is refused. */
  lemma RefusedWhy(header: string)
    requires |header| == HEADER && ParseResult(header).Bad?
    ensures var m, h := ParseResult(header).message, Unpack(header);
            || (m == "not a ustar archive" && h.magic != "ustar\0")
            || (m == "invalid ustar version" && h.version != "00")
            || (m == "corrupt chksum field" && Octal(h.chksum, 0, true).None?)
            || (m == "checksum mismatch" && Octal(h.chksum, 0, true).Some? && Octal(h.chksum, 0, true).value != SumTo(header, HEADER))
            || (m == "file name too long" && (h.name[99] != '\0' || h.prefix[0] != '\0'))
            || (m == "unimplemented file type" && h.typeflag != '0' && h.typeflag != '5')
            || (m == "corrupt file size field" && h.typeflag == '0' && Octal(h.size, 0, true).None?)
            || (m == "file too large" && h.typeflag == '0'
                && Octal(h.size, 0, true).Some? && Octal(h.size, 0, true).value > 0x7FFF_FFFF)
  {
    hide SumTo, Octal, Stripped, TextOf, Unpack;
  }

  lemma {:induction false} SumChanged(h: string, i: nat, c: char, n: nat)
    requires n <= |h| && i < |h| && !(CHKSUM <= i < CHKSUM_END)
    ensures SumTo(h[i := c], n) == SumTo(h, n) + if i < n then c as int - h[i] as int else 0
    decreases n
  {
    if n > 0 { SumChanged(h, i, c, n - 1); }
  }

  lemma SameChksumField(header: string, i: nat, c: char)
    requires |header| == HEADER && i < HEADER && !(CHKSUM <= i < CHKSUM_END)
    ensures Unpack(header[i := c]).chksum == Unpack(header).chksum
  {
  }

  /** A header that is accepted is no longer accepted after any one character outside the checksum
      field has changed. */
  lemma OneCharacterChanged(header: string, i: nat, c: char)
    requires |header| == HEADER && ParseResult(header).Entry?
    requires i < HEADER && !(CHKSUM <= i < CHKSUM_END) && c != header[i]
    ensures ParseResult(header[i := c]).Bad?
  {
    hide SumTo, Octal, Stripped, TextOf, Unpack, ParseResult;
    Accepted(header);
    Accepted(header[i := c]);
    SameChksumField(header, i, c);
    SumChanged(header, i, c, HEADER);
    NonzeroChksum(header[i := c]);
    NotTheEnd(header[i := c]);
  }

  lemma NotTheEnd(header: string)
    requires |header| == HEADER && exists i :: 0 <= i < |header| && header[i] != '\0'
    ensures !ParseResult(header).EndOfArchive?
  {
    hide SumTo, Octal, Stripped, TextOf, Unpack;
  }

  lemma PowerValues()
    ensures Power(8, 7) == 0x20_0000 && Power(8, 11) == 0x2_0000_0000
  {
    assert Power(8, 2) == 64 && Power(8, 4) == 0x1000 && Power(8, 6) == 0x4_0000;
    assert Power(8, 8) == 0x100_0000 && Power(8, 10) == 64 * Power(8, 8);
  }

  lemma OctalNarrow(s: string, v: nat)
    requires OctalText(s, v)
    ensures Narrow(s)
  {
  }

  /** What ustar_make_header puts into the fields that are read back. */
  ghost predicate Filled(h: UstarHeader, name: string, kind: Kind, value: nat, size: string, chksum: string) {
    && Sized(h) && |name| <= 99 && h.name == Field(name, 100) && h.typeflag == TypeFlag(kind)
    && h.magic == "ustar\0" && h.version == "00" && h.prefix == Repeat('\0', 155)
    && |size| == 11 && OctalText(size, value) && h.size == Field(size, 12)
    && |chksum| == 7 && OctalText(chksum, SumTo(Bytes(h), HEADER)) && h.chksum == Field(chksum, 8)
  }

  lemma FieldReads(text: string, n: nat, v: nat)
    requires |text| < n && OctalText(text, v) && v < 0x1_0000_0000
    ensures Octal(Field(text, n), 0, true) == Some(v)
  {
    OctalReads(text, Repeat('\0', n - |text|), 0, true);
  }

  lemma NotAllZeros(h: UstarHeader)
    requires Sized(h) && h.version == "00"
    ensures exists i :: 0 <= i < HEADER && Bytes(h)[i] != '\0'
  {
    UnpackBytes(h);
    assert Bytes(h)[263..265] == "00";
    assert Bytes(h)[263] == Bytes(h)[263..265][0];
  }

  /** Parsing what was made. */
  lemma FilledParses(h: UstarHeader, name: string, kind: Kind, value: nat, size: string, chksum: string)
    requires Filled(h, name, kind, value, size, chksum) && value < 0x1_0000_0000 && SumTo(Bytes(h), HEADER) < 0x1_0000_0000
    requires forall i | 0 <= i < |name| :: name[i] != '\0'
    requires Stripped(name) == name
    ensures ParseResult(Bytes(h))
            == if kind == Directory then Entry(name, Directory, 0)
               else if value > 0x7FFF_FFFF then Bad("file too large") else Entry(name, Regular, value)
  {
    hide SumTo, Octal, Stripped, TextOf, Unpack, Bytes, OctalText, Field, ParseResult, Sized;
    UnpackBytes(h);
    NotAllZeros(h);
    FieldReads(chksum, 8, SumTo(Bytes(h), HEADER));
    FieldReads(size, 12, value);
    FieldText(name, 100 - |name|);
    assert h.name == name + Repeat('\0', 100 - |name|);
    ParseGood(Bytes(h), h, name, kind, value);
  }

  lemma ParseGood(header: string, h: UstarHeader, name: string, kind: Kind, value: nat)
    requires |header| == HEADER && Unpack(header) == h && exists i :: 0 <= i < HEADER && header[i] != '\0'
    requires h.magic == "ustar\0" && h.version == "00" && Octal(h.chksum, 0, true) == Some(SumTo(header, HEADER))
    requires |h.name| == 100 && h.name[99] == '\0' && |h.prefix| == 155 && h.prefix[0] == '\0' && h.typeflag == TypeFlag(kind)
    requires TextOf(h.name) == name && Stripped(name) == name && Octal(h.size, 0, true) == Some(value)
    ensures ParseResult(header)
            == if kind == Directory then Entry(name, Directory, 0)
               else if value > 0x7FFF_FFFF then Bad("file too large") else Entry(name, Regular, value)
  {
    hide SumTo, Octal, Stripped, TextOf, Unpack;
  }

  lemma ChksumAside(h: UstarHeader, c: string)
    requires Sized(h) && |c| == 8
    ensures SumTo(Bytes(h), HEADER) == SumTo(Bytes(h.(chksum := c)), HEADER)
  {
    hide SumTo;
    var s, t := Bytes(h), Bytes(h.(chksum := c));
    UnpackFront(h, h.chksum + Back(h));
    assert s == Front(h) + (h.chksum + Back(h)) && t == Front(h) + (c + Back(h));
    hide Front, Back;
    SumFrame(s, t, HEADER);
  }

  /** The header before its checksum is filled in. */
  function Blank(name: string, kind: Kind, mode: string, size: string, mtime: string): (h: UstarHeader)
    ensures Sized(h)
  {
    UstarHeader(Field(name, 100), Field(mode, 8), Field("0000000", 8), Field("0000000", 8), Field(size, 12), Field(mtime, 12),
                Repeat('\0', 8), TypeFlag(kind), Repeat('\0', 100), "ustar\0", "00", Field("root", 32), Field("root", 32),
                Repeat('\0', 8), Repeat('\0', 8), Repeat('\0', 155), Repeat('\0', 12))
  }

  lemma BlankSum(name: string, kind: Kind, mode: string, size: string, mtime: string)
    requires Narrow(name) && Narrow(mode) && Narrow(size) && Narrow(mtime)
    ensures SumTo(Bytes(Blank(name, kind, mode, size, mtime)), HEADER) < 0x20_0000
  {
    hide Field, Repeat, SumTo, Bytes;
    var h := Blank(name, kind, mode, size, mtime);
    assert Narrow("0000000") && Narrow("root") && Narrow("ustar\0") && Narrow("00");
    NarrowBytes(h);
    SumBound(Bytes(h), HEADER);
  }

  /** A field with n octal digits of v and a null character. */
  ghost predicate OctalField(f: string, n: nat, v: nat) {
    |f| == n + 1 && OctalText(f[..n], v) && f[n] == '\0'
  }

  /** The header made for a file of the given name, already stripped. */
  ghost predicate Describes(header: string, name: string, kind: Kind, size: S32)
    requires |header| == HEADER
  {
    var h := Unpack(header);
    && |name| <= 99 && h.name == name + Repeat('\0', 100 - |name|)
    && OctalField(h.mode, 7, if kind == Regular then 420 else 493)
    && h.uid == "0000000\0" && h.gid == "0000000\0"
    && OctalField(h.size, 11, if size < 0 then size + 0x1_0000_0000 else size)
    && OctalField(h.mtime, 11, 1136102400) && OctalField(h.chksum, 7, SumTo(header, HEADER))
    && h.typeflag == (if kind == Regular then '0' else '5') && h.magic == "ustar\0" && h.version == "00"
    && h.uname == "root" + Repeat('\0', 28) && h.gname == "root" + Repeat('\0', 28)
    && h.linkname == Repeat('\0', 100) && h.devmajor == Repeat('\0', 8) && h.devminor == Repeat('\0', 8)
    && h.prefix == Repeat('\0', 155) && h.padding == Repeat('\0', 12)
  }

  lemma OctalFieldIs(text: string, n: nat, v: nat)
    requires |text| == n && OctalText(text, v)
    ensures OctalField(Field(text, n + 1), n, v)
  {
    assert Field(text, n + 1)[..n] == text;
  }

  lemma BlankDescribes(name: string, kind: Kind, mode: string, digits: string, mtime: string, chksum: string, size: S32)
    requires |name| <= 99 && |mode| == 7 && OctalText(mode, if kind == Regular then 420 else 493)
    requires |digits| == 11 && OctalText(digits, if size < 0 then size + 0x1_0000_0000 else size)
    requires |mtime| == 11 && OctalText(mtime, 1136102400) && |chksum| == 7
    requires var h := Blank(name, kind, mode, digits, mtime).(chksum := Field(chksum, 8));
             Sized(h) && OctalText(chksum, SumTo(Bytes(h), HEADER))
    ensures var h := Blank(name, kind, mode, digits, mtime).(chksum := Field(chksum, 8)); Describes(Bytes(h), name, kind, size)
  {
    hide OctalField, OctalText, SumTo, Bytes, Unpack, Repeat, Sized;
    var h := Blank(name, kind, mode, digits, mtime).(chksum := Field(chksum, 8));
    UnpackBytes(h);
    OctalFieldIs(mode, 7, if kind == Regular then 420 else 493);
    OctalFieldIs(digits, 11, if size < 0 then size + 0x1_0000_0000 else size);
    OctalFieldIs(mtime, 11, 1136102400);
    OctalFieldIs(chksum, 7, SumTo(Bytes(h), HEADER));
    ZeroTail();
  }

  lemma ZeroTail()
    ensures Field("0000000", 8) == "0000000\0" && Field("root", 32) == "root" + Repeat('\0', 28)
  {
    assert Repeat('\0', 1) == "\0";
  }

  /** ustar_make_header. It refuses a name exactly if more than 99 characters are left of it after
      stripping. Otherwise the header says what it should, and parsing it gives back the stripped
      name, the type and the size. */
  method MakeHeader(name: string, kind: Kind, size: S32) returns (r: Option<string>)
    requires forall i | 0 <= i < |name| :: name[i] != '\0' && name[i] as int < 256
    ensures r.Some? ==> |r.value| == HEADER
    ensures forall n | StripsTo(name, n) ::
              && (r.None? <==> |n| > 99)
              && (r.Some? ==> Describes(r.value, n, kind, size)
                              && ParseResult(r.value) == (if kind == Directory then Entry(n, Directory, 0)
                                                          else if size < 0 then Bad("file too large")
                                                          else Entry(n, Regular, size)))
  {
    hide Power, OctalText, SumTo, Stripped, StripsTo, ParseResult, Field, Bytes, Blank, Describes;
    StripIdempotent(name);
    StrippedClean(name);
    PowerValues();
    var file := Strip(name);
    forall n | StripsTo(name, n)
      ensures n == file
    {
      StrippedIs(name, n);
    }
    if |file| > 99 {
      return None;
    }
    var mode := FormatOctal(if kind == Regular then 420 else 493, 7);
    var value: U64 := if size < 0 then size as int + 0x1_0000_0000 else size;
    var digits := FormatOctal(value, 11);
    var mtime := FormatOctal(1136102400, 11);
    OctalNarrow(mode, if kind == Regular then 420 else 493);
    OctalNarrow(digits, value);
    OctalNarrow(mtime, 1136102400);
    var blank := Blank(file, kind, mode, digits, mtime);
    BlankSum(file, kind, mode, digits, mtime);
    var sum := CalculateChksum(Bytes(blank));
    var chksum := FormatOctal(sum, 7);
    var h := blank.(chksum := Field(chksum, 8));
    ChksumAside(blank, Field(chksum, 8));
    BlankFilled(file, kind, mode, digits, mtime, value, chksum);
    BlankDescribes(file, kind, mode, digits, mtime, chksum, size);
    FilledParses(h, file, kind, value, digits, chksum);
    return Some(Bytes(h));
  }

  lemma BlankFilled(name: string, kind: Kind, mode: string, size: string, mtime: string, value: nat, chksum: string)
    requires |name| <= 99 && |size| == 11 && OctalText(size, value) && |chksum| == 7
    requires var h := Blank(name, kind, mode, size, mtime).(chksum := Field(chksum, 8));
             Sized(h) && OctalText(chksum, SumTo(Bytes(h), HEADER))
    ensures Filled(Blank(name, kind, mode, size, mtime).(chksum := Field(chksum, 8)), name, kind, value, size, chksum)
  {
  }
}
