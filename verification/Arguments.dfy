/** Splitting a command line with strtok_r (src/lib/string.c) and laying out the arguments of a
    new process on its stack page (load in src/userprog/process.c). Memory is a sequence of
    characters with codes below 256; index i of the stack page is user address 0xbffff000 + i. */
module Arguments {
  import opened Common
  import Malloc
  import Pages

  const PAGE: nat := 4096
  const BASE: nat := 0xBFFF_F000

  // ----- Tokens -----

  /** The length of the run of non-spaces at the start of s. */
  function WordLength(s: string): (n: nat)
    ensures n <= |s| && (forall i | 0 <= i < n :: s[i] != ' ') && (n < |s| ==> s[n] == ' ')
  {
    if s == "" || s[0] == ' ' then 0 else 1 + WordLength(s[1..])
  }

  /** The maximal runs of non-spaces, in order. */
  function Tokens(s: string): (t: seq<string>)
    decreases |s|
  {
    if s == "" then []
    else if s[0] == ' ' then Tokens(s[1..])
    else [s[..WordLength(s)]] + Tokens(s[WordLength(s)..])
  }

  lemma {:induction false} SkipSpaces(s: string, n: nat)
    requires n <= |s| && forall i | 0 <= i < n :: s[i] == ' '
    ensures Tokens(s) == Tokens(s[n..])
  {
    if n == 0 {
      assert s[0..] == s;
    } else {
      SkipSpaces(s[1..], n - 1);
      assert s[1..][n - 1..] == s[n..];
    }
  }

  lemma FirstToken(s: string, n: nat)
    requires 0 < n <= |s| && (forall i | 0 <= i < n :: s[i] != ' ') && (n < |s| ==> s[n] == ' ')
    ensures Tokens(s) == [s[..n]] + Tokens(if n < |s| then s[n + 1..] else "")
  {
    var w := WordLength(s);
    assert w == n;
    if n < |s| {
      assert s[n..][1..] == s[n + 1..];
    } else {
      assert s[n..] == "";
    }
  }

  /** Token j of t is at index starts[j] of s, with a space or an end of s on either side. */
  ghost predicate StandsAt(s: string, t: seq<string>, starts: seq<nat>, j: nat)
    requires j < |t| == |starts|
  {
    var a := starts[j];
    var b := a + |t[j]|;
    && t[j] != "" && b <= |s| && s[a..b] == t[j] && ' ' !in t[j]
    && (a > 0 ==> s[a - 1] == ' ') && (b < |s| ==> s[b] == ' ') && (j > 0 ==> starts[j - 1] + |t[j - 1]| < a)
  }

  ghost predicate Covers(t: seq<string>, starts: seq<nat>, i: nat)
    requires |t| == |starts|
  {
    exists j :: 0 <= j < |t| && starts[j] <= i < starts[j] + |t[j]|
  }

  /** The tokens are where they should be, in order, and between them there is nothing but spaces. */
  ghost predicate AreTokens(s: string, t: seq<string>, starts: seq<nat>) {
    && |t| == |starts| && (forall j | 0 <= j < |t| :: StandsAt(s, t, starts, j))
    && forall i | 0 <= i < |s| && s[i] != ' ' :: Covers(t, starts, i)
  }

  lemma {:induction false} TokensAre(s: string) returns (starts: seq<nat>)
    ensures AreTokens(s, Tokens(s), starts)
    decreases |s|
  {
    if s == "" {
      starts := [];
    } else if s[0] == ' ' {
      var more := TokensAre(s[1..]);
      starts := Shift(more, 1);
      TokensShifted(s, 1, Tokens(s[1..]), more);
    } else {
      var w := WordLength(s);
      var more := TokensAre(s[w..]);
      starts := [0] + Shift(more, w);
      FirstOfTokens(s, w, Tokens(s[w..]), more);
    }
  }

  ghost function Shift(a: seq<nat>, n: nat): (r: seq<nat>)
    ensures |r| == |a| && forall j | 0 <= j < |a| :: r[j] == a[j] + n
  {
    seq(|a|, j requires 0 <= j < |a| => a[j] + n)
  }

  lemma TokensShifted(s: string, n: nat, t: seq<string>, more: seq<nat>)
    requires n <= |s| && AreTokens(s[n..], t, more) && (forall i | 0 <= i < n :: s[i] == ' ')
    ensures AreTokens(s, t, Shift(more, n))
  {
    var starts := Shift(more, n);
    forall j | 0 <= j < |t|
      ensures StandsAt(s, t, starts, j)
    {
      StandsShifted(s, n, t, more, j);
    }
    forall i | 0 <= i < |s| && s[i] != ' '
      ensures Covers(t, starts, i)
    {
      assert s[n..][i - n] == s[i];
      assert Covers(t, more, i - n);
      var j :| 0 <= j < |t| && more[j] <= i - n < more[j] + |t[j]|;
      assert starts[j] <= i < starts[j] + |t[j]|;
    }
  }

  lemma StandsShifted(s: string, n: nat, t: seq<string>, more: seq<nat>, j: nat)
    requires n <= |s| && |t| == |more| && j < |t| && StandsAt(s[n..], t, more, j) && (n > 0 && more[j] == 0 ==> s[n - 1] == ' ')
    ensures StandsAt(s, t, Shift(more, n), j)
  {
    var a, k := more[j], |t[j]|;
    assert s[n..][a..a + k] == s[a + n..a + n + k];
    assert a > 0 ==> s[n..][a - 1] == s[a + n - 1];
    assert a + k < |s| - n ==> s[n..][a + k] == s[a + n + k];
  }

  lemma NotAtSpace(s: string, t: seq<string>, starts: seq<nat>, j: nat)
    requires j < |t| == |starts| && StandsAt(s, t, starts, j)
    ensures starts[j] < |s| && s[starts[j]] != ' '
  {
    var a := starts[j];
    assert t[j][0] in t[j] && t[j][0] == s[a..a + |t[j]|][0] == s[a];
  }

  lemma FirstOfTokens(s: string, w: nat, t: seq<string>, more: seq<nat>)
    requires 0 < w <= |s| && (forall i | 0 <= i < w :: s[i] != ' ') && (w < |s| ==> s[w] == ' ') && AreTokens(s[w..], t, more)
    ensures AreTokens(s, [s[..w]] + t, [0] + Shift(more, w))
  {
    var all, starts, rest := [s[..w]] + t, [0] + Shift(more, w), s[w..];
    assert StandsAt(s, all, starts, 0);
    forall j | 0 < j < |all|
      ensures StandsAt(s, all, starts, j)
    {
      var k := j - 1;
      assert StandsAt(rest, t, more, k);
      NotAtSpace(rest, t, more, k);
      StandsShifted(s, w, t, more, k);
      assert all[j] == t[k] && starts[j] == more[k] + w && (k > 0 ==> all[j - 1] == t[k - 1] && starts[j - 1] == more[k - 1] + w);
    }
    forall i | 0 <= i < |s| && s[i] != ' '
      ensures Covers(all, starts, i)
    {
      if i < w {
        assert starts[0] <= i < starts[0] + |all[0]|;
      } else {
        assert rest[i - w] == s[i] && Covers(t, more, i - w);
        var j :| 0 <= j < |t| && more[j] <= i - w < more[j] + |t[j]|;
        assert starts[j + 1] <= i < starts[j + 1] + |all[j + 1]|;
      }
    }
  }

  /** The string that starts at index i, up to the next null character. */
  function StringAt(p: string, i: nat): (s: string)
    decreases |p| - i
  {
    if i >= |p| || p[i] == '\0' then "" else [p[i]] + StringAt(p, i + 1)
  }

  lemma {:induction false} StringIs(p: string, i: nat, s: string)
    requires i + |s| <= |p| && p[i..i + |s|] == s && '\0' !in s && (i + |s| < |p| ==> p[i + |s|] == '\0')
    ensures StringAt(p, i) == s
    decreases |s|
  {
    if s != "" {
      assert p[i] == s[0] && p[i + 1..i + |s|] == s[1..];
      StringIs(p, i + 1, s[1..]);
    }
  }

  /** A null-terminated string, from position `from` on. */
  ghost predicate Terminated(t: string, from: nat) {
    from < |t| && t[|t| - 1] == '\0' && forall k | from <= k < |t| - 1 :: t[k] != '\0'
  }

  lemma NoToken(t: string, from: nat, i: nat)
    requires Terminated(t, from) && from <= i < |t| && t[i] == '\0' && forall k | from <= k < i :: t[k] == ' '
    ensures Tokens(t[from..|t| - 1]) == []
  {
    var text := t[from..|t| - 1];
    SkipSpaces(text, |text|);
    assert text[|text|..] == "";
  }

  lemma OneToken(t: string, from: nat, token: nat, i: nat, save: nat)
    requires Terminated(t, from) && from <= token < i < |t| && (t[i] == ' ' || t[i] == '\0')
    requires forall k | from <= k < token :: t[k] == ' '
    requires forall k | token <= k < i :: t[k] != ' ' && t[k] != '\0'
    requires save == if t[i] != '\0' then i + 1 else i
    ensures Tokens(t[from..|t| - 1]) == [StringAt(t[i := '\0'], token)] + Tokens(t[save..|t| - 1])
  {
    hide Tokens, StringAt, WordLength;
    var len := |t| - 1;
    var text, word := t[from..len], t[token..i];
    SkipSpaces(text, token - from);
    assert text[token - from..] == t[token..len];
    FirstToken(t[token..len], i - token);
    assert t[token..len][..i - token] == word;
    if i < len {
      assert t[token..len][i - token + 1..] == t[save..len];
    } else {
      assert t[save..len] == "";
    }
    StringIs(t[i := '\0'], token, word);
  }

  /** strtok_r with a space as delimiter, from position `from` of a null-terminated string; -1
      stands for the null pointer. */
  method StrTok(s: array<char>, from: nat) returns (token: int, save: nat)
    requires Terminated(s[..], from)
    modifies s
    ensures from <= save < s.Length && s[save..] == old(s[save..]) && Terminated(s[..], save)
    ensures token == -1 ==> Tokens(old(s[from..s.Length - 1])) == []
    ensures token != -1 ==> from <= token < s.Length && old(s[token]) != ' ' && old(s[token]) != '\0'
    ensures forall k | from <= k < token :: old(s[k]) == ' '
    ensures token != -1 ==> from < save
                            && Tokens(old(s[from..s.Length - 1]))
                               == [StringAt(s[..], token)] + Tokens(s[save..s.Length - 1])
  {
    hide Tokens, StringAt, WordLength;
    var i := from;
    while s[i] == ' ' || s[i] == '\0'
      invariant from <= i < s.Length && s[..] == old(s[..]) && forall k | from <= k < i :: s[k] == ' '
      decreases s.Length - i
    {
      if s[i] == '\0' {
        NoToken(s[..], from, i);
        assert s[from..s.Length - 1] == s[..][from..s.Length - 1];
        return -1, i;
      }
      i := i + 1;
    }
    token := i;
    while s[i] != ' ' && s[i] != '\0'
      invariant token <= i < s.Length && s[..] == old(s[..])
      invariant forall k | token <= k < i :: s[k] != ' ' && s[k] != '\0'
      decreases s.Length - i
    {
      i := i + 1;
    }
    save := if s[i] != '\0' then i + 1 else i;
    OneToken(s[..], from, token, i, save);
    ghost var t := s[..];
    if s[i] != '\0' {
      s[i] := '\0';
    }
    assert s[..] == t[i := '\0'];
    assert s[save..] == t[save..] && s[save..s.Length - 1] == t[save..s.Length - 1];
    assert old(s[from..s.Length - 1]) == t[from..s.Length - 1];
  }

  // ----- The stack -----

  function Address(i: nat): (a: nat) {
    BASE + i
  }

  /** A 32-bit word in memory, least significant byte first. */
  function LoadWord(p: string, i: nat): (w: nat)
    requires i + 4 <= |p|
  {
    Join(p[i] as nat, p[i + 1] as nat, p[i + 2] as nat, p[i + 3] as nat)
  }

  function CharOf(w: nat, k: nat): (c: char)
    requires k < 4
  {
    ByteOf(w, k) as char
  }

  /** Memory with a word stored in it. */
  function Stored(p: string, i: nat, w: nat): (r: string)
    requires i + 4 <= |p|
    ensures |r| == |p| && forall k | 0 <= k < |p| && !(i <= k < i + 4) :: r[k] == p[k]
  {
    p[i := CharOf(w, 0)][i + 1 := CharOf(w, 1)][i + 2 := CharOf(w, 2)][i + 3 := CharOf(w, 3)]
  }

  lemma StoreLoad(p: string, i: nat, w: nat)
    requires i + 4 <= |p| && w < 0x1_0000_0000
    ensures LoadWord(Stored(p, i, w), i) == w
  {
    SplitWord(w);
  }

  lemma LoadFrame(p: string, q: string, i: nat)
    requires i + 4 <= |p| == |q| && forall k | i <= k < i + 4 :: q[k] == p[k]
    ensures LoadWord(q, i) == LoadWord(p, i)
  {
  }

  method StoreWord(page: array<char>, i: nat, w: nat)
    requires i + 4 <= page.Length
    modifies page
    ensures page[..] == Stored(old(page[..]), i, w)
  {
    page[i], page[i + 1], page[i + 2], page[i + 3] := CharOf(w, 0), CharOf(w, 1), CharOf(w, 2), CharOf(w, 3);
  }

  /** The bytes n arguments take, with their terminators. */
  function TextSize(args: seq<string>): (n: nat) {
    if args == [] then 0 else |args[0]| + 1 + TextSize(args[1..])
  }

  lemma {:induction false} TextSizeAppend(args: seq<string>, a: string)
    ensures TextSize(args + [a]) == TextSize(args) + |a| + 1
  {
    if args != [] {
      assert (args + [a])[1..] == args[1..] + [a];
      TextSizeAppend(args[1..], a);
    }
  }

  lemma {:induction false} TextSizePrefix(args: seq<string>, n: nat)
    requires n <= |args|
    ensures TextSize(args[..n]) <= TextSize(args)
    decreases |args|
  {
    if n < |args| {
      var m := |args| - 1;
      assert args == args[..m] + [args[m]] && args[..m][..n] == args[..n];
      TextSizeAppend(args[..m], args[m]);
      TextSizePrefix(args[..m], n);
    } else {
      assert args[..n] == args;
    }
  }

  /** The null-terminated string s is at index i. */
  ghost predicate Has(p: string, i: nat, s: string) {
    i + |s| < |p| && p[i..i + |s|] == s && p[i + |s|] == '\0'
  }

  lemma HasFrame(p: string, q: string, i: nat, s: string, from: nat)
    requires Has(p, i, s) && |q| == |p| && from <= i && forall k | from <= k < |p| :: q[k] == p[k]
    ensures Has(q, i, s)
  {
    assert q[i..i + |s|] == p[i..i + |s|];
  }

  /** Argument j is at index places[j], each right below the one before it, the last at sp. */
  ghost predicate Laid(p: string, args: seq<string>, places: seq<nat>, sp: nat) {
    && |p| == PAGE && |places| == |args|
    && sp == (if |args| == 0 then PAGE else places[|args| - 1])
    && (forall j | 0 <= j < |args| :: Abuts(args, places, j) && sp <= places[j] && Has(p, places[j], args[j]))
  }

  /** Argument j ends where argument j - 1 starts. */
  ghost predicate Abuts(args: seq<string>, places: seq<nat>, j: nat)
    requires j < |args| == |places|
  {
    places[j] + |args[j]| + 1 == if j == 0 then PAGE else places[j - 1]
  }

  lemma LaidFrame(p: string, q: string, args: seq<string>, places: seq<nat>, sp: nat)
    requires Laid(p, args, places, sp) && |q| == |p| && forall k | sp <= k < |p| :: q[k] == p[k]
    ensures Laid(q, args, places, sp)
  {
    forall j | 0 <= j < |args|
      ensures Has(q, places[j], args[j])
    {
      HasFrame(p, q, places[j], args[j], sp);
    }
  }

  ghost predicate ZeroBelow(p: string, sp: nat) {
    sp <= |p| && forall k | 0 <= k < sp :: p[k] == '\0'
  }

  /** One argument more. */
  lemma LaidNext(p: string, q: string, args: seq<string>, places: seq<nat>, sp: nat, a: string)
    requires Laid(p, args, places, sp) && ZeroBelow(p, sp) && |a| + 1 <= sp && |q| == |p|
    requires forall k | 0 <= k < |p| ::
               q[k] == if sp - (|a| + 1) <= k < sp - 1 then a[k - (sp - (|a| + 1))] else p[k]
    ensures Laid(q, args + [a], places + [sp - (|a| + 1)], sp - (|a| + 1)) && ZeroBelow(q, sp - (|a| + 1))
  {
    var at := sp - (|a| + 1);
    LaidFrame(p, q, args, places, sp);
    assert q[at..at + |a|] == a;
    LaidAppend(q, args, places, sp, a, at);
  }

  lemma LaidAppend(q: string, args: seq<string>, places: seq<nat>, sp: nat, a: string, at: nat)
    requires Laid(q, args, places, sp) && Has(q, at, a) && at + |a| + 1 == sp
    ensures Laid(q, args + [a], places + [at], at)
  {
    hide Has;
    var args', places' := args + [a], places + [at];
    var n := |args|;
    assert args'[n] == a && places'[n] == at && (n > 0 ==> places'[n - 1] == sp);
    forall j | 0 <= j < |args'|
      ensures Abuts(args', places', j) && at <= places'[j] && Has(q, places'[j], args'[j])
    {
      if j < n {
        assert Abuts(args, places, j) && args'[j] == args[j] && places'[j] == places[j];
        assert j > 0 ==> places'[j - 1] == places[j - 1];
      }
    }
  }

  // ----- The program -----

  /** strlen */
  method StrLen(p: array<char>, i: nat) returns (n: nat)
    requires i < p.Length
    ensures n == |StringAt(p[..], i)| && i + n <= p.Length
  {
    n := 0;
    while i + n < p.Length && p[i + n] != '\0'
      invariant i + n <= p.Length && |StringAt(p[..], i)| == n + |StringAt(p[..], i + n)|
    {
      n := n + 1;
    }
  }

  lemma {:induction false} StringAtIs(p: string, i: nat)
    requires i <= |p|
    ensures i + |StringAt(p, i)| <= |p| && StringAt(p, i) == p[i..i + |StringAt(p, i)|] && '\0' !in StringAt(p, i)
    decreases |p| - i
  {
    if i < |p| && p[i] != '\0' {
      StringAtIs(p, i + 1);
      assert p[i..i + |StringAt(p, i)|] == [p[i]] + p[i + 1..i + |StringAt(p, i)|];
    }
  }

  /** Pushing one argument; the stack page is zero below sp, which terminates the string. */
  method PushString(page: array<char>, sp: nat, text: array<char>, token: nat, ghost args: seq<string>, ghost places: seq<nat>)
    returns (at: nat)
    requires page != text && token < text.Length && Laid(page[..], args, places, sp) && ZeroBelow(page[..], sp)
    requires |StringAt(text[..], token)| + 1 <= sp
    modifies page
    ensures var a := StringAt(text[..], token);
            && at == sp - (|a| + 1) && Laid(page[..], args + [a], places + [at], at) && ZeroBelow(page[..], at)
  {
    hide Laid, StringAt;
    ghost var p, a := page[..], StringAt(text[..], token);
    assert |p| == PAGE && sp <= PAGE by { LaidBounds(p, args, places, sp); }
    var n := StrLen(text, token);
    StringAtIs(text[..], token);
    at := sp - (n + 1);
    for k := 0 to n
      invariant forall i | 0 <= i < page.Length :: page[i] == if at <= i < at + k then a[i - at] else p[i]
    {
      assert text[token + k] == a[k];
      page[at + k] := text[token + k];
    }
    LaidNext(p, page[..], args, places, sp, a);
  }

  lemma LaidBounds(p: string, args: seq<string>, places: seq<nat>, sp: nat)
    requires Laid(p, args, places, sp)
    ensures |p| == PAGE && sp <= PAGE
  {
    if |args| > 0 { assert Has(p, places[|args| - 1], args[|args| - 1]); }
  }

  /** From index sp on there are pointers to arguments first, first + 1, ... and then a null. */
  ghost predicate Pointers(p: string, sp: nat, places: seq<nat>, first: nat) {
    && first <= |places| && sp + 4 * (|places| - first) + 4 <= |p|
    && (forall j | first <= j < |places| :: LoadWord(p, sp + 4 * (j - first)) == Address(places[j]))
    && LoadWord(p, sp + 4 * (|places| - first)) == 0
  }

  lemma PointersNext(p: string, sp: nat, places: seq<nat>, first: nat)
    requires Pointers(p, sp, places, first) && 0 < first && 4 <= sp && places[first - 1] < PAGE
    ensures Pointers(Stored(p, sp - 4, Address(places[first - 1])), sp - 4, places, first - 1)
  {
    hide LoadWord, Stored;
    var q := Stored(p, sp - 4, Address(places[first - 1]));
    StoreLoad(p, sp - 4, Address(places[first - 1]));
    forall j | first <= j < |places|
      ensures LoadWord(q, sp - 4 + 4 * (j - (first - 1))) == Address(places[j])
    {
      LoadFrame(p, q, sp + 4 * (j - first));
    }
    LoadFrame(p, q, sp + 4 * (|places| - first));
    assert sp - 4 + 4 * (|places| - (first - 1)) == sp + 4 * (|places| - first);
  }

  lemma ArgumentAt(p: string, args: seq<string>, places: seq<nat>, sp: nat, j: nat)
    requires Laid(p, args, places, sp) && j < |args| && '\0' !in args[j]
    ensures places[j] < PAGE && StringAt(p, places[j]) == args[j]
    ensures places[j] + |args[j]| + 1 == if j == 0 then PAGE else places[j - 1]
  {
    assert Abuts(args, places, j) && Has(p, places[j], args[j]);
    StringIs(p, places[j], args[j]);
  }

  lemma NullSlot(p: string, top: nat, places: seq<nat>)
    requires ZeroBelow(p, top + 4)
    ensures Pointers(p, top, places, |places|)
  {
  }

  /** The null pointer and the pointers to the arguments, the last argument first. */
  method PushPointers(page: array<char>, text: nat, argc: nat, ghost args: seq<string>, ghost places: seq<nat>)
    returns (sp: nat)
    requires Laid(page[..], args, places, text) && ZeroBelow(page[..], text) && argc == |args| > 0
    requires forall a | a in args :: '\0' !in a
    requires 4 * argc + 4 <= text
    modifies page
    ensures sp == text - 4 * argc - 4 && Laid(page[..], args, places, text) && Pointers(page[..], sp, places, 0)
  {
    hide Laid, Pointers, Stored, StringAt, ZeroBelow;
    LaidBounds(page[..], args, places, text);
    LaidLast(page[..], args, places, text);
    var at := text;
    sp := text - 4;
    ZeroByte(page[..], sp, text);
    page[sp] := '\0';
    assert page[..] == old(page[..]);
    NullSlot(page[..], sp, places);
    for i := 0 to argc
      invariant sp == text - 4 - 4 * i && Laid(page[..], args, places, text)
      invariant Pointers(page[..], sp, places, argc - i)
      invariant i < argc ==> at == places[argc - 1 - i]
    {
      ghost var j, p := argc - 1 - i, page[..];
      assert args[j] in args;
      ArgumentAt(p, args, places, text, j);
      PointersNext(p, sp, places, argc - i);
      sp := sp - 4;
      StoreWord(page, sp, Address(at));
      LaidFrame(p, page[..], args, places, text);
      ArgumentAt(page[..], args, places, text, j);
      var n := StrLen(page, at);
      at := at + (n + 1);
    }
  }

  lemma LaidLast(p: string, args: seq<string>, places: seq<nat>, sp: nat)
    requires Laid(p, args, places, sp) && |args| > 0
    ensures |places| == |args| && sp == places[|args| - 1]
  {
  }

  lemma ZeroByte(p: string, i: nat, sp: nat)
    requires ZeroBelow(p, sp) && i < sp
    ensures i < |p| && p[i] == '\0' && ZeroBelow(p, i + 4) <== i + 4 <= sp
  {
  }

  /** What a program finds on its stack: a return address, argc, argv, and behind argv the
      arguments and a null pointer. */
  ghost predicate Decodes(p: string, esp: nat, args: seq<string>) {
    && esp + 16 + 4 * |args| <= |p| == PAGE
    && LoadWord(p, esp) == 0 && LoadWord(p, esp + 4) == |args| && LoadWord(p, esp + 8) == Address(esp + 12)
    && LoadWord(p, Slot(esp, |args|)) == 0
    && forall j | 0 <= j < |args| :: BASE <= LoadWord(p, Slot(esp, j)) && StringAt(p, LoadWord(p, Slot(esp, j)) - BASE) == args[j]
  }

  /** Where argv[j] is. */
  function Slot(esp: nat, j: nat): (i: nat) {
    esp + 12 + 4 * j
  }

  lemma {:induction false} TokensClean(s: string)
    requires '\0' !in s
    ensures forall t | t in Tokens(s) :: '\0' !in t && t != "" && ' ' !in t
    decreases |s|
  {
    if s != "" {
      if s[0] == ' ' {
        TokensClean(s[1..]);
      } else {
        var w := WordLength(s);
        TokensClean(s[w..]);
      }
    }
  }

  lemma FinalStack(p: string, q: string, sp: nat, args: seq<string>, places: seq<nat>, text: nat)
    requires Laid(p, args, places, text) && Pointers(p, sp, places, 0) && 12 <= sp && sp + 4 * |args| + 4 == text
    requires forall a | a in args :: '\0' !in a
    requires |args| < 0x1_0000_0000
    requires q == Stored(Stored(Stored(p, sp - 4, Address(sp)), sp - 8, |args|), sp - 12, 0)
    ensures Decodes(q, sp - 12, args)
  {
    hide LoadWord, Stored, StringAt, Laid;
    LaidBounds(p, args, places, text);
    LaidLengths(p, args, places, text);
    FinalWords(p, q, sp, |args|);
    LaidFrame(p, q, args, places, text);
    LoadFrame(p, q, sp + 4 * |args|);
    var esp := sp - 12;
    forall j | 0 <= j < |args|
      ensures BASE <= LoadWord(q, Slot(esp, j)) && StringAt(q, LoadWord(q, Slot(esp, j)) - BASE) == args[j]
    {
      LoadFrame(p, q, sp + 4 * j);
      assert Slot(esp, j) == sp + 4 * j;
      assert LoadWord(p, sp + 4 * (j - 0)) == Address(places[j]);
      assert args[j] in args;
      ArgumentAt(q, args, places, text, j);
    }
  }

  lemma FinalWords(p: string, q: string, sp: nat, n: nat)
    requires 12 <= sp <= |p| == PAGE && n < 0x1_0000_0000
    requires q == Stored(Stored(Stored(p, sp - 4, Address(sp)), sp - 8, n), sp - 12, 0)
    ensures |q| == |p| && forall k | sp <= k < |p| :: q[k] == p[k]
    ensures LoadWord(q, sp - 12) == 0 && LoadWord(q, sp - 8) == n && LoadWord(q, sp - 4) == Address(sp)
  {
    hide LoadWord, Stored;
    var p1 := Stored(p, sp - 4, Address(sp));
    var p2 := Stored(p1, sp - 8, n);
    StoreLoad(p, sp - 4, Address(sp));
    StoreLoad(p1, sp - 8, n);
    StoreLoad(p2, sp - 12, 0);
    LoadFrame(p1, p2, sp - 4);
    LoadFrame(p2, q, sp - 4);
    LoadFrame(p2, q, sp - 8);
  }

  lemma LaidLengths(p: string, args: seq<string>, places: seq<nat>, sp: nat)
    requires Laid(p, args, places, sp)
    ensures |places| == |args|
  {
  }

  lemma LaidNone(p: string)
    requires |p| == PAGE
    ensures Laid(p, [], [], PAGE)
  {
  }

  /** The name of the program starts at index n of the command line. */
  ghost predicate NameAt(line: string, n: nat) {
    n < |line| && line[n] != ' ' && forall k | 0 <= k < n :: line[k] == ' '
  }

  /** load frees the copy of the command line by the pointer to the name in it. That pointer passes
      the checks of free exactly if the line does not start with a space. */
  lemma LoadFreesName(arenas: Malloc.Arenas, lists: Malloc.Lists, live: map<nat, nat>, extents: Pages.Extents, b: nat,
                      line: string, name: nat)
    requires Malloc.Good(arenas, lists, live, extents) && b in live && live[b] == |line| + 1 && NameAt(line, name)
    ensures Malloc.Accepted(arenas, b + name) <==> line[0] != ' '
  {
    hide Malloc.Good, Malloc.Accepted;
    Malloc.AcceptedExactly(arenas, lists, live, extents, b, name);
  }

  /** The part of load that sets up the arguments, on the zeroed stack page. Decoding the stack
      gives back the tokens of the command line. In the end the copy is freed by the pointer to its
      index `name`; see LoadFreesName. */
  method SetUpStack(commandLine: string, page: array<char>) returns (esp: nat, name: nat)
    requires page.Length == PAGE && ZeroBelow(page[..], PAGE) && '\0' !in commandLine && Tokens(commandLine) != []
    requires TextSize(Tokens(commandLine)) + 4 * |Tokens(commandLine)| + 16 <= PAGE
    modifies page
    ensures Decodes(page[..], esp, Tokens(commandLine)) && NameAt(commandLine, name)
  {
    hide Tokens, StringAt, TextSize, Laid, Decodes, Terminated, ZeroBelow;
    var text := new char[|commandLine| + 1](i => if 0 <= i < |commandLine| then commandLine[i] else '\0');
    assert text[0..text.Length - 1] == commandLine;
    TerminatedText(commandLine, text[..]);
    TokensClean(commandLine);
    ghost var copy := text[..];
    var token, save := StrTok(text, 0);
    name := token;
    assert copy[name] != '\0' && commandLine[name] == copy[name];
    var sp, argc := PAGE, 0;
    ghost var args: seq<string>, places: seq<nat> := [], [];
    LaidNone(page[..]);
    TextNone();
    while token != -1
      invariant Laid(page[..], args, places, sp) && ZeroBelow(page[..], sp) && argc == |args|
      invariant save < text.Length && Terminated(text[..], save) && -1 <= token < text.Length
      invariant Tokens(commandLine) == args + if token == -1 then [] else
                  [StringAt(text[..], token)] + Tokens(text[save..text.Length - 1])
      invariant sp == PAGE - TextSize(args)
      decreases if token == -1 then 0 else 1 + text.Length - save
    {
      ghost var a, before := StringAt(text[..], token), text[..];
      ghost var rest := Tokens(text[save..text.Length - 1]);
      TextFits(Tokens(commandLine), args, a, rest);
      sp := PushString(page, sp, text, token, args, places);
      args, places := args + [a], places + [sp];
      argc := argc + 1;
      token, save := StrTok(text, save);
      assert Tokens(commandLine) == args + rest;
    }
    assert Tokens(commandLine) == args;
    esp := PushRest(page, sp, argc, args, places);
  }

  /** Everything below the strings. */
  method PushRest(page: array<char>, text: nat, argc: nat, ghost args: seq<string>, ghost places: seq<nat>)
    returns (esp: nat)
    requires Laid(page[..], args, places, text) && ZeroBelow(page[..], text) && argc == |args| > 0
    requires forall a | a in args :: '\0' !in a
    requires 4 * argc + 16 <= text
    modifies page
    ensures Decodes(page[..], esp, args)
  {
    hide StringAt, Laid, Pointers, Stored, Decodes, Address, ZeroBelow;
    LaidBounds(page[..], args, places, text);
    var sp := PushPointers(page, text, argc, args, places);
    ghost var p := page[..];
    FinalStack(p, Stored(Stored(Stored(p, sp - 4, Address(sp)), sp - 8, argc), sp - 12, 0), sp, args, places, text);
    StoreWord(page, sp - 4, Address(sp));
    StoreWord(page, sp - 8, argc);
    StoreWord(page, sp - 12, 0);
    esp := sp - 12;
  }

  lemma TerminatedText(s: string, t: string)
    requires |t| == |s| + 1 && t[|s|] == '\0' && '\0' !in s && forall i | 0 <= i < |s| :: t[i] == s[i]
    ensures Terminated(t, 0)
  {
  }

  lemma TextNone()
    ensures TextSize([]) == 0
  {
  }

  lemma TextFits(all: seq<string>, args: seq<string>, a: string, rest: seq<string>)
    requires all == args + ([a] + rest)
    ensures TextSize(args + [a]) == TextSize(args) + |a| + 1 <= TextSize(all)
  {
    TextSizeAppend(args, a);
    TextSizePrefix(all, |args| + 1);
    assert all[..|args| + 1] == args + [a];
  }
}
