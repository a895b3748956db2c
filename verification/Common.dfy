/** Notions several parts of the model share. */
module Common {

  datatype Option<T> = None | Some(value: T)

  // Machine integers.
  type U32 = x: int | 0 <= x < 0x1_0000_0000
  type U64 = x: int | 0 <= x < 0x1_0000_0000_0000_0000
  type S32 = x: int | -0x8000_0000 <= x < 0x8000_0000
  type S64 = x: int | -0x8000_0000_0000_0000 <= x < 0x8000_0000_0000_0000

  type Byte = b: int | 0 <= b < 256

  /** Byte k of a number, the least significant one first. */
  function ByteOf(w: nat, k: nat): (b: Byte)
    requires k < 4
  {
    if k == 0 then w % 0x100
    else if k == 1 then w / 0x100 % 0x100
    else if k == 2 then w / 0x1_0000 % 0x100
    else w / 0x100_0000 % 0x100
  }

  function Join(b0: int, b1: int, b2: int, b3: int): (w: int) {
    b0 + 0x100 * b1 + 0x1_0000 * b2 + 0x100_0000 * b3
  }

  lemma SplitWord(w: U32)
    ensures Join(ByteOf(w, 0), ByteOf(w, 1), ByteOf(w, 2), ByteOf(w, 3)) == w
    ensures w == ByteOf(w, 0) + 0x100 * ByteOf(w, 1) + 0x1_0000 * ByteOf(w, 2) + 0x100_0000 * ByteOf(w, 3)
  {
    assert w / 0x100 / 0x100 == w / 0x1_0000;
    assert w / 0x1_0000 / 0x100 == w / 0x100_0000;
  }

  lemma MulLe(a: int, b: int, c: int)
    requires a <= b && c >= 0
    ensures a * c <= b * c
  {
  }

  ghost predicate NoDup<T>(s: seq<T>) {
    forall i, j | 0 <= i < j < |s| :: s[i] != s[j]
  }

  /** The same, in a form the solver leaves alone until asked for it. */
  ghost predicate Separate<T>(s: seq<T>) {
    forall i {:trigger Unlike(s, i)} | 0 <= i < |s| :: Unlike(s, i)
  }

  ghost predicate Unlike<T>(s: seq<T>, i: nat)
    requires i < |s|
  {
    forall j | i < j < |s| :: s[i] != s[j]
  }

  lemma SeparateIsNoDup<T>(s: seq<T>)
    ensures Separate(s) <==> NoDup(s)
  {
    if Separate(s) {
      forall i, j | 0 <= i < j < |s|
        ensures s[i] != s[j]
      {
        assert Unlike(s, i);
      }
    }
  }

  lemma ConsNoDup<T>(x: T, rest: seq<T>)
    requires NoDup(rest) && x !in rest
    ensures NoDup([x] + rest)
    ensures forall y :: y in [x] + rest <==> y == x || y in rest
  {
  }

  function Pow2(n: nat): (p: nat)
    ensures p >= 1
  {
    if n == 0 then 1 else 2 * Pow2(n - 1)
  }

  /** Unlinking an element from a list. */
  function Removed<T(==)>(s: seq<T>, e: T): (r: seq<T>) {
    if s == [] then [] else if s[0] == e then s[1..] else [s[0]] + Removed(s[1..], e)
  }

  lemma {:induction false} RemovedIs<T(!new)>(s: seq<T>, e: T)
    requires NoDup(s)
    ensures NoDup(Removed(s, e)) && forall c :: c in Removed(s, e) <==> c in s && c != e
  {
    if s != [] {
      assert s == [s[0]] + s[1..] && s[0] !in s[1..];
      RemovedIs(s[1..], e);
      if s[0] != e { ConsNoDup(s[0], Removed(s[1..], e)); }
    }
  }
}
