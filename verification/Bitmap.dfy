/** Bitmaps packed into 32-bit words (src/lib/kernel/bitmap.c). The array of words refines a
    sequence of booleans. */
module Bitmaps {

  type Shift = k: bv6 | k < 32

  /** bit_mask */
  function Mask(k: Shift): (m: bv32) {
    (1 as bv32) << k
  }

  function Place(i: nat): (k: Shift) {
    PlaceFits(i % 32);
    (i % 32) as bv6
  }

  lemma PlaceFits(x: nat)
    requires x < 32
    ensures x as bv6 < 32 && (x as bv6) as nat == x
  {
  }

  lemma PlaceInjective(i: nat, j: nat)
    requires Place(i) == Place(j)
    ensures i % 32 == j % 32
  {
    PlaceFits(i % 32);
    PlaceFits(j % 32);
  }

  /** Bit k of a word. */
  predicate WordBit(w: bv32, k: Shift) {
    w & Mask(k) != 0
  }

  function Marked(w: bv32, k: Shift): (r: bv32) {
    w | Mask(k)
  }

  function Cleared(w: bv32, k: Shift): (r: bv32) {
    w & !Mask(k)
  }

  function Flipped(w: bv32, k: Shift): (r: bv32) {
    w ^ Mask(k)
  }

  lemma OrMask(w: bv32, a: Shift, b: Shift)
    ensures (w | Mask(a)) & Mask(b) != 0 <==> a == b || w & Mask(b) != 0
  {
  }

  lemma AndMask(w: bv32, a: Shift, b: Shift)
    ensures (w & !Mask(a)) & Mask(b) != 0 <==> a != b && w & Mask(b) != 0
  {
  }

  lemma XorMask(w: bv32, a: Shift, b: Shift)
    ensures (w ^ Mask(a)) & Mask(b) != 0 <==> (a == b) != (w & Mask(b) != 0)
  {
  }

  lemma MarkWord(w: bv32, a: Shift, b: Shift)
    ensures WordBit(Marked(w, a), b) <==> a == b || WordBit(w, b)
  {
    OrMask(w, a, b);
  }

  lemma ResetWord(w: bv32, a: Shift, b: Shift)
    ensures WordBit(Cleared(w, a), b) <==> a != b && WordBit(w, b)
  {
    AndMask(w, a, b);
  }

  lemma FlipWord(w: bv32, a: Shift, b: Shift)
    ensures WordBit(Flipped(w, a), b) <==> (a == b) != WordBit(w, b)
  {
    XorMask(w, a, b);
  }

  predicate BitAt(words: seq<bv32>, i: nat)
    requires i / 32 < |words|
  {
    WordBit(words[i / 32], Place(i))
  }

  lemma SameBit(i: nat, j: nat)
    ensures i / 32 == j / 32 && Place(i) == Place(j) <==> i == j
  {
    if Place(i) == Place(j) { PlaceInjective(i, j); }
  }

  /** Changing the bit of number k in its word changes bit k of the map and no other. */
  lemma OneBit(words: seq<bv32>, k: nat, w: bv32, j: nat)
    requires k / 32 < |words| && j / 32 < |words|
    requires Place(j) != Place(k) ==> WordBit(w, Place(j)) == WordBit(words[k / 32], Place(j))
    ensures BitAt(words[k / 32 := w], j) == if j == k then WordBit(w, Place(k)) else BitAt(words, j)
  {
    hide WordBit, Place;
    SameBit(j, k);
  }

  /** Bits start, ..., start + cnt - 1 of b are all v. */
  ghost predicate AllAre(b: seq<bool>, start: nat, cnt: nat, v: bool) {
    start + cnt <= |b| && forall i | start <= i < start + cnt :: b[i] == v
  }

  /** The bits among them that are v. */
  ghost function Found(b: seq<bool>, start: nat, cnt: nat, v: bool): set<nat>
    requires start + cnt <= |b|
  {
    set i: nat | start <= i < start + cnt && b[i] == v
  }

  lemma FoundNone(b: seq<bool>, start: nat, v: bool)
    requires start <= |b|
    ensures Found(b, start, 0, v) == {}
  {
  }

  lemma FoundNext(b: seq<bool>, start: nat, i: nat, v: bool)
    requires start + i < |b|
    ensures |Found(b, start, i + 1, v)| == |Found(b, start, i, v)| + if b[start + i] == v then 1 else 0
  {
    assert Found(b, start, i + 1, v) == Found(b, start, i, v) + if b[start + i] == v then {start + i} else {};
  }

  ghost function SetRange(b: seq<bool>, start: nat, cnt: nat, v: bool): (r: seq<bool>)
    requires start + cnt <= |b|
    ensures |r| == |b| && forall i | 0 <= i < |b| :: r[i] == if start <= i < start + cnt then v else b[i]
  {
    seq(|b|, i requires 0 <= i < |b| => if start <= i < start + cnt then v else b[i])
  }

  class Bitmap {
    const bitCnt: nat
    const words: array<bv32>

    ghost predicate Valid()
      reads this
    {
      words.Length == (bitCnt + 31) / 32
    }

    ghost function Bits(): (b: seq<bool>)
      requires Valid()
      reads this, words
      ensures |b| == bitCnt && forall i | 0 <= i < bitCnt :: b[i] == BitAt(words[..], i)
    {
      var w := words[..];
      seq(bitCnt, i requires 0 <= i < bitCnt => BitAt(w, i))
    }

    /** bitmap_create: all bits clear. */
    constructor (bitCnt: nat)
      ensures Valid() && this.bitCnt == bitCnt && Bits() == seq(bitCnt, _ => false) && fresh(words)
    {
      this.bitCnt := bitCnt;
      words := new bv32[(bitCnt + 31) / 32](_ => 0);
    }

    method Mark(i: nat)
      requires Valid() && i < bitCnt
      modifies words
      ensures Bits() == old(Bits())[i := true]
    {
      hide WordBit, Marked, Place;
      ghost var w := words[..];
      words[i / 32] := Marked(words[i / 32], Place(i));
      assert words[..] == w[i / 32 := words[i / 32]];
      MarkWord(w[i / 32], Place(i), Place(i));
      forall j | 0 <= j < bitCnt
        ensures BitAt(words[..], j) == if j == i then true else BitAt(w, j)
      {
        MarkWord(w[i / 32], Place(i), Place(j));
        OneBit(w, i, words[i / 32], j);
      }
    }

    method Reset(i: nat)
      requires Valid() && i < bitCnt
      modifies words
      ensures Bits() == old(Bits())[i := false]
    {
      hide WordBit, Cleared, Place;
      ghost var w := words[..];
      words[i / 32] := Cleared(words[i / 32], Place(i));
      assert words[..] == w[i / 32 := words[i / 32]];
      ResetWord(w[i / 32], Place(i), Place(i));
      forall j | 0 <= j < bitCnt
        ensures BitAt(words[..], j) == if j == i then false else BitAt(w, j)
      {
        ResetWord(w[i / 32], Place(i), Place(j));
        OneBit(w, i, words[i / 32], j);
      }
    }

    method Flip(i: nat)
      requires Valid() && i < bitCnt
      modifies words
      ensures Bits() == old(Bits())[i := !old(Bits())[i]]
    {
      hide WordBit, Flipped, Place;
      ghost var w := words[..];
      words[i / 32] := Flipped(words[i / 32], Place(i));
      assert words[..] == w[i / 32 := words[i / 32]];
      FlipWord(w[i / 32], Place(i), Place(i));
      forall j | 0 <= j < bitCnt
        ensures BitAt(words[..], j) == if j == i then !old(Bits())[i] else BitAt(w, j)
      {
        FlipWord(w[i / 32], Place(i), Place(j));
        OneBit(w, i, words[i / 32], j);
      }
    }

    method Test(i: nat) returns (b: bool)
      requires Valid() && i < bitCnt
      ensures b == Bits()[i]
    {
      b := WordBit(words[i / 32], Place(i));
      assert words[..][i / 32] == words[i / 32];
    }

    method SetMultiple(start: nat, cnt: nat, value: bool)
      requires Valid() && start + cnt <= bitCnt
      modifies words
      ensures Bits() == SetRange(old(Bits()), start, cnt, value)
    {
      for i := 0 to cnt
        invariant Bits() == SetRange(old(Bits()), start, i, value)
      {
        if value { Mark(start + i); } else { Reset(start + i); }
      }
    }

    method Count(start: nat, cnt: nat, value: bool) returns (n: nat)
      requires Valid() && start + cnt <= bitCnt
      ensures n == |Found(Bits(), start, cnt, value)|
    {
      FoundNone(Bits(), start, value);
      n := 0;
      for i := 0 to cnt
        invariant n == |Found(Bits(), start, i, value)|
      {
        hide *;
        var b := Test(start + i);
        FoundNext(Bits(), start, i, value);
        if b == value {
          n := n + 1;
        }
      }
    }

    method Contains(start: nat, cnt: nat, value: bool) returns (b: bool)
      requires Valid() && start + cnt <= bitCnt
      ensures b <==> !AllAre(Bits(), start, cnt, !value)
    {
      for i := 0 to cnt
        invariant AllAre(Bits(), start, i, !value)
      {
        var t := Test(start + i);
        if t == value {
          return true;
        }
      }
      return false;
    }

    /** bitmap_scan: the least start of a run of cnt equal bits, or -1 if there is none. */
    method Scan(start: nat, cnt: nat, value: bool) returns (idx: int)
      requires Valid() && start <= bitCnt
      ensures idx == -1 ==> forall i | start <= i :: !AllAre(Bits(), i, cnt, value)
      ensures idx != -1 ==> start <= idx && AllAre(Bits(), idx, cnt, value)
                            && forall i | start <= i < idx :: !AllAre(Bits(), i, cnt, value)
    {
      if cnt <= bitCnt {
        var last := bitCnt - cnt;
        var i := start;
        while i <= last
          invariant start <= i && forall j | start <= j < i :: !AllAre(Bits(), j, cnt, value)
        {
          var c := Contains(i, cnt, !value);
          if !c {
            return i;
          }
          i := i + 1;
        }
      }
      return -1;
    }

    method ScanAndFlip(start: nat, cnt: nat, value: bool) returns (idx: int)
      requires Valid() && start <= bitCnt
      modifies words
      ensures idx == -1 ==> Bits() == old(Bits()) && forall i | start <= i :: !AllAre(Bits(), i, cnt, value)
      ensures idx != -1 ==> start <= idx && AllAre(old(Bits()), idx, cnt, value)
                            && Bits() == SetRange(old(Bits()), idx, cnt, !value)
                            && forall i | start <= i < idx :: !AllAre(old(Bits()), i, cnt, value)
    {
      idx := Scan(start, cnt, value);
      if idx != -1 {
        SetMultiple(idx, cnt, !value);
      }
    }
  }
}
