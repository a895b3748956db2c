/** Which sectors inode_grow takes for what: allocation is first fit and the order of the
    allocations is fixed, so the index a file will have is known before it grows. */
module Plans {
  import opened Common
  import opened Cache
  import opened Sectors
  import opened Inode

  /** The sectors a file with n data sectors occupies, its tables included. */
  function Need(n: nat): (r: nat) {
    n + (if n > DIRECT then 1 else 0) + (if n > SINGLE then 1 else 0) + GroupCount(n)
  }

  // The places, in the order of allocation, of the sectors taken by a file that grows from n
  // sectors: its data sector k, its tables, and its second-level table g. A data sector is the
  // last one taken for a file that ends with it, and a table comes right before its first entry.

  function DataPlace(n: nat, k: nat): int {
    Need(k + 1) - 1 - Need(n)
  }

  function IndPlace(n: nat): int {
    Need(DIRECT + 1) - 2 - Need(n)
  }

  function DblPlace(n: nat): int {
    Need(SINGLE + 1) - 3 - Need(n)
  }

  function GroupPlace(n: nat, g: nat): int {
    Need(SINGLE + 128 * g + 1) - 2 - Need(n)
  }

  /** Whether s is at place i of t. */
  predicate At(t: seq<Word>, i: int, s: Word) {
    0 <= i < |t| && t[i] == s
  }

  /** First fit over `used` makes index x into index y. */
  ghost predicate Plan(used: seq<bool>, x: Index, y: Index) {
    var m, n := |x.data|, |y.data|;
    && |used| <= 0x1_0000_0000 && x.data <= y.data && x.groups <= y.groups && Need(m) <= Need(n)
    && var t := Take(used, Need(n) - Need(m));
       && (forall k | m <= k < n :: At(t, DataPlace(m, k), y.data[k]))
       && (forall g | |x.groups| <= g < |y.groups| :: At(t, GroupPlace(m, g), y.groups[g]))
       && (if m <= DIRECT < n then At(t, IndPlace(m), y.ind) else y.ind == x.ind)
       && (if m <= SINGLE < n then At(t, DblPlace(m), y.dbl) else y.dbl == x.dbl)
  }

  lemma PlanNone(used: seq<bool>, x: Index)
    requires |used| <= 0x1_0000_0000
    ensures Plan(used, x, x)
  {
  }

  lemma AtMore(t: seq<Word>, t': seq<Word>, i: int, s: Word)
    ensures At(t, i, s) ==> At(t + t', i, s)
    ensures At(t', i, s) ==> At(t + t', |t| + i, s)
  {
  }

  lemma PlanCompose(a: seq<bool>, x: Index, y: Index, b: seq<bool>, z: Index)
    requires Plan(a, x, y) && Took(a, Need(|y.data|) - Need(|x.data|), b) && Plan(b, y, z)
    requires |Take(b, Need(|z.data|) - Need(|y.data|))| == Need(|z.data|) - Need(|y.data|)
    ensures Plan(a, x, z)
  {
    hide Need, Take, Mark, At;
    var m, n, o := |x.data|, |y.data|, |z.data|;
    var t, t' := Take(a, Need(n) - Need(m)), Take(b, Need(o) - Need(n));
    TookMore(a, Need(n) - Need(m), b, Need(o) - Need(n), Mark(b, t'));
    forall k | m <= k < o
      ensures At(t + t', DataPlace(m, k), z.data[k])
    {
      AtMore(t, t', DataPlace(m, k), z.data[k]);
      AtMore(t, t', DataPlace(n, k), z.data[k]);
      assert k < n ==> z.data[k] == y.data[k];
    }
    forall g | |x.groups| <= g < |z.groups|
      ensures At(t + t', GroupPlace(m, g), z.groups[g])
    {
      AtMore(t, t', GroupPlace(m, g), z.groups[g]);
      AtMore(t, t', GroupPlace(n, g), z.groups[g]);
      assert g < |y.groups| ==> z.groups[g] == y.groups[g];
    }
    AtMore(t, t', IndPlace(m), z.ind);
    AtMore(t, t', IndPlace(n), z.ind);
    AtMore(t, t', DblPlace(m), z.dbl);
    AtMore(t, t', DblPlace(n), z.dbl);
  }

  /** The plan leaves nothing open. */
  lemma PlanUnique(used: seq<bool>, x: Index, y: Index, z: Index)
    requires Plan(used, x, y) && Plan(used, x, z) && |y.data| == |z.data| && |y.groups| == |z.groups|
    ensures y == z
  {
    hide Need, Take;
    assert forall k | 0 <= k < |x.data| :: y.data[k] == z.data[k];
    assert forall g | 0 <= g < |x.groups| :: y.groups[g] == z.groups[g];
    assert y.data == z.data && y.groups == z.groups;
  }

  function Pick(t: seq<Word>, i: int): Word {
    if 0 <= i < |t| then t[i] else 0
  }

  /** The index of the file with index x once it has n data sectors, computed from the free map. */
  function Planned(used: seq<bool>, x: Index, n: nat): (y: Index)
    requires |used| <= 0x1_0000_0000 && |x.data| <= n && Need(|x.data|) <= Need(n)
    ensures |y.data| == n && x.data <= y.data && x.groups <= y.groups
  {
    var m := |x.data|;
    var t := Take(used, Need(n) - Need(m));
    var groups: nat := if GroupCount(n) > |x.groups| then GroupCount(n) - |x.groups| else 0;
    Index(x.data + seq<Word>(n - m, j requires 0 <= j < n - m => Pick(t, DataPlace(m, m + j))),
          if m <= DIRECT < n then Pick(t, IndPlace(m)) else x.ind,
          if m <= SINGLE < n then Pick(t, DblPlace(m)) else x.dbl,
          x.groups + seq<Word>(groups, g requires 0 <= g < groups => Pick(t, GroupPlace(m, |x.groups| + g))))
  }

  lemma PlannedIs(used: seq<bool>, x: Index, y: Index)
    requires Plan(used, x, y) && |y.groups| == GroupCount(|y.data|)
    ensures y == Planned(used, x, |y.data|)
  {
    hide Need, Take, GroupCount;
    var m, z := |x.data|, Planned(used, x, |y.data|);
    var t := Take(used, Need(|y.data|) - Need(m));
    forall k | 0 <= k < |y.data|
      ensures y.data[k] == z.data[k]
    {
      if k >= m {
        assert At(t, DataPlace(m, k), y.data[k]);
        var j := k - m;
        assert z.data[m + j] == Pick(t, DataPlace(m, m + j));
      }
    }
    forall g | 0 <= g < |y.groups|
      ensures y.groups[g] == z.groups[g]
    {
      var n := |x.groups|;
      if g >= n {
        assert At(t, GroupPlace(m, g), y.groups[g]);
        var h := g - n;
        assert z.groups[n + h] == Pick(t, GroupPlace(m, n + h));
      }
    }
    assert y.data == z.data && y.groups == z.groups;
  }

  lemma SmallNeed(n: nat)
    ensures n <= DIRECT ==> Need(n) == n
    ensures DIRECT < n <= SINGLE ==> Need(n) == n + 1
  {
  }

  /** A plan for new data sectors and possibly an indirect table, from the sectors t. */
  lemma PlanFrom(used: seq<bool>, x: Index, y: Index, t: seq<Word>)
    requires |used| <= 0x1_0000_0000 && Need(|y.data|) - Need(|x.data|) == |t| && t == Take(used, |t|)
    requires x.data <= y.data && y.groups == x.groups && y.dbl == x.dbl && (|y.data| <= SINGLE || |x.data| > SINGLE)
    requires forall k | |x.data| <= k < |y.data| :: At(t, DataPlace(|x.data|, k), y.data[k])
    requires if |x.data| <= DIRECT < |y.data| then At(t, IndPlace(|x.data|), y.ind) else y.ind == x.ind
    ensures Plan(used, x, y)
  {
    hide Take, Need, At;
    assert Take(used, Need(|y.data|) - Need(|x.data|)) == t;
  }

  /** Growing within the direct blocks. */
  lemma DirectPlan(used: seq<bool>, x: Index, f: seq<Word>)
    requires |x.data| + |f| <= DIRECT && |used| <= 0x1_0000_0000 && f == Take(used, |f|)
    ensures Plan(used, x, x.(data := x.data + f))
  {
    hide Take, Need, Plan;
    var y := x.(data := x.data + f);
    SmallNeed(|x.data|);
    SmallNeed(|y.data|);
    forall k | |x.data| <= k < |y.data|
      ensures At(f, DataPlace(|x.data|, k), y.data[k])
    {
      SmallNeed(k + 1);
    }
    PlanFrom(used, x, y, f);
  }

  /** Growing into a new indirect table in sector s. */
  lemma IndirectNewPlan(used: seq<bool>, x: Index, s: Word, f: seq<Word>)
    requires |x.data| == DIRECT && 0 < |f| <= TABLE_SIZE && |used| <= 0x1_0000_0000 && [s] + f == Take(used, |f| + 1)
    ensures Plan(used, x, Index(x.data + f, s, x.dbl, x.groups))
  {
    hide Take, Need, Plan;
    var y := Index(x.data + f, s, x.dbl, x.groups);
    SmallNeed(|x.data|);
    SmallNeed(|y.data|);
    SmallNeed(DIRECT + 1);
    forall k | |x.data| <= k < |y.data|
      ensures At([s] + f, DataPlace(DIRECT, k), y.data[k])
    {
      SmallNeed(k + 1);
    }
    PlanFrom(used, x, y, [s] + f);
  }

  /** Growing within the indirect table. */
  lemma IndirectOldPlan(used: seq<bool>, x: Index, f: seq<Word>)
    requires |x.data| > DIRECT && (f == [] || |x.data| + |f| <= SINGLE)
    requires |used| <= 0x1_0000_0000 && f == Take(used, |f|)
    ensures Plan(used, x, x.(data := x.data + f))
  {
    hide Take, Need, Plan;
    var y := x.(data := x.data + f);
    if f == [] {
      assert y.data == x.data && y == x;
      PlanNone(used, x);
    } else {
      SmallNeed(|x.data|);
      SmallNeed(|y.data|);
      forall k | |x.data| <= k < |y.data|
        ensures At(f, DataPlace(|x.data|, k), y.data[k])
      {
        SmallNeed(k + 1);
      }
      PlanFrom(used, x, y, f);
    }
  }

  // ----- Second-level tables -----

  /** The second-level tables needed for k more sectors on top of full ones. */
  function GroupsFor(k: nat): (g: nat) {
    (k + 127) / 128
  }

  /** First fit over `used` adds second-level tables to index x, each one followed by up to 128
      data sectors. */
  ghost predicate GroupPlan(used: seq<bool>, x: Index, y: Index) {
    && |used| <= 0x1_0000_0000 && x.data <= y.data && x.groups <= y.groups && y.ind == x.ind && y.dbl == x.dbl
    && var k := |y.data| - |x.data|;
       var t := Take(used, k + GroupsFor(k));
       && |y.groups| == |x.groups| + GroupsFor(k)
       && (forall j | 0 <= j < k :: At(t, j + j / 128 + 1, y.data[|x.data| + j]))
       && (forall g | 0 <= g < GroupsFor(k) :: At(t, 129 * g, y.groups[|x.groups| + g]))
  }

  lemma GroupPlanNone(used: seq<bool>, x: Index)
    requires |used| <= 0x1_0000_0000
    ensures GroupPlan(used, x, x)
  {
  }

  lemma OneGroup(k: nat)
    requires 0 < k <= 128
    ensures GroupsFor(k) == 1
  {
  }

  lemma AtNext(s: Word, f: seq<Word>, j: nat)
    requires j < |f|
    ensures At([s] + f, j + 1, f[j])
  {
  }

  lemma AtStart(s: Word, f: seq<Word>)
    ensures At([s] + f, 0, s)
  {
  }

  lemma OneGroupPlan(used: seq<bool>, x: Index, s: Word, f: seq<Word>)
    requires 0 < |f| <= 128 && |used| <= 0x1_0000_0000 && [s] + f == Take(used, |f| + 1)
    ensures GroupPlan(used, x, Index(x.data + f, x.ind, x.dbl, x.groups + [s]))
  {
    hide Take, GroupsFor, At, GroupPlan;
    var y := Index(x.data + f, x.ind, x.dbl, x.groups + [s]);
    OneGroup(|f|);
    forall j | 0 <= j < |f|
      ensures At([s] + f, j + j / 128 + 1, y.data[|x.data| + j])
    {
      assert j / 128 == 0;
      AtNext(s, f, j);
    }
    AtStart(s, f);
    GroupPlanFrom(used, x, y, |f|, [s] + f);
  }

  lemma GroupPlanFrom(used: seq<bool>, x: Index, y: Index, k: nat, t: seq<Word>)
    requires |used| <= 0x1_0000_0000 && x.data <= y.data && x.groups <= y.groups && y.ind == x.ind && y.dbl == x.dbl
    requires |y.data| == |x.data| + k && |y.groups| == |x.groups| + 1 && GroupsFor(k) == 1 && t == Take(used, k + 1)
    requires forall j | 0 <= j < k :: At(t, j + j / 128 + 1, y.data[|x.data| + j])
    requires At(t, 0, y.groups[|x.groups|])
    ensures GroupPlan(used, x, y)
  {
    hide Take, GroupsFor, At;
    assert |y.data| - |x.data| == k && Take(used, k + GroupsFor(k)) == t;
  }

  lemma Shifted(c: nat, j: nat)
    ensures (128 * c + j) / 128 == c + j / 128 && GroupsFor(128 * c + j) == c + GroupsFor(j) && GroupsFor(128 * c) == c
  {
  }

  lemma DataShifted(t: seq<Word>, t': seq<Word>, first: seq<Word>, data: seq<Word>, n: nat, c: nat, j: nat)
    requires n + 128 * c == |first| && first <= data && n + j < |data| && |t| == 129 * c
    requires j < 128 * c ==> At(t, j + j / 128 + 1, first[n + j])
    requires j >= 128 * c ==> var i := j - 128 * c; At(t', i + i / 128 + 1, data[|first| + i])
    ensures At(t + t', j + j / 128 + 1, data[n + j])
  {
    if j >= 128 * c { Shifted(c, j - 128 * c); }
  }

  lemma GroupShifted(t: seq<Word>, t': seq<Word>, first: seq<Word>, groups: seq<Word>, n: nat, c: nat, g: nat)
    requires n + c == |first| && first <= groups && n + g < |groups| && |t| == 129 * c
    requires g < c ==> At(t, 129 * g, first[n + g])
    requires g >= c ==> At(t', 129 * (g - c), groups[|first| + (g - c)])
    ensures At(t + t', 129 * g, groups[n + g])
  {
  }

  lemma GroupsTaken(a: seq<bool>, b: seq<bool>, c: nat, k: nat)
    requires Took(a, 129 * c, b) && |Take(b, k + GroupsFor(k))| == k + GroupsFor(k)
    ensures |Take(a, 129 * c)| == 129 * c
    ensures Take(a, 128 * c + k + GroupsFor(128 * c + k)) == Take(a, 129 * c) + Take(b, k + GroupsFor(k))
  {
    hide Take, Mark, GroupsFor;
    Shifted(c, k);
    TookMore(a, 129 * c, b, k + GroupsFor(k), Mark(b, Take(b, k + GroupsFor(k))));
    assert 128 * c + k + GroupsFor(128 * c + k) == 129 * c + (k + GroupsFor(k));
  }

  lemma GroupPlanCompose(a: seq<bool>, x: Index, y: Index, b: seq<bool>, z: Index, c: nat, k: nat)
    requires GroupPlan(a, x, y) && |y.data| == |x.data| + 128 * c && Took(a, 129 * c, b)
    requires GroupPlan(b, y, z) && |z.data| == |y.data| + k && |Take(b, k + GroupsFor(k))| == k + GroupsFor(k)
    ensures GroupPlan(a, x, z)
  {
    hide Take, Took, Mark, GroupsFor, At;
    Shifted(c, k);
    var t, t' := Take(a, 129 * c), Take(b, k + GroupsFor(k));
    GroupsTaken(a, b, c, k);
    forall j | 0 <= j < 128 * c + k
      ensures At(t + t', j + j / 128 + 1, z.data[|x.data| + j])
    {
      DataShifted(t, t', y.data, z.data, |x.data|, c, j);
    }
    forall g | 0 <= g < c + GroupsFor(k)
      ensures At(t + t', 129 * g, z.groups[|x.groups| + g])
    {
      GroupShifted(t, t', y.groups, z.groups, |x.groups|, c, g);
    }
  }

  /** The places of data sectors and tables beyond the indirect table. */
  lemma DoublePlaces(m: nat, k: nat)
    requires m >= SINGLE && (m - 141) % 128 == 0 && k > 0
    ensures var first := if m == SINGLE then 1 else 0;
            && Need(m + k) - Need(m) == first + k + GroupsFor(k)
            && GroupCount(m + k) == GroupCount(m) + GroupsFor(k)
            && (m == SINGLE ==> DblPlace(m) == 0)
            && (forall j | 0 <= j < k :: DataPlace(m, m + j) == first + j + j / 128 + 1)
            && (forall g | 0 <= g < GroupsFor(k) :: GroupPlace(m, GroupCount(m) + g) == first + 129 * g)
  {
    var c := (m - 141) / 128;
    assert m == 141 + 128 * c;
    Shifted(c, k);
    forall j | 0 <= j < k
      ensures DataPlace(m, m + j) == (if m == SINGLE then 1 else 0) + j + j / 128 + 1
    {
      Shifted(c, j + 1);
      assert GroupsFor(j + 1) == j / 128 + 1;
    }
    forall g | 0 <= g < GroupsFor(k)
      ensures GroupPlace(m, GroupCount(m) + g) == (if m == SINGLE then 1 else 0) + 129 * g
    {
      assert GroupCount(142 + 128 * (c + g)) == c + g + 1;
    }
  }
}
