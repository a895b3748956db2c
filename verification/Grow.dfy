/** inode_grow as a program, and what it keeps (src/filesys/inode.c). */
module Grow {
  import opened Common
  import opened Cache
  import opened Sectors
  import opened Inode
  import opened Plans
  import opened Growth

  /** Growing from n to n' sectors goes on in a second-level table that is already partly filled. */
  predicate Resumes(n: nat, n': nat) {
    n' > n > SINGLE && (n - 141) % 128 != 0
  }

  /** The file with index x became the file with index y: the old data sectors keep their places
      and contents, the new ones and the new tables were free, and the new data is zero. */
  ghost predicate Extends(dev: Dev, x: Index, r: Dev, rd: InodeDisk, y: Index) {
    && x.data <= y.data && Rep(rd, r.disk, y)
    && Owned(x) <= Owned(y) && Changes(dev, r, Owned(y) - Owned(x), TableSet(x))
    && (forall i | |x.data| <= i < |y.data| :: y.data[i] < |r.disk| && r.disk[y.data[i]] == ZeroBlock())
    && FreeCount(r.used) + Need(|y.data|) == FreeCount(dev.used) + Need(|x.data|)
  }

  /** The sectors were taken by first fit, in the order of the plan. */
  ghost predicate FirstFit(used: seq<bool>, x: Index, y: Index, r: seq<bool>) {
    Plan(used, x, y) && Took(used, Need(|y.data|) - Need(|x.data|), r)
  }

  lemma FirstFitNone(used: seq<bool>, x: Index)
    requires |used| <= 0x1_0000_0000
    ensures FirstFit(used, x, x, used)
  {
    TookNone(used);
  }

  lemma FirstFitCompose(a: seq<bool>, x: Index, y: Index, b: seq<bool>, z: Index, c: seq<bool>)
    requires FirstFit(a, x, y, b) && FirstFit(b, y, z, c)
    ensures FirstFit(a, x, z, c)
  {
    hide Need, Take, Mark;
    assert Need(|x.data|) <= Need(|y.data|) <= Need(|z.data|);
    TookMore(a, Need(|y.data|) - Need(|x.data|), b, Need(|z.data|) - Need(|y.data|), c);
    hide Plan;
    PlanCompose(a, x, y, b, z);
  }

  lemma TablesKept(x: Index, y: Index)
    requires Separated(x) && Separated(y) && x.data <= y.data && Owned(x) <= Owned(y)
    ensures TableSet(y) <= TableSet(x) + (Owned(y) - Owned(x))
  {
    assert forall s | s in DataSet(x) :: s in DataSet(y);
  }

  lemma ZeroKept(a: Dev, b: Dev, c: Dev, y: Index, z: Index, n: nat)
    requires Changes(b, c, Owned(z) - Owned(y), TableSet(y)) && Separated(y)
    requires y.data <= z.data && n <= |y.data|
    requires forall i | n <= i < |y.data| :: y.data[i] < |b.disk| && b.disk[y.data[i]] == ZeroBlock()
    requires forall i | |y.data| <= i < |z.data| :: z.data[i] < |c.disk| && c.disk[z.data[i]] == ZeroBlock()
    ensures forall i | n <= i < |z.data| :: z.data[i] < |c.disk| && c.disk[z.data[i]] == ZeroBlock()
  {
    forall i | n <= i < |y.data|
      ensures c.disk[z.data[i]] == ZeroBlock()
    {
      assert z.data[i] == y.data[i] && y.data[i] in DataSet(y);
    }
  }

  lemma ExtendsCompose(a: Dev, x: Index, b: Dev, bd: InodeDisk, y: Index, c: Dev, cd: InodeDisk, z: Index)
    requires Separated(x) && Extends(a, x, b, bd, y) && Extends(b, y, c, cd, z)
    ensures Extends(a, x, c, cd, z)
  {
    ZeroKept(a, b, c, y, z, |x.data|);
    TablesKept(x, y);
    var f, g := Owned(y) - Owned(x), Owned(z) - Owned(y);
    ChangesCompose(a, b, c, f, TableSet(x), g, TableSet(y));
    assert Owned(z) - Owned(x) == f + g;
    ChangesWeaken(a, c, f + g, TableSet(x) + TableSet(y), TableSet(x));
  }

  lemma ChangesWeaken(a: Dev, b: Dev, f: set<nat>, t: set<nat>, t': set<nat>)
    requires Changes(a, b, f, t) && t <= t' + f
    ensures Changes(a, b, f, t')
  {
  }

  lemma ExtendsInUse(a: Dev, x: Index, b: Dev, bd: InodeDisk, y: Index)
    requires InUse(a.used, Owned(x)) && Extends(a, x, b, bd, y)
    ensures InUse(b.used, Owned(y))
  {
  }

  // ----- The three parts -----

  lemma NothingExtends(dev: Dev, d: InodeDisk, x: Index)
    requires Rep(d, dev.disk, x)
    ensures Extends(dev, x, dev, d, x)
  {
    assert Owned(x) - Owned(x) == {};
  }

  lemma FreshNotOwned(dev: Dev, x: Index, f: set<nat>)
    requires InUse(dev.used, Owned(x)) && forall s | s in f :: s < |dev.used| && !dev.used[s]
    ensures Owned(x) + f - Owned(x) == f
  {
  }

  lemma DirectExtends(dev: Dev, d: InodeDisk, x: Index, m: nat) returns (y: Index)
    requires Rep(d, dev.disk, x) && InUse(dev.used, Owned(x))
    requires (m == 0 || |x.data| + m <= DIRECT) && FreeCount(dev.used) >= m && d.direct + m <= DIRECT
    ensures var r := GrowDirect(dev, d, m);
            && Extends(dev, x, r.dev, r.d, y) && |y.data| == |x.data| + m
            && FirstFit(dev.used, x, y, r.dev.used)
  {
    if m == 0 {
      y := x;
      NothingExtends(dev, d, x);
      FirstFitNone(dev.used, x);
    } else {
      hide Take, Took, FirstFit, Plan;
      var f := DirectSpec(dev, d, x, m);
      y := x.(data := x.data + f);
      FreshNotOwned(dev, x, ToSet(f));
      assert forall i | |x.data| <= i < |y.data| :: y.data[i] in f;
      DirectPlan(dev.used, x, f);
      PlanFits(dev.used, x, y, GrowDirect(dev, d, m).dev.used, m);
    }
  }

  lemma PlanFits(used: seq<bool>, x: Index, y: Index, r: seq<bool>, n: nat)
    requires Plan(used, x, y) && Took(used, n, r) && n == Need(|y.data|) - Need(|x.data|)
    ensures FirstFit(used, x, y, r)
  {
  }

  lemma IndirectGrownExtends(dev: Dev, x: Index, taken: set<nat>, y: Index, r: Grown)
    requires InUse(dev.used, Owned(x)) && IndirectGrown(dev, x, taken, y, r)
    requires y.ind in TableSet(x) + taken
    requires FreeCount(r.dev.used) + Need(|y.data|) == FreeCount(dev.used) + Need(|x.data|)
    ensures Extends(dev, x, r.dev, r.d, y)
  {
    FreshNotOwned(dev, x, taken);
    ChangesWeaken(dev, r.dev, taken, {y.ind}, TableSet(x));
  }

  lemma IndirectExtends(dev: Dev, d: InodeDisk, x: Index, m: nat, junk: Table) returns (y: Index)
    requires Rep(d, dev.disk, x) && InUse(dev.used, Owned(x))
    requires |x.data| >= DIRECT && |x.data| + m > DIRECT
    requires m <= 128 - d.indirect && FreeCount(dev.used) >= Need(|x.data| + m) - Need(|x.data|)
    ensures var r := GrowIndirect(dev, d, m, junk);
            && Extends(dev, x, r.dev, r.d, y) && |y.data| == |x.data| + m
            && FirstFit(dev.used, x, y, r.dev.used)
  {
    hide Take, Took, FirstFit, Plan, Extends, IndirectGrown, InUse, Rep;
    var r := GrowIndirect(dev, d, m, junk);
    RepCounts(d, dev.disk, x);
    if |x.data| == DIRECT {
      var f, s0 := IndirectNew(dev, d, x, m, junk);
      y := Index(x.data + f, s0, x.dbl, x.groups);
      IndirectGrownExtends(dev, x, ToSet(f) + {s0}, y, r);
      IndirectNewPlan(dev.used, x, s0, f);
      PlanFits(dev.used, x, y, r.dev.used, m + 1);
    } else {
      var f := IndirectOld(dev, d, x, m, junk);
      y := x.(data := x.data + f);
      IndirectGrownExtends(dev, x, ToSet(f), y, r);
      IndirectOldPlan(dev.used, x, f);
      PlanFits(dev.used, x, y, r.dev.used, m);
    }
  }

  // ----- The double-indirect block -----

  lemma OpenFirst(dev: Dev, d: InodeDisk, x: Index, junk: Table) returns (y: Index)
    requires Rep(d, dev.disk, x) && InUse(dev.used, Owned(x)) && |x.data| == SINGLE && FreeCount(dev.used) > 0
    ensures var a := Allocate(dev, d.blocks[14]);
            && y == x.(dbl := a.sector)
            && OpenRep(d.blocks[14 := a.sector], a.dev.disk, junk, y)
            && Changes(dev, a.dev, {a.sector}, {}) && OpenOwned(y) == Owned(x) + {a.sector}
            && FreeCount(a.dev.used) == FreeCount(dev.used) - 1
            && Took(dev.used, 1, a.dev.used) && Take(dev.used, 1) == [a.sector]
  {
    hide Take, Took, Words, FreeCount;
    var a := Allocate(dev, d.blocks[14]);
    AllocateChanges(dev, d.blocks[14]);
    TookOne(dev.used);
    y := x.(dbl := a.sector);
    assert Owned(y) == Owned(x);
    assert x.ind in Owned(x) && forall s | s in x.data :: s in Owned(x);
    forall k | 0 <= k < |y.data|
      ensures Maps(d.blocks[14 := a.sector], Words(Get(a.dev.disk, y.ind)), y.groups, a.dev.disk, k, y.data[k])
    {
      assert Maps(d.blocks, Words(Get(dev.disk, x.ind)), x.groups, dev.disk, k, x.data[k]);
    }
  }

  lemma OpenAgain(dev: Dev, d: InodeDisk, x: Index)
    requires Rep(d, dev.disk, x) && |x.data| > SINGLE
    ensures OpenRep(d.blocks, dev.disk, Words(Get(dev.disk, x.dbl)), x) && OpenOwned(x) == Owned(x)
  {
    assert x.dbl in TableSet(x);
  }

  lemma CloseDouble(blocks: Blocks, disk: seq<Block>, l1: Table, y: Index, rd: InodeDisk)
    requires OpenRep(blocks, disk, l1, y) && |y.data| > SINGLE && rd.blocks == blocks && Counts(rd, |y.data|)
    ensures Rep(rd, disk[y.dbl := FromWords(l1)], y) && OpenOwned(y) == Owned(y)
  {
    var disk' := disk[y.dbl := FromWords(l1)];
    TableRoundTrip(l1);
    assert y.dbl in TableSet(y) && y.ind in TableSet(y);
    forall k | 0 <= k < |y.data|
      ensures Maps(blocks, Words(Get(disk', y.ind)), y.groups, disk', k, y.data[k])
    {
      assert Maps(blocks, Words(Get(disk, y.ind)), y.groups, disk, k, y.data[k]);
    }
  }

  /** From the state before the first-level table was opened to the state after it was written. */
  lemma DoubleExtends(dev: Dev, x: Index, start: Dev, x': Index, blocks: Blocks, k: nat, mid: Dev, l1: Table,
                      y: Index, r: Dev, rd: InodeDisk)
    requires x'.data == x.data && |x.data| >= SINGLE && Owned(x) <= OpenOwned(x') && (k > 0 || |x.data| > SINGLE)
    requires Changes(dev, start, OpenOwned(x') - Owned(x), {})
    requires GroupsGrown(start, blocks, x', k, y, mid, l1)
    requires x'.dbl in TableSet(x) + (OpenOwned(x') - Owned(x))
    requires rd.blocks == blocks && Counts(rd, |y.data|)
    requires r.used == mid.used && r.disk == mid.disk[y.dbl := FromWords(l1)]
    requires FreeCount(r.used) + Need(|y.data|) == FreeCount(dev.used) + Need(|x.data|)
    ensures Extends(dev, x, r, rd, y)
  {
    CloseDouble(blocks, mid.disk, l1, y, rd);
    var f, g := OpenOwned(x') - Owned(x), OpenOwned(y) - OpenOwned(x');
    ChangesCompose(dev, start, mid, f, {}, g, {});
    assert Owned(y) - Owned(x) == f + g;
    assert Changes(dev, r, f + g, {y.dbl});
    ChangesWeaken(dev, r, f + g, {y.dbl}, TableSet(x));
    assert forall i | |x.data| <= i < |y.data| :: y.data[i] in DataSet(y) && y.dbl in TableSet(y);
  }

  // ----- Resuming a partly filled second-level table -----

  /** Some sectors were taken and some written, but none given back. */
  ghost predicate NoneFreed(dev: Dev, r: Dev) {
    |r.disk| == |dev.disk| && forall s | 0 <= s < |dev.used| && dev.used[s] :: r.used[s]
  }

  /** The table in `sector` was written from its first entry on with the fresh sectors f. */
  ghost predicate Overwritten(dev: Dev, sector: nat, f: seq<Word>, r: Dev) {
    && Fresh(dev, f) && |f| <= TABLE_SIZE && Changes(dev, r, ToSet(f), {sector})
    && (sector < |dev.disk| ==> Words(r.disk[sector]) == f + Words(dev.disk[sector])[|f|..])
    && (sector !in f ==> forall s | s in f :: r.disk[s] == ZeroBlock())
  }

  lemma ExtendAny(dev: Dev, entries: nat, sector: Word, junk: Table, m: nat, o: Opened) returns (f: seq<Word>)
    requires m <= TABLE_SIZE && FreeCount(dev.used) >= m && entries > 0
    requires o == ExtendTable(dev, entries, sector, junk, 0, m)
    ensures |f| == m && Overwritten(dev, sector, f, o.dev) && o.sector == sector
    ensures FreeCount(o.dev.used) == FreeCount(dev.used) - m
  {
    hide Fill, FillGives, Take, Mark, Zeroed, Words, FromWords, FreeCount, Overwritten, Changes, Fresh, ToSet;
    var t := Words(Get(dev.disk, sector));
    f := FillSpec(dev, t, 0, m);
    FillChanges(dev, t, 0, m, f);
    FillUsed(dev, t, m, f);
    var fill := Fill(dev, t, 0, m);
    assert o == Opened(Dev(Put(fill.dev.disk, sector, FromWords(fill.table)), fill.dev.used), sector, fill.table);
    AnyWritten(dev, sector, f, fill.dev, fill.table, o.dev);
  }

  lemma FillUsed(dev: Dev, t: seq<Word>, m: nat, f: seq<Word>)
    requires FillGives(dev, t, 0, m, f)
    ensures |f| == m && Fresh(dev, f) && Fill(dev, t, 0, m).dev.used == Mark(dev.used, f)
    ensures Fill(dev, t, 0, m).table == f + t[m..]
  {
    hide Fill, Mark, Zeroed, Fresh;
    assert t[..0] + f + t[0 + m..] == f + t[m..];
  }

  lemma AnyWritten(dev: Dev, sector: nat, f: seq<Word>, filled: Dev, table: Table, r: Dev)
    requires Fresh(dev, f) && |f| <= TABLE_SIZE && Changes(dev, filled, ToSet(f), {})
    requires table == f + Words(Get(dev.disk, sector))[|f|..]
    requires forall s | s in f :: s < |dev.disk| && filled.disk[s] == ZeroBlock()
    requires r.disk == Put(filled.disk, sector, FromWords(table)) && r.used == filled.used
    ensures Overwritten(dev, sector, f, r)
  {
    hide Words, FromWords;
    TableRoundTrip(table);
    assert sector < |dev.disk| ==> r.disk[sector] == FromWords(table);
  }

  /** The first m entries of the table in sector t name sectors that were free at the start. */
  ghost predicate Lost(dev: Dev, r: Dev, t: nat, m: nat) {
    && NoneFreed(dev, r) && t < |r.disk| && m <= TABLE_SIZE
    && forall e | 0 <= e < m :: WasFree(dev, Words(r.disk[t])[e])
  }

  ghost predicate WasFree(dev: Dev, s: nat) {
    s < |dev.used| && !dev.used[s]
  }

  lemma LostStep(dev: Dev, cur: Dev, t: nat, m: nat, sector: Word, f: seq<Word>, r: Dev)
    requires NoneFreed(dev, cur) && t < |dev.used| && dev.used[t] && ((sector == t && m <= |f|) || Lost(dev, cur, t, m))
    requires Overwritten(cur, sector, f, r)
    ensures Lost(dev, r, t, m)
  {
    hide Words;
    assert t !in f;
    forall e | 0 <= e < m
      ensures WasFree(dev, Words(r.disk[t])[e])
    {
      if sector == t && e < |f| {
        assert Words(r.disk[t])[e] == f[e] && f[e] in f;
      } else {
        assert Words(r.disk[t])[e] == Words(cur.disk[t])[e];
      }
    }
  }

  lemma LostTurn(dev: Dev, cur: Dev, t: nat, n: nat, entries: nat, sector: Word, junk: Table, m: nat, o: Opened)
    requires NoneFreed(dev, cur) && t < |dev.used| && dev.used[t] && ((sector == t && n <= m) || Lost(dev, cur, t, n))
    requires m <= TABLE_SIZE && FreeCount(cur.used) >= m && entries > 0
    requires o == ExtendTable(cur, entries, sector, junk, 0, m)
    ensures Lost(dev, o.dev, t, n) && o.sector == sector && FreeCount(o.dev.used) == FreeCount(cur.used) - m
  {
    hide Lost, Overwritten, ExtendTable, FreeCount, NoneFreed;
    var f := ExtendAny(cur, entries, sector, junk, m, o);
    LostStep(dev, cur, t, n, sector, f, o.dev);
  }

  // ----- The program -----

  /** The loops over table entries. */
  method FillEntries(dev: Dev, table: seq<Word>, first: nat, n: nat) returns (r: Filled)
    requires first + n <= |table|
    ensures r == Fill(dev, table, first, n)
  {
    var cur: Dev, t: seq<Word>, i: nat, left: nat := dev, table, first, n;
    while left != 0
      invariant i + left == first + n && |t| == |table|
      invariant Fill(cur, t, i, left) == Fill(dev, table, first, n)
    {
      var a := Allocate(cur, t[i]);
      t := t[i := a.sector];
      cur := Dev(Put(a.dev.disk, a.sector, ZeroBlock()), a.dev.used);
      i, left := i + 1, left - 1;
    }
    r := Filled(cur, t);
  }

  method ExtendEntries(dev: Dev, entries: nat, sector: Word, junk: Table, i: nat, m: nat) returns (r: Opened)
    requires i + m <= TABLE_SIZE
    ensures r == ExtendTable(dev, entries, sector, junk, i, m)
  {
    var o := OpenTable(dev, entries, sector, junk);
    var f := FillEntries(o.dev, o.table, i, m);
    r := Opened(Dev(Put(f.dev.disk, o.sector, FromWords(f.table)), f.dev.used), o.sector, f.table);
  }

  lemma GroupsInUse(start: Dev, blocks: Blocks, x: Index, done: nat, y: Index, cur: Dev, l1: Table)
    requires InUse(start.used, OpenOwned(x)) && GroupsGrown(start, blocks, x, done, y, cur, l1)
    ensures InUse(cur.used, OpenOwned(y)) && OpenRep(blocks, cur.disk, l1, y) && |y.data| == |x.data| + done
  {
  }

  /** One turn of the loop over second-level tables, all earlier ones being full. */
  lemma GroupTurn(start: Dev, blocks: Blocks, x: Index, done: nat, y: Index, cur: Dev, l1: Table, l2: Table, g: nat,
                  m: nat, o: Opened) returns (z: Index)
    requires InUse(start.used, OpenOwned(x)) && GroupsPlanned(start, blocks, x, done, y, cur, l1)
    requires |x.data| + done == 141 + 128 * g && done % 128 == 0 && 0 < m <= 128 && |x.data| + done + m <= CAPACITY
    requires FreeCount(cur.used) >= m + 1
    requires g < TABLE_SIZE && o == ExtendTable(cur, 0, l1[g], l2, 0, m)
    ensures GroupsPlanned(start, blocks, x, done + m, z, o.dev, l1[g := o.sector])
  {
    hide GroupsGrown, GroupPlan, Took, InUse, ExtendTable, FreeCount, OpenRep;
    GroupsInUse(start, blocks, x, done, y, cur, l1);
    z := OneTable(cur, blocks, l1, l2, y, g, m, o);
    GroupsCompose(start, blocks, x, done, y, cur, l1, m, z, o.dev, l1[g := o.sector]);
    GroupsFacts(cur, blocks, y, m, z, o.dev, l1[g := o.sector]);
    PlannedTurn(start.used, x, done, y, cur.used, m, z, o.dev.used);
  }

  lemma PlannedTurn(a: seq<bool>, x: Index, done: nat, y: Index, b: seq<bool>, m: nat, z: Index, c: seq<bool>)
    requires GroupPlan(a, x, y) && |y.data| == |x.data| + done && Took(a, done + GroupsFor(done), b) && done % 128 == 0
    requires GroupPlan(b, y, z) && |z.data| == |y.data| + m && 0 < m <= 128 && Took(b, m + 1, c)
    ensures GroupPlan(a, x, z) && Took(a, done + m + GroupsFor(done + m), c)
  {
    hide GroupPlan, Take, Mark, GroupsFor;
    var n := done / 128;
    assert done == 128 * n;
    Shifted(n, m);
    OneGroup(m);
    GroupPlanCompose(a, x, y, b, z, n, m);
    TookMore(a, 129 * n, b, m + 1, c);
  }

  /** The tables were added as planned. */
  ghost predicate GroupsPlanned(start: Dev, blocks: Blocks, x: Index, k: nat, y: Index, r: Dev, l1: Table) {
    && GroupsGrown(start, blocks, x, k, y, r, l1)
    && GroupPlan(start.used, x, y) && Took(start.used, k + GroupsFor(k), r.used)
  }

  lemma GroupsNone(start: Dev, blocks: Blocks, l1: Table, x: Index)
    requires OpenRep(blocks, start.disk, l1, x)
    ensures GroupsPlanned(start, blocks, x, 0, x, start, l1)
  {
    assert OpenOwned(x) - OpenOwned(x) == {};
    GroupPlanNone(start.used, x);
    TookNone(start.used);
  }

  /** The sectors needed to go on from a full table. */
  lemma NeedMore(n: nat, k: nat)
    requires n >= SINGLE && (k > 0 || n > SINGLE) && (n - 141) % 128 == 0
    ensures Need(n + k) - Need(n) == k + GroupsFor(k) + if n == SINGLE then 1 else 0
  {
    var c := (n - 141) / 128;
    assert n - 141 == 128 * c;
  }

  lemma NeedRest(k: nat, done: nat, m: nat)
    requires done % 128 == 0 && 0 < m <= 128 && done + m <= k
    ensures k + GroupsFor(k) - (done + GroupsFor(done)) >= m + 1
  {
    var c := done / 128;
    assert done == 128 * c;
  }

  /** The variables of the loop over second-level tables. */
  datatype Turn = Turn(dev: Dev, levelOne: Table, levelTwo: Table, dbl: nat, left: nat)

  /** One turn: up to 128 entries, starting at entry 0 whether or not the table already has some. */
  function NextTurn(a: Turn): (b: Turn)
    requires a.dbl < 16384
  {
    var m := if a.left < 128 then a.left else 128;
    var o := ExtendTable(a.dev, a.dbl % 128, a.levelOne[a.dbl / 128], a.levelTwo, 0, m);
    Turn(o.dev, a.levelOne[a.dbl / 128 := o.sector], o.table, a.dbl + m, a.left - m)
  }

  ghost predicate Turns(a: Turn, b: Turn) {
    a.dbl < 16384 && a.left > 0 && b == NextTurn(a)
  }

  ghost predicate Run(tr: seq<Turn>) {
    |tr| > 0 && forall i | 0 < i < |tr| :: Turns(tr[i - 1], tr[i])
  }

  lemma RunPrefix(tr: seq<Turn>)
    requires Run(tr) && |tr| > 1
    ensures Run(tr[..|tr| - 1]) && Turns(tr[|tr| - 2], tr[|tr| - 1])
  {
  }

  lemma {:induction false} RunCounts(tr: seq<Turn>)
    requires Run(tr)
    ensures var a, b := tr[0], tr[|tr| - 1]; b.dbl + b.left == a.dbl + a.left && b.left <= a.left
    ensures var a, b := tr[0], tr[|tr| - 1]; b.left > 0 ==> (b.dbl - a.dbl) % 128 == 0
    decreases |tr|
  {
    hide NextTurn;
    if |tr| > 1 {
      RunPrefix(tr);
      RunCounts(tr[..|tr| - 1]);
      TurnCounts(tr[|tr| - 2], tr[|tr| - 1]);
      assert ((tr[|tr| - 2].dbl - tr[0].dbl) + 128) % 128 == (tr[|tr| - 2].dbl - tr[0].dbl) % 128;
    }
  }

  lemma TurnCounts(a: Turn, b: Turn)
    requires Turns(a, b)
    ensures b.dbl + b.left == a.dbl + a.left && b.left < a.left && b.dbl <= a.dbl + 128
    ensures b.left > 0 ==> b.dbl == a.dbl + 128
  {
  }

  // ----- How many sectors are asked for -----

  lemma AllocateTakes(dev: Dev, x: Word)
    ensures TakenUp(dev.used, 1, Allocate(dev, x).dev.used)
  {
    var s := FirstFree(dev.used, 0);
    if s < |dev.used| { TookOne(dev.used); } else { MarkNone(dev.used); }
  }

  lemma TakesNothing(used: seq<bool>)
    requires |used| <= 0x1_0000_0000
    ensures TakenUp(used, 0, used)
  {
    MarkNone(used);
  }

  lemma OpenTakes(dev: Dev, entries: nat, sector: Word, junk: Table)
    ensures TakenUp(dev.used, if entries == 0 then 1 else 0, OpenTable(dev, entries, sector, junk).dev.used)
  {
    hide TakenUp, Allocate;
    if entries == 0 { AllocateTakes(dev, sector); } else { TakesNothing(dev.used); }
  }

  lemma ExtendTakes(dev: Dev, entries: nat, sector: Word, junk: Table, i: nat, m: nat)
    requires i + m <= TABLE_SIZE
    ensures TakenUp(dev.used, (if entries == 0 then 1 else 0) + m, ExtendTable(dev, entries, sector, junk, i, m).dev.used)
  {
    hide TakenUp, OpenTable, Fill, FilledWith, Put, FromWords;
    var o := OpenTable(dev, entries, sector, junk);
    OpenTakes(dev, entries, sector, junk);
    FillExactly(o.dev, o.table, i, m);
    TakenUpMore(dev.used, if entries == 0 then 1 else 0, o.dev.used, m, Fill(o.dev, o.table, i, m).dev.used);
  }

  /** The allocations of the loop over second-level tables, to add e entries after dbl of them. */
  function RunRequests(dbl: nat, e: nat): (n: nat) {
    e + if dbl % 128 == 0 then GroupsFor(e) else 0
  }

  lemma TurnTakes(a: Turn, b: Turn)
    requires Turns(a, b)
    ensures TakenUp(a.dev.used, (if a.dbl % 128 == 0 then 1 else 0) + (b.dbl - a.dbl), b.dev.used)
    ensures 0 < b.dbl - a.dbl <= 128
  {
    hide TakenUp, ExtendTable;
    var m := if a.left < 128 then a.left else 128;
    ExtendTakes(a.dev, a.dbl % 128, a.levelOne[a.dbl / 128], a.levelTwo, 0, m);
  }

  lemma RequestsAdd(a: nat, p: nat, m: nat)
    requires a <= p && (p - a) % 128 == 0 && 0 < m <= 128
    ensures RunRequests(a, p + m - a) == RunRequests(a, p - a) + (if p % 128 == 0 then 1 else 0) + m
  {
    var c := (p - a) / 128;
    assert p - a == 128 * c;
    Shifted(c, m);
    OneGroup(m);
    SameRest(a, c);
  }

  lemma SameRest(a: nat, c: nat)
    ensures (a + 128 * c) % 128 == a % 128
  {
  }

  /** A run takes what its turns ask for. Starting after full tables it ends where the tables do. */
  lemma {:induction false} RunTakes(tr: seq<Turn>)
    requires Run(tr)
    ensures var a, b := tr[0], tr[|tr| - 1];
            && a.dbl <= b.dbl && TakenUp(a.dev.used, RunRequests(a.dbl, b.dbl - a.dbl), b.dev.used)
            && (a.dbl % 128 == 0 && a.dbl <= 16384 ==> b.dbl <= 16384)
    decreases |tr|
  {
    hide TakenUp, NextTurn, RunRequests;
    if |tr| == 1 {
      TakesNothing(tr[0].dev.used);
      assert RunRequests(tr[0].dbl, 0) == 0 by { NoRequests(tr[0].dbl); }
    } else {
      var init, a, p, q := tr[..|tr| - 1], tr[0], tr[|tr| - 2], tr[|tr| - 1];
      RunPrefix(tr);
      RunCounts(init);
      RunTakes(init);
      TurnTakes(p, q);
      RequestsAdd(a.dbl, p.dbl, q.dbl - p.dbl);
      TakenUpMore(a.dev.used, RunRequests(a.dbl, p.dbl - a.dbl), p.dev.used,
                  (if p.dbl % 128 == 0 then 1 else 0) + (q.dbl - p.dbl), q.dev.used);
      if a.dbl % 128 == 0 { TurnPlace(a.dbl, p.dbl); }
    }
  }

  lemma NoRequests(dbl: nat)
    ensures RunRequests(dbl, 0) == 0
  {
  }

  /** The allocations for the double-indirect block. */
  function DoubleRequests(dbl: nat, e: nat): (n: nat) {
    (if dbl == 0 then 1 else 0) + RunRequests(dbl, e)
  }

  /** The allocations for the direct blocks and the indirect table. */
  function FirstRequests(indirect: nat, grow: nat, m1: nat, m2: nat): (n: nat) {
    m1 + if m1 < grow then (if indirect == 0 then 1 else 0) + m2 else 0
  }

  /** All of them: what the larger file needs more than the smaller one, except when a table is
      resumed, where none is made for tables. */
  lemma RequestsAre(d: InodeDisk, n: nat, grow: nat, m1: nat, m2: nat, e: nat)
    requires Counts(d, n) && grow > 0 && Shares(d, n, grow, m1, m2) && (m1 + m2 == grow ==> e == 0)
    requires m1 == Min(DIRECT - d.direct, grow) && m2 == Min(128 - d.indirect, grow - m1)
    requires m1 + m2 < grow && d.dbl % 128 == 0 ==> e == Min(grow - m1 - m2, 16384 - d.dbl)
    ensures var total := FirstRequests(d.indirect, grow, m1, m2) + if m1 + m2 < grow then DoubleRequests(d.dbl, e) else 0;
            if Resumes(n, n + grow) then total == e else total == Need(Min(n + grow, CAPACITY)) - Need(n)
  {
    if n <= SINGLE {
      SmallNeed(n);
      SmallNeed(n + m1 + m2);
      if m1 + m2 < grow && e > 0 { NeedMore(SINGLE, e); }
    } else if !Resumes(n, n + grow) {
      NeedMore(n, e);
    }
  }

  /** The sectors left to grow by that the double-indirect block has room for. */
  function Rest(dbl: nat, left: nat): (e: nat)
    requires dbl <= 16384
  {
    Min(left, 16384 - dbl)
  }

  lemma TurnPlace(a: nat, p: nat)
    requires a % 128 == 0 && (p - a) % 128 == 0 && a <= p
    ensures p % 128 == 0 && p == 128 * (p / 128) && (p < 16384 ==> p + 128 <= 16384)
  {
  }

  /** Starting after full tables, the loop only adds to the file, as planned. */
  lemma {:induction false} RunGrows(a: Turn, tr: seq<Turn>, blocks: Blocks, x: Index) returns (y: Index)
    requires Run(tr) && tr[0] == a
    requires OpenRep(blocks, a.dev.disk, a.levelOne, x) && InUse(a.dev.used, OpenOwned(x))
    requires |x.data| == 141 + a.dbl && a.dbl % 128 == 0 && a.dbl <= 16384
    requires var e := Rest(a.dbl, a.left); FreeCount(a.dev.used) >= e + GroupsFor(e)
    ensures var b := tr[|tr| - 1];
            && a.dbl <= b.dbl <= 16384 && b.left <= a.left
            && GroupsPlanned(a.dev, blocks, x, a.left - b.left, y, b.dev, b.levelOne)
    decreases |tr|
  {
    hide OpenRep, GroupsPlanned, InUse, OpenOwned, NextTurn, FreeCount, GroupsFor;
    if |tr| == 1 {
      y := x;
      GroupsNone(a.dev, blocks, a.levelOne, x);
    } else {
      var init, p, q := tr[..|tr| - 1], tr[|tr| - 2], tr[|tr| - 1];
      RunPrefix(tr);
      RunCounts(init);
      y := RunGrows(a, init, blocks, x);
      TurnCounts(p, q);
      TurnPlace(a.dbl, p.dbl);
      y := TurnGrows(a, p, blocks, x, y);
    }
  }

  lemma TurnGrows(a: Turn, p: Turn, blocks: Blocks, x: Index, y: Index) returns (z: Index)
    requires InUse(a.dev.used, OpenOwned(x)) && p.dbl + p.left == a.dbl + a.left && 0 < p.left <= a.left
    requires a.dbl <= p.dbl < 16384
    requires GroupsPlanned(a.dev, blocks, x, a.left - p.left, y, p.dev, p.levelOne)
    requires |x.data| == 141 + a.dbl && a.dbl % 128 == 0 && (p.dbl - a.dbl) % 128 == 0
    requires var e := Rest(a.dbl, a.left); FreeCount(a.dev.used) >= e + GroupsFor(e)
    ensures var q := NextTurn(p); GroupsPlanned(a.dev, blocks, x, a.left - q.left, z, q.dev, q.levelOne)
  {
    hide GroupsGrown, GroupPlan, Took, InUse, OpenOwned, FreeCount, ExtendTable, GroupsFor;
    var m, g, done := if p.left < 128 then p.left else 128, p.dbl / 128, a.left - p.left;
    GroupsFacts(a.dev, blocks, x, done, y, p.dev, p.levelOne);
    TurnPlace(a.dbl, p.dbl);
    var o := ExtendTable(p.dev, 0, p.levelOne[g], p.levelTwo, 0, m);
    NeedRest(Rest(a.dbl, a.left), done, m);
    z := GroupTurn(a.dev, blocks, x, done, y, p.dev, p.levelOne, p.levelTwo, g, m, o);
  }

  lemma TurnLoses(dev: Dev, p: Turn, q: Turn, t: nat, n: nat)
    requires Turns(p, q) && NoneFreed(dev, p.dev) && t < |dev.used| && dev.used[t] && p.dbl % 128 != 0
    requires (p.levelOne[p.dbl / 128] == t && n <= p.left && n <= 128) || Lost(dev, p.dev, t, n)
    requires FreeCount(p.dev.used) >= p.left
    ensures Lost(dev, q.dev, t, n) && FreeCount(q.dev.used) >= q.left && q.levelOne == p.levelOne
  {
    var m, h := if p.left < 128 then p.left else 128, p.dbl / 128;
    var o := ExtendTable(p.dev, p.dbl % 128, p.levelOne[h], p.levelTwo, 0, m);
    hide Lost, NoneFreed, FreeCount, ExtendTable;
    LostTurn(dev, p.dev, t, n, p.dbl % 128, p.levelOne[h], p.levelTwo, m, o);
  }

  lemma StillInside(a: nat, p: nat)
    requires a % 128 != 0 && (p - a) % 128 == 0 && a <= p
    ensures p % 128 != 0
  {
  }

  /** Starting inside a table, in sector t, the loop loses as many of its first entries as it has
      sectors to add. */
  lemma {:induction false} RunLoses(dev: Dev, a: Turn, tr: seq<Turn>, t: nat, n: nat)
    requires Run(tr) && |tr| > 1 && tr[0] == a && NoneFreed(dev, a.dev) && t < |dev.used| && dev.used[t]
    requires a.dbl < 16384 && a.dbl % 128 != 0 && a.levelOne[a.dbl / 128] == t && FreeCount(a.dev.used) >= a.left
    requires n <= a.left && n <= 128
    ensures Lost(dev, tr[|tr| - 1].dev, t, n) && FreeCount(tr[|tr| - 1].dev.used) >= tr[|tr| - 1].left
    ensures tr[|tr| - 1].levelOne == a.levelOne
    decreases |tr|
  {
    hide FreeCount, NextTurn, ExtendTable;
    var init, p := tr[..|tr| - 1], tr[|tr| - 2];
    RunPrefix(tr);
    RunCounts(init);
    if |tr| > 2 {
      RunLoses(dev, a, init, t, n);
    }
    StillInside(a.dbl, p.dbl);
    TurnLoses(dev, p, tr[|tr| - 1], t, n);
  }

  /** The loop over second-level tables. It stops when the table of tables is full. */
  method DoubleLoop(dev: Dev, dbl: nat, k: nat, levelOne: Table, levelTwo: Table) returns (s: Turn, ghost tr: seq<Turn>)
    ensures Run(tr) && tr[0] == Turn(dev, levelOne, levelTwo, dbl, k) && s == tr[|tr| - 1]
    ensures (s.left == 0 || s.dbl >= 16384) && |s.dev.disk| == |dev.disk|
  {
    s := Turn(dev, levelOne, levelTwo, dbl, k);
    tr := [s];
    while s.dbl < 16384 && s.left != 0
      invariant Run(tr) && tr[0] == Turn(dev, levelOne, levelTwo, dbl, k) && s == tr[|tr| - 1]
      invariant |s.dev.disk| == |dev.disk|
      decreases s.left
    {
      var m := if s.left < 128 then s.left else 128;
      var o := ExtendEntries(s.dev, s.dbl % 128, s.levelOne[s.dbl / 128], s.levelTwo, 0, m);
      s := Turn(o.dev, s.levelOne[s.dbl / 128 := o.sector], o.table, s.dbl + m, s.left - m);
      assert Turns(tr[|tr| - 1], s);
      tr := tr + [s];
    }
  }

  /** Enough sectors are free to grow from n to n' data sectors, and no table is resumed. */
  ghost predicate Fits(dev: Dev, n: nat, n': nat) {
    FreeCount(dev.used) >= Need(n') - Need(n) && !Resumes(n, n')
  }

  /** The first data sector listed in the table that growth from n sectors resumes, and the end of
      what the growth to n' sectors writes in it. */
  function ResumedFrom(n: nat): (k: nat)
    requires n > SINGLE
    ensures (n - 141) % 128 != 0 ==> k < n
  {
    141 + 128 * ((n - 141) / 128)
  }

  function ResumedTo(n: nat, n': nat): (k: nat)
    requires n' >= n > SINGLE
  {
    ResumedFrom(n) + Min(n' - n, 128)
  }

  /** What resuming a table does to the file: the data sectors from the start of that table on, as
      many as are added, are no longer found; sectors that were free are found instead. If at most
      128 are added those read as zero, and every other data sector is found with its contents. */
  ghost predicate Resumed(dev: Dev, x: Index, r: Grown, n': nat) {
    var n := |x.data|;
    && SINGLE < n <= CAPACITY && n < n' && |r.dev.disk| == |dev.disk| && SameTables(x, r)
    && (forall k | ResumedFrom(n) <= k < n && k < ResumedTo(n, n') :: WasFree(dev, Lookup(r.d, r.dev.disk, k)))
    && (n' - n <= 128 ==>
         && (forall k | ResumedFrom(n) <= k < n && k < ResumedTo(n, n') :: ZeroAt(r, Lookup(r.d, r.dev.disk, k)))
         && (forall k | 0 <= k < n && !(ResumedFrom(n) <= k < ResumedTo(n, n')) :: FoundAgain(dev, x.data[k], r, k)))
  }

  /** The second-level tables are the ones the file had. */
  ghost predicate SameTables(x: Index, r: Grown) {
    && r.d.blocks[14] == x.dbl < |r.dev.disk|
    && forall g | 0 <= g < |x.groups| && g < TABLE_SIZE :: Words(r.dev.disk[x.dbl])[g] == x.groups[g]
  }

  ghost predicate ZeroAt(r: Grown, s: nat) {
    s < |r.dev.disk| && r.dev.disk[s] == ZeroBlock()
  }

  ghost predicate FoundAgain(dev: Dev, s: nat, r: Grown, k: nat)
    requires k < CAPACITY
  {
    Lookup(r.d, r.dev.disk, k) == s < |dev.disk| == |r.dev.disk| && r.dev.disk[s] == dev.disk[s]
  }

  /** What came of growing the file to n' data sectors, or as far as the tables go: it was extended
      by first fit if it fits, and cut into if a second-level table was resumed. */
  ghost predicate Effect(dev: Dev, x: Index, r: Grown, y: Index, n': nat) {
    && (Fits(dev, |x.data|, Min(n', CAPACITY)) ==>
         Extends(dev, x, r.dev, r.d, y) && FirstFit(dev.used, x, y, r.dev.used) && |y.data| == Min(n', CAPACITY))
    && (FreeCount(dev.used) >= n' - |x.data| && Resumes(|x.data|, n') ==> Resumed(dev, x, r, n'))
  }

  /** What came of growing, and the sectors taken for it, as many as there are. */
  ghost predicate Outcome(dev: Dev, x: Index, r: Grown, y: Index, n': nat) {
    Effect(dev, x, r, y, n') && TakenUp(dev.used, Requests(|x.data|, n', r.d.dbl), r.dev.used)
  }

  /** The allocations made, dbl being the double-indirect entries afterwards. */
  function Requests(n: nat, n': nat, dbl: nat): int {
    if Resumes(n, n') then dbl - (n - SINGLE) else Need(Min(n', CAPACITY)) - Need(n)
  }

  /** When the free sectors do not suffice the growth takes all there are. */
  lemma RunsOut(dev: Dev, x: Index, r: Grown, y: Index, n': nat)
    requires Outcome(dev, x, r, y, n') && FreeCount(dev.used) <= Requests(|x.data|, n', r.d.dbl)
    ensures FreeCount(r.dev.used) == 0 && forall s | 0 <= s < |r.dev.used| :: r.dev.used[s]
  {
    hide Requests, FreeCount;
    TakenUpAll(dev.used, Requests(|x.data|, n', r.d.dbl), r.dev.used);
  }

  /** No sector is given back. */
  lemma KeepsUsed(dev: Dev, x: Index, r: Grown, y: Index, n': nat, s: nat)
    requires Outcome(dev, x, r, y, n') && s < |dev.used| && dev.used[s]
    ensures |r.dev.used| == |dev.used| && r.dev.used[s]
  {
    hide Requests;
  }

  /** The file has no room left but in its double-indirect block. */
  ghost predicate Ready(dev: Dev, d: InodeDisk, x: Index) {
    Rep(d, dev.disk, x) && InUse(dev.used, Owned(x)) && |x.data| == SINGLE + d.dbl
  }

  /** What the part of inode_grow for the double-indirect block leaves. */
  ghost predicate DoubleDone(dev: Dev, d: InodeDisk, k: nat, junk: Table, o: Opened, tr: seq<Turn>, r: Grown) {
    && o == OpenTable(dev, d.dbl, d.blocks[14], junk) && Run(tr)
    && tr[0] == Turn(o.dev, o.table, tr[0].levelTwo, d.dbl, k)
    && (tr[|tr| - 1].left == 0 || tr[|tr| - 1].dbl >= 16384)
    && r.d == d.(blocks := d.blocks[14 := o.sector], dbl := tr[|tr| - 1].dbl)
    && r.dev.disk == Put(tr[|tr| - 1].dev.disk, o.sector, FromWords(tr[|tr| - 1].levelOne))
    && r.dev.used == tr[|tr| - 1].dev.used
  }

  /** The part of inode_grow for the double-indirect block. */
  method GrowDouble(dev: Dev, d: InodeDisk, k: nat, junk1: Table, junk2: Table, ghost x: Index)
    returns (r: Grown, ghost y: Index)
    requires k > 0
    ensures Ready(dev, d, x) ==> Effect(dev, x, r, y, |x.data| + k)
    ensures r.d == d.(blocks := r.d.blocks, dbl := r.d.dbl) && |r.dev.disk| == |dev.disk|
    ensures DoubleTakes(dev.used, d.dbl, k, r.d.dbl, r.dev.used)
  {
    hide Ready, Effect, Fits, Run, OpenTable, Resumes, TakenUp, DoubleTakes;
    var o := OpenTable(dev, d.dbl, d.blocks[14], junk1);
    var s;
    ghost var tr;
    s, tr := DoubleLoop(o.dev, d.dbl, k, o.table, junk2);
    r := Grown(Dev(Put(s.dev.disk, o.sector, FromWords(s.levelOne)), s.dev.used),
               d.(blocks := d.blocks[14 := o.sector], dbl := s.dbl));
    y := x;
    OpenTakes(dev, d.dbl, d.blocks[14], junk1);
    DoubleTakesIs(dev.used, d.dbl, k, o.dev.used, tr);
    if Ready(dev, d, x) {
      y := DoubleEffect(dev, d, k, junk1, x, o, tr, r);
    }
  }

  /** What the part for the double-indirect block takes, and how many entries it adds. */
  ghost predicate DoubleTakes(used: seq<bool>, dbl: nat, k: nat, dbl': nat, r: seq<bool>) {
    && dbl <= dbl' && TakenUp(used, DoubleRequests(dbl, dbl' - dbl), r)
    && (dbl % 128 == 0 && dbl <= 16384 ==> dbl' == dbl + Min(k, 16384 - dbl))
  }

  lemma DoubleTakesIs(used: seq<bool>, dbl: nat, k: nat, before: seq<bool>, tr: seq<Turn>)
    requires TakenUp(used, if dbl == 0 then 1 else 0, before) && Run(tr)
    requires tr[0].dev.used == before && tr[0].dbl == dbl && tr[0].left == k
    requires tr[|tr| - 1].left == 0 || tr[|tr| - 1].dbl >= 16384
    ensures DoubleTakes(used, dbl, k, tr[|tr| - 1].dbl, tr[|tr| - 1].dev.used)
  {
    hide TakenUp, RunRequests;
    RunTakes(tr);
    TakenUpMore(used, if dbl == 0 then 1 else 0, before, RunRequests(dbl, tr[|tr| - 1].dbl - dbl), tr[|tr| - 1].dev.used);
    if dbl % 128 == 0 && dbl <= 16384 { RunEnds(tr[0], tr); }
  }

  lemma DoubleEffect(dev: Dev, d: InodeDisk, k: nat, junk: Table, x: Index, o: Opened, tr: seq<Turn>, r: Grown)
    returns (y: Index)
    requires Ready(dev, d, x) && k > 0 && DoubleDone(dev, d, k, junk, o, tr, r)
    ensures Effect(dev, x, r, y, |x.data| + k)
  {
    hide Rep, InUse, DoubleDone, Extends, FirstFit, Resumed, FreeCount, Need;
    RepCounts(d, dev.disk, x);
    y := x;
    if Fits(dev, |x.data|, Min(|x.data| + k, CAPACITY)) {
      y := DoubleGrows(dev, d, k, junk, x, o, tr, r);
    }
    if FreeCount(dev.used) >= k && Resumes(|x.data|, |x.data| + k) {
      DoubleLoses(dev, d, k, junk, x, o, tr, r);
    }
  }

  lemma RunEnds(a: Turn, tr: seq<Turn>)
    requires Run(tr) && tr[0] == a && a.dbl <= 16384 && tr[|tr| - 1].dbl <= 16384
    requires tr[|tr| - 1].left == 0 || tr[|tr| - 1].dbl >= 16384
    ensures tr[|tr| - 1].left <= a.left && tr[|tr| - 1].dbl == a.dbl + Rest(a.dbl, a.left)
    ensures a.left - tr[|tr| - 1].left == Rest(a.dbl, a.left)
  {
    RunCounts(tr);
  }

  lemma DoubleGrows(dev: Dev, d: InodeDisk, k: nat, junk: Table, x: Index, o: Opened, tr: seq<Turn>, r: Grown)
    returns (y: Index)
    requires Ready(dev, d, x) && k > 0 && Counts(d, |x.data|) && DoubleDone(dev, d, k, junk, o, tr, r)
    requires Fits(dev, |x.data|, Min(|x.data| + k, CAPACITY))
    ensures Extends(dev, x, r.dev, r.d, y) && FirstFit(dev.used, x, y, r.dev.used) && |y.data| == Min(|x.data| + k, CAPACITY)
  {
    hide Rep, OpenRep, InUse, FreeCount, Extends, FirstFit, GroupsPlanned, GroupsGrown, Words, FromWords, OpenTable, Took;
    var s, e := tr[|tr| - 1], Rest(d.dbl, k);
    CutOff(|x.data|, d.dbl, k, e);
    var x' := Opening(dev, d, e, junk, x, o, r.d.blocks);
    y := RunGrows(tr[0], tr, r.d.blocks, x');
    RunEnds(tr[0], tr);
    DoubleFinish(dev, d, x, e, o, x', s, y, r);
  }

  /** Growth beyond the capacity stops there, at the end of a full table. */
  lemma CutOff(n: nat, dbl: nat, k: nat, e: nat)
    requires n == SINGLE + dbl <= CAPACITY && k > 0 && e == Min(k, 16384 - dbl) && !Resumes(n, Min(n + k, CAPACITY))
    ensures n + e == Min(n + k, CAPACITY) && (n - 141) % 128 == 0 && (e > 0 || n > SINGLE)
  {
  }

  lemma DoubleFinish(dev: Dev, d: InodeDisk, x: Index, e: nat, o: Opened, x': Index, s: Turn, y: Index, r: Grown)
    requires Ready(dev, d, x) && Counts(d, |x.data|) && (|x.data| - 141) % 128 == 0 && (e > 0 || |x.data| > SINGLE)
    requires |x.data| + e <= CAPACITY && Opens(dev, x, o, x', e)
    requires GroupsPlanned(o.dev, r.d.blocks, x', e, y, s.dev, s.levelOne)
    requires r.d == d.(blocks := r.d.blocks, dbl := d.dbl + e)
    requires r.dev.disk == Put(s.dev.disk, o.sector, FromWords(s.levelOne)) && r.dev.used == s.dev.used
    ensures Extends(dev, x, r.dev, r.d, y) && FirstFit(dev.used, x, y, r.dev.used) && |y.data| == |x.data| + e
  {
    hide Rep, OpenRep, InUse, FreeCount, Extends, GroupsGrown, GroupPlan, Words, FromWords, Took, FirstFit;
    hide Changes, OpenOwned, Owned, TableSet;
    RepCounts(d, dev.disk, x);
    GroupsFacts(o.dev, r.d.blocks, x', e, y, s.dev, s.levelOne);
    NeedMore(|x.data|, e);
    DoubleExtends(dev, x, o.dev, x', r.d.blocks, e, s.dev, s.levelOne, y, r.dev, r.d);
    DoublePlan(dev.used, x, o.dev.used, x', e, y, s.dev.used);
  }

  lemma DoublePlan(used: seq<bool>, x: Index, mid: seq<bool>, x': Index, e: nat, y: Index, r: seq<bool>)
    requires |used| <= 0x1_0000_0000 && |x.data| >= SINGLE && (|x.data| - 141) % 128 == 0 && (e > 0 || |x.data| > SINGLE)
    requires x'.data == x.data && x'.groups == x.groups && x'.ind == x.ind && |x.groups| == GroupCount(|x.data|)
    requires if |x.data| == SINGLE then Took(used, 1, mid) && Take(used, 1) == [x'.dbl] else mid == used && x'.dbl == x.dbl
    requires GroupPlan(mid, x', y) && |y.data| == |x.data| + e && Took(mid, e + GroupsFor(e), r)
    ensures FirstFit(used, x, y, r)
  {
    hide Take, Took, Mark, Need, GroupsFor, DataPlace, GroupPlace, DblPlace, GroupCount, At, FirstFit;
    var m := |x.data|;
    if e == 0 {
      NothingAdded(used, x, y, r);
    } else {
      DoublePlaces(m, e);
      var t := Take(mid, e + GroupsFor(e));
      var first := if m == SINGLE then [x'.dbl] else [];
      if m == SINGLE {
        TookMore(used, 1, mid, e + GroupsFor(e), r);
      }
      DoublePlanFrom(used, x, x', e, y, first, t, r);
    }
  }

  lemma DoublePlanFrom(used: seq<bool>, x: Index, x': Index, e: nat, y: Index, first: seq<Word>, t: seq<Word>, r: seq<bool>)
    requires |used| <= 0x1_0000_0000 && |x.data| >= SINGLE && e > 0 && |x.groups| == GroupCount(|x.data|)
    requires x'.data == x.data && x'.groups == x.groups && x'.ind == x.ind
    requires first == if |x.data| == SINGLE then [x'.dbl] else []
    requires |x.data| > SINGLE ==> x'.dbl == x.dbl
    requires Need(|x.data| + e) - Need(|x.data|) == |first| + e + GroupsFor(e)
    requires Took(used, |first| + e + GroupsFor(e), r) && Take(used, |first| + e + GroupsFor(e)) == first + t
    requires x.data <= y.data && x.groups <= y.groups && y.ind == x.ind && y.dbl == x'.dbl
    requires |y.data| == |x.data| + e && |y.groups| == |x.groups| + GroupsFor(e)
    requires forall j | 0 <= j < e :: At(t, j + j / 128 + 1, y.data[|x.data| + j])
    requires forall g | 0 <= g < GroupsFor(e) :: At(t, 129 * g, y.groups[|x.groups| + g])
    requires |x.data| == SINGLE ==> DblPlace(|x.data|) == 0
    requires forall j | 0 <= j < e :: DataPlace(|x.data|, |x.data| + j) == |first| + j + j / 128 + 1
    requires forall g | 0 <= g < GroupsFor(e) :: GroupPlace(|x.data|, GroupCount(|x.data|) + g) == |first| + 129 * g
    ensures FirstFit(used, x, y, r)
  {
    hide Take, Took, Need, GroupsFor, DataPlace, GroupPlace, DblPlace, GroupCount, At;
    var m := |x.data|;
    forall k | m <= k < |y.data|
      ensures At(first + t, DataPlace(m, k), y.data[k])
    {
      var j := k - m;
      assert At(t, j + j / 128 + 1, y.data[m + j]) && DataPlace(m, m + j) == |first| + j + j / 128 + 1;
      AtShifted(first, t, j + j / 128 + 1, DataPlace(m, m + j), y.data[m + j]);
    }
    forall g | |x.groups| <= g < |y.groups|
      ensures At(first + t, GroupPlace(m, g), y.groups[g])
    {
      var h := g - |x.groups|;
      assert At(t, 129 * h, y.groups[|x.groups| + h]) && GroupPlace(m, GroupCount(m) + h) == |first| + 129 * h;
      AtShifted(first, t, 129 * h, GroupPlace(m, g), y.groups[g]);
    }
    if m == SINGLE { AtFirst(first, t, y.dbl); }
    assert Need(m) <= Need(|y.data|) && Take(used, Need(|y.data|) - Need(m)) == first + t;
  }

  lemma AtShifted(first: seq<Word>, t: seq<Word>, i: int, j: int, s: Word)
    requires At(t, i, s) && j == |first| + i
    ensures At(first + t, j, s)
  {
  }

  lemma AtFirst(first: seq<Word>, t: seq<Word>, s: Word)
    requires first == [s]
    ensures At(first + t, 0, s)
  {
  }

  lemma NothingAdded(used: seq<bool>, x: Index, y: Index, r: seq<bool>)
    requires GroupPlan(used, x, y) && |y.data| == |x.data| && Took(used, 0 + GroupsFor(0), r)
    ensures FirstFit(used, x, y, r)
  {
    hide Take;
    assert GroupsFor(0) == 0 && y == x;
    PlanNone(used, x);
  }

  lemma DoubleLoses(dev: Dev, d: InodeDisk, k: nat, junk: Table, x: Index, o: Opened, tr: seq<Turn>, r: Grown)
    requires Ready(dev, d, x) && Counts(d, |x.data|) && DoubleDone(dev, d, k, junk, o, tr, r)
    requires FreeCount(dev.used) >= k && Resumes(|x.data|, |x.data| + k)
    ensures Resumed(dev, x, r, |x.data| + k)
  {
    hide Ready, DoubleDone, Counts, Resumed, FreeCount, Lost, Words, FromWords, SameTables, NoneFreed, Overwritten;
    hide NextTurn, Run, ExtendTable;
    ResumeOpens(dev, d, k, junk, x, o, tr, r);
    var g, s, m := d.dbl / 128, tr[|tr| - 1], Min(k, 128);
    ResumedTable(dev, d, x, g);
    RunLoses(dev, tr[0], tr, x.groups[g], m);
    LostSize(dev, s.dev, x.groups[g], m);
    LostLookup(dev, d, x, r, s, g, m);
    TablesListed(dev, d, x, r, s);
    if k <= 128 {
      OneTurn(tr, d.dbl, k);
      var f := TurnWrites(dev, tr[0], x.groups[g], s);
      OneTurnLookup(dev, d, x, r, s, g, f);
    }
    ResumedIs(dev, x, r, k);
  }

  lemma TablesListed(dev: Dev, d: InodeDisk, x: Index, r: Grown, s: Turn)
    requires Ready(dev, d, x) && |x.data| > SINGLE && x.dbl < |dev.disk| == |s.dev.disk|
    requires s.levelOne == Words(dev.disk[x.dbl]) && r.d.blocks == d.blocks
    requires r.dev.disk == Put(s.dev.disk, x.dbl, FromWords(s.levelOne))
    ensures SameTables(x, r)
  {
    hide Words, FromWords, Owned;
    TableRoundTrip(s.levelOne);
  }

  lemma LostSize(dev: Dev, r: Dev, t: nat, m: nat)
    requires Lost(dev, r, t, m)
    ensures |r.disk| == |dev.disk|
  {
  }

  /** The first-level table is read back, and the device has not changed yet. */
  lemma ResumeOpens(dev: Dev, d: InodeDisk, k: nat, junk: Table, x: Index, o: Opened, tr: seq<Turn>, r: Grown)
    requires Ready(dev, d, x) && Counts(d, |x.data|) && DoubleDone(dev, d, k, junk, o, tr, r)
    requires Resumes(|x.data|, |x.data| + k)
    ensures SINGLE < |x.data| <= CAPACITY && d.dbl % 128 != 0 && d.dbl < 16384 && x.dbl < |dev.disk|
    ensures Run(tr) && |tr| > 1 && tr[0] == Turn(dev, Words(dev.disk[x.dbl]), tr[0].levelTwo, d.dbl, k)
    ensures tr[|tr| - 1].left == 0 || tr[|tr| - 1].dbl >= 16384
    ensures r.d.blocks == d.blocks && r.dev.disk == Put(tr[|tr| - 1].dev.disk, x.dbl, FromWords(tr[|tr| - 1].levelOne))
    ensures NoneFreed(dev, dev)
  {
    hide Words, FromWords, NextTurn;
    assert x.dbl in Owned(x);
  }

  /** A single turn inside the table in sector t. */
  lemma TurnWrites(dev: Dev, a: Turn, t: nat, b: Turn) returns (f: seq<Word>)
    requires a.dbl < 16384 && 0 < a.left <= 128 && b == NextTurn(a) && a.dev == dev && a.dbl % 128 != 0
    requires a.levelOne[a.dbl / 128] == t && FreeCount(dev.used) >= a.left
    ensures |f| == a.left && Overwritten(dev, t, f, b.dev) && b.levelOne == a.levelOne
  {
    hide Overwritten, FreeCount, ExtendTable;
    var o := ExtendTable(dev, a.dbl % 128, a.levelOne[a.dbl / 128], a.levelTwo, 0, a.left);
    f := ExtendAny(dev, a.dbl % 128, a.levelOne[a.dbl / 128], a.levelTwo, a.left, o);
  }

  /** The table the growth goes on in. */
  lemma ResumedTable(dev: Dev, d: InodeDisk, x: Index, g: nat)
    requires Ready(dev, d, x) && Counts(d, |x.data|) && |x.data| > SINGLE && d.dbl % 128 != 0 && g == d.dbl / 128
    ensures g < |x.groups| <= TABLE_SIZE && d.dbl < 16384 && d.blocks[14] == x.dbl < |dev.disk|
    ensures Words(dev.disk[x.dbl])[g] == x.groups[g] < |dev.used| && dev.used[x.groups[g]] && x.groups[g] != x.dbl
    ensures ResumedFrom(|x.data|) == 141 + 128 * g
  {
    hide Words;
    assert x.groups[g] in Owned(x) && x.dbl in Owned(x);
  }

  lemma OneTurn(tr: seq<Turn>, dbl: nat, k: nat)
    requires Run(tr) && tr[0].dbl == dbl < 16384 && tr[0].left == k && 0 < k <= 128
    requires tr[|tr| - 1].left == 0 || tr[|tr| - 1].dbl >= 16384
    ensures |tr| == 2 && tr[1] == NextTurn(tr[0])
  {
    hide NextTurn;
    assert |tr| > 1 ==> Turns(tr[0], tr[1]);
    if |tr| > 1 { TurnCounts(tr[0], tr[1]); }
    assert |tr| > 2 ==> Turns(tr[1], tr[2]);
  }

  /** Looking up an entry of second-level table g after the first-level table l1 was written. */
  lemma LookupInTable(d: InodeDisk, disk: seq<Block>, l1: Table, g: nat, e: nat)
    requires d.blocks[14] < |disk| && Words(disk[d.blocks[14]]) == l1 && g < TABLE_SIZE && e < 128 && l1[g] < |disk|
    ensures Lookup(d, disk, 141 + 128 * g + e) == Words(disk[l1[g]])[e]
  {
    hide Words;
    assert (128 * g + e) / 128 == g && (128 * g + e) % 128 == e;
  }

  lemma LostLookup(dev: Dev, d: InodeDisk, x: Index, r: Grown, s: Turn, g: nat, m: nat)
    requires Ready(dev, d, x) && Counts(d, |x.data|) && |x.data| > SINGLE && d.dbl % 128 != 0 && g == d.dbl / 128 < |x.groups|
    requires Lost(dev, s.dev, x.groups[g], m) && r.d.blocks == d.blocks && |dev.disk| == |s.dev.disk|
    requires x.dbl < |dev.disk| && s.levelOne == Words(dev.disk[x.dbl])
    requires r.dev.disk == Put(s.dev.disk, x.dbl, FromWords(s.levelOne))
    ensures forall k | ResumedFrom(|x.data|) <= k < |x.data| && k < ResumedFrom(|x.data|) + m ::
        WasFree(dev, Lookup(r.d, r.dev.disk, k))
  {
    hide Words, FromWords, Lookup, Rep, Owned, InUse;
    ResumedTable(dev, d, x, g);
    TableRoundTrip(s.levelOne);
    forall k | ResumedFrom(|x.data|) <= k < |x.data| && k < ResumedFrom(|x.data|) + m
      ensures WasFree(dev, Lookup(r.d, r.dev.disk, k))
    {
      LookupInTable(r.d, r.dev.disk, s.levelOne, g, k - 141 - 128 * g);
    }
  }

  /** What one turn inside table g leaves alone. */
  lemma OneTurnKeeps(dev: Dev, x: Index, t: nat, f: seq<Word>, cur: Dev, disk: seq<Block>, b: Block)
    requires InUse(dev.used, Owned(x)) && t in Owned(x) && Overwritten(dev, t, f, cur)
    requires x.dbl in Owned(x) && x.dbl != t && disk == cur.disk[x.dbl := b]
    ensures |disk| == |dev.disk| && forall s | s in Owned(x) && s != t && s != x.dbl :: s < |dev.disk| && disk[s] == dev.disk[s]
    ensures Words(disk[t]) == f + Words(dev.disk[t])[|f|..]
    ensures forall s | s in f :: s < |disk| && disk[s] == ZeroBlock()
  {
    hide Words;
    assert forall s | s in Owned(x) :: s !in f;
  }

  /** The lookup of data sector k after that turn. */
  lemma KeptLookup(dev: Dev, d: InodeDisk, x: Index, g: nat, f: seq<Word>, r: Grown, k: nat)
    requires Rep(d, dev.disk, x) && |x.data| > SINGLE && g < |x.groups| <= TABLE_SIZE && |f| <= 128 && k < |x.data|
    requires r.d.blocks == d.blocks && |r.dev.disk| == |dev.disk| && x.dbl < |dev.disk| && x.groups[g] < |dev.disk|
    requires Words(r.dev.disk[x.dbl]) == Words(dev.disk[x.dbl])
    requires forall s | s in Owned(x) && s != x.groups[g] && s != x.dbl :: s < |dev.disk| && r.dev.disk[s] == dev.disk[s]
    requires Words(r.dev.disk[x.groups[g]]) == f + Words(dev.disk[x.groups[g]])[|f|..]
    requires !(141 + 128 * g <= k < 141 + 128 * g + |f|)
    ensures Lookup(r.d, r.dev.disk, k) == x.data[k]
  {
    hide Words;
    assert Maps(d.blocks, Words(Get(dev.disk, x.ind)), x.groups, dev.disk, k, x.data[k]);
    assert x.ind in TableSet(x) && x.ind != x.groups[g];
    if k >= SINGLE {
      var h, e := (k - SINGLE) / 128, (k - SINGLE) % 128;
      assert x.groups[h] in TableSet(x) && x.groups[h] != x.dbl;
      assert Words(dev.disk[x.dbl])[h] == x.groups[h];
      assert h == g ==> e >= |f|;
    }
  }

  lemma OneTurnLookup(dev: Dev, d: InodeDisk, x: Index, r: Grown, s: Turn, g: nat, f: seq<Word>)
    requires Ready(dev, d, x) && Counts(d, |x.data|) && |x.data| > SINGLE && d.dbl % 128 != 0 && g == d.dbl / 128 < |x.groups|
    requires Overwritten(dev, x.groups[g], f, s.dev) && r.d.blocks == d.blocks && |f| <= 128 && |s.dev.disk| == |dev.disk|
    requires x.dbl < |dev.disk| && s.levelOne == Words(dev.disk[x.dbl])
    requires r.dev.disk == Put(s.dev.disk, x.dbl, FromWords(s.levelOne))
    ensures forall k | ResumedFrom(|x.data|) <= k < |x.data| && k < ResumedFrom(|x.data|) + |f| ::
        ZeroAt(r, Lookup(r.d, r.dev.disk, k))
    ensures forall k | 0 <= k < |x.data| && !(ResumedFrom(|x.data|) <= k < ResumedFrom(|x.data|) + |f|) ::
        FoundAgain(dev, x.data[k], r, k)
  {
    hide Words, FromWords, Lookup, InUse, Overwritten, Rep;
    ResumedTable(dev, d, x, g);
    SeparatedOf(d, dev.disk, x);
    TableRoundTrip(s.levelOne);
    var t := x.groups[g];
    OneTurnKeeps(dev, x, t, f, s.dev, r.dev.disk, FromWords(s.levelOne));
    forall k | ResumedFrom(|x.data|) <= k < |x.data| && k < ResumedFrom(|x.data|) + |f|
      ensures ZeroAt(r, Lookup(r.d, r.dev.disk, k))
    {
      var e := k - 141 - 128 * g;
      LookupInTable(r.d, r.dev.disk, s.levelOne, g, e);
      assert f[e] in f;
    }
    forall k | 0 <= k < |x.data| && !(ResumedFrom(|x.data|) <= k < ResumedFrom(|x.data|) + |f|)
      ensures FoundAgain(dev, x.data[k], r, k)
    {
      KeptLookup(dev, d, x, g, f, r, k);
      assert x.data[k] in DataSet(x);
    }
  }

  lemma SeparatedOf(d: InodeDisk, disk: seq<Block>, x: Index)
    requires Rep(d, disk, x) && |x.data| > SINGLE
    ensures Separated(x) && x.dbl in TableSet(x) && DataSet(x) !! TableSet(x)
  {
  }

  lemma ResumedIs(dev: Dev, x: Index, r: Grown, k: nat)
    requires SINGLE < |x.data| <= CAPACITY && k > 0 && |r.dev.disk| == |dev.disk| && SameTables(x, r)
    requires forall i | ResumedFrom(|x.data|) <= i < |x.data| && i < ResumedFrom(|x.data|) + Min(k, 128) ::
        WasFree(dev, Lookup(r.d, r.dev.disk, i))
    requires k <= 128 ==> forall i | ResumedFrom(|x.data|) <= i < |x.data| && i < ResumedFrom(|x.data|) + k ::
        ZeroAt(r, Lookup(r.d, r.dev.disk, i))
    requires k <= 128 ==> forall i | 0 <= i < |x.data| && !(ResumedFrom(|x.data|) <= i < ResumedFrom(|x.data|) + k) ::
        FoundAgain(dev, x.data[i], r, i)
    ensures Resumed(dev, x, r, |x.data| + k)
  {
    hide Lookup, WasFree, ZeroAt, FoundAgain, ResumedFrom, SameTables;
  }

  /** Opening the first-level table, with e sectors to come. */
  ghost predicate Opens(dev: Dev, x: Index, o: Opened, x': Index, e: nat) {
    && x'.data == x.data && x'.groups == x.groups && x'.ind == x.ind && Owned(x) <= OpenOwned(x') && x'.dbl == o.sector
    && Changes(dev, o.dev, OpenOwned(x') - Owned(x), {}) && InUse(o.dev.used, OpenOwned(x'))
    && x'.dbl in TableSet(x) + (OpenOwned(x') - Owned(x))
    && FreeCount(o.dev.used) + Need(|x.data| + e) == FreeCount(dev.used) + Need(|x.data|) + e + GroupsFor(e)
    && if |x.data| == SINGLE then Took(dev.used, 1, o.dev.used) && Take(dev.used, 1) == [x'.dbl]
       else o.dev == dev && x'.dbl == x.dbl
  }

  lemma Opening(dev: Dev, d: InodeDisk, e: nat, junk: Table, x: Index, o: Opened, blocks: Blocks) returns (x': Index)
    requires Rep(d, dev.disk, x) && InUse(dev.used, Owned(x)) && |x.data| >= SINGLE && (|x.data| - 141) % 128 == 0
    requires (e > 0 || |x.data| > SINGLE) && FreeCount(dev.used) >= Need(|x.data| + e) - Need(|x.data|)
    requires o == OpenTable(dev, d.dbl, d.blocks[14], junk) && blocks == d.blocks[14 := o.sector]
    ensures Opens(dev, x, o, x', e) && OpenRep(blocks, o.dev.disk, o.table, x')
  {
    hide Take, Took, FreeCount, Need;
    NeedMore(|x.data|, e);
    if |x.data| == SINGLE {
      x' := OpenFirst(dev, d, x, junk);
    } else {
      OpenAgain(dev, d, x);
      x' := x;
    }
  }

  // ----- inode_grow -----

  lemma NeedGrows(a: nat, b: nat)
    requires a <= b
    ensures Need(a) + (b - a) <= Need(b)
  {
  }

  /** How many sectors go to the direct blocks (m1), to the indirect table (m2) and beyond. */
  ghost predicate Shares(d: InodeDisk, n: nat, grow: nat, m1: nat, m2: nat) {
    && m1 + m2 <= grow && d.direct + m1 <= DIRECT && d.indirect + m2 <= 128
    && (m1 > 0 ==> n + m1 <= DIRECT)
    && (m1 < grow ==> n + m1 >= DIRECT)
    && n + m1 + m2 <= CAPACITY && (n > SINGLE ==> m1 == m2 == 0)
    && (m1 + m2 < grow ==> n + m1 + m2 == SINGLE + d.dbl)
  }

  lemma SharesAre(d: InodeDisk, n: nat, grow: nat, m1: int, m2: int)
    requires Counts(d, n)
    requires m1 == Min(DIRECT - d.direct, grow) && m2 == Min(128 - d.indirect, grow - m1)
    ensures m1 >= 0 && m2 >= 0 && Shares(d, n, grow, m1, m2)
  {
  }

  lemma FirstExtends(dev: Dev, d: InodeDisk, x: Index, grow: nat, m1: nat, m2: nat, junk: Table, r: Grown)
    returns (y: Index)
    requires Rep(d, dev.disk, x) && InUse(dev.used, Owned(x)) && Shares(d, |x.data|, grow, m1, m2)
    requires FreeCount(dev.used) >= Need(|x.data| + m1 + m2) - Need(|x.data|)
    requires var a := GrowDirect(dev, d, m1); r == if m1 < grow then GrowIndirect(a.dev, a.d, m2, junk) else a
    ensures Extends(dev, x, r.dev, r.d, y) && FirstFit(dev.used, x, y, r.dev.used) && |y.data| == |x.data| + m1 + m2
  {
    hide FirstFit, InUse;
    var a := GrowDirect(dev, d, m1);
    NeedGrows(|x.data|, |x.data| + m1);
    NeedGrows(|x.data| + m1, |x.data| + m1 + m2);
    y := DirectExtends(dev, d, x, m1);
    if m1 < grow {
      ExtendsInUse(dev, x, a.dev, a.d, y);
      var z := IndirectExtends(a.dev, a.d, y, m2, junk);
      ExtendsCompose(dev, x, a.dev, a.d, y, r.dev, r.d, z);
      FirstFitCompose(dev.used, x, y, a.dev.used, z, r.dev.used);
      y := z;
    }
  }

  /** The loops over the direct blocks and over the indirect table. */
  method GrowFirst(dev: Dev, d: InodeDisk, grow: nat, m1: nat, m2: nat, junk: Table, ghost x: Index)
    returns (r: Grown, ghost y: Index)
    requires Rep(d, dev.disk, x) && InUse(dev.used, Owned(x)) && Shares(d, |x.data|, grow, m1, m2)
    ensures FreeCount(dev.used) >= Need(|x.data| + m1 + m2) - Need(|x.data|) ==>
              && Extends(dev, x, r.dev, r.d, y) && FirstFit(dev.used, x, y, r.dev.used)
              && |y.data| == |x.data| + m1 + m2
    ensures r.d == d.(blocks := r.d.blocks, direct := r.d.direct, indirect := r.d.indirect) && |r.dev.disk| == |dev.disk|
    ensures TakenUp(dev.used, FirstRequests(d.indirect, grow, m1, m2), r.dev.used)
    ensures m1 == grow ==> r == GrowDirect(dev, d, m1)
  {
    hide Rep, InUse, Extends, FirstFit, Need, FreeCount, Fill, TakenUp, FilledWith;
    var f := FillEntries(dev, d.blocks, d.direct, m1);
    r := Grown(f.dev, d.(blocks := f.table, direct := d.direct + m1));
    FillExactly(dev, d.blocks, d.direct, m1);
    if m1 < grow {
      ExtendTakes(r.dev, r.d.indirect, r.d.blocks[13], junk, r.d.indirect, m2);
      TakenUpMore(dev.used, m1, f.dev.used, (if d.indirect == 0 then 1 else 0) + m2,
                  ExtendTable(r.dev, r.d.indirect, r.d.blocks[13], junk, r.d.indirect, m2).dev.used);
      var o := ExtendEntries(r.dev, r.d.indirect, r.d.blocks[13], junk, r.d.indirect, m2);
      r := Grown(o.dev, r.d.(blocks := r.d.blocks[13 := o.sector], indirect := r.d.indirect + m2));
    }
    assert var a := GrowDirect(dev, d, m1); r == if m1 < grow then GrowIndirect(a.dev, a.d, m2, junk) else a;
    y := x;
    if FreeCount(dev.used) >= Need(|x.data| + m1 + m2) - Need(|x.data|) {
      y := FirstExtends(dev, d, x, grow, m1, m2, junk, r);
    }
  }

  /** The direct and indirect blocks of a file that is larger have no room. */
  lemma NothingPlanned(dev: Dev, x: Index, mid: Grown, y: Index)
    requires Extends(dev, x, mid.dev, mid.d, y) && Plan(dev.used, x, y)
    requires |y.data| == |x.data| && |x.groups| == GroupCount(|x.data|)
    ensures y == x
  {
    hide Plan;
    PlanNone(dev.used, x);
    PlanUnique(dev.used, x, x, y);
  }

  lemma ResumedBefore(dev: Dev, x: Index, mid: Grown, r: Grown, n': nat)
    requires Extends(dev, x, mid.dev, mid.d, x) && Separated(x) && Resumed(mid.dev, x, r, n')
    ensures Resumed(dev, x, r, n')
  {
    hide Lookup, Rep;
    forall k | 0 <= k < |x.data| && FoundAgain(mid.dev, x.data[k], r, k)
      ensures FoundAgain(dev, x.data[k], r, k)
    {
      assert x.data[k] in DataSet(x);
    }
  }

  lemma EffectFollows(dev: Dev, x: Index, mid: Grown, y1: Index, r: Grown, y: Index, n': nat)
    requires Separated(x) && |x.groups| == GroupCount(|x.data|) && InUse(dev.used, Owned(x)) && |y1.data| <= n'
    requires Extends(dev, x, mid.dev, mid.d, y1) && FirstFit(dev.used, x, y1, mid.dev.used)
    requires |y1.data| == |x.data| || |y1.data| == SINGLE > |x.data|
    requires Effect(mid.dev, y1, r, y, n')
    ensures Effect(dev, x, r, y, n')
  {
    hide FirstFit, Resumed, InUse, Rep;
    if Fits(dev, |x.data|, Min(n', CAPACITY)) {
      ExtendsCompose(dev, x, mid.dev, mid.d, y1, r.dev, r.d, y);
      FirstFitCompose(dev.used, x, y1, mid.dev.used, y, r.dev.used);
    }
    if FreeCount(dev.used) >= n' - |x.data| && Resumes(|x.data|, n') {
      FitPlan(dev.used, x, y1, mid.dev.used);
      NothingPlanned(dev, x, mid, y1);
      ResumedBefore(dev, x, mid, r, n');
    }
  }

  lemma FitPlan(used: seq<bool>, x: Index, y: Index, r: seq<bool>)
    requires FirstFit(used, x, y, r)
    ensures Plan(used, x, y)
  {
  }

  /** The three loops of inode_grow, for `grow` more sectors. */
  method GrowBy(dev: Dev, d: InodeDisk, grow: nat, junk: Table, junk1: Table, junk2: Table, ghost x: Index)
    returns (r: Grown, ghost y: Index)
    requires Rep(d, dev.disk, x) && InUse(dev.used, Owned(x)) && 0 < grow
    ensures r.d.length == d.length && r.d.isDir == d.isDir && r.d.parent == d.parent && |r.dev.disk| == |dev.disk|
    ensures Outcome(dev, x, r, y, |x.data| + grow)
    ensures |x.data| + grow <= DIRECT ==> r == GrowDirect(dev, d, grow)
  {
    hide Rep, InUse, Effect, Ready, Need, FreeCount, TakenUp, DoubleTakes, DoubleRequests, FirstRequests, Resumes;
    RepCounts(d, dev.disk, x);
    var m1 := Min(DIRECT - d.direct, grow);
    var m2 := Min(128 - d.indirect, grow - m1);
    SharesAre(d, |x.data|, grow, m1, m2);
    r, y := GrowFirst(dev, d, grow, m1, m2, junk, x);
    ghost var mid, y1 := r, y;
    if m1 + m2 < grow {
      r, y := GrowDouble(r.dev, r.d, grow - m1 - m2, junk1, junk2, y1);
    }
    EffectIs(dev, d, x, grow, m1, m2, mid, y1, r, y);
    TakesIs(dev.used, d, |x.data|, grow, m1, m2, mid.dev.used, r.d.dbl, r.dev.used);
  }

  lemma TakesIs(used: seq<bool>, d: InodeDisk, n: nat, grow: nat, m1: nat, m2: nat, mid: seq<bool>, dbl: nat, r: seq<bool>)
    requires Counts(d, n) && grow > 0 && Shares(d, n, grow, m1, m2)
    requires m1 == Min(DIRECT - d.direct, grow) && m2 == Min(128 - d.indirect, grow - m1)
    requires TakenUp(used, FirstRequests(d.indirect, grow, m1, m2), mid)
    requires if m1 + m2 < grow then DoubleTakes(mid, d.dbl, grow - m1 - m2, dbl, r) else r == mid && dbl == d.dbl
    ensures TakenUp(used, Requests(n, n + grow, dbl), r)
  {
    hide TakenUp, Need, FirstRequests, DoubleRequests;
    RequestsAre(d, n, grow, m1, m2, dbl - d.dbl);
    if m1 + m2 < grow {
      TakenUpMore(used, FirstRequests(d.indirect, grow, m1, m2), mid, DoubleRequests(d.dbl, dbl - d.dbl), r);
    }
    assert Resumes(n, n + grow) ==> d.dbl == n - SINGLE;
  }

  /** inode_grow. The arrays it leaves uninitialized are parameters. Allocation failures go
      unnoticed in it, so that it always reports success. */
  method InodeGrow(dev: Dev, d: InodeDisk, length: nat, junk: Table, junk1: Table, junk2: Table, ghost x: Index)
    returns (r: Grown, ghost y: Index)
    requires Rep(d, dev.disk, x) && InUse(dev.used, Owned(x)) && |x.data| == SectorCount(d.length)
    requires d.length <= length
    ensures r.d.length == length && r.d.isDir == d.isDir && r.d.parent == d.parent && |r.dev.disk| == |dev.disk|
    ensures Outcome(dev, x, r, y, SectorCount(length))
    ensures SectorCount(length) <= DIRECT ==> r == GrowDirect(dev, d.(length := length), SectorCount(length) - |x.data|)
  {
    hide Outcome;
    var grow := SectorCount(length) - SectorCount(d.length);
    var di := d.(length := length);
    LengthAside(d, length, dev.disk, x);
    if grow == 0 {
      DirectNone(dev, di);
      OutcomeNone(dev, di, x);
      return Grown(dev, di), x;
    }
    r, y := GrowBy(dev, di, grow, junk, junk1, junk2, x);
  }

  lemma RepCounts(d: InodeDisk, disk: seq<Block>, x: Index)
    requires Rep(d, disk, x)
    ensures Counts(d, |x.data|) && Separated(x) && |x.groups| == GroupCount(|x.data|)
  {
  }

  lemma OutcomeNone(dev: Dev, d: InodeDisk, x: Index)
    requires Rep(d, dev.disk, x)
    ensures Outcome(dev, x, Grown(dev, d), x, |x.data|)
  {
    hide FirstFit;
    NothingExtends(dev, d, x);
    FirstFitNone(dev.used, x);
    TakesNothing(dev.used);
  }

  lemma DirectNone(dev: Dev, d: InodeDisk)
    ensures d.direct <= DIRECT ==> GrowDirect(dev, d, 0) == Grown(dev, d)
  {
  }

  lemma LengthAside(d: InodeDisk, length: nat, disk: seq<Block>, x: Index)
    requires Rep(d, disk, x)
    ensures Rep(d.(length := length), disk, x) && Separated(x) && Counts(d, |x.data|)
  {
  }

  /** The outcome of the two parts together. */
  lemma EffectIs(dev: Dev, d: InodeDisk, x: Index, grow: nat, m1: nat, m2: nat, mid: Grown, y1: Index, r: Grown, y: Index)
    requires Counts(d, |x.data|) && Separated(x) && |x.groups| == GroupCount(|x.data|) && InUse(dev.used, Owned(x)) && grow > 0
    requires Shares(d, |x.data|, grow, m1, m2) && mid.d.dbl == d.dbl
    requires FreeCount(dev.used) >= Need(|x.data| + m1 + m2) - Need(|x.data|) ==>
               && Extends(dev, x, mid.dev, mid.d, y1) && FirstFit(dev.used, x, y1, mid.dev.used)
               && |y1.data| == |x.data| + m1 + m2
    requires if m1 + m2 == grow then r == mid && y == y1
             else Ready(mid.dev, mid.d, y1) ==> Effect(mid.dev, y1, r, y, |y1.data| + (grow - m1 - m2))
    ensures Effect(dev, x, r, y, |x.data| + grow)
  {
    hide FirstFit, Resumed, InUse, FreeCount;
    NeedGrows(|x.data| + m1 + m2, Min(|x.data| + grow, CAPACITY));
    if m1 + m2 < grow && FreeCount(dev.used) >= Need(|x.data| + m1 + m2) - Need(|x.data|) {
      ExtendsInUse(dev, x, mid.dev, mid.d, y1);
      EffectFollows(dev, x, mid, y1, r, y, |x.data| + grow);
    }
  }

  /** Growing to n' sectors extends the file exactly when the tables reach that far, the sectors
      suffice and no second-level table that already has entries is resumed. */
  lemma GrowsExactly(dev: Dev, d: InodeDisk, x: Index, r: Grown, y: Index, n': nat)
    requires Rep(d, dev.disk, x) && InUse(dev.used, Owned(x)) && |x.data| <= n' && Outcome(dev, x, r, y, n')
    ensures n' <= CAPACITY && Fits(dev, |x.data|, n') <==> exists z :: Extends(dev, x, r.dev, r.d, z) && |z.data| == n'
  {
    forall z | Extends(dev, x, r.dev, r.d, z) && |z.data| == n'
      ensures n' <= CAPACITY && Fits(dev, |x.data|, n')
    {
      ExtendsOnlyIf(dev, x, r, y, z);
    }
  }

  lemma ExtendsOnlyIf(dev: Dev, x: Index, r: Grown, y: Index, z: Index)
    requires InUse(dev.used, Owned(x)) && |x.data| <= |z.data| && |x.data| <= CAPACITY
    requires Outcome(dev, x, r, y, |z.data|) && Extends(dev, x, r.dev, r.d, z)
    ensures |z.data| <= CAPACITY && Fits(dev, |x.data|, |z.data|)
  {
    NeedGrows(|x.data|, |z.data|);
    if Resumes(|x.data|, |z.data|) {
      var k := ResumedFrom(|x.data|);
      assert x.data[k] in Owned(x);
      assert WasFree(dev, Lookup(r.d, r.dev.disk, k));
      RepLookup(r.d, r.dev.disk, z, k);
    }
  }

  /** Which bytes a resumed growth loses: byte_to_sector finds byte pos of the old file where it
      was exactly if its sector is not among those written over. For those it finds a sector that
      was free, and not the old contents. */
  lemma ResumedBytes(dev: Dev, d: InodeDisk, x: Index, r: Grown, n': nat, pos: nat)
    requires Rep(d, dev.disk, x) && InUse(dev.used, Owned(x)) && |x.data| == SectorCount(d.length)
    requires Resumed(dev, x, r, n') && d.length <= r.d.length <= 16525 * 512 && pos < d.length
    ensures var k := pos / 512;
            && ByteToSector(d, dev.disk, pos) == Some(x.data[k])
            && ByteToSector(r.d, r.dev.disk, pos).Some?
            && var s := ByteToSector(r.d, r.dev.disk, pos).value;
               && (ResumedFrom(|x.data|) <= k < ResumedTo(|x.data|, n') ==> WasFree(dev, s) && s != x.data[k])
               && (n' - |x.data| <= 128 ==>
                    && s < |r.dev.disk|
                    && (s == x.data[k] <==> !(ResumedFrom(|x.data|) <= k < ResumedTo(|x.data|, n')))
                    && r.dev.disk[s] == if s == x.data[k] then dev.disk[s] else ZeroBlock())
  {
    hide Lookup, ByteToSector, ResumedFrom, Rep;
    var k := pos / 512;
    ByteToSectorFinds(d, dev.disk, x, pos);
    ByteToSectorLooksUp(r.d, r.dev.disk, pos);
    assert x.data[k] in Owned(x);
    if n' - |x.data| <= 128 && !(ResumedFrom(|x.data|) <= k < ResumedTo(|x.data|, n')) {
      assert FoundAgain(dev, x.data[k], r, k);
    }
  }

  // ----- Running out of sectors -----

  /** Growing within the direct blocks without enough free sectors: the blocks beyond those keep their
      values, and the sectors these name are zeroed. */
  lemma DirectShort(dev: Dev, d: InodeDisk, m: nat)
    requires d.direct + m <= DIRECT && FreeCount(dev.used) < m
    ensures var r, f := GrowDirect(dev, d, m), Take(dev.used, m);
            && |f| == FreeCount(dev.used) && FreeCount(r.dev.used) == 0
            && r.d.blocks == d.blocks[..d.direct] + f + d.blocks[d.direct + |f|..]
            && r.dev.disk == Zeroed(dev.disk, f + d.blocks[d.direct + |f|..d.direct + m])
  {
    hide FreeCount, Take, TakenUp, Zeroed, Fill;
    FillExactly(dev, d.blocks, d.direct, m);
    TakeCounts(dev.used, m);
    TakenUpAll(dev.used, m, GrowDirect(dev, d, m).dev.used);
  }

  /** First fit finds every free sector there is. */
  lemma {:induction false} TakeCounts(used: seq<bool>, n: nat)
    requires |used| <= 0x1_0000_0000
    ensures |Take(used, n)| == Min(n, FreeCount(used))
    decreases n
  {
    var s := FirstFree(used, 0);
    if s < |used| {
      FreeCountSet(used, s);
      if n > 0 { TakeCounts(used[s := true], n - 1); }
    } else {
      assert FreeSet(used) == {};
    }
  }

  /** The entries of a new inode are zero. So when a new file of up to 13 sectors does not find enough
      of them, sector 0 is zeroed, which holds the inode of the free map; success is reported. */
  lemma NewFileZeroesSector0(dev: Dev, isDir: bool, length: nat)
    requires SectorCount(length) <= DIRECT && FreeCount(dev.used) < SectorCount(length) && |dev.disk| > 0
    ensures GrowDirect(dev, EmptyInode(isDir).(length := length), SectorCount(length)).dev.disk[0] == ZeroBlock()
  {
    hide FreeCount, Take, SectorCount, GrowDirect;
    var d, m := EmptyInode(isDir).(length := length), SectorCount(length);
    DirectShort(dev, d, m);
    var f := Take(dev.used, m);
    var z := f + d.blocks[|f|..m];
    assert z[|f|] == 0 && 0 in z;
  }

  /** And exactly then, if sector 0 is in use and was not zero before. */
  lemma Sector0Exactly(dev: Dev, isDir: bool, length: nat)
    requires SectorCount(length) <= DIRECT && |dev.disk| > 0 && dev.used[0] && dev.disk[0] != ZeroBlock()
    ensures GrowDirect(dev, EmptyInode(isDir).(length := length), SectorCount(length)).dev.disk[0] == ZeroBlock()
            <==> FreeCount(dev.used) < SectorCount(length)
  {
    hide FreeCount, Take, SectorCount, Fill;
    var d, m := EmptyInode(isDir).(length := length), SectorCount(length);
    if FreeCount(dev.used) < m {
      NewFileZeroesSector0(dev, isDir, length);
    } else {
      FillExactly(dev, d.blocks, 0, m);
      TakeCounts(dev.used, m);
      var f := Take(dev.used, m);
      assert d.blocks[0 + |f|..0 + m] == [] && f + [] == f;
      TakeIsLeast(dev.used, m, 0);
    }
  }

  lemma {:induction false} AllFree(used: seq<bool>)
    requires forall s | 0 <= s < |used| :: !used[s]
    ensures FreeCount(used) == |used|
    decreases |used|
  {
    if |used| == 0 {
      assert FreeSet(used) == {};
    } else {
      var n := |used| - 1;
      AllFree(used[..n]);
      assert FreeSet(used) == FreeSet(used[..n]) + {n};
    }
  }

  /** For example, a new file of 142 sectors that grows by one sector: its data sector 141 is found
      in one place before and in another one after. */
  method ResumeFails(junk: Table, junk1: Table, junk2: Table) returns (before: Grown, after: Grown, ghost x: Index)
    ensures Rep(before.d, before.dev.disk, x) && |x.data| == 142 && before.d.length == 142 * 512 && after.d.length == 143 * 512
    ensures ByteToSector(before.d, before.dev.disk, 141 * 512) == Some(x.data[141])
    ensures ByteToSector(after.d, after.dev.disk, 141 * 512) != Some(x.data[141])
    ensures !exists z :: Extends(before.dev, x, after.dev, after.d, z) && |z.data| == 143
  {
    hide Rep, Extends, FirstFit, FreeCount, InUse, ByteToSector, Outcome, Resumed, GrowDirect, Owned, TakenUp;
    var dev: Dev := Dev(seq(200, _ => ZeroBlock()), seq(200, _ => false));
    AllFree(dev.used);
    EmptyDescribed(false, dev.disk);
    NothingUsed(dev.used);
    ghost var y;
    before, x := InodeGrow(dev, EmptyInode(false), 142 * 512, junk, junk1, junk2, EmptyIndex());
    Grown142(dev, before, x);
    after, y := InodeGrow(before.dev, before.d, 143 * 512, junk, junk1, junk2, x);
    OutcomeResumed(before.dev, x, after, y, 143);
    ResumedBytes(before.dev, before.d, x, after, 143, 141 * 512);
    GrowsExactly(before.dev, before.d, x, after, y, 143);
  }

  lemma OutcomeResumed(dev: Dev, x: Index, r: Grown, y: Index, n': nat)
    requires Outcome(dev, x, r, y, n') && FreeCount(dev.used) >= n' - |x.data| && Resumes(|x.data|, n')
    ensures Resumed(dev, x, r, n')
  {
    hide Extends, FirstFit, FreeCount, Resumed, TakenUp;
  }

  lemma NothingUsed(used: seq<bool>)
    ensures InUse(used, Owned(EmptyIndex()))
  {
  }

  lemma Grown142(dev: Dev, r: Grown, x: Index)
    requires FreeCount(dev.used) == 200 && Outcome(dev, EmptyIndex(), r, x, 142)
    ensures Rep(r.d, r.dev.disk, x) && |x.data| == 142 && InUse(r.dev.used, Owned(x)) && FreeCount(r.dev.used) == 55
  {
    hide FirstFit, Rep, FreeCount;
    assert Need(142) == 145 && Need(0) == 0;
    assert Owned(EmptyIndex()) == {};
    ExtendsInUse(dev, EmptyIndex(), r.dev, r.d, x);
  }
}
