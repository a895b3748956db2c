/** Open files and in-memory inodes (src/filesys/file.c and inode_open, inode_reopen, inode_close,
    inode_remove, inode_deny_write and inode_allow_write in src/filesys/inode.c). Handles are
    numbered; an in-memory inode is named by its sector, and also by a number of its own, so that
    two inodes opened in the same sector one after the other are told apart. */
module Files {
  import opened Common

  datatype OpenInode = OpenInode(sector: nat, id: nat, openCnt: nat, removed: bool, denyCnt: nat)

  datatype Handle = Handle(sector: nat, deny: bool)

  type Handles = map<nat, Handle>

  ghost function Openers(handles: Handles, s: nat): (r: set<nat>) {
    set h | h in handles && handles[h].sector == s
  }

  ghost function Deniers(handles: Handles, s: nat): (r: set<nat>) {
    set h | h in handles && handles[h].sector == s && handles[h].deny
  }

  /** One in-memory inode per sector, with a number no other inode has had. */
  ghost predicate OnePerSector(list: seq<OpenInode>, released: seq<nat>, nextId: nat) {
    && (forall i, j | 0 <= i < j < |list| :: list[i].sector != list[j].sector && list[i].id != list[j].id)
    && (forall i | 0 <= i < |list| :: list[i].id < nextId && list[i].id !in released)
    && NoDup(released) && (forall x | x in released :: x < nextId)
  }

  /** The counters of an inode count its handles; `extra` of them are still being set up. */
  ghost predicate CountsOk(n: OpenInode, handles: Handles, extra: nat) {
    n.openCnt == |Openers(handles, n.sector)| + extra && n.openCnt > 0 && n.denyCnt == |Deniers(handles, n.sector)|
  }

  /** Every inode counts its handles; that of sector s counts `extra` more. */
  ghost predicate AllCount(list: seq<OpenInode>, handles: Handles, s: nat, extra: nat) {
    forall i | 0 <= i < |list| :: CountsOk(list[i], handles, if list[i].sector == s then extra else 0)
  }

  ghost predicate IsOpen(list: seq<OpenInode>, s: nat) {
    exists i :: 0 <= i < |list| && list[i].sector == s
  }

  ghost predicate HandlesOpen(list: seq<OpenInode>, handles: Handles, next: nat) {
    forall h | h in handles :: h < next && IsOpen(list, handles[h].sector)
  }

  // ----- Counting -----

  lemma OpenersWith(handles: Handles, h: nat, s: nat, t: nat)
    requires h !in handles
    ensures Openers(handles[h := Handle(s, false)], t) == if t == s then Openers(handles, t) + {h} else Openers(handles, t)
    ensures h !in Openers(handles, t)
  {
  }

  lemma DeniersWith(handles: Handles, h: nat, s: nat, t: nat)
    requires h !in handles
    ensures Deniers(handles[h := Handle(s, false)], t) == Deniers(handles, t)
  {
  }

  lemma OpenersWithout(handles: Handles, h: nat, t: nat)
    requires h in handles
    ensures Openers(handles - {h}, t) == Openers(handles, t) - {h}
    ensures h in Openers(handles, t) <==> handles[h].sector == t
  {
  }

  lemma DeniersWithout(handles: Handles, h: nat, t: nat)
    requires h in handles && !handles[h].deny
    ensures Deniers(handles - {h}, t) == Deniers(handles, t)
  {
  }

  /** Opening or closing one handle. */
  lemma HandleAdded(handles: Handles, h: nat, s: nat, t: nat)
    requires h !in handles
    ensures |Openers(handles[h := Handle(s, false)], t)| == |Openers(handles, t)| + if t == s then 1 else 0
    ensures Deniers(handles[h := Handle(s, false)], t) == Deniers(handles, t)
  {
    hide Openers, Deniers;
    OpenersWith(handles, h, s, t);
    DeniersWith(handles, h, s, t);
  }

  lemma HandleRemoved(handles: Handles, h: nat, t: nat)
    requires h in handles && !handles[h].deny
    ensures |Openers(handles - {h}, t)| == |Openers(handles, t)| - if t == handles[h].sector then 1 else 0
    ensures Deniers(handles - {h}, t) == Deniers(handles, t)
  {
    hide Openers, Deniers;
    OpenersWithout(handles, h, t);
    DeniersWithout(handles, h, t);
  }

  lemma OpenersAgain(handles: Handles, h: nat, deny: bool, t: nat)
    requires h in handles
    ensures Openers(handles[h := Handle(handles[h].sector, deny)], t) == Openers(handles, t)
  {
  }

  lemma DeniersAgain(handles: Handles, h: nat, deny: bool, t: nat)
    requires h in handles
    ensures Deniers(handles[h := Handle(handles[h].sector, deny)], t)
            == if deny && t == handles[h].sector then Deniers(handles, t) + {h} else Deniers(handles, t) - {h}
    ensures h in Deniers(handles, t) <==> handles[h].deny && t == handles[h].sector
  {
  }

  /** Denying or allowing writes through one handle. */
  lemma DenyChanged(handles: Handles, h: nat, deny: bool, t: nat)
    requires h in handles && handles[h].deny != deny
    ensures var s := handles[h].sector;
            && Openers(handles[h := Handle(s, deny)], t) == Openers(handles, t)
            && |Deniers(handles[h := Handle(s, deny)], t)|
               == |Deniers(handles, t)| + if t != s then 0 else if deny then 1 else -1
  {
    hide Openers, Deniers;
    OpenersAgain(handles, h, deny, t);
    DeniersAgain(handles, h, deny, t);
    assert h !in Deniers(handles, t) ==> Deniers(handles, t) - {h} == Deniers(handles, t);
  }

  lemma DenyAtMostOpen(handles: Handles, s: nat)
    ensures |Deniers(handles, s)| <= |Openers(handles, s)|
  {
    assert Openers(handles, s) == Deniers(handles, s) + (Openers(handles, s) - Deniers(handles, s));
  }

  lemma SomeOpener(handles: Handles, h: nat)
    requires h in handles
    ensures |Openers(handles, handles[h].sector)| > 0 && Openers(handles, handles[h].sector) != {}
    ensures handles[h].deny ==> |Deniers(handles, handles[h].sector)| > 0
  {
    assert h in Openers(handles, handles[h].sector);
    assert handles[h].deny ==> h in Deniers(handles, handles[h].sector);
  }

  // ----- The table -----

  /** A release of an inode's sectors. */
  datatype Release = Release(sector: nat, id: nat)

  ghost function Ids(log: seq<Release>): (r: seq<nat>)
    ensures |r| == |log| && forall i | 0 <= i < |log| :: r[i] == log[i].id
  {
    seq(|log|, i requires 0 <= i < |log| => log[i].id)
  }

  lemma IdsAppend(log: seq<Release>, x: Release)
    ensures Ids(log + [x]) == Ids(log) + [x.id]
  {
  }

  class FileTable {
    var list: seq<OpenInode>                         // open_inodes
    var handles: Handles
    ghost var freed: seq<Release>                    // history: the inodes whose sectors were to be released
    var nextHandle: nat
    var nextId: nat

    /** What holds while sector s has `extra` references that are not handles. */
    ghost predicate Holding(s: nat, extra: nat)
      reads this
    {
      && OnePerSector(list, Ids(freed), nextId) && AllCount(list, handles, s, extra)
      && HandlesOpen(list, handles, nextHandle)
    }

    ghost predicate Valid()
      reads this
    {
      Holding(0, 0)
    }

    constructor ()
      ensures Valid() && list == [] && handles == map[] && freed == []
    {
      list := [];
      handles := map[];
      freed := [];
      nextHandle := 0;
      nextId := 0;
    }

    /** The search of inode_open; -1 if the inode is not open. */
    method Find(s: nat) returns (i: int)
      ensures i == -1 ==> !IsOpen(list, s)
      ensures i != -1 ==> 0 <= i < |list| && list[i].sector == s
    {
      i := 0;
      while i < |list|
        invariant 0 <= i <= |list| && forall j | 0 <= j < i :: list[j].sector != s
      {
        if list[i].sector == s {
          return i;
        }
        i := i + 1;
      }
      return -1;
    }

    /** inode_open: the inode already open, or a new one. */
    method InodeOpen(s: nat, memory: bool) returns (ok: bool)
      requires Valid()
      modifies this`list, this`nextId
      ensures Holding(s, if ok then 1 else 0)
      ensures ok ==> IsOpen(list, s)
      ensures !ok ==> list == old(list) && !IsOpen(list, s) && !memory
      ensures ok <==> memory || old(IsOpen(list, s))
      ensures forall t: nat | t != s :: IsOpen(list, t) <==> old(IsOpen(list, t))
      ensures SameInodes(old(list), list) && (ok && !old(IsOpen(list, s)) ==> !Entry(list, s).removed)
    {
      hide OnePerSector, AllCount, HandlesOpen, IsOpen, Entry, SameInodes;
      var i := Find(s);
      NoExtra(list, handles, 0, s);
      SameSelf(list);
      if i != -1 {
        Reopened(list, handles, i, Ids(freed), nextId, nextHandle);
        EntriesSame(list, i, list[i].(openCnt := list[i].openCnt + 1), Ids(freed), nextId);
        EntryIs(list, i, Ids(freed), nextId);
        list := list[i := list[i].(openCnt := list[i].openCnt + 1)];
        return true;
      }
      if !memory {
        return false;
      }
      var n := OpenInode(s, nextId, 1, false, 0);
      PushedFront(list, handles, n, Ids(freed), nextId, nextHandle);
      PushedSame(list, n, Ids(freed), nextId);
      list := [n] + list;
      nextId := nextId + 1;
      return true;
    }

    /** inode_close: the last reference takes the inode off the list, and its sectors are to be
        released if it was removed. */
    method InodeClose(s: nat) returns (last: bool, release: bool)
      requires Holding(s, 1) && IsOpen(list, s)
      modifies this`list, this`freed
      ensures Valid()
      ensures (last <==> Openers(handles, s) == {}) && (release <==> last && old(Entry(list, s)).removed)
      ensures freed == old(freed) + if release then [Release(s, old(Entry(list, s)).id)] else []
      ensures IsOpen(list, s) <==> Openers(handles, s) != {}
      ensures forall t: nat | t != s :: IsOpen(list, t) <==> old(IsOpen(list, t))
      ensures SameInodes(old(list), list)
    {
      hide OnePerSector, AllCount, HandlesOpen, IsOpen, Entry, Openers, SameInodes;
      var i := Find(s);
      EntryIs(list, i, Ids(freed), nextId);
      var n := list[i];
      last, release := n.openCnt == 1, n.openCnt == 1 && n.removed;
      Dropped(list, handles, i, Ids(freed), nextId, nextHandle);
      if n.openCnt == 1 {
        CutSame(list, i, Ids(freed), nextId);
        list := list[..i] + list[i + 1..];
        if n.removed {
          IdsAppend(freed, Release(s, n.id));
          freed := freed + [Release(s, n.id)];
        }
      } else {
        EntriesSame(list, i, n.(openCnt := n.openCnt - 1), Ids(freed), nextId);
        list := list[i := n.(openCnt := n.openCnt - 1)];
      }
      NoExtra(list, handles, s, 0);
    }

    /** file_open on an inode that was just opened or reopened. */
    method FileOpen(s: nat, memory: bool) returns (r: Option<nat>, last: bool, release: bool)
      requires Holding(s, 1) && IsOpen(list, s)
      modifies this
      ensures Valid() && SameInodes(old(list), list)
      ensures r.Some? <==> memory
      ensures r.Some? ==> r.value !in old(handles) && handles == old(handles)[r.value := Handle(s, false)]
                          && list == old(list) && freed == old(freed)
      ensures (last <==> r.None? && Openers(handles, s) == {}) && (release <==> last && old(Entry(list, s)).removed)
      ensures r.None? ==> handles == old(handles) && (IsOpen(list, s) <==> !last)
                          && freed == old(freed) + if release then [Release(s, old(Entry(list, s)).id)] else []
      ensures forall t: nat | t != s :: IsOpen(list, t) <==> old(IsOpen(list, t))
    {
      if !memory {
        last, release := InodeClose(s);
        return None, last, release;
      }
      HandleGiven(list, handles, s, nextHandle);
      r, last, release := Some(nextHandle), false, false;
      handles := handles[nextHandle := Handle(s, false)];
      nextHandle := nextHandle + 1;
    }

    /** Opening the file in sector s: inode_open and then file_open. */
    method Open(s: nat, inodeMemory: bool, fileMemory: bool) returns (r: Option<nat>)
      requires Valid()
      modifies this
      ensures Valid() && SameInodes(old(list), list) && freed == old(freed)
      ensures r.Some? ==> r.value !in old(handles) && handles == old(handles)[r.value := Handle(s, false)]
      ensures r.None? ==> handles == old(handles)
      ensures r.Some? <==> (inodeMemory || old(IsOpen(list, s))) && fileMemory
      ensures forall t: nat | t != s :: IsOpen(list, t) <==> old(IsOpen(list, t))
    {
      hide Holding, IsOpen, Openers, Entry, SameInodes;
      if IsOpen(list, s) { OpenHasOpeners(s); }
      var ok := InodeOpen(s, inodeMemory);
      ghost var mid := list;
      if !ok {
        HoldingNone(s, 0);
        return None;
      }
      var last, release;
      r, last, release := FileOpen(s, fileMemory);
      SameTwice(old(list), mid, list);
    }

    lemma OpenHasOpeners(s: nat)
      requires Valid() && IsOpen(list, s)
      ensures Openers(handles, s) != {}
    {
      var i :| 0 <= i < |list| && list[i].sector == s;
      assert CountsOk(list[i], handles, 0);
    }

    lemma ValidIs()
      requires Holding(0, 0)
      ensures Valid()
    {
    }

    lemma HoldingNone(s: nat, t: nat)
      requires Holding(s, 0)
      ensures Holding(t, 0)
    {
      NoExtra(list, handles, s, t);
    }

    /** file_reopen */
    method Reopen(h: nat, memory: bool) returns (r: Option<nat>)
      requires Valid() && h in handles
      modifies this
      ensures Valid() && freed == old(freed) && SameInodes(old(list), list)
      ensures forall t: nat :: IsOpen(list, t) <==> old(IsOpen(list, t))
      ensures r.Some? ==> r.value !in old(handles) && handles == old(handles)[r.value := Handle(old(handles)[h].sector, false)]
      ensures r.None? ==> handles == old(handles)
      ensures r.Some? <==> memory
    {
      hide OnePerSector, AllCount, HandlesOpen, IsOpen, Openers, Entry, SameInodes;
      HandleIsOpen(list, handles, nextHandle, h);
      var s := handles[h].sector;
      var i := Find(s);
      NoExtra(list, handles, 0, s);
      EntriesSame(list, i, list[i].(openCnt := list[i].openCnt + 1), Ids(freed), nextId);
      Reopened(list, handles, i, Ids(freed), nextId, nextHandle);
      SomeOpener(handles, h);
      list := list[i := list[i].(openCnt := list[i].openCnt + 1)];
      ghost var mid := list;
      var last, release;
      r, last, release := FileOpen(s, memory);
      SameTwice(old(list), mid, list);
    }

    /** inode_deny_write or inode_allow_write, through one handle. */
    method SetDeny(h: nat, deny: bool)
      requires Valid() && h in handles && handles[h].deny != deny
      modifies this`list, this`handles
      ensures Valid() && handles == old(handles)[h := Handle(old(handles)[h].sector, deny)]
      ensures forall t: nat :: IsOpen(list, t) <==> old(IsOpen(list, t))
      ensures SameInodes(old(list), list)
    {
      hide OnePerSector, AllCount, HandlesOpen, IsOpen, Openers, Deniers, Entry, SameInodes;
      HandleIsOpen(list, handles, nextHandle, h);
      var s := handles[h].sector;
      var i := Find(s);
      var cnt := list[i].denyCnt + if deny then 1 else -1;
      DenyUpdated(list, handles, i, h, deny, Ids(freed), nextId, nextHandle);
      list := list[i := list[i].(denyCnt := cnt)];
      handles := handles[h := Handle(s, deny)];
    }

    /** file_deny_write */
    method DenyWrite(h: nat)
      requires Valid() && h in handles
      modifies this`list, this`handles
      ensures Valid() && handles == old(handles)[h := Handle(old(handles)[h].sector, true)]
      ensures SameInodes(old(list), list) && forall t: nat :: IsOpen(list, t) <==> old(IsOpen(list, t))
    {
      SameSelf(list);
      if !handles[h].deny {
        SetDeny(h, true);
      }
    }

    /** file_allow_write */
    method AllowWrite(h: nat)
      requires Valid() && h in handles
      modifies this`list, this`handles
      ensures Valid() && handles == old(handles)[h := Handle(old(handles)[h].sector, false)]
      ensures forall t: nat :: IsOpen(list, t) <==> old(IsOpen(list, t))
      ensures SameInodes(old(list), list)
    {
      SameSelf(list);
      if handles[h].deny {
        SetDeny(h, false);
      }
    }

    /** inode_remove of an open inode. */
    method Remove(s: nat)
      requires Valid() && IsOpen(list, s)
      modifies this`list
      ensures Valid() && IsOpen(list, s) && Entry(list, s) == old(Entry(list, s)).(removed := true)
      ensures forall t: nat :: IsOpen(list, t) <==> old(IsOpen(list, t))
      ensures forall t: nat | t != s && IsOpen(list, t) :: old(IsOpen(list, t)) && Entry(list, t) == old(Entry(list, t))
    {
      hide OnePerSector, AllCount, HandlesOpen, IsOpen, Entry;
      var i := Find(s);
      EntryIs(list, i, Ids(freed), nextId);
      RemovedMarked(list, handles, i, Ids(freed), nextId, nextHandle);
      list := list[i := list[i].(removed := true)];
      EntryIs(list, i, Ids(freed), nextId);
    }

    /** file_close: the sectors of a removed inode are released by the last close, and by it only. */
    method Close(h: nat) returns (last: bool, release: bool)
      requires Valid() && h in handles
      modifies this
      ensures Valid() && handles == old(handles) - {h}
      ensures var s := old(handles)[h].sector;
              && old(IsOpen(list, s))
              && (last <==> Openers(handles, s) == {}) && (release <==> last && old(Entry(list, s)).removed)
              && (freed == old(freed) + if release then [Release(s, old(Entry(list, s)).id)] else [])
              && (IsOpen(list, s) <==> Openers(handles, s) != {})
      ensures forall t: nat | t != old(handles)[h].sector :: IsOpen(list, t) <==> old(IsOpen(list, t))
      ensures SameInodes(old(list), list)
    {
      hide OnePerSector, AllCount, HandlesOpen, IsOpen, Openers, Deniers, Entry;
      HandleIsOpen(list, handles, nextHandle, h);
      var s := handles[h].sector;
      AllowWrite(h);
      ghost var mid := list;
      HandleIsOpen(list, handles, nextHandle, h);
      NoExtra(list, handles, 0, s);
      HandleDropped(list, handles, h, nextHandle);
      handles := handles - {h};
      last, release := InodeClose(s);
      SameTwice(old(list), mid, list);
      assert handles == old(handles) - {h};
    }

    /** What inode_write_at looks at: it counts the handles that deny writes, so writes are refused
        exactly while some handle does. */
    method DenyCount(h: nat) returns (count: nat)
      requires Valid() && h in handles
      ensures count == |Deniers(handles, handles[h].sector)|
      ensures count > 0 <==> exists g :: g in handles && handles[g].sector == handles[h].sector && handles[g].deny
    {
      HandleIsOpen(list, handles, nextHandle, h);
      var i := Find(handles[h].sector);
      count := list[i].denyCnt;
      assert CountsOk(list[i], handles, 0);
      assert |Deniers(handles, handles[h].sector)| > 0 <==> Deniers(handles, handles[h].sector) != {};
      assert Deniers(handles, handles[h].sector) != {} ==> exists g :: g in Deniers(handles, handles[h].sector);
      assert forall g :: g in Deniers(handles, handles[h].sector)
                         <==> g in handles && handles[g].sector == handles[h].sector && handles[g].deny;
    }
  }

  lemma HandleGiven(list: seq<OpenInode>, handles: Handles, s: nat, next: nat)
    requires AllCount(list, handles, s, 1) && HandlesOpen(list, handles, next) && IsOpen(list, s)
    ensures next !in handles && AllCount(list, handles[next := Handle(s, false)], 0, 0)
    ensures HandlesOpen(list, handles[next := Handle(s, false)], next + 1)
  {
    forall i | 0 <= i < |list|
      ensures CountsOk(list[i], handles[next := Handle(s, false)], 0)
    {
      assert CountsOk(list[i], handles, if list[i].sector == s then 1 else 0);
      HandleAdded(handles, next, s, list[i].sector);
    }
  }

  lemma HandleIsOpen(list: seq<OpenInode>, handles: Handles, next: nat, h: nat)
    requires HandlesOpen(list, handles, next) && h in handles
    ensures IsOpen(list, handles[h].sector) && h < next
  {
  }

  lemma HandleDropped(list: seq<OpenInode>, handles: Handles, h: nat, next: nat)
    requires AllCount(list, handles, 0, 0) && HandlesOpen(list, handles, next) && h in handles && !handles[h].deny
    ensures AllCount(list, handles - {h}, handles[h].sector, 1) && HandlesOpen(list, handles - {h}, next)
  {
    forall i | 0 <= i < |list|
      ensures CountsOk(list[i], handles - {h}, if list[i].sector == handles[h].sector then 1 else 0)
    {
      assert CountsOk(list[i], handles, 0);
      HandleRemoved(handles, h, list[i].sector);
    }
  }

  lemma DenyCounted(list: seq<OpenInode>, handles: Handles, i: nat, h: nat, deny: bool, n: OpenInode)
    requires AllCount(list, handles, 0, 0) && forall j, k | 0 <= j < k < |list| :: list[j].sector != list[k].sector
    requires i < |list| && h in handles && list[i].sector == handles[h].sector && handles[h].deny != deny
    requires !deny ==> list[i].denyCnt > 0
    requires n == list[i].(denyCnt := list[i].denyCnt + if deny then 1 else -1)
    ensures AllCount(list[i := n], handles[h := Handle(list[i].sector, deny)], 0, 0)
  {
    hide Openers, Deniers;
    var after := list[i := n];
    forall j | 0 <= j < |list|
      ensures CountsOk(after[j], handles[h := Handle(list[i].sector, deny)], 0)
    {
      assert CountsOk(list[j], handles, 0);
      DenyChanged(handles, h, deny, list[j].sector);
    }
  }

  lemma DenyUpdated(list: seq<OpenInode>, handles: Handles, i: nat, h: nat, deny: bool, released: seq<nat>, nextId: nat, next: nat)
    requires OnePerSector(list, released, nextId) && AllCount(list, handles, 0, 0) && HandlesOpen(list, handles, next)
    requires i < |list| && h in handles && list[i].sector == handles[h].sector && handles[h].deny != deny
    ensures !deny ==> list[i].denyCnt > 0
    ensures var n := list[i].(denyCnt := list[i].denyCnt + if deny then 1 else -1);
            && OnePerSector(list[i := n], released, nextId)
            && AllCount(list[i := n], handles[h := Handle(list[i].sector, deny)], 0, 0)
            && HandlesOpen(list[i := n], handles[h := Handle(list[i].sector, deny)], next)
            && (forall t: nat :: IsOpen(list[i := n], t) <==> IsOpen(list, t))
            && SameInodes(list, list[i := n])
  {
    hide Openers, Deniers, IsOpen, Entry, SameInodes;
    assert CountsOk(list[i], handles, 0);
    SomeOpener(handles, h);
    var n := list[i].(denyCnt := list[i].denyCnt + if deny then 1 else -1);
    Replaced(list, i, n, released, nextId);
    DenyCounted(list, handles, i, h, deny, n);
    EntriesSame(list, i, n, released, nextId);
  }

  lemma EntriesSame(list: seq<OpenInode>, i: nat, n: OpenInode, released: seq<nat>, nextId: nat)
    requires OnePerSector(list, released, nextId) && i < |list|
    requires n.sector == list[i].sector && n.id == list[i].id && n.removed == list[i].removed
    ensures SameInodes(list, list[i := n])
  {
    forall t: nat | IsOpen(list[i := n], t) && IsOpen(list, t)
      ensures Entry(list[i := n], t).removed == Entry(list, t).removed && Entry(list[i := n], t).id == Entry(list, t).id
    {
      var j :| 0 <= j < |list| && list[j].sector == t;
      EntryIs(list, j, released, nextId);
      Replaced(list, i, n, released, nextId);
      EntryIs(list[i := n], j, released, nextId);
    }
  }

  lemma RemovedMarked(list: seq<OpenInode>, handles: Handles, i: nat, released: seq<nat>, nextId: nat, next: nat)
    requires OnePerSector(list, released, nextId) && AllCount(list, handles, 0, 0) && HandlesOpen(list, handles, next)
    requires i < |list|
    ensures var after := list[i := list[i].(removed := true)];
            && OnePerSector(after, released, nextId) && AllCount(after, handles, 0, 0) && HandlesOpen(after, handles, next)
            && (forall t: nat :: IsOpen(after, t) <==> IsOpen(list, t))
            && (forall t: nat | t != list[i].sector && IsOpen(after, t) && IsOpen(list, t) :: Entry(after, t) == Entry(list, t))
  {
    var after := list[i := list[i].(removed := true)];
    Replaced(list, i, after[i], released, nextId);
    StillOpen(list, after, handles, next);
    forall j | 0 <= j < |list|
      ensures CountsOk(after[j], handles, 0)
    {
      assert CountsOk(list[j], handles, 0);
    }
    forall t: nat | t != list[i].sector && IsOpen(after, t) && IsOpen(list, t)
      ensures Entry(after, t) == Entry(list, t)
    {
      var j :| 0 <= j < |list| && list[j].sector == t;
      EntryIs(list, j, released, nextId);
      EntryIs(after, j, released, nextId);
    }
  }

  lemma SameSectors(a: seq<OpenInode>, b: seq<OpenInode>, t: nat)
    requires |a| == |b| && forall i | 0 <= i < |a| :: a[i].sector == b[i].sector
    ensures IsOpen(a, t) <==> IsOpen(b, t)
  {
    if IsOpen(a, t) {
      var i :| 0 <= i < |a| && a[i].sector == t;
      assert b[i].sector == t;
    }
    if IsOpen(b, t) {
      var i :| 0 <= i < |b| && b[i].sector == t;
      assert a[i].sector == t;
    }
  }

  lemma NoExtra(list: seq<OpenInode>, handles: Handles, s: nat, t: nat)
    requires AllCount(list, handles, s, 0)
    ensures AllCount(list, handles, t, 0)
  {
  }

  lemma StillOpen(a: seq<OpenInode>, b: seq<OpenInode>, handles: Handles, next: nat)
    requires HandlesOpen(a, handles, next) && forall t: nat | IsOpen(a, t) :: IsOpen(b, t)
    ensures HandlesOpen(b, handles, next)
  {
  }

  /** Replacing an inode by one of the same sector and number. */
  lemma Replaced(list: seq<OpenInode>, i: nat, n: OpenInode, released: seq<nat>, nextId: nat)
    requires OnePerSector(list, released, nextId) && i < |list| && n.sector == list[i].sector && n.id == list[i].id
    ensures OnePerSector(list[i := n], released, nextId)
    ensures forall t: nat :: IsOpen(list[i := n], t) <==> IsOpen(list, t)
  {
    forall t: nat
      ensures IsOpen(list[i := n], t) <==> IsOpen(list, t)
    {
      SameSectors(list, list[i := n], t);
    }
  }

  lemma Reopened(list: seq<OpenInode>, handles: Handles, i: nat, released: seq<nat>, nextId: nat, next: nat)
    requires OnePerSector(list, released, nextId) && HandlesOpen(list, handles, next) && i < |list|
    requires AllCount(list, handles, list[i].sector, 0)
    ensures var after := list[i := list[i].(openCnt := list[i].openCnt + 1)];
            && OnePerSector(after, released, nextId) && HandlesOpen(after, handles, next)
            && AllCount(after, handles, list[i].sector, 1)
            && IsOpen(after, list[i].sector) && (forall t: nat :: IsOpen(after, t) <==> IsOpen(list, t))
  {
    var after := list[i := list[i].(openCnt := list[i].openCnt + 1)];
    Replaced(list, i, after[i], released, nextId);
    StillOpen(list, after, handles, next);
    assert after[i].sector == list[i].sector;
  }

  lemma PushedFront(list: seq<OpenInode>, handles: Handles, n: OpenInode, released: seq<nat>, nextId: nat, next: nat)
    requires OnePerSector(list, released, nextId) && HandlesOpen(list, handles, next) && AllCount(list, handles, n.sector, 0)
    requires !IsOpen(list, n.sector) && n.openCnt == 1 && n.denyCnt == 0 && n.id == nextId
    ensures var after := [n] + list;
            && OnePerSector(after, released, nextId + 1) && HandlesOpen(after, handles, next)
            && AllCount(after, handles, n.sector, 1)
            && IsOpen(after, n.sector) && (forall t: nat | t != n.sector :: IsOpen(after, t) <==> IsOpen(list, t))
  {
    var after := [n] + list;
    assert forall i | 0 < i < |after| :: after[i] == list[i - 1];
    assert Openers(handles, n.sector) == {} && Deniers(handles, n.sector) == {};
    forall t: nat
      ensures IsOpen(list, t) ==> IsOpen(after, t)
      ensures IsOpen(after, t) && t != n.sector ==> IsOpen(list, t)
    {
      if IsOpen(list, t) {
        var i :| 0 <= i < |list| && list[i].sector == t;
        assert after[i + 1].sector == t;
      }
    }
    assert after[0].sector == n.sector;
    StillOpen(list, after, handles, next);
  }

  /** Inodes open before and after are the same ones, as much removed as they were. */
  ghost predicate SameInodes(a: seq<OpenInode>, b: seq<OpenInode>) {
    forall t: nat | IsOpen(a, t) && IsOpen(b, t) ::
      Entry(a, t).removed == Entry(b, t).removed && Entry(a, t).id == Entry(b, t).id
  }

  /** The in-memory inode of a sector. */
  ghost function Entry(list: seq<OpenInode>, s: nat): (n: OpenInode)
    requires IsOpen(list, s)
    ensures n.sector == s
  {
    var i :| 0 <= i < |list| && list[i].sector == s;
    list[i]
  }

  lemma SameSelf(a: seq<OpenInode>)
    ensures SameInodes(a, a)
  {
  }

  lemma SameTwice(a: seq<OpenInode>, b: seq<OpenInode>, c: seq<OpenInode>)
    requires SameInodes(a, b) && SameInodes(b, c) && forall t: nat | IsOpen(a, t) :: IsOpen(b, t)
    ensures SameInodes(a, c)
  {
    hide IsOpen, Entry;
  }

  lemma PushedSame(list: seq<OpenInode>, n: OpenInode, released: seq<nat>, nextId: nat)
    requires OnePerSector(list, released, nextId) && OnePerSector([n] + list, released, nextId + 1)
    ensures SameInodes(list, [n] + list) && IsOpen([n] + list, n.sector) && Entry([n] + list, n.sector) == n
  {
    var after := [n] + list;
    EntryIs(after, 0, released, nextId + 1);
    forall t: nat | IsOpen(list, t) && IsOpen(after, t)
      ensures Entry(list, t).removed == Entry(after, t).removed && Entry(list, t).id == Entry(after, t).id
    {
      var j :| 0 <= j < |list| && list[j].sector == t;
      EntryIs(list, j, released, nextId);
      assert after[j + 1] == list[j];
      EntryIs(after, j + 1, released, nextId + 1);
    }
  }

  lemma CutSame(list: seq<OpenInode>, i: nat, released: seq<nat>, nextId: nat)
    requires OnePerSector(list, released, nextId) && i < |list|
    requires OnePerSector(list[..i] + list[i + 1..], released, nextId)
    ensures SameInodes(list, list[..i] + list[i + 1..])
  {
    var cut := list[..i] + list[i + 1..];
    forall t: nat | IsOpen(list, t) && IsOpen(cut, t)
      ensures Entry(list, t).removed == Entry(cut, t).removed && Entry(list, t).id == Entry(cut, t).id
    {
      var j :| 0 <= j < |cut| && cut[j].sector == t;
      EntryIs(cut, j, released, nextId);
      var k := if j < i then j else j + 1;
      assert cut[j] == list[k];
      EntryIs(list, k, released, nextId);
    }
  }

  lemma EntryIs(list: seq<OpenInode>, i: nat, released: seq<nat>, nextId: nat)
    requires OnePerSector(list, released, nextId) && i < |list|
    ensures IsOpen(list, list[i].sector) && Entry(list, list[i].sector) == list[i]
  {
  }

  lemma CutOpen(list: seq<OpenInode>, i: nat, t: nat)
    requires i < |list| && forall j, k | 0 <= j < k < |list| :: list[j].sector != list[k].sector
    ensures IsOpen(list[..i] + list[i + 1..], t) <==> IsOpen(list, t) && t != list[i].sector
  {
    var cut := list[..i] + list[i + 1..];
    assert forall j | 0 <= j < |cut| :: cut[j] == list[if j < i then j else j + 1];
    if IsOpen(list, t) && t != list[i].sector {
      var j :| 0 <= j < |list| && list[j].sector == t;
      assert cut[if j < i then j else j - 1] == list[j];
    }
  }

  lemma CutKeeps(list: seq<OpenInode>, i: nat, handles: Handles, released: seq<nat>, nextId: nat)
    requires OnePerSector(list, released, nextId) && i < |list| && AllCount(list, handles, list[i].sector, 1)
    ensures var cut := list[..i] + list[i + 1..];
            && OnePerSector(cut, released, nextId) && OnePerSector(cut, released + [list[i].id], nextId)
            && AllCount(cut, handles, list[i].sector, 0)
  {
    hide CountsOk;
    var cut := list[..i] + list[i + 1..];
    assert forall j | 0 <= j < |cut| :: cut[j] == list[if j < i then j else j + 1];
  }

  /** Giving up one reference to inode i. */
  lemma Dropped(list: seq<OpenInode>, handles: Handles, i: nat, released: seq<nat>, nextId: nat, next: nat)
    requires OnePerSector(list, released, nextId) && HandlesOpen(list, handles, next) && i < |list|
    requires AllCount(list, handles, list[i].sector, 1)
    ensures list[i].openCnt == 1 <==> Openers(handles, list[i].sector) == {}
    ensures list[i].openCnt == 1 ==>
              var cut := list[..i] + list[i + 1..];
              && OnePerSector(cut, released, nextId) && OnePerSector(cut, released + [list[i].id], nextId)
              && HandlesOpen(cut, handles, next) && AllCount(cut, handles, list[i].sector, 0)
              && !IsOpen(cut, list[i].sector)
              && forall t: nat | t != list[i].sector :: IsOpen(cut, t) <==> IsOpen(list, t)
    ensures list[i].openCnt != 1 ==>
              list[i].openCnt > 1 &&
              var after := list[i := list[i].(openCnt := list[i].openCnt - 1)];
              && OnePerSector(after, released, nextId) && HandlesOpen(after, handles, next)
              && AllCount(after, handles, list[i].sector, 0) && IsOpen(after, list[i].sector)
              && forall t: nat | t != list[i].sector :: IsOpen(after, t) <==> IsOpen(list, t)
  {
    assert CountsOk(list[i], handles, 1);
    if list[i].openCnt == 1 {
      LastDropped(list, handles, i, released, nextId, next);
    } else {
      var after := list[i := list[i].(openCnt := list[i].openCnt - 1)];
      Replaced(list, i, after[i], released, nextId);
      StillOpen(list, after, handles, next);
      assert after[i].sector == list[i].sector;
    }
  }

  lemma LastDropped(list: seq<OpenInode>, handles: Handles, i: nat, released: seq<nat>, nextId: nat, next: nat)
    requires OnePerSector(list, released, nextId) && HandlesOpen(list, handles, next) && i < |list|
    requires AllCount(list, handles, list[i].sector, 1) && Openers(handles, list[i].sector) == {}
    ensures var cut := list[..i] + list[i + 1..];
            && OnePerSector(cut, released, nextId) && OnePerSector(cut, released + [list[i].id], nextId)
            && HandlesOpen(cut, handles, next) && AllCount(cut, handles, list[i].sector, 0)
            && !IsOpen(cut, list[i].sector)
            && forall t: nat | t != list[i].sector :: IsOpen(cut, t) <==> IsOpen(list, t)
  {
    hide AllCount, IsOpen;
    var cut := list[..i] + list[i + 1..];
    CutKeeps(list, i, handles, released, nextId);
    forall t: nat
      ensures IsOpen(cut, t) <==> IsOpen(list, t) && t != list[i].sector
    {
      CutOpen(list, i, t);
    }
    assert forall h | h in handles :: h !in Openers(handles, list[i].sector);
  }
}
