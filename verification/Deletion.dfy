/** The deletion pass: which local files are gone after the first loop of
    update_from_filetable(), for every directory tree and every table. */
module Deletion {
  import opened CStrings
  import opened Table
  import opened TableLaws
  import opened Trees
  import opened Reconciles

  /** The visits of the walk are what is on disk. */
  ghost predicate Describes(w: seq<Visit>, disk: map<string, FileInfo>) {
    && InOrder(w)
    && (forall v :: v in w ==> v.info.path in disk && disk[v.info.path] == v.info && v.level == Depth(v.info.path))
    && (forall p :: p in disk ==> Before(w, |w|, p))
  }

  /** p is among the first i visits. */
  ghost predicate Before(w: seq<Visit>, i: nat, p: string) {
    exists m :: 0 <= m < i <= |w| && w[m].info.path == p
  }

  lemma OneVisit(w: seq<Visit>, v: Visit, u: Visit)
    requires InOrder(w) && v in w && u in w && v.info.path == u.info.path
    ensures v == u
  {
    forall i, j | 0 <= i < j < |w|
      ensures w[i].info.path != w[j].info.path
    {
      assert MayFollow(w[i], w[j]);
    }
  }

  /** The walk of any tree describes some disk. */
  lemma TreeIsDescribed(items: seq<Item>) returns (disk: map<string, FileInfo>)
    requires ValidItems(items)
    ensures Describes(Walk("", items, 1), disk)
  {
    var w := Walk("", items, 1);
    WalkInOrder("", items, 1);
    forall v, u | v in w && u in w && v.info.path == u.info.path
      ensures v == u
    {
      OneVisit(w, v, u);
    }
    disk := map v | v in w :: v.info.path := v.info;
    forall v | v in w
      ensures v.level == Depth(v.info.path)
    {
      WalkLevels("", items, 1, v);
    }
    forall p | p in disk
      ensures Before(w, |w|, p)
    {
      var v :| v in w && v.info.path == p;
      var m :| 0 <= m < |w| && w[m] == v;
    }
  }

  /** What the peer keeps: what the table has, and dotfiles. */
  predicate Kept(c: seq<Entry>, path: string) {
    IsDotfile(path) || Lookup(c, path).Some?
  }

  /** What the pass does not try to delete: what is kept, and what is too deep to be listed. */
  predicate Stays(c: seq<Entry>, path: string) {
    Kept(c, path) || Depth(path) > MAX_DEPTH
  }

  /** p stays or contains something that stays. */
  ghost predicate Survives(c: seq<Entry>, disk: map<string, FileInfo>, p: string) {
    exists q :: q in disk && Within(p, q) && Stays(c, q)
  }

  /** r is what is on disk when the visits from i on have been dealt with. */
  ghost predicate Swept(c: seq<Entry>, w: seq<Visit>, i: nat, disk: map<string, FileInfo>, r: map<string, FileInfo>) {
    && (forall p :: p in r <==> p in disk && (Before(w, i, p) || Survives(c, disk, p)))
    && (forall p :: p in r ==> r[p].isDir == disk[p].isDir)
  }

  lemma InsideIsLonger(d: string, p: string)
    requires Inside(d, p)
    ensures |d| < |p|
  {
    assert |d + "/"| <= |p|;
  }

  /** What is inside the i-th visit comes after it. */
  lemma InsideComesLater(w: seq<Visit>, i: nat, q: string)
    requires InOrder(w) && i < |w| && Inside(w[i].info.path, q)
    ensures !Before(w, i + 1, q)
  {
    forall m | 0 <= m < i + 1
      ensures w[m].info.path != q
    {
      InsideIsLonger(w[i].info.path, q);
      if m != i {
        assert MayFollow(w[m], w[i]);
      }
    }
  }

  /** When its turn comes, a path to be deleted contains something exactly if it survives. */
  lemma ContentsSurvive(c: seq<Entry>, w: seq<Visit>, i: nat, disk: map<string, FileInfo>, r: map<string, FileInfo>)
    requires Describes(w, disk) && i < |w| && Swept(c, w, i + 1, disk, r) && !Stays(c, w[i].info.path)
    ensures (exists q :: q in r && Inside(w[i].info.path, q)) <==> Survives(c, disk, w[i].info.path)
  {
    var p := w[i].info.path;
    if exists q :: q in r && Inside(p, q) {
      var q :| q in r && Inside(p, q);
      InsideComesLater(w, i, q);
      var x :| x in disk && Within(q, x) && Stays(c, x);
      WithinTransitive(p, q, x);
    }
    if Survives(c, disk, p) {
      var q :| q in disk && Within(p, q) && Stays(c, q);
      assert Survives(c, disk, q);
      assert q in r && Inside(p, q);
    }
  }

  lemma FileIsAlone(c: seq<Entry>, w: seq<Visit>, i: nat, disk: map<string, FileInfo>)
    requires Describes(w, disk) && i < |w| && !w[i].info.isDir && !Stays(c, w[i].info.path)
    ensures !Survives(c, disk, w[i].info.path)
  {
    var p := w[i].info.path;
    forall q | q in disk && Stays(c, q)
      ensures !Within(p, q)
    {
      var m :| 0 <= m < |w| && w[m].info.path == q;
      if m < i {
        assert MayFollow(w[m], w[i]);
      } else if m > i {
        assert MayFollow(w[i], w[m]);
      }
    }
  }

  lemma BeforeStep(w: seq<Visit>, i: nat, p: string)
    requires InOrder(w) && i < |w|
    ensures Before(w, i + 1, p) <==> Before(w, i, p) || p == w[i].info.path
    ensures !Before(w, i, w[i].info.path)
  {
    forall m | 0 <= m < i
      ensures w[m].info.path != w[i].info.path
    {
      assert MayFollow(w[m], w[i]);
    }
  }

  lemma DeleteStep(s: Local, c: seq<Entry>, w: seq<Visit>, i: nat, disk: map<string, FileInfo>)
    requires Describes(w, disk) && i < |w| && Swept(c, w, i + 1, disk, s.disk) && !Stays(c, w[i].info.path)
    ensures Swept(c, w, i, disk, Erase(s, w[i].info.path).disk)
  {
    var p := w[i].info.path;
    forall x
      ensures Before(w, i + 1, x) <==> Before(w, i, x) || x == p
      ensures !Before(w, i, p)
    {
      BeforeStep(w, i, x);
    }
    assert p in s.disk && s.disk[p].isDir == w[i].info.isDir;
    ContentsSurvive(c, w, i, disk, s.disk);
    if !w[i].info.isDir {
      FileIsAlone(c, w, i, disk);
    }
  }

  /** A download of something that is on disk changes neither what is on disk nor its kind. */
  lemma RefreshStep(s: Local, e: Entry, now: int)
    requires e.file.path in s.disk
    ensures var r := Download(s, e, now);
      r.disk.Keys == s.disk.Keys && forall p :: p in s.disk ==> r.disk[p].isDir == s.disk[p].isDir
  {
  }

  /** A visit that leaves what is on disk, where the path survives. */
  lemma StayStep(c: seq<Entry>, w: seq<Visit>, i: nat, disk: map<string, FileInfo>,
                 r: map<string, FileInfo>, r': map<string, FileInfo>)
    requires InOrder(w) && i < |w| && Swept(c, w, i + 1, disk, r) && Survives(c, disk, w[i].info.path)
    requires r'.Keys == r.Keys && forall p :: p in r ==> r'[p].isDir == r[p].isDir
    ensures Swept(c, w, i, disk, r')
  {
    forall x
      ensures Before(w, i + 1, x) <==> Before(w, i, x) || x == w[i].info.path
    {
      BeforeStep(w, i, x);
    }
  }

  lemma ExecOne(s: Local, a: Chore, now: int)
    ensures Exec(s, [a], now) == Do(s, a, now)
  {
    assert [a][1..] == [];
  }

  lemma VisitStep(s: Local, c: seq<Entry>, me: Addr, w: seq<Visit>, i: nat, disk: map<string, FileInfo>, now: int)
    requires Describes(w, disk) && i < |w| && Swept(c, w, i + 1, disk, s.disk)
    ensures var f := if w[i].level <= MAX_DEPTH then Decide(c, me, w[i].info) else [];
      Swept(c, w, i, disk, Exec(s, f, now).disk)
  {
    var p := w[i].info.path;
    assert w[i] in w && p in disk;
    var f := if w[i].level <= MAX_DEPTH then Decide(c, me, w[i].info) else [];
    if !Stays(c, p) {
      ExecOne(s, Delete(p), now);
      DeleteStep(s, c, w, i, disk);
    } else {
      assert Survives(c, disk, p);
      BeforeStep(w, i, p);
      if w[i].level <= MAX_DEPTH {
        KeptStep(s, c, me, w[i].info, now);
      }
      StayStep(c, w, i, disk, s.disk, Exec(s, f, now).disk);
    }
  }

  /** What is done about a file that stays: at most a download, which does not change what is on
      disk. */
  lemma KeptStep(s: Local, c: seq<Entry>, me: Addr, f: FileInfo, now: int)
    requires Kept(c, f.path) && f.path in s.disk
    ensures var r := Exec(s, Decide(c, me, f), now);
      r.disk.Keys == s.disk.Keys && forall p :: p in s.disk ==> r.disk[p].isDir == s.disk[p].isDir
  {
    var plan := Decide(c, me, f);
    if plan != [] {
      ExecOne(s, plan[0], now);
      RefreshStep(s, plan[0].entry, now);
    }
  }

  lemma {:induction false} SweepFrom(s: Local, c: seq<Entry>, me: Addr, w: seq<Visit>, i: nat, now: int)
    requires Describes(w, s.disk) && i <= |w|
    ensures Swept(c, w, i, s.disk, Exec(s, FilePlan(c, me, Listing(w[i..])), now).disk)
    decreases |w| - i
  {
    if i == |w| {
      assert Listing(w[i..]) == [];
    } else {
      var v, later := w[i], Listing(w[i + 1..]);
      assert w[i..][0] == v && w[i..][1..] == w[i + 1..];
      var mine := if v.level <= MAX_DEPTH then [v.info] else [];
      assert Listing(w[i..]) == later + mine;
      FilePlanConcat(c, me, later, mine);
      var f := if v.level <= MAX_DEPTH then Decide(c, me, v.info) else [];
      assert FilePlan(c, me, mine) == f by {
        if v.level <= MAX_DEPTH {
          assert mine[1..] == [];
          assert FilePlan(c, me, mine) == Decide(c, me, v.info) + [];
        }
      }
      ExecConcat(s, FilePlan(c, me, later), f, now);
      SweepFrom(s, c, me, w, i + 1, now);
      VisitStep(Exec(s, FilePlan(c, me, later), now), c, me, w, i, s.disk, now);
    }
  }

  /** After the first loop, whatever the tree and the table, a path is still there exactly if it
      is kept or too deep, or contains something that is. */
  lemma DeletionOutcome(s: Local, c: seq<Entry>, me: Addr, w: seq<Visit>, now: int, p: string)
    requires Describes(w, s.disk)
    ensures p in Exec(s, FilePlan(c, me, Listing(w)), now).disk <==> p in s.disk && Survives(c, s.disk, p)
  {
    SweepFrom(s, c, me, w, 0, now);
    assert w[0..] == w;
  }

  /** Nothing that is to go is too deep to be listed or contains something that is kept. */
  ghost predicate Clearable(c: seq<Entry>, disk: map<string, FileInfo>) {
    && (forall p :: p in disk && !Kept(c, p) ==> Depth(p) <= MAX_DEPTH)
    && (forall d, p :: d in disk && p in disk && Inside(d, p) && Kept(c, p) ==> Kept(c, d))
  }

  lemma ClearableIff(c: seq<Entry>, disk: map<string, FileInfo>)
    ensures (forall p :: p in disk ==> (Survives(c, disk, p) <==> Kept(c, p))) <==> Clearable(c, disk)
  {
    if forall p :: p in disk ==> (Survives(c, disk, p) <==> Kept(c, p)) {
      forall d, p | d in disk && p in disk && Inside(d, p) && Kept(c, p)
        ensures Kept(c, d)
      {
        assert Survives(c, disk, d);
      }
      forall p | p in disk && !Kept(c, p)
        ensures Depth(p) <= MAX_DEPTH
      {
        assert !Survives(c, disk, p);
      }
    }
    if Clearable(c, disk) {
      forall p | p in disk
        ensures Survives(c, disk, p) <==> Kept(c, p)
      {
      }
    }
  }

  /** The pass removes exactly what is not kept, if and only if nothing that is to go is too deep
      to be listed or contains something that is kept. */
  lemma DeletesExactlyIff(s: Local, c: seq<Entry>, me: Addr, w: seq<Visit>, now: int)
    requires Describes(w, s.disk)
    ensures (forall p :: p in Exec(s, FilePlan(c, me, Listing(w)), now).disk <==> p in s.disk && Kept(c, p))
            <==> Clearable(c, s.disk)
  {
    var r := Exec(s, FilePlan(c, me, Listing(w)), now).disk;
    forall p
      ensures p in r <==> p in s.disk && Survives(c, s.disk, p)
    {
      DeletionOutcome(s, c, me, w, now, p);
    }
    ClearableIff(c, s.disk);
  }

  /** Every directory on the way to an entry is an entry. */
  ghost predicate ParentClosed(c: seq<Entry>) {
    forall e, d :: e in c && Inside(d, e.file.path) ==> Lookup(c, d).Some? && Lookup(c, d).value.file.isDir
  }

  /** With such a table and a tree that is not too deep, it does. */
  lemma ClosedTableDeletesExactly(s: Local, c: seq<Entry>, me: Addr, w: seq<Visit>, now: int, p: string)
    requires Describes(w, s.disk) && ParentClosed(c)
    requires forall q :: q in s.disk && !Kept(c, q) ==> Depth(q) <= MAX_DEPTH
    ensures p in Exec(s, FilePlan(c, me, Listing(w)), now).disk <==> p in s.disk && Kept(c, p)
  {
    forall d, q | d in s.disk && q in s.disk && Inside(d, q) && Kept(c, q)
      ensures Kept(c, d)
    {
      KeptAbove(c, d, q);
    }
    DeletesExactlyIff(s, c, me, w, now);
  }

  lemma KeptAbove(c: seq<Entry>, d: string, q: string)
    requires ParentClosed(c) && Inside(d, q) && Kept(c, q)
    ensures Kept(c, d)
  {
    if IsDotfile(q) {
      assert q[0] == (d + "/")[0];
    } else {
      assert Lookup(c, q).value in c && Lookup(c, q).value.file.path == q;
    }
  }

  // ---- a directory that is not deleted ----

  /** What is found below the only item of a directory. */
  lemma WalkInto(dir: string, item: Item, path: string, level: nat, v: Visit)
    requires path == Join(dir, item.name) && item.Directory? && v in Walk(path, item.children, level + 1)
    ensures v in Walk(dir, [item], level)
  {
    assert [item][1..] == [];
    assert v in Below(path, item, level);
  }

  lemma OneLevel(path: string)
    requires |path| >= 2 && path[0] != '/' && path[1] == '/'
    ensures Slashes(path) == 1 + Slashes(path[2..])
  {
    assert path[1..][0] == '/' && path[1..][1..] == path[2..];
  }

  lemma SixLevels(path: string)
    requires path == "a/b/c/d/e/f"
    ensures Depth(path) == 6 && Inside("a", path)
  {
    OneLevel(path);
    OneLevel(path[2..]);
    OneLevel(path[2..][2..]);
    OneLevel(path[2..][2..][2..]);
    OneLevel(path[2..][2..][2..][2..]);
    assert path[2..][2..][2..][2..][2..] == ['f'];
    assert Slashes(['f']) == 0;
    assert path[..2] == "a" + "/";
  }

  function Nested(): Item {
    Directory("a", 1, [Directory("b", 1, [Directory("c", 1, [Directory("d", 1, [Directory("e", 1, [
      Regular("f", 5, 1)])])])])])
  }

  lemma NestedIsValid(items: seq<Item>)
    requires items == [Nested()]
    ensures ValidItems(items)
  {
    var b := Nested().children[0];
    var c := b.children[0];
    var d := c.children[0];
    var e := d.children[0];
    assert ValidItems(e.children);
    assert ValidItems(d.children);
    assert ValidItems(c.children);
    assert ValidItems(b.children);
    assert ValidItems([b]);
  }

  lemma NestedBelow(items: seq<Item>) returns (u: Visit)
    requires items == [Nested().children[0].children[0].children[0]]
    ensures u in Walk("a/b/c", items, 4) && u.info.path == "a/b/c/d/e/f"
  {
    var d := items[0];
    var e := d.children[0];
    u := Visit(FileInfo("a/b/c/d/e/f", 5, 1, false), 6);
    assert Join("a/b/c/d/e", "f") == "a/b/c/d/e/f";
    assert Walk("a/b/c/d/e", e.children, 6)[0] == u;
    assert Join("a/b/c/d", "e") == "a/b/c/d/e";
    WalkInto("a/b/c/d", e, "a/b/c/d/e", 5, u);
    assert Join("a/b/c", "d") == "a/b/c/d";
    WalkInto("a/b/c", d, "a/b/c/d", 4, u);
  }

  lemma NestedWalk(items: seq<Item>) returns (v: Visit, u: Visit)
    requires items == [Nested()]
    ensures v in Walk("", items, 1) && v.info.path == "a" && v.level == 1
    ensures u in Walk("", items, 1) && u.info.path == "a/b/c/d/e/f"
  {
    var b := items[0].children[0];
    var c := b.children[0];
    u := NestedBelow(c.children);
    assert Join("a/b", "c") == "a/b/c";
    WalkInto("a/b", c, "a/b/c", 3, u);
    assert Join("a", "b") == "a/b";
    WalkInto("a", b, "a/b", 2, u);
    WalkInto("", items[0], "a", 1, u);
    v := Walk("", items, 1)[0];
  }

  /** A directory with something too deep in it is not deleted, although the table is empty and
      the run tries to. */
  lemma DeepFileKeepsDirectory(s: Local, me: Addr, w: seq<Visit>, now: int, v: Visit, u: Visit)
    requires Describes(w, s.disk) && v in w && u in w && v.level <= MAX_DEPTH && !IsDotfile(v.info.path)
    requires Inside(v.info.path, u.info.path) && Depth(u.info.path) > MAX_DEPTH
    ensures Delete(v.info.path) in FilePlan([], me, Listing(w))
    ensures v.info.path in Exec(s, FilePlan([], me, Listing(w)), now).disk
  {
    assert Within(v.info.path, u.info.path) && Stays([], u.info.path);
    assert Survives([], s.disk, v.info.path);
    DeletionOutcome(s, [], me, w, now, v.info.path);
    ListingHas(w, v);
    FilePlanMeaning([], me, Listing(w), Delete(v.info.path));
    assert Delete(v.info.path) in Decide([], me, v.info);
  }

  /** There is such a tree. */
  lemma NestedIsDescribed(items: seq<Item>) returns (disk: map<string, FileInfo>, v: Visit, u: Visit)
    requires items == [Nested()]
    ensures ValidItems(items) && Describes(Walk("", items, 1), disk)
    ensures v in Walk("", items, 1) && v.info.path == "a" && v.level <= MAX_DEPTH
    ensures u in Walk("", items, 1) && Inside(v.info.path, u.info.path) && Depth(u.info.path) > MAX_DEPTH
  {
    NestedIsValid(items);
    v, u := NestedWalk(items);
    disk := TreeIsDescribed(items);
    SixLevels(u.info.path);
  }

  lemma NestedIsNotDeleted(items: seq<Item>, me: Addr, now: int) returns (s: Local)
    requires items == [Nested()]
    ensures ValidItems(items) && Describes(Walk("", items, 1), s.disk)
    ensures var plan := FilePlan([], me, Listing(Walk("", items, 1)));
      Delete("a") in plan && "a" in Exec(s, plan, now).disk
  {
    var disk, v, u := NestedIsDescribed(items);
    s := Local(disk, multiset{}, [], [], []);
    DeepFileKeepsDirectory(s, me, Walk("", items, 1), now, v, u);
  }

  lemma {:induction false} ListingHas(w: seq<Visit>, v: Visit)
    requires v in w && v.level <= MAX_DEPTH
    ensures v.info in Listing(w)
  {
    if w[0] != v {
      assert w == [w[0]] + w[1..];
      ListingHas(w[1..], v);
    }
  }
}
