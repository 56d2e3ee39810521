/** The watched directory as a tree, and how monitor_get_current_files() lists it. */
module Trees {
  import opened Table
  import opened TableLaws

  const MAX_DEPTH := 5

  datatype Item =
    | Regular(name: string, size: nat, mtime: int)
    | Directory(name: string, mtime: int, children: seq<Item>)

  /** One call of display_info(): what there is at a path, and the level of the walk. */
  datatype Visit = Visit(info: FileInfo, level: nat)

  predicate NameOk(name: string) { name != "" && '/' !in name }

  ghost predicate ValidItems(items: seq<Item>)
    decreases items
  {
    && (forall i, j :: 0 <= i < j < |items| ==> items[i].name != items[j].name)
    && (forall i :: 0 <= i < |items| ==> NameOk(items[i].name))
    && (forall i :: 0 <= i < |items| && items[i].Directory? ==> ValidItems(items[i].children))
  }

  function Join(dir: string, name: string): string {
    if dir == "" then name else dir + "/" + name
  }

  function Info(path: string, item: Item): FileInfo {
    match item
    case Regular(_, size, mtime) => FileInfo(path, size, mtime, false)
    case Directory(_, mtime, _) => FileInfo(path, 0, mtime, true)
  }

  /** nftw() without FTW_DEPTH: each directory before what it contains. */
  function Walk(dir: string, items: seq<Item>, level: nat): seq<Visit>
    decreases items, 1
  {
    if items == [] then []
    else
      var path := Join(dir, items[0].name);
      [Visit(Info(path, items[0]), level)] + Below(path, items[0], level) + Walk(dir, items[1..], level)
  }

  function Below(path: string, item: Item, level: nat): seq<Visit>
    decreases item, 0
  {
    if item.Directory? then Walk(path, item.children, level + 1) else []
  }

  /** What display_info() makes of the walk: the entries that are not too deep, last one first. */
  function Listing(w: seq<Visit>): seq<FileInfo> {
    if w == [] then []
    else Listing(w[1..]) + (if w[0].level <= MAX_DEPTH then [w[0].info] else [])
  }

  /** display_info(), called on each visit of the walk; level 0 is the watched directory. */
  method CurrentFiles(root: FileInfo, w: seq<Visit>) returns (dirList: seq<FileInfo>)
    requires forall i :: 0 <= i < |w| ==> w[i].level > 0
    ensures dirList == Listing(w)
  {
    var visits := [Visit(root, 0)] + w;
    dirList := [];
    for i := 0 to |visits|
      invariant i == 0 ==> dirList == []
      invariant i > 0 ==> Listing(w) == Listing(w[i - 1..]) + dirList
    {
      if i > 0 {
        assert w[i - 1..][0] == visits[i] && w[i - 1..][1..] == w[i..];
      }
      if visits[i].level == 0 || visits[i].level > MAX_DEPTH {
        continue;
      }
      dirList := [visits[i].info] + dirList;
    }
    assert w[|w|..] == [];
  }

  // ---- paths ----

  /** p is d or inside it. */
  predicate Within(d: string, p: string) {
    p == d || Inside(d, p)
  }

  lemma InsideTransitive(a: string, b: string, p: string)
    requires Inside(a, b) && Inside(b, p)
    ensures Inside(a, p)
  {
    assert (a + "/")[..|a| + 1] == a + "/";
    assert b[..|a| + 1] == a + "/";
    assert p[..|b| + 1] == b + "/";
    assert p[..|a| + 1] == p[..|b| + 1][..|a| + 1] == b[..|a| + 1];
  }

  lemma WithinTransitive(a: string, b: string, p: string)
    requires Within(a, b) && Within(b, p)
    ensures Within(a, p) && (Inside(a, b) || Inside(b, p) ==> Inside(a, p))
  {
    if Inside(a, b) && Inside(b, p) {
      InsideTransitive(a, b, p);
    }
  }

  lemma JoinInside(dir: string, name: string)
    requires dir != ""
    ensures Inside(dir, Join(dir, name))
  {
  }

  /** Two names in one directory have nothing in common. */
  lemma SiblingsApart(dir: string, a: string, b: string, p: string)
    requires NameOk(a) && NameOk(b) && a != b && Within(Join(dir, a), p)
    ensures !Within(Join(dir, b), p)
  {
    var base := if dir == "" then "" else dir + "/";
    assert Join(dir, a) == base + a && Join(dir, b) == base + b;
    if Within(base + b, p) {
      NameEnds(base, a, p);
      NameEnds(base, b, p);
    }
  }

  lemma NameEnds(base: string, a: string, p: string)
    requires NameOk(a) && Within(base + a, p)
    ensures |base| + |a| <= |p| && p[|base|..][..|a|] == a
    ensures forall k :: |base| <= k < |base| + |a| ==> p[k] != '/'
    ensures |base| + |a| < |p| ==> p[|base| + |a|] == '/'
  {
    assert p[..|base| + |a|] == base + a;
    assert forall k :: 0 <= k < |a| ==> p[|base| + k] == (base + a)[|base| + k] == a[k];
    if Inside(base + a, p) {
      assert p[|base| + |a|] == (base + a + "/")[|base| + |a|];
    }
  }

  lemma ApartPaths(dir: string, a: string, b: string, p: string, q: string)
    requires NameOk(a) && NameOk(b) && a != b && Within(Join(dir, a), p) && Within(Join(dir, b), q)
    ensures !Within(p, q) && !Within(q, p)
  {
    if Within(p, q) {
      WithinTransitive(Join(dir, a), p, q);
      SiblingsApart(dir, a, b, q);
    }
    if Within(q, p) {
      WithinTransitive(Join(dir, b), q, p);
      SiblingsApart(dir, a, b, p);
    }
  }

  // ---- the walk ----

  /** Every path of the walk is that of an item, or inside it. */
  lemma {:induction false} WalkOwner(dir: string, items: seq<Item>, level: nat, v: Visit) returns (k: nat)
    requires ValidItems(items) && v in Walk(dir, items, level)
    ensures k < |items| && Within(Join(dir, items[k].name), v.info.path)
    decreases items, 0
  {
    var path := Join(dir, items[0].name);
    if v in Below(path, items[0], level) {
      k := 0;
      ChildInside(path, items[0], level, v);
    } else if v in Walk(dir, items[1..], level) {
      k := WalkOwner(dir, items[1..], level, v);
      k := k + 1;
    } else {
      k := 0;
    }
  }

  lemma {:induction false} ChildInside(path: string, item: Item, level: nat, v: Visit)
    requires path != "" && (item.Directory? ==> ValidItems(item.children)) && v in Below(path, item, level)
    ensures item.Directory? && Inside(path, v.info.path)
    decreases item, 1
  {
    var k := WalkOwner(path, item.children, level + 1, v);
    JoinInside(path, item.children[k].name);
    WithinTransitive(path, Join(path, item.children[k].name), v.info.path);
  }

  /** u may come after v: it is not what v is, does not contain it, and is inside it only if that
      is a directory. */
  predicate MayFollow(v: Visit, u: Visit) {
    !Within(u.info.path, v.info.path) && (!v.info.isDir ==> !Inside(v.info.path, u.info.path))
  }

  ghost predicate InOrder(w: seq<Visit>) {
    forall i, j :: 0 <= i < j < |w| ==> MayFollow(w[i], w[j])
  }

  lemma ConcatInOrder(a: seq<Visit>, b: seq<Visit>)
    requires InOrder(a) && InOrder(b) && forall v, u :: v in a && u in b ==> MayFollow(v, u)
    ensures InOrder(a + b)
  {
  }

  /** In the walk nothing comes after what it contains, no path occurs twice, and a regular file
      contains nothing. */
  lemma {:induction false} WalkInOrder(dir: string, items: seq<Item>, level: nat)
    requires ValidItems(items)
    ensures InOrder(Walk(dir, items, level))
    decreases items
  {
    if items == [] {
    } else {
      var path := Join(dir, items[0].name);
      var first, below := Visit(Info(path, items[0]), level), Below(path, items[0], level);
      var rest := Walk(dir, items[1..], level);
      if items[0].Directory? {
        WalkInOrder(path, items[0].children, level + 1);
      }
      WalkInOrder(dir, items[1..], level);
      forall u | u in below
        ensures MayFollow(first, u)
      {
        ChildInside(path, items[0], level, u);
      }
      ConcatInOrder([first], below);
      forall v, u | v in [first] + below && u in rest
        ensures MayFollow(v, u)
      {
        AfterFirst(dir, items, level, v, u);
      }
      ConcatInOrder([first] + below, rest);
    }
  }

  lemma AfterFirst(dir: string, items: seq<Item>, level: nat, v: Visit, u: Visit)
    requires items != [] && ValidItems(items)
    requires var path := Join(dir, items[0].name);
      v in [Visit(Info(path, items[0]), level)] + Below(path, items[0], level)
    requires u in Walk(dir, items[1..], level)
    ensures MayFollow(v, u)
  {
    var path := Join(dir, items[0].name);
    var k := WalkOwner(dir, items[1..], level, u);
    if v in Below(path, items[0], level) {
      ChildInside(path, items[0], level, v);
    }
    ApartPaths(dir, items[0].name, items[k + 1].name, v.info.path, u.info.path);
  }

  // ---- levels ----

  function Slashes(s: string): nat {
    if s == "" then 0 else (if s[0] == '/' then 1 else 0) + Slashes(s[1..])
  }

  function Depth(path: string): nat { 1 + Slashes(path) }

  lemma {:induction false} SlashesConcat(s: string, t: string)
    ensures Slashes(s + t) == Slashes(s) + Slashes(t)
  {
    if s == "" {
      assert s + t == t;
    } else {
      assert (s + t)[1..] == s[1..] + t;
      SlashesConcat(s[1..], t);
    }
  }

  lemma {:induction false} NameHasNone(name: string)
    requires '/' !in name
    ensures Slashes(name) == 0
  {
    if name == "" {
    } else {
      NameHasNone(name[1..]);
    }
  }

  lemma JoinDepth(dir: string, name: string)
    requires NameOk(name)
    ensures Depth(Join(dir, name)) == if dir == "" then 1 else Depth(dir) + 1
  {
    NameHasNone(name);
    SlashesConcat(dir + "/", name);
    SlashesConcat(dir, "/");
    assert Slashes("/") == 1 + Slashes("");
  }

  /** The level of the walk is the depth of the path. */
  lemma {:induction false} WalkLevels(dir: string, items: seq<Item>, level: nat, v: Visit)
    requires ValidItems(items) && v in Walk(dir, items, level)
    requires level == if dir == "" then 1 else Depth(dir) + 1
    ensures v.level == Depth(v.info.path)
    decreases items, 0
  {
    var path := Join(dir, items[0].name);
    JoinDepth(dir, items[0].name);
    if v in Below(path, items[0], level) {
      ChildLevels(path, items[0], level, v);
    } else if v in Walk(dir, items[1..], level) {
      WalkLevels(dir, items[1..], level, v);
    }
  }

  lemma {:induction false} ChildLevels(path: string, item: Item, level: nat, v: Visit)
    requires path != "" && level == Depth(path) && (item.Directory? ==> ValidItems(item.children))
    requires v in Below(path, item, level)
    ensures v.level == Depth(v.info.path)
    decreases item, 1
  {
    WalkLevels(path, item.children, level + 1, v);
  }
}
