/** Every table operation keeps the table well formed and acts as an update of a finite map. */
module TableLaws {
  import opened CStrings
  import opened Table

  lemma FindAt(c: seq<Entry>, i: nat)
    requires Sorted(c) && i < |c|
    ensures Find(c, c[i].file.path) == i
  {
    var k := Find(c, c[i].file.path);
    LessIrreflexive(c[i].file.path);
  }

  lemma LookupAbsent(c: seq<Entry>, path: string)
    ensures Lookup(c, path) == None <==> forall k :: 0 <= k < |c| ==> c[k].file.path != path
  {
  }

  lemma FindUpdate(c: seq<Entry>, i: nat, e: Entry, path: string)
    requires Sorted(c) && i < |c| && e.file.path == c[i].file.path
    ensures Sorted(c[i := e])
    ensures Find(c[i := e], path) == Find(c, path)
    ensures Lookup(c[i := e], path) == if path == e.file.path then Some(e) else Lookup(c, path)
  {
    var d := c[i := e];
    assert forall k :: 0 <= k < |c| ==> d[k].file.path == c[k].file.path;
    assert Find(d, path) == Find(c, path);
    FindAt(c, i);
  }

  lemma UpdateModLaw(c: seq<Entry>, f: FileInfo, who: Addr, path: string)
    requires WellFormed(c)
    ensures WellFormed(UpdateMod(c, f, who))
    ensures Lookup(UpdateMod(c, f, who), path) ==
            match Lookup(c, path)
            case Some(e) =>
              if path == f.path && IpFits(who.ip) then Some(Entry(e.file.(size := f.size, mtime := f.mtime), [who]))
              else Some(e)
            case None => None
  {
    var i := Find(c, f.path);
    if i < |c| {
      FindUpdate(c, i, Entry(FileInfo(f.path, f.size, f.mtime, c[i].file.isDir), [who]), path);
    }
  }

  /** A path absent from the table lies between the entries around its position. */
  lemma PositionBetween(c: seq<Entry>, path: string)
    requires Sorted(c) && Find(c, path) == |c|
    ensures forall k :: 0 <= k < Position(c, path) ==> Less(c[k].file.path, path)
    ensures forall k :: Position(c, path) <= k < |c| ==> Less(path, c[k].file.path)
  {
    var p := Position(c, path);
    forall k | 0 <= k < p
      ensures Less(c[k].file.path, path)
    {
      LessTotal(c[k].file.path, path);
    }
    forall k | p <= k < |c|
      ensures Less(path, c[k].file.path)
    {
      if k > p {
        LessTransitive(path, c[p].file.path, c[k].file.path);
      }
    }
  }

  function Splice(c: seq<Entry>, p: nat, e: Entry): (d: seq<Entry>)
    requires p <= |c|
    ensures |d| == |c| + 1
    ensures forall m :: 0 <= m < |d| ==> d[m] == (if m < p then c[m] else if m == p then e else c[m - 1])
  {
    c[..p] + [e] + c[p..]
  }

  lemma SpliceSorted(c: seq<Entry>, e: Entry)
    requires Sorted(c) && Find(c, e.file.path) == |c|
    ensures Sorted(Splice(c, Position(c, e.file.path), e))
  {
    PositionBetween(c, e.file.path);
    SplicedBetween(c, Position(c, e.file.path), e);
  }

  lemma SplicedBetween(c: seq<Entry>, p: nat, e: Entry)
    requires Sorted(c) && p <= |c|
    requires forall k :: 0 <= k < p ==> Less(c[k].file.path, e.file.path)
    requires forall k :: p <= k < |c| ==> Less(e.file.path, c[k].file.path)
    ensures Sorted(Splice(c, p, e))
  {
  }

  lemma SpliceLookup(c: seq<Entry>, p: nat, e: Entry, path: string)
    requires p <= |c| && Sorted(c) && Sorted(Splice(c, p, e))
    ensures Lookup(Splice(c, p, e), path) == if path == e.file.path then Some(e) else Lookup(c, path)
  {
    var d, k := Splice(c, p, e), Find(c, path);
    if path == e.file.path {
      FindAt(d, p);
    } else if k < |c| {
      var m := if k < p then k else k + 1;
      assert d[m] == c[k];
      FindAt(d, m);
    } else {
      LookupAbsent(d, path);
    }
  }

  lemma SpliceWellFormed(c: seq<Entry>, e: Entry)
    requires WellFormed(c) && Find(c, e.file.path) == |c| && !IsDotfile(e.file.path) && DistinctIps(e.peers)
    ensures WellFormed(Splice(c, Position(c, e.file.path), e))
  {
    SpliceSorted(c, e);
  }

  lemma InsertLaw(c: seq<Entry>, f: FileInfo, who: Addr, path: string)
    requires WellFormed(c)
    ensures WellFormed(Insert(c, f, who))
    ensures Lookup(Insert(c, f, who), path) ==
            if path != f.path || IsDotfile(path) || !IpFits(who.ip) then Lookup(c, path)
            else match Lookup(c, path)
                 case Some(e) => Some(Entry(e.file.(size := Normal(f).size, mtime := f.mtime), [who]))
                 case None => Some(Entry(Normal(f), [who]))
  {
    if IsDotfile(f.path) {
    } else if !IpFits(who.ip) || Find(c, f.path) < |c| {
      UpdateModLaw(c, Normal(f), who, path);
    } else {
      var e := Entry(Normal(f), [who]);
      SpliceWellFormed(c, e);
      SpliceLookup(c, Position(c, f.path), e, path);
      assert Insert(c, f, who) == Splice(c, Position(c, f.path), e);
    }
  }

  function Cut(c: seq<Entry>, i: nat, j: nat): (d: seq<Entry>)
    requires i <= j <= |c|
    ensures |d| == |c| - (j - i)
    ensures forall m :: 0 <= m < |d| ==> d[m] == (if m < i then c[m] else c[m + (j - i)])
  {
    c[..i] + c[j..]
  }

  lemma CutWellFormed(c: seq<Entry>, i: nat, j: nat)
    requires WellFormed(c) && i <= j <= |c|
    ensures WellFormed(Cut(c, i, j))
  {
  }

  lemma CutAbsent(c: seq<Entry>, i: nat, j: nat, path: string)
    requires Sorted(c) && i <= j <= |c| && (Find(c, path) == |c| || i <= Find(c, path) < j)
    ensures Lookup(Cut(c, i, j), path) == None
  {
    var d := Cut(c, i, j);
    forall m | 0 <= m < |d|
      ensures d[m].file.path != path
    {
      FindAt(c, if m < i then m else m + (j - i));
    }
    LookupAbsent(d, path);
  }

  lemma CutPresent(c: seq<Entry>, i: nat, j: nat, path: string)
    requires i <= j <= |c| && Sorted(Cut(c, i, j)) && Find(c, path) < |c| && !(i <= Find(c, path) < j)
    ensures Lookup(Cut(c, i, j), path) == Lookup(c, path)
  {
    var k, d := Find(c, path), Cut(c, i, j);
    if k < i {
      assert d[k] == c[k];
      LookupAt(d, k, c[k]);
    } else {
      var m := k - (j - i);
      assert d[m] == c[k];
      LookupAt(d, m, c[k]);
    }
  }

  lemma LookupAt(c: seq<Entry>, i: nat, e: Entry)
    requires Sorted(c) && i < |c| && c[i] == e
    ensures Lookup(c, e.file.path) == Some(e)
  {
    FindAt(c, i);
  }

  /** Taking a stretch out of the table keeps the rest as it was. */
  lemma CutLaw(c: seq<Entry>, i: nat, j: nat, path: string)
    requires WellFormed(c) && i <= j <= |c|
    ensures WellFormed(c[..i] + c[j..])
    ensures Lookup(c[..i] + c[j..], path) == if i <= Find(c, path) < j then None else Lookup(c, path)
  {
    CutWellFormed(c, i, j);
    assert c[..i] + c[j..] == Cut(c, i, j);
    if Find(c, path) < |c| && !(i <= Find(c, path) < j) {
      CutPresent(c, i, j, path);
    } else {
      CutAbsent(c, i, j, path);
    }
  }

  /** In a sorted table the entries with prefix d, where d itself is an entry, are the stretch
      that starts at d. */
  lemma {:induction false} PrefixStretch(c: seq<Entry>, i: nat) returns (j: nat)
    requires Sorted(c) && i < |c|
    ensures i < j <= |c|
    ensures forall k :: 0 <= k < |c| ==> (HasPrefix(c[i].file.path, c[k].file.path) <==> i <= k < j)
  {
    var d := c[i].file.path;
    j := i + 1;
    while j < |c| && HasPrefix(d, c[j].file.path)
      invariant i < j <= |c|
      invariant forall k :: i <= k < j ==> HasPrefix(d, c[k].file.path)
    {
      j := j + 1;
    }
    forall k | 0 <= k < |c| && !(i <= k < j)
      ensures !HasPrefix(d, c[k].file.path)
    {
      if HasPrefix(d, c[k].file.path) {
        if k < i {
          LessTotal(d, c[k].file.path);
          PrefixLess(d, c[k].file.path);
        } else if k > j {
          PrefixBlock(d, c[j].file.path, c[k].file.path);
        }
      }
    }
  }

  lemma {:induction false} WithoutConcat(a: seq<Entry>, b: seq<Entry>, d: string)
    ensures Without(a + b, d) == Without(a, d) + Without(b, d)
  {
    if a == [] {
      assert a + b == b;
    } else {
      assert (a + b)[1..] == a[1..] + b;
      WithoutConcat(a[1..], b, d);
    }
  }

  lemma {:induction false} WithoutUniform(c: seq<Entry>, d: string, prefix: bool)
    requires forall k :: 0 <= k < |c| ==> HasPrefix(d, c[k].file.path) == prefix
    ensures Without(c, d) == if prefix then [] else c
  {
    if c == [] {
    } else {
      WithoutUniform(c[1..], d, prefix);
    }
  }

  lemma WithoutMiddle(a: seq<Entry>, m: seq<Entry>, b: seq<Entry>, d: string)
    requires forall k :: 0 <= k < |a| ==> !HasPrefix(d, a[k].file.path)
    requires forall k :: 0 <= k < |m| ==> HasPrefix(d, m[k].file.path)
    requires forall k :: 0 <= k < |b| ==> !HasPrefix(d, b[k].file.path)
    ensures Without(a + m + b, d) == a + b
  {
    WithoutConcat(a + m, b, d);
    WithoutConcat(a, m, d);
    WithoutUniform(a, d, false);
    WithoutUniform(m, d, true);
    WithoutUniform(b, d, false);
    assert a + [] == a;
  }

  lemma WithoutStretch(c: seq<Entry>, d: string, i: nat, j: nat)
    requires i <= j <= |c|
    requires forall k :: 0 <= k < |c| ==> (HasPrefix(d, c[k].file.path) <==> i <= k < j)
    ensures Without(c, d) == c[..i] + c[j..]
  {
    var a, m, b := c[..i], c[i..j], c[j..];
    assert a + m + b == c;
    WithoutMiddle(a, m, b, d);
  }

  /** Removing a directory removes exactly the paths that it is a prefix of, byte by byte, in
      any well-formed table; the other entries stay, in their order. */
  lemma RemoveLaw(c: seq<Entry>, d: string, path: string)
    requires WellFormed(c)
    ensures WellFormed(Remove(c, d))
    ensures Lookup(Remove(c, d), path) ==
            match Lookup(c, d)
            case None => Lookup(c, path)
            case Some(e) =>
              if path == d || (e.file.isDir && HasPrefix(d, path)) then None else Lookup(c, path)
  {
    var i := Find(c, d);
    if i < |c| {
      var k := Find(c, path);
      if c[i].file.isDir {
        var j := PrefixStretch(c, i);
        WithoutStretch(c, d, i, j);
        CutLaw(c, i, j, path);
      } else {
        CutLaw(c, i, i + 1, path);
      }
    }
  }

  lemma AddPeerLaw(c: seq<Entry>, name: string, who: Addr, size: nat, path: string)
    requires WellFormed(c)
    ensures WellFormed(AddPeer(c, name, who, size))
    ensures Lookup(AddPeer(c, name, who, size), path) ==
            match Lookup(c, path)
            case Some(e) =>
              if path == name && e.file.size == size && !Lists(e.peers, who.ip)
              then Some(e.(peers := [who] + e.peers)) else Some(e)
            case None => None
  {
    var i := Find(c, name);
    if i < |c| {
      FindUpdate(c, i, c[i].(peers := [who] + c[i].peers), path);
    }
  }

  lemma {:induction false} DropPeerLaw(peers: seq<Addr>, who: Addr)
    requires DistinctIps(peers)
    ensures DistinctIps(DropPeer(peers, who))
    ensures forall a :: a in DropPeer(peers, who) <==> a in peers && a != who
    ensures |DropPeer(peers, who)| == |peers| - (if who in peers then 1 else 0)
  {
    if peers == [] {
    } else {
      var t := peers[1..];
      assert forall k :: 0 <= k < |t| ==> t[k] == peers[k + 1];
      assert peers == [peers[0]] + t;
      DropPeerLaw(t, who);
      if peers[0] != who {
        forall k | 0 <= k < |DropPeer(t, who)|
          ensures DropPeer(t, who)[k].ip != peers[0].ip
        {
          assert DropPeer(t, who)[k] in t;
        }
      }
    }
  }

  lemma RemovePeerAllLaw(c: seq<Entry>, who: Addr, path: string)
    requires WellFormed(c)
    ensures WellFormed(RemovePeerAll(c, who))
    ensures Lookup(RemovePeerAll(c, who), path) ==
            match Lookup(c, path)
            case Some(e) => Some(e.(peers := DropPeer(e.peers, who)))
            case None => None
    ensures forall i :: 0 <= i < |c| ==> who !in RemovePeerAll(c, who)[i].peers
  {
    var d := RemovePeerAll(c, who);
    forall i | 0 <= i < |c|
      ensures DistinctIps(d[i].peers) && who !in d[i].peers
    {
      DropPeerLaw(c[i].peers, who);
    }
    assert Find(d, path) == Find(c, path) by {
      assert forall k :: 0 <= k < |c| ==> d[k].file.path == c[k].file.path;
    }
  }

  lemma ApplyKeeps(c: seq<Entry>, e: Event, who: Addr)
    requires WellFormed(c)
    ensures WellFormed(Apply(c, e, who))
  {
    match e.action
    case Modified => UpdateModLaw(c, e.file, who, "");
    case Created => InsertLaw(c, e.file, who, "");
    case Deleted => RemoveLaw(c, e.file.path, "");
    case DownloadComplete => AddPeerLaw(c, e.file.path, who, e.file.size, "");
  }

  lemma {:induction false} EventMergeKeeps(c: seq<Entry>, events: seq<Event>, who: Addr)
    requires WellFormed(c)
    ensures WellFormed(EventMerge(c, events, who))
    decreases |events|
  {
    if events == [] {
    } else {
      ApplyKeeps(c, events[0], who);
      EventMergeKeeps(Apply(c, events[0], who), events[1..], who);
    }
  }

  lemma TailLookup(c: seq<Entry>, path: string)
    requires WellFormed(c) && c != []
    ensures WellFormed(c[1..])
    ensures Lookup(c[1..], path) == if path == c[0].file.path then None else Lookup(c, path)
  {
    CutLaw(c, 0, 1, path);
    assert c[..0] + c[1..] == c[1..];
  }

  /** Two well-formed tables that answer every lookup alike are the same list. */
  lemma {:induction false} LookupsDetermine(c: seq<Entry>, d: seq<Entry>)
    requires WellFormed(c) && WellFormed(d)
    requires forall path :: Lookup(c, path) == Lookup(d, path)
    ensures c == d
    decreases |c|
  {
    if c == [] {
      if d != [] {
        LookupAbsent(c, d[0].file.path);
      }
    } else {
      FirstAgrees(c, d);
      forall path
        ensures Lookup(c[1..], path) == Lookup(d[1..], path)
      {
        TailLookup(c, path);
        TailLookup(d, path);
      }
      TailLookup(c, "");
      TailLookup(d, "");
      LookupsDetermine(c[1..], d[1..]);
      assert c == [c[0]] + c[1..] && d == [d[0]] + d[1..];
    }
  }

  lemma FirstAgrees(c: seq<Entry>, d: seq<Entry>)
    requires WellFormed(c) && WellFormed(d) && c != []
    requires forall path :: Lookup(c, path) == Lookup(d, path)
    ensures d != [] && c[0] == d[0]
  {
    FindAt(c, 0);
    assert Lookup(d, c[0].file.path) == Some(c[0]);
    var i := Find(d, c[0].file.path);
    FindAt(d, 0);
    assert Lookup(c, d[0].file.path) == Some(d[0]);
    var j := Find(c, d[0].file.path);
    if i > 0 && j > 0 {
      LessTotal(c[0].file.path, d[0].file.path);
    }
  }

  // ---- what directory removal takes with it ----

  /** path names something inside directory d. */
  predicate Inside(d: string, path: string) {
    HasPrefix(d + "/", path)
  }

  /** Removing a directory is meant to remove it and what it contains. It does, exactly when no
      path in the table merely continues the directory's name. */
  lemma RemoveIsExactIff(c: seq<Entry>, d: string)
    requires WellFormed(c) && Lookup(c, d).Some? && Lookup(c, d).value.file.isDir
    ensures (forall path ::
               Lookup(Remove(c, d), path) == if path == d || Inside(d, path) then None else Lookup(c, path))
      <==> forall i :: 0 <= i < |c| && HasPrefix(d, c[i].file.path) && |c[i].file.path| > |d| ==>
                         c[i].file.path[|d|] == '/'
  {
    forall path | HasPrefix(d, path) && |path| > |d|
      ensures Inside(d, path) <==> path[|d|] == '/'
    {
      assert path == d + path[|d|..];
    }
    if forall i :: 0 <= i < |c| && HasPrefix(d, c[i].file.path) && |c[i].file.path| > |d| ==>
                     c[i].file.path[|d|] == '/'
    {
      forall path
        ensures Lookup(Remove(c, d), path) == if path == d || Inside(d, path) then None else Lookup(c, path)
      {
        RemoveLaw(c, d, path);
        PrefixOfInside(d, path);
        var k := Find(c, path);
      }
    } else {
      var i :| 0 <= i < |c| && HasPrefix(d, c[i].file.path) && |c[i].file.path| > |d| && c[i].file.path[|d|] != '/';
      FindAt(c, i);
      RemoveLaw(c, d, c[i].file.path);
      assert !Inside(d, c[i].file.path);
    }
  }

  lemma PrefixOfInside(d: string, path: string)
    ensures Inside(d, path) ==> HasPrefix(d, path) && path != d
  {
    if Inside(d, path) {
      assert (d + "/")[..|d|] == d;
      assert path[..|d|] == d;
    }
  }

  /** Removing directory "doc" also removes the file "document". */
  lemma SiblingIsRemoved(who: Addr)
    ensures var c := [Entry(FileInfo("doc", 0, 1, true), [who]), Entry(FileInfo("document", 5, 1, false), [who])];
      WellFormed(c) && Lookup(c, "document").Some? && Remove(c, "doc") == []
  {
    assert HasPrefix("doc", "document");
    assert StrCmp("doc", "document") == StrCmp("oc", "ocument") == StrCmp("c", "cument") == StrCmp("", "ument") == -1;
    var c := [Entry(FileInfo("doc", 0, 1, true), [who]), Entry(FileInfo("document", 5, 1, false), [who])];
    assert Less(c[0].file.path, c[1].file.path);
    FindAt(c, 0);
    FindAt(c, 1);
    WithoutStretch(c, "doc", 0, 2);
  }
}
