/** Whether a peer is done after one run of update_from_filetable() and the downloads it starts:
    a second run with the same table plans nothing. */
module Fixpoint {
  import opened CStrings
  import opened Table
  import opened TableLaws
  import opened MergeLaws
  import opened Trees
  import opened Reconciles
  import opened Settling
  import opened Deletion
  import opened Wire

  // ---- the listing ----

  lemma {:induction false} ListingMember(w: seq<Visit>, f: FileInfo)
    ensures f in Listing(w) <==> exists v :: v in w && v.info == f && v.level <= MAX_DEPTH
  {
    if w == [] {
    } else {
      ListingMember(w[1..], f);
      assert w == [w[0]] + w[1..];
    }
  }

  lemma {:induction false} ListingDistinct(w: seq<Visit>)
    requires InOrder(w)
    ensures DistinctPaths(Listing(w))
  {
    if w == [] {
    } else {
      var rest, l := w[1..], Listing(w[1..]);
      assert forall i :: 0 <= i < |rest| ==> rest[i] == w[i + 1];
      ListingDistinct(rest);
      forall k | 0 <= k < |l|
        ensures l[k].path != w[0].info.path
      {
        assert l[k] in l;
        ListingMember(rest, l[k]);
        var v :| v in rest && v.info == l[k];
        var i :| 0 <= i < |rest| && rest[i] == v;
        assert MayFollow(w[0], w[i + 1]);
      }
    }
  }

  /** The listing has what is on disk and not too deep. */
  lemma ListingAt(w: seq<Visit>, disk: map<string, FileInfo>, path: string)
    requires Describes(w, disk)
    ensures DistinctPaths(Listing(w))
    ensures FileAt(Listing(w), path) == if path in disk && Depth(path) <= MAX_DEPTH then Some(disk[path]) else None
  {
    ListingDistinct(w);
    if path in disk && Depth(path) <= MAX_DEPTH {
      var m :| 0 <= m < |w| && w[m].info.path == path;
      assert w[m] in w;
      ListingMember(w, w[m].info);
      FileAtMember(Listing(w), w[m].info);
    } else if FileAt(Listing(w), path).Some? {
      ListingMember(w, FileAt(Listing(w), path).value);
    }
  }

  // ---- one run, from a peer at rest ----

  /** The table as a peer receives it: what an entry contains comes before it. */
  ghost predicate ContentsFirst(c: seq<Entry>) {
    forall i, j :: 0 <= i < j < |c| ==> !Inside(c[i].file.path, c[j].file.path)
  }

  ghost predicate GoodTable(c: seq<Entry>, now: int) {
    && UniquePaths(c) && ContentsFirst(c) && ParentClosed(c)
    && (forall e :: e in c ==> !IsDotfile(e.file.path) && e.file.mtime <= now && (e.file.isDir ==> e.file.size == 0))
  }

  /** The table received from a tracker whose table is well formed is in that order. */
  lemma ReceivedTableOrder(t: seq<Entry>)
    requires WellFormed(t)
    ensures UniquePaths(ReverseTable(t)) && ContentsFirst(ReverseTable(t))
    ensures forall e :: e in ReverseTable(t) ==> !IsDotfile(e.file.path)
  {
    var c := ReverseTable(t);
    forall i, j | 0 <= i < j < |c|
      ensures c[i].file.path != c[j].file.path && !Inside(c[i].file.path, c[j].file.path)
    {
      var p, q := c[i].file.path, c[j].file.path;
      assert Less(q, p);
      LessIrreflexive(p);
      LessTotal(p, q);
      PrefixOfInside(p, q);
      if HasPrefix(p, q) && p != q {
        PrefixLess(p, q);
      }
    }
  }

  /** No downloads under way and no marks. */
  predicate AtRest(s: Local) {
    s.started == [] && s.ignoreModify == multiset{}
  }

  ghost predicate AllListable(c: seq<Entry>) {
    forall e :: e in c ==> Depth(e.file.path) <= MAX_DEPTH
  }

  /** The directory of every missing file is there. */
  ghost predicate ParentsPresent(c: seq<Entry>, disk: map<string, FileInfo>) {
    forall e :: e in c && e.file.path !in disk ==> HasParent(disk, e.file.path)
  }

  lemma ParentKept(c: seq<Entry>, e: Entry, d: string)
    requires ParentClosed(c) && e in c && Parent(e.file.path) == Some(d)
    ensures Lookup(c, d).Some? && Lookup(c, d).value.file.isDir
  {
  }

  /** Every part of the plan whose entries have their directory works. */
  lemma PartReady(s: Local, c: seq<Entry>, me: Addr, w: seq<Visit>, now: int, part: seq<Chore>)
    requires Describes(w, s.disk) && GoodTable(c, now) && AtRest(s) && AllListable(c)
    requires forall a :: a in part ==> a in Plan(c, me, Listing(w))
    requires forall a :: a in part && a.Fetch? && Target(a) !in s.disk ==> HasParent(s.disk, Target(a))
    ensures AllReady(s, part)
  {
    var files := Listing(w);
    ListingAt(w, s.disk, "");
    forall a | a in part && a.Fetch?
      ensures Ready(s, a.entry)
    {
      FetchedIff(c, me, files, a.entry);
      ListingAt(w, s.disk, a.entry.file.path);
    }
    forall a, b | a in part && b in part && a.Fetch? && b.Delete?
      ensures Parent(a.entry.file.path) != Some(b.path)
    {
      FetchedIff(c, me, files, a.entry);
      DeletedIff(c, me, files, b.path);
      if Parent(a.entry.file.path).Some? {
        ParentKept(c, a.entry, Parent(a.entry.file.path).value);
      }
    }
  }

  lemma PlanReady(s: Local, c: seq<Entry>, me: Addr, w: seq<Visit>, now: int)
    requires Describes(w, s.disk) && GoodTable(c, now) && AtRest(s)
    requires AllListable(c) && ParentsPresent(c, s.disk)
    ensures AllReady(s, Plan(c, me, Listing(w))) && DistinctTargets(Plan(c, me, Listing(w)))
  {
    var plan := Plan(c, me, Listing(w));
    ListingDistinct(w);
    EachOnce(c, me, Listing(w));
    forall a | a in plan && a.Fetch? && Target(a) !in s.disk
      ensures HasParent(s.disk, Target(a))
    {
      FetchedIff(c, me, Listing(w), a.entry);
    }
    PartReady(s, c, me, w, now, plan);
  }

  /** What the run and its downloads leave at a path. */
  lemma RunOutcome(s: Local, c: seq<Entry>, me: Addr, w: seq<Visit>, now: int, path: string)
    requires Describes(w, s.disk) && GoodTable(c, now) && AtRest(s)
    requires AllListable(c) && ParentsPresent(c, s.disk)
    ensures var plan := Plan(c, me, Listing(w)); var r := Exec(s, plan, now);
      && Tidy(r) && (NoneStuck(s.disk, plan) ==> Marked(r))
      && match Lookup(c, path)
         case Some(e) =>
           if Fetch(e) in plan then Goal(r, path) == Some(Fetched(s.disk, e, now))
           else path in s.disk && Goal(r, path) == Some(s.disk[path]) && !Stale(s.disk[path], e, me)
         case None => Goal(r, path).Some? <==> path in s.disk && Survives(c, s.disk, path)
  {
    var files := Listing(w);
    var plan := Plan(c, me, files);
    ListingAt(w, s.disk, path);
    PlanReady(s, c, me, w, now);
    RunGoal(s, plan, now, path);
    match Lookup(c, path) {
      case Some(e) =>
        LookupMember(c, e);
        FetchedIff(c, me, files, e);
        if Fetch(e) !in plan {
          NobodyTargets(c, me, files, path);
        }
      case None => AfterBothLoops(s, c, me, w, now, path);
    }
  }

  lemma NobodyTargets(c: seq<Entry>, me: Addr, files: seq<FileInfo>, path: string)
    requires UniquePaths(c) && DistinctPaths(files)
    requires match Lookup(c, path)
             case Some(e) => Fetch(e) !in Plan(c, me, files)
             case None => FileAt(files, path).None? || IsDotfile(path)
    ensures forall a :: a in Plan(c, me, files) ==> Target(a) != path
  {
    forall a | a in Plan(c, me, files)
      ensures Target(a) != path
    {
      match a
      case Delete(p) => DeletedIff(c, me, files, p);
      case Fetch(e) =>
        FetchedIff(c, me, files, e);
        LookupMember(c, e);
    }
  }

  /** What the first loop leaves of a path that the table does not have. */
  lemma AfterFirstLoop(s: Local, c: seq<Entry>, me: Addr, w: seq<Visit>, now: int, path: string)
    requires Describes(w, s.disk) && AtRest(s) && Lookup(c, path).None?
    requires AllReady(s, FilePlan(c, me, Listing(w))) && DistinctTargets(FilePlan(c, me, Listing(w)))
    ensures Goal(Exec(s, FilePlan(c, me, Listing(w)), now), path).Some? <==> path in s.disk && Survives(c, s.disk, path)
  {
    var first := FilePlan(c, me, Listing(w));
    DeletionOutcome(s, c, me, w, now, path);
    forall a | a in first && a.Fetch?
      ensures Target(a) != path
    {
      FilePlanMeaning(c, me, Listing(w), a);
    }
    NotFetched(s, first, now, path);
  }

  /** And the second loop leaves that as it is. */
  lemma AfterBothLoops(s: Local, c: seq<Entry>, me: Addr, w: seq<Visit>, now: int, path: string)
    requires Describes(w, s.disk) && UniquePaths(c) && AtRest(s) && Lookup(c, path).None?
    requires var plan := Plan(c, me, Listing(w)); AllReady(s, plan) && DistinctTargets(plan)
    ensures Goal(Exec(s, Plan(c, me, Listing(w)), now), path).Some? <==> path in s.disk && Survives(c, s.disk, path)
  {
    var first, second := FilePlan(c, me, Listing(w)), MissingPlan(c, Listing(w));
    PlanHalves(s, first, second, now);
    AfterFirstLoop(s, c, me, w, now, path);
    ExecConcat(s, first, second, now);
    forall a | a in second
      ensures Target(a) != path
    {
      MissingPlanMeaning(c, Listing(w), a);
      LookupMember(c, a.entry);
    }
    RunGoal(Exec(s, first, now), second, now, path);
  }

  lemma {:induction false} PlanHalves(s: Local, first: seq<Chore>, second: seq<Chore>, now: int)
    requires AllReady(s, first + second) && DistinctTargets(first + second) && Tidy(s)
    ensures AllReady(s, first) && DistinctTargets(first)
    ensures AllReady(Exec(s, first, now), second) && DistinctTargets(second) && Tidy(Exec(s, first, now))
    decreases |first|
  {
    var all := first + second;
    assert forall i :: 0 <= i < |first| ==> all[i] == first[i];
    assert forall i :: 0 <= i < |second| ==> all[|first| + i] == second[i];
    if first != [] {
      assert all[0] in all && all[1..] == first[1..] + second;
      ReadyTail(s, all, now);
      GoalStep(s, all[0], now, "");
      PlanHalves(Do(s, first[0], now), first[1..], second, now);
    } else {
      assert all == second;
    }
  }

  // ---- a file that the table says this peer has ----

  /** If the table lists this peer at an entry whose file is in the listing, the plan leaves the
      file alone, whatever its time and size; so do the run and all downloads, in any order. */
  lemma OwnVersionStays(s: Local, c: seq<Entry>, me: Addr, w: seq<Visit>, now: int,
                        moves: seq<Move>, f: Local, e: Entry)
    requires Describes(w, s.disk) && UniquePaths(c) && e in c && me in e.peers
    requires FileAt(Listing(w), e.file.path).Some? && NotFetching(s, e.file.path)
    requires Interleaved(s, Plan(c, me, Listing(w)), now, moves, f)
    ensures forall a :: a in Plan(c, me, Listing(w)) ==> Target(a) != e.file.path
    ensures e.file.path in s.disk && e.file.path in f.disk
    ensures f.disk[e.file.path] == s.disk[e.file.path] && NotFetching(f, e.file.path)
  {
    var plan, path := Plan(c, me, Listing(w)), e.file.path;
    ListingAt(w, s.disk, path);
    forall a | a in plan
      ensures Target(a) != path
    {
      if Target(a) == path {
        NoChoreFor(c, me, Listing(w), e, a);
      }
    }
    OthersUntouched(s, plan, now, moves, f, path);
  }

  lemma NoChoreFor(c: seq<Entry>, me: Addr, files: seq<FileInfo>, e: Entry, a: Chore)
    requires UniquePaths(c) && DistinctPaths(files) && e in c && me in e.peers
    requires FileAt(files, e.file.path).Some? && Target(a) == e.file.path
    ensures a !in Plan(c, me, files)
  {
    LookupMember(c, e);
    match a
    case Delete(p) => DeletedIff(c, me, files, p);
    case Fetch(x) =>
      FetchedIff(c, me, files, x);
      LookupMember(c, x);
  }

  /** If it does not, the listed file is fetched exactly if it is older or of another size. */
  lemma OtherVersionIsFetchedIff(c: seq<Entry>, me: Addr, files: seq<FileInfo>, e: Entry, f: FileInfo)
    requires UniquePaths(c) && DistinctPaths(files) && e in c && me !in e.peers
    requires FileAt(files, e.file.path) == Some(f)
    ensures Fetch(e) in Plan(c, me, files) <==> f.mtime < e.file.mtime || f.size != e.file.size
  {
    FetchedIff(c, me, files, e);
  }

  /** A file just edited here, while the table still has the version before. */
  lemma LocalEditStays(me: Addr)
    ensures Plan([Entry(FileInfo("x", 10, 5, false), [me])], me, [FileInfo("x", 12, 6, false)]) == []
  {
    var x, f := Entry(FileInfo("x", 10, 5, false), [me]), FileInfo("x", 12, 6, false);
    var plan := Plan([x], me, [f]);
    assert x in [x] && me in x.peers;
    assert FilePlan([x], me, [f]) == Decide([x], me, f) + FilePlan([x], me, []);
    assert Find([x], "x") == 0;
    assert MissingPlan([x], [f]) == [] + MissingPlan([], [f]);
  }

  // ---- the second run ----

  /** The same files; the times of directories may have moved on as files in them came and went. */
  ghost predicate Touched(was: map<string, FileInfo>, disk: map<string, FileInfo>) {
    && (forall p :: p in disk <==> p in was)
    && (forall p :: p in disk ==>
          || disk[p] == was[p]
          || (was[p].isDir && disk[p] == was[p].(mtime := disk[p].mtime) && was[p].mtime <= disk[p].mtime))
  }

  /** f is where the peer may be after a run at time now and the end of all its downloads that can
      end, which complete during the run or after it. */
  ghost predicate Settles(s: Local, c: seq<Entry>, me: Addr, w: seq<Visit>, now: int, f: Local) {
    exists moves :: Interleaved(s, Plan(c, me, Listing(w)), now, moves, f) && Stalled(f)
  }

  /** That might have been reached by first the run and then the downloads. */
  lemma SettlesSerially(s: Local, c: seq<Entry>, me: Addr, w: seq<Visit>, now: int, f: Local)
    returns (ks: seq<nat>, g: Local)
    requires Describes(w, s.disk) && UniquePaths(c) && AtRest(s) && Settles(s, c, me, w, now, f)
    ensures Ended(Exec(s, Plan(c, me, Listing(w)), now), ks, g) && Stalled(g) && Same(f, g)
  {
    var plan := Plan(c, me, Listing(w));
    var moves :| Interleaved(s, plan, now, moves, f) && Stalled(f);
    ListingDistinct(w);
    EachOnce(c, me, Listing(w));
    ks, g := Serialised(s, plan, now, moves, f);
  }

  /** Nothing that the run would not list keeps it from deleting something. */
  ghost predicate AllDeletable(c: seq<Entry>, disk: map<string, FileInfo>) {
    forall p :: p in disk && !Kept(c, p) && Depth(p) <= MAX_DEPTH ==> !Survives(c, disk, p)
  }

  /** Where the table and the disk have a directory, or one has a directory and the other a file,
      the disk does not look stale. */
  ghost predicate NothingInTheWay(c: seq<Entry>, disk: map<string, FileInfo>, me: Addr) {
    forall e :: e in c && Stuck(disk, e) ==> !Stale(disk[e.file.path], e, me)
  }

  /** What nobody has is there and does not look stale. */
  ghost predicate NothingIsLost(c: seq<Entry>, disk: map<string, FileInfo>, me: Addr) {
    forall e :: e in c && Unserved(e) ==>
                  e.file.path in disk && (Stuck(disk, e) || !Stale(disk[e.file.path], e, me))
  }

  /** The entry cannot be fetched: something is in its way, or nobody has it, and it is wanted. */
  predicate Hopeless(disk: map<string, FileInfo>, e: Entry, me: Addr) {
    if Stuck(disk, e) then Stale(disk[e.file.path], e, me)
    else Unserved(e) && (e.file.path !in disk || Stale(disk[e.file.path], e, me))
  }

  /** What is at a path when everything has settled. */
  lemma SettledAt(s: Local, c: seq<Entry>, me: Addr, w: seq<Visit>, now: int, f: Local, path: string)
    requires Describes(w, s.disk) && GoodTable(c, now) && AtRest(s)
    requires AllListable(c) && ParentsPresent(c, s.disk) && Settles(s, c, me, w, now, f)
    ensures match Lookup(c, path)
            case Some(e) =>
              && path in f.disk && (Stuck(s.disk, e) ==> f.disk[path] == s.disk[path])
              && (Stale(f.disk[path], e, me) <==> Hopeless(s.disk, e, me))
            case None => path in f.disk <==> path in s.disk && Survives(c, s.disk, path)
  {
    var ks, g := SettlesSerially(s, c, me, w, now, f);
    RunOutcome(s, c, me, w, now, path);
    AllComplete(Exec(s, Plan(c, me, Listing(w)), now), ks, g, path);
    if Lookup(c, path).Some? {
      var e := Lookup(c, path).value;
      LookupMember(c, e);
      ListingAt(w, s.disk, path);
      FetchedIff(c, me, Listing(w), e);
      if !Stuck(s.disk, e) {
        FetchedIsCurrent(s, c, me, now, e);
      }
    }
  }

  lemma FetchedIsCurrent(s: Local, c: seq<Entry>, me: Addr, now: int, e: Entry)
    requires GoodTable(c, now) && e in c && !Stuck(s.disk, e)
    ensures Stale(Fetched(s.disk, e, now), e, me) <==> Unserved(e)
  {
  }

  /** Every file that was fetched has been reported to the tracker, exactly once. */
  lemma EachFetchIsReported(s: Local, c: seq<Entry>, me: Addr, w: seq<Visit>, now: int, f: Local)
    requires Describes(w, s.disk) && GoodTable(c, now) && AtRest(s)
    requires AllListable(c) && ParentsPresent(c, s.disk) && Settles(s, c, me, w, now, f)
    ensures multiset(f.told) == multiset(s.told) + FetchedFiles(s.disk, Plan(c, me, Listing(w)))
  {
    var plan := Plan(c, me, Listing(w));
    var ks, g := SettlesSerially(s, c, me, w, now, f);
    PlanReady(s, c, me, w, now);
    RunReports(s, plan, now);
    AllReported(Exec(s, plan, now), ks, g);
  }

  // ---- what the tracker makes of the reports ----

  function Completions(files: seq<FileInfo>): (r: seq<Event>)
    ensures |r| == |files| && forall i :: 0 <= i < |files| ==> r[i] == Event(DownloadComplete, files[i])
  {
    seq(|files|, i requires 0 <= i < |files| => Event(DownloadComplete, files[i]))
  }

  /** Completed downloads leave the file alone and drop nobody. */
  lemma {:induction false} CompletionsKeep(t: seq<Entry>, files: seq<FileInfo>, me: Addr, path: string)
    requires WellFormed(t) && Lookup(t, path).Some?
    ensures var after := EventMerge(t, Completions(files), me);
      && WellFormed(after) && Lookup(after, path).Some?
      && Lookup(after, path).value.file == Lookup(t, path).value.file
      && (forall p :: p in Lookup(t, path).value.peers ==> p in Lookup(after, path).value.peers)
      && (forall p :: p in Lookup(after, path).value.peers ==> p in Lookup(t, path).value.peers || p == me)
    decreases |files|
  {
    if files == [] {
      assert Completions(files) == [];
    } else {
      var f, rest := files[0], files[1..];
      assert Completions(files)[1..] == Completions(rest);
      AddPeerLaw(t, f.path, me, f.size, path);
      CompletionsKeep(AddPeer(t, f.path, me, f.size), rest, me, path);
    }
  }

  /** A reported file is listed for this peer, unless its size has changed in the table since, or
      the peer's ip is listed under another port. */
  lemma {:induction false} ReportedIsListed(t: seq<Entry>, files: seq<FileInfo>, me: Addr, f: FileInfo)
    requires WellFormed(t) && f in files && Lookup(t, f.path).Some? && Lookup(t, f.path).value.file.size == f.size
    requires forall p :: p in Lookup(t, f.path).value.peers && p.ip == me.ip ==> p == me
    ensures Lookup(EventMerge(t, Completions(files), me), f.path).Some?
    ensures me in Lookup(EventMerge(t, Completions(files), me), f.path).value.peers
    decreases |files|
  {
    var g, rest := files[0], files[1..];
    var next := AddPeer(t, g.path, me, g.size);
    assert Completions(files)[1..] == Completions(rest);
    AddPeerLaw(t, g.path, me, g.size, f.path);
    if g == f {
      var peers := Lookup(t, f.path).value.peers;
      if Lists(peers, me.ip) {
        var k :| 0 <= k < |peers| && peers[k].ip == me.ip;
        assert peers[k] in peers;
      }
      CompletionsKeep(next, rest, me, f.path);
    } else {
      ReportedIsListed(next, rest, me, f);
    }
  }

  lemma {:induction false} FetchedIsAmong(disk: map<string, FileInfo>, plan: seq<Chore>, e: Entry)
    requires Fetch(e) in plan && !Stuck(disk, e) && !Unserved(e)
    ensures e.file in FetchedFiles(disk, plan)
  {
    if plan[0] != Fetch(e) {
      assert plan == [plan[0]] + plan[1..];
      FetchedIsAmong(disk, plan[1..], e);
    }
  }

  /** So, whatever the tracker's table has become, this peer is listed for every file it fetched. */
  lemma FetchedIsListed(s: Local, c: seq<Entry>, me: Addr, w: seq<Visit>, now: int, f: Local, e: Entry, t: seq<Entry>)
    requires Describes(w, s.disk) && GoodTable(c, now) && AtRest(s)
    requires AllListable(c) && ParentsPresent(c, s.disk) && Settles(s, c, me, w, now, f)
    requires Fetch(e) in Plan(c, me, Listing(w)) && !Stuck(s.disk, e) && !Unserved(e)
    requires WellFormed(t) && Lookup(t, e.file.path).Some? && Lookup(t, e.file.path).value.file.size == e.file.size
    requires forall p :: p in Lookup(t, e.file.path).value.peers && p.ip == me.ip ==> p == me
    ensures var after := Lookup(EventMerge(t, Completions(f.told), me), e.file.path);
      after.Some? && me in after.value.peers
  {
    EachFetchIsReported(s, c, me, w, now, f);
    FetchedIsAmong(s.disk, Plan(c, me, Listing(w)), e);
    assert e.file in multiset(f.told);
    ReportedIsListed(t, f.told, me, e.file);
  }

  /** If nothing was in the way and somebody has everything that is wanted, no download is left and
      no mark. */
  lemma NoMarksAreLeft(s: Local, c: seq<Entry>, me: Addr, w: seq<Visit>, now: int, f: Local)
    requires Describes(w, s.disk) && GoodTable(c, now) && AtRest(s)
    requires AllListable(c) && ParentsPresent(c, s.disk)
    requires NothingInTheWay(c, s.disk, me) && NothingIsLost(c, s.disk, me)
    requires Settles(s, c, me, w, now, f)
    ensures f.started == [] && f.ignoreModify == multiset{}
  {
    var ks, g := SettlesSerially(s, c, me, w, now, f);
    var plan := Plan(c, me, Listing(w));
    PlanReady(s, c, me, w, now);
    forall a | a in plan && a.Fetch?
      ensures !Stuck(s.disk, a.entry) && !Unserved(a.entry)
    {
      ListingAt(w, s.disk, Target(a));
      FetchedIff(c, me, Listing(w), a.entry);
    }
    forall x | x in Exec(s, plan, now).started
      ensures x.peers != []
    {
      StartedByPlan(s, plan, now, x);
    }
    RunOutcome(s, c, me, w, now, "");
    AllComplete(Exec(s, plan, now), ks, g, "");
    AllEnd(Exec(s, plan, now), ks, g);
  }

  lemma FirstIsMember(es: seq<Entry>)
    ensures es == [] || es[0] in es
  {
  }

  lemma {:induction false} AllEnd(s: Local, ks: seq<nat>, r: Local)
    requires Ended(s, ks, r) && Stalled(r) && forall x :: x in s.started ==> x.peers != []
    ensures r.started == []
    decreases |ks|
  {
    if ks == [] {
      FirstIsMember(s.started);
    } else {
      AllEnd(Complete(s, ks[0]), ks[1..], r);
    }
  }

  /** A table entry too deep to be listed is downloaded by every run. */
  lemma TooDeepIsFetchedAgain(c: seq<Entry>, me: Addr, w: seq<Visit>, disk: map<string, FileInfo>, e: Entry)
    requires UniquePaths(c) && Describes(w, disk) && e in c && Depth(e.file.path) > MAX_DEPTH
    ensures Fetch(e) in Plan(c, me, Listing(w))
  {
    ListingAt(w, disk, e.file.path);
    FetchedIff(c, me, Listing(w), e);
  }

  /** What is left to do for a second run that finds disk2: what was to be deleted but contained
      something that stays, and what looks stale. */
  ghost predicate LeftToDo(s: Local, c: seq<Entry>, me: Addr, disk2: map<string, FileInfo>, a: Chore) {
    match a
    case Delete(p) => p in s.disk && !Kept(c, p) && Depth(p) <= MAX_DEPTH && Survives(c, s.disk, p)
    case Fetch(e) => e in c && e.file.path in disk2 && Stale(disk2[e.file.path], e, me)
  }

  /** That is what it plans, when the first could be carried out. */
  lemma SecondPlan(s: Local, c: seq<Entry>, me: Addr, w: seq<Visit>, now: int,
                   f: Local, w2: seq<Visit>, disk2: map<string, FileInfo>, a: Chore)
    requires Describes(w, s.disk) && GoodTable(c, now) && AtRest(s)
    requires AllListable(c) && ParentsPresent(c, s.disk)
    requires Settles(s, c, me, w, now, f) && Touched(f.disk, disk2) && Describes(w2, disk2)
    ensures a in Plan(c, me, Listing(w2)) <==> LeftToDo(s, c, me, disk2, a)
  {
    SettledAt(s, c, me, w, now, f, Target(a));
    ListingAt(w2, disk2, Target(a));
    match a {
      case Delete(p) => DeletedIff(c, me, Listing(w2), p);
      case Fetch(e) =>
        LookupMember(c, e);
        FetchedIff(c, me, Listing(w2), e);
    }
  }

  /** When the run could do all it was to do, there is nothing left for a second one. */
  lemma SecondRunIsIdle(s: Local, c: seq<Entry>, me: Addr, w: seq<Visit>, now: int,
                        f: Local, w2: seq<Visit>, disk2: map<string, FileInfo>)
    requires Describes(w, s.disk) && GoodTable(c, now) && AtRest(s)
    requires AllListable(c) && ParentsPresent(c, s.disk) && AllDeletable(c, s.disk)
    requires NothingInTheWay(c, s.disk, me) && NothingIsLost(c, s.disk, me)
    requires Settles(s, c, me, w, now, f) && Touched(f.disk, disk2) && Describes(w2, disk2)
    ensures Plan(c, me, Listing(w2)) == []
  {
    var plan := Plan(c, me, Listing(w2));
    assert plan != [] ==> plan[0] in plan;
    forall a
      ensures a !in plan
    {
      SecondPlan(s, c, me, w, now, f, w2, disk2, a);
      if a.Fetch? && a.entry in c {
        LookupMember(c, a.entry);
        SettledAt(s, c, me, w, now, f, Target(a));
      }
    }
  }

  // ---- missing directories ----

  lemma {:induction false} MissingPlanConcat(a: seq<Entry>, b: seq<Entry>, files: seq<FileInfo>)
    ensures MissingPlan(a + b, files) == MissingPlan(a, files) + MissingPlan(b, files)
  {
    if a == [] {
      assert a + b == b;
    } else {
      assert (a + b)[1..] == a[1..] + b;
      MissingPlanConcat(a[1..], b, files);
    }
  }

  ghost predicate Orphan(s: Local, e: Entry) {
    e.file.path !in s.disk && !HasParent(s.disk, e.file.path)
  }

  /** A path that is neither fetched nor made for the sake of something in it stays absent. */
  lemma {:induction false} StaysAbsent(s: Local, plan: seq<Chore>, now: int, path: string)
    requires Tidy(s) && Goal(s, path) == None
    requires forall a :: a in plan && a.Fetch? ==> Target(a) != path && Parent(Target(a)) != Some(path)
    ensures Tidy(Exec(s, plan, now)) && Goal(Exec(s, plan, now), path) == None
    decreases |plan|
  {
    if plan == [] {
    } else {
      assert plan[0] in plan && plan == [plan[0]] + plan[1..];
      AbsentStep(s, plan[0], now, path);
      StaysAbsent(Do(s, plan[0], now), plan[1..], now, path);
    }
  }

  lemma AbsentStep(s: Local, a: Chore, now: int, path: string)
    requires Tidy(s) && Goal(s, path) == None
    requires a.Fetch? ==> Target(a) != path && Parent(Target(a)) != Some(path)
    ensures Tidy(Do(s, a, now)) && Goal(Do(s, a, now), path) == None
  {
    if a.Fetch? && a.entry.file.path !in s.ignoreModify {
      var e := a.entry;
      NotStarted(s, e);
      if !e.file.isDir && CanOpen(s.disk, e.file.path) && e.file.size > 0 {
        StartStep(s, e, Do(s, a, now), path);
      }
    }
  }

  /** Downloading something whose directory is missing only marks its path. */
  lemma OrphanStep(s: Local, e: Entry, now: int)
    requires Tidy(s) && Goal(s, e.file.path) == None && !HasParent(s.disk, e.file.path)
    ensures Tidy(Download(s, e, now)) && Goal(Download(s, e, now), e.file.path) == None
  {
    if Parent(e.file.path).Some? {
      InsideIsLonger(Parent(e.file.path).value, e.file.path);
    }
  }

  /** The plan around the k-th entry, which is missing. */
  lemma PlanAround(c: seq<Entry>, me: Addr, files: seq<FileInfo>, k: nat)
    requires k < |c| && FileAt(files, c[k].file.path).None?
    ensures Plan(c, me, files) ==
            FilePlan(c, me, files) + MissingPlan(c[..k], files) + ([Fetch(c[k])] + MissingPlan(c[k + 1..], files))
  {
    assert c == c[..k] + c[k..] && c[k..][1..] == c[k + 1..];
    MissingPlanConcat(c[..k], c[k..], files);
  }

  /** The plan up to the first entry whose directory is missing works, and makes neither. */
  lemma BeforeOrphan(s: Local, c: seq<Entry>, me: Addr, w: seq<Visit>, now: int, k: nat)
    requires Describes(w, s.disk) && GoodTable(c, now) && AtRest(s) && AllListable(c)
    requires k < |c| && Orphan(s, c[k]) && forall i :: 0 <= i < k ==> !Orphan(s, c[i])
    ensures var r := Exec(s, FilePlan(c, me, Listing(w)) + MissingPlan(c[..k], Listing(w)), now);
      Tidy(r) && Goal(r, c[k].file.path) == None && !HasParent(r.disk, c[k].file.path)
  {
    var files, path := Listing(w), c[k].file.path;
    var part := FilePlan(c, me, files) + MissingPlan(c[..k], files);
    ListingAt(w, s.disk, path);
    PlanAround(c, me, files, k);
    EachOnce(c, me, files);
    var plan := Plan(c, me, files);
    assert forall i :: 0 <= i < |part| ==> part[i] == plan[i];
    forall a | a in part
      ensures FileAt(files, Target(a)).Some? || (a.Fetch? && a.entry in c[..k])
    {
      if a in FilePlan(c, me, files) {
        FilePlanDistinct(c, me, files);
      } else {
        MissingPlanMeaning(c[..k], files, a);
      }
    }
    forall a | a in part && Target(a) !in s.disk
      ensures a.Fetch? && HasParent(s.disk, Target(a)) && Target(a) != path && Parent(path) != Some(Target(a))
    {
      ListingAt(w, s.disk, Target(a));
      var i :| 0 <= i < k && c[i] == a.entry;
      assert !Orphan(s, c[i]) && !Inside(c[i].file.path, c[k].file.path);
    }
    PartReady(s, c, me, w, now, part);
    RunGoal(s, part, now, path);
    ParentUntouched(s, c, me, w, now, part, c[k]);
    RunKeepsAt(s, part, now, Parent(path).value);
  }

  /** Where a directory is missing, the plan so far has not put anything there. */
  lemma ParentUntouched(s: Local, c: seq<Entry>, me: Addr, w: seq<Visit>, now: int, part: seq<Chore>, e: Entry)
    requires Describes(w, s.disk) && GoodTable(c, now) && e in c && Orphan(s, e)
    requires forall a :: a in part ==> a in Plan(c, me, Listing(w))
    requires forall a :: a in part && Target(a) !in s.disk ==> Parent(e.file.path) != Some(Target(a))
    ensures forall a :: a in part && Some(Target(a)) == Parent(e.file.path) ==> a.Fetch? && Stuck(s.disk, a.entry)
  {
    ListingDistinct(w);
    forall a | a in part && Some(Target(a)) == Parent(e.file.path)
      ensures a.Fetch? && Stuck(s.disk, a.entry)
    {
      ParentKept(c, e, Target(a));
      match a
      case Delete(p) => DeletedIff(c, me, Listing(w), p);
      case Fetch(x) =>
        FetchedIff(c, me, Listing(w), x);
        LookupMember(c, x);
    }
  }

  /** The first entry whose directory is missing is still missing in the end. */
  lemma OrphanStaysMissing(s: Local, c: seq<Entry>, me: Addr, w: seq<Visit>, now: int, k: nat)
    requires Describes(w, s.disk) && GoodTable(c, now) && AtRest(s) && AllListable(c)
    requires k < |c| && Orphan(s, c[k]) && forall i :: 0 <= i < k ==> !Orphan(s, c[i])
    ensures var r := Exec(s, Plan(c, me, Listing(w)), now); Tidy(r) && Goal(r, c[k].file.path) == None
  {
    var files, path := Listing(w), c[k].file.path;
    var part, rest := FilePlan(c, me, files) + MissingPlan(c[..k], files), MissingPlan(c[k + 1..], files);
    ListingAt(w, s.disk, path);
    PlanAround(c, me, files, k);
    BeforeOrphan(s, c, me, w, now, k);
    var r := Exec(s, part, now);
    ExecConcat(s, part, [Fetch(c[k])] + rest, now);
    assert ([Fetch(c[k])] + rest)[1..] == rest;
    OrphanStep(r, c[k], now);
    forall a | a in rest
      ensures a.Fetch? && Target(a) != path && Parent(Target(a)) != Some(path)
    {
      MissingPlanMeaning(c[k + 1..], files, a);
      var j :| 0 <= j < |c[k + 1..]| && c[k + 1..][j] == a.entry;
      assert c[k + 1 + j] == a.entry;
    }
    StaysAbsent(Download(r, c[k], now), rest, now, path);
  }

  lemma {:induction false} FirstOrphan(s: Local, c: seq<Entry>) returns (k: nat)
    requires !ParentsPresent(c, s.disk)
    ensures k < |c| && Orphan(s, c[k]) && forall i :: 0 <= i < k ==> !Orphan(s, c[i])
  {
    k := 0;
    var e :| e in c && Orphan(s, e);
    var m :| 0 <= m < |c| && c[m] == e;
    while !Orphan(s, c[k])
      invariant k <= m && forall i :: 0 <= i < k ==> !Orphan(s, c[i])
      decreases m - k
    {
      k := k + 1;
    }
  }

  /** From a peer at rest, the run and its downloads leave nothing for a second run to do that finds
      the directory as they left it, if and only if, before the run, every entry is shallow enough
      to be listed, the directory of every missing file is there, nothing to be deleted contains
      something too deep, no directory is in the way, and nothing is lost. */
  lemma FixpointIff(s: Local, c: seq<Entry>, me: Addr, w: seq<Visit>, now: int, f: Local, w2: seq<Visit>)
    requires Describes(w, s.disk) && GoodTable(c, now) && AtRest(s)
    requires Settles(s, c, me, w, now, f) && Describes(w2, f.disk)
    ensures Plan(c, me, Listing(w2)) == [] <==>
            && AllListable(c) && ParentsPresent(c, s.disk) && AllDeletable(c, s.disk)
            && NothingInTheWay(c, s.disk, me) && NothingIsLost(c, s.disk, me)
  {
    if !AllListable(c) {
      var e :| e in c && Depth(e.file.path) > MAX_DEPTH;
      TooDeepIsFetchedAgain(c, me, w2, f.disk, e);
    } else if !ParentsPresent(c, s.disk) {
      var k := FirstOrphan(s, c);
      var ks, g := SettlesSerially(s, c, me, w, now, f);
      OrphanStaysMissing(s, c, me, w, now, k);
      AllComplete(Exec(s, Plan(c, me, Listing(w)), now), ks, g, c[k].file.path);
      ListingAt(w2, f.disk, c[k].file.path);
      FetchedIff(c, me, Listing(w2), c[k]);
    } else if AllDeletable(c, s.disk) && NothingInTheWay(c, s.disk, me) && NothingIsLost(c, s.disk, me) {
      SecondRunIsIdle(s, c, me, w, now, f, w2, f.disk);
    } else {
      SomethingIsLeft(s, c, me, w, now, f, w2);
    }
  }

  lemma SomethingIsLeft(s: Local, c: seq<Entry>, me: Addr, w: seq<Visit>, now: int, f: Local, w2: seq<Visit>)
    requires Describes(w, s.disk) && GoodTable(c, now) && AtRest(s)
    requires AllListable(c) && ParentsPresent(c, s.disk)
    requires !AllDeletable(c, s.disk) || !NothingInTheWay(c, s.disk, me) || !NothingIsLost(c, s.disk, me)
    requires Settles(s, c, me, w, now, f) && Describes(w2, f.disk)
    ensures Plan(c, me, Listing(w2)) != []
  {
    if !AllDeletable(c, s.disk) {
      var p :| p in s.disk && !Kept(c, p) && Depth(p) <= MAX_DEPTH && Survives(c, s.disk, p);
      SecondPlan(s, c, me, w, now, f, w2, f.disk, Delete(p));
    } else {
      var e :| e in c && Hopeless(s.disk, e, me);
      LookupMember(c, e);
      SettledAt(s, c, me, w, now, f, e.file.path);
      SecondPlan(s, c, me, w, now, f, w2, f.disk, Fetch(e));
    }
  }

  // ---- inputs at which it fails ----

  lemma NestedPaths()
    ensures Parent("d/x") == Some("d") && Parent("d") == None && Depth("d/x") == 2 && Depth("d") == 1
    ensures forall d :: Inside(d, "d/x") <==> d == "d"
    ensures forall d :: !Inside(d, "d")
  {
    assert "d/x"[..2] == "d/" && "d/"[..1] == "d" && "d"[..0] == "";
    assert LastSlash("d/x") == LastSlash("d/") == 1;
    assert "d/x"[..1] == "d";
    assert LastSlash("d") == LastSlash("") == -1;
    assert Slashes("d/x") == Slashes("/x") == 1 + Slashes("x");
    assert Slashes("x") == 0 && Slashes("d") == 0;
    forall d
      ensures Inside(d, "d/x") <==> d == "d"
      ensures !Inside(d, "d")
    {
      if Inside(d, "d/x") {
        assert "d/x"[|d|] == (d + "/")[|d|];
        assert d == (d + "/")[..|d|] == "d/x"[..|d|];
      }
      if |d + "/"| <= 1 {
        assert (d + "/")[0] != "d"[0];
      }
    }
  }

  /** A new directory with a file in it, as a peer receives it. */
  function NewDirectory(who: Addr): seq<Entry> {
    [Entry(FileInfo("d/x", 5, 1, false), [who]), Entry(FileInfo("d", 0, 1, true), [who])]
  }

  const NOBODY: Local := Local(map[], multiset{}, [], [], [])

  lemma NewDirectoryIsGood(who: Addr)
    ensures var c := NewDirectory(who);
      GoodTable(c, 1) && AtRest(NOBODY) && AllListable(c) && Orphan(NOBODY, c[0]) && !ParentsPresent(c, NOBODY.disk)
  {
    NestedPaths();
    var c := NewDirectory(who);
    assert Find(c, "d") == 1;
    assert c[0] in c && Orphan(NOBODY, c[0]);
  }

  lemma NewDirectoryPlan(me: Addr, who: Addr)
    ensures var c := NewDirectory(who); Plan(c, me, []) == [Fetch(c[0]), Fetch(c[1])]
  {
    var c := NewDirectory(who);
    assert c[1..] == [c[1]] && [c[1]][1..] == [];
    assert MissingPlan([c[1]], []) == [Fetch(c[1])];
    assert MissingPlan(c, []) == [Fetch(c[0])] + [Fetch(c[1])];
  }

  /** A peer with an empty directory makes the new one for the sake of the file, does not fetch
      the file, and leaves both marked, so that the next run, which plans to fetch it, changes
      nothing either. */
  lemma NewDirectoryIsNotCompleted(me: Addr, who: Addr)
    ensures var c := NewDirectory(who);
      var r := Exec(NOBODY, Plan(c, me, []), 1);
      && r == Local(map["d" := FileInfo("d", 0, 1, true)], multiset{"d/x", "d"}, [], [], ["d/x"])
      && Exec(r, [Fetch(c[0])], 1) == r
  {
    NestedPaths();
    NewDirectoryPlan(me, who);
    var c := NewDirectory(who);
    var mid := Download(NOBODY, c[0], 1);
    assert mid == Local(map["d" := FileInfo("d", 0, 1, true)], multiset{"d/x"}, [], [], ["d/x"]);
    assert [Fetch(c[0]), Fetch(c[1])][1..] == [Fetch(c[1])];
    ExecOne(mid, Fetch(c[1]), 1);
    ExecOne(Exec(NOBODY, Plan(c, me, []), 1), Fetch(c[0]), 1);
  }

  /** A file six levels deep is fetched again by every run, whatever is on disk. */
  lemma SixLevelsAreFetchedAgain(me: Addr, who: Addr, w: seq<Visit>, disk: map<string, FileInfo>)
    requires Describes(w, disk)
    ensures var e := Entry(FileInfo("a/b/c/d/e/f", 5, 1, false), [who]); Fetch(e) in Plan([e], me, Listing(w))
  {
    var e := Entry(FileInfo("a/b/c/d/e/f", 5, 1, false), [who]);
    SixLevels(e.file.path);
    assert e in [e];
    TooDeepIsFetchedAgain([e], me, w, disk, e);
  }

  /** A directory that is older than in the table is marked, and nothing else happens. */
  lemma OldDirectoryIsMarked(s: Local, who: Addr, me: Addr, now: int)
    requires "d" in s.disk && s.disk["d"] == FileInfo("d", 0, 3, true) && "d" !in s.ignoreModify && me != who
    ensures var d := Entry(FileInfo("d", 0, 5, true), [who]);
      && Decide([d], me, s.disk["d"]) == [Fetch(d)]
      && Download(s, d, now) == s.(ignoreModify := s.ignoreModify + multiset{"d"})
  {
    assert Find([Entry(FileInfo("d", 0, 5, true), [who])], "d") == 0;
  }

  /** A file whose last holder is gone from the table: an older copy is truncated, marked, and never
      filled again. */
  lemma LostFileIsTruncated(s: Local, me: Addr, now: int)
    requires "x" in s.disk && s.disk["x"] == FileInfo("x", 9, 3, false)
    requires s.ignoreModify == multiset{} && s.started == []
    ensures var x := Entry(FileInfo("x", 9, 5, false), []); var r := Download(s, x, now);
      && Decide([x], me, s.disk["x"]) == [Fetch(x)]
      && r.disk["x"] == FileInfo("x", 0, now, false) && r.ignoreModify == multiset{"x"}
      && Stalled(r)
  {
    var x := Entry(FileInfo("x", 9, 5, false), []);
    assert Find([x], "x") == 0;
  }
}
