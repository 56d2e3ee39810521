/** What a run of update_from_filetable() and the downloads it starts leave behind, in whatever
    order and however early the downloads complete. */
module Settling {
  import opened Table
  import opened TableLaws
  import opened Reconciles
  import opened Wire

  // ---- downloads complete ----

  /** The k-th download under way ends: the file has its content, and its time is set to that of
      the entry; then download_complete_callback(). */
  function Complete(s: Local, k: nat): Local
    requires k < |s.started|
  {
    var f := s.started[k].file;
    s.(disk := s.disk[f.path := f], ignoreModify := s.ignoreModify - multiset{f.path},
       started := s.started[..k] + s.started[k + 1..], told := s.told + [f])
  }

  /** The k-th download has someone to download from. Without, no thread fetches a segment, and the
      saver waits for good. */
  predicate CanEnd(s: Local, k: nat) {
    k < |s.started| && s.started[k].peers != []
  }

  /** Downloads ending in the order ks lead from s to r. */
  ghost predicate Ended(s: Local, ks: seq<nat>, r: Local)
    decreases |ks|
  {
    if ks == [] then r == s else CanEnd(s, ks[0]) && Ended(Complete(s, ks[0]), ks[1..], r)
  }

  /** No download will end any more. */
  ghost predicate Stalled(s: Local) {
    forall e :: e in s.started ==> e.peers == []
  }

  /** What will be at a path when every download that can has ended. */
  function Goal(s: Local, path: string): Option<FileInfo> {
    if Lookup(s.started, path).Some? && Lookup(s.started, path).value.peers != []
    then Some(Lookup(s.started, path).value.file)
    else if path in s.disk then Some(s.disk[path])
    else None
  }

  /** One download at most for a path, and its path is marked. */
  ghost predicate Tidy(s: Local) {
    UniquePaths(s.started) && forall e :: e in s.started ==> e.file.path in s.ignoreModify
  }

  /** The marks are those of the downloads under way. */
  ghost predicate Marked(s: Local) {
    forall p :: s.ignoreModify[p] == if Lookup(s.started, p).Some? then 1 else 0
  }

  lemma AddedLookup(es: seq<Entry>, e: Entry, path: string)
    requires UniquePaths(es) && Lookup(es, e.file.path).None?
    ensures UniquePaths(es + [e])
    ensures Lookup(es + [e], path) == if path == e.file.path then Some(e) else Lookup(es, path)
  {
    var all := es + [e];
    assert all[|es|] == e;
    assert forall i :: 0 <= i < |es| ==> all[i] == es[i];
  }

  lemma CutUnique(es: seq<Entry>, k: nat)
    requires UniquePaths(es) && k < |es|
    ensures var rest := es[..k] + es[k + 1..];
      UniquePaths(rest) && forall e :: e in rest <==> e in es && e != es[k]
  {
    var rest := es[..k] + es[k + 1..];
    assert es == es[..k] + [es[k]] + es[k + 1..];
    forall i, j | 0 <= i < j < |rest|
      ensures rest[i].file.path != rest[j].file.path
    {
      var p, q := if i < k then i else i + 1, if j < k then j else j + 1;
      assert rest[i] == es[p] && rest[j] == es[q];
    }
    forall i | 0 <= i < |rest|
      ensures rest[i] != es[k]
    {
      var p := if i < k then i else i + 1;
      assert rest[i] == es[p];
    }
  }

  lemma CutLookup(es: seq<Entry>, k: nat, path: string)
    requires UniquePaths(es) && k < |es|
    ensures var rest := es[..k] + es[k + 1..];
      && UniquePaths(rest)
      && Lookup(rest, path) == if path == es[k].file.path then None else Lookup(es, path)
  {
    var rest := es[..k] + es[k + 1..];
    CutUnique(es, k);
    LookupMember(es, es[k]);
    match Lookup(es, path) {
      case Some(e) =>
        LookupMember(es, e);
        LookupMember(rest, e);
      case None =>
    }
    match Lookup(rest, path) {
      case Some(e) =>
        LookupMember(rest, e);
        LookupMember(es, e);
      case None =>
    }
  }

  lemma CompleteKeeps(s: Local, k: nat, path: string)
    requires CanEnd(s, k) && Tidy(s)
    ensures Tidy(Complete(s, k)) && Goal(Complete(s, k), path) == Goal(s, path)
    ensures Marked(s) ==> Marked(Complete(s, k))
  {
    var e := s.started[k];
    forall p
      ensures Lookup(Complete(s, k).started, p) == if p == e.file.path then None else Lookup(s.started, p)
    {
      CutLookup(s.started, k, p);
    }
    CutLookup(s.started, k, path);
    assert Find(s.started, e.file.path) == k;
    TidyAfterEnd(s, k);
  }

  lemma TidyAfterEnd(s: Local, k: nat)
    requires k < |s.started| && Tidy(s)
    ensures Tidy(Complete(s, k))
  {
    var r := Complete(s, k);
    CutUnique(s.started, k);
    forall x | x in r.started
      ensures x.file.path in r.ignoreModify
    {
      LookupMember(s.started, x);
      LookupMember(s.started, s.started[k]);
    }
  }

  /** In whatever order the downloads end. */
  lemma {:induction false} AllComplete(s: Local, ks: seq<nat>, r: Local, path: string)
    requires Tidy(s) && Ended(s, ks, r) && Stalled(r)
    ensures Goal(s, path) == if path in r.disk then Some(r.disk[path]) else None
    ensures Marked(s) ==> Marked(r)
    decreases |ks|
  {
    if ks == [] {
      if Lookup(r.started, path).Some? {
        assert Lookup(r.started, path).value in r.started;
      }
    } else {
      CompleteKeeps(s, ks[0], path);
      AllComplete(Complete(s, ks[0]), ks[1..], r, path);
    }
  }

  // ---- a run in which every directory is there ----

  /** There is something at the path that a download does not replace. */
  predicate Stuck(disk: map<string, FileInfo>, e: Entry) {
    e.file.path in disk && (e.file.isDir || disk[e.file.path].isDir)
  }

  /** The path is not marked, and there is something there or a directory for it. */
  predicate Ready(s: Local, e: Entry) {
    e.file.path !in s.ignoreModify && (e.file.path in s.disk || HasParent(s.disk, e.file.path))
  }

  ghost predicate AllReady(s: Local, plan: seq<Chore>) {
    && (forall a :: a in plan && a.Fetch? ==> Ready(s, a.entry))
    && (forall a, b :: a in plan && b in plan && a.Fetch? && b.Delete? ==> Parent(a.entry.file.path) != Some(b.path))
  }

  ghost predicate NoneStuck(disk: map<string, FileInfo>, plan: seq<Chore>) {
    forall a :: a in plan && a.Fetch? ==> !Stuck(disk, a.entry)
  }

  /** A file with content that nobody has. */
  predicate Unserved(e: Entry) {
    !e.file.isDir && e.file.size > 0 && e.peers == []
  }

  /** What a download leaves at its path in the end: directories and empty files are just made,
      what is in the way stays, and of a file that nobody has there is only the placeholder. */
  function Fetched(disk: map<string, FileInfo>, e: Entry, now: int): FileInfo {
    if Stuck(disk, e) then disk[e.file.path]
    else if e.file.isDir || e.file.size == 0 || Unserved(e) then FileInfo(e.file.path, 0, now, e.file.isDir)
    else e.file
  }

  lemma ReadyStep(s: Local, a: Chore, b: Chore, now: int)
    requires b.Fetch? && Ready(s, b.entry) && Target(a) != Target(b)
    requires if a.Fetch? then Ready(s, a.entry) else Parent(Target(b)) != Some(a.path)
    ensures var r := Do(s, a, now);
      Ready(r, b.entry) && Stuck(r.disk, b.entry) == Stuck(s.disk, b.entry) &&
      Fetched(r.disk, b.entry, now) == Fetched(s.disk, b.entry, now)
  {
  }

  lemma NotStarted(s: Local, e: Entry)
    requires Tidy(s) && e.file.path !in s.ignoreModify
    ensures Lookup(s.started, e.file.path).None?
  {
    forall k | 0 <= k < |s.started|
      ensures s.started[k].file.path != e.file.path
    {
      assert s.started[k] in s.started;
    }
    LookupAbsent(s.started, e.file.path);
  }

  /** A download that is started. */
  lemma StartStep(s: Local, e: Entry, r: Local, path: string)
    requires Tidy(s) && e.file.path !in s.ignoreModify
    requires r.started == s.started + [ReverseEntry(e)] && r.ignoreModify == s.ignoreModify + multiset{e.file.path}
    requires forall p :: p != e.file.path ==> (p in r.disk <==> p in s.disk) && (p in s.disk ==> r.disk[p] == s.disk[p])
    requires e.file.path in r.disk
    ensures Tidy(r)
    ensures Goal(r, path) ==
            if path != e.file.path then Goal(s, path)
            else if e.peers == [] then Some(r.disk[path])
            else Some(e.file)
    ensures Marked(s) ==> Marked(r)
  {
    NotStarted(s, e);
    forall p
      ensures UniquePaths(r.started)
      ensures Lookup(r.started, p) == if p == e.file.path then Some(ReverseEntry(e)) else Lookup(s.started, p)
    {
      AddedLookup(s.started, ReverseEntry(e), p);
    }
  }

  /** A step that works, seen from one path. */
  lemma GoalStep(s: Local, a: Chore, now: int, path: string)
    requires Tidy(s) && (a.Fetch? ==> Ready(s, a.entry))
    ensures var r := Do(s, a, now);
      && Tidy(r) && (Marked(s) && (a.Fetch? ==> !Stuck(s.disk, a.entry)) ==> Marked(r))
      && (path != Target(a) ==> Goal(r, path) == Goal(s, path))
      && (a.Fetch? && path == Target(a) ==> Goal(r, path) == Some(Fetched(s.disk, a.entry, now)))
  {
    if a.Fetch? {
      NotStarted(s, a.entry);
      if !Stuck(s.disk, a.entry) && !a.entry.file.isDir && a.entry.file.size > 0 {
        StartStep(s, a.entry, Do(s, a, now), path);
      }
    }
  }

  lemma ReadyTail(s: Local, plan: seq<Chore>, now: int)
    requires plan != [] && AllReady(s, plan) && DistinctTargets(plan)
    ensures var r := Do(s, plan[0], now);
      && AllReady(r, plan[1..]) && DistinctTargets(plan[1..])
      && (NoneStuck(s.disk, plan) ==> NoneStuck(r.disk, plan[1..]))
      && forall b :: b in plan[1..] && b.Fetch? ==>
           Stuck(r.disk, b.entry) == Stuck(s.disk, b.entry) &&
           Fetched(r.disk, b.entry, now) == Fetched(s.disk, b.entry, now)
  {
    var rest, r := plan[1..], Do(s, plan[0], now);
    assert forall i :: 0 <= i < |rest| ==> rest[i] == plan[i + 1];
    assert plan == [plan[0]] + rest;
    forall b | b in rest && b.Fetch?
      ensures Ready(r, b.entry) && Stuck(r.disk, b.entry) == Stuck(s.disk, b.entry)
      ensures Fetched(r.disk, b.entry, now) == Fetched(s.disk, b.entry, now)
    {
      var i :| 0 <= i < |rest| && rest[i] == b;
      assert Target(plan[0]) != Target(plan[i + 1]);
      assert plan[0] in plan && b in plan;
      ReadyStep(s, plan[0], b, now);
    }
  }

  /** Deleted paths aside, a run leaves at each path what was fetched, or what was there. */
  lemma {:induction false} RunGoal(s: Local, plan: seq<Chore>, now: int, path: string)
    requires Tidy(s) && AllReady(s, plan) && DistinctTargets(plan)
    ensures var r := Exec(s, plan, now);
      && Tidy(r) && (Marked(s) && NoneStuck(s.disk, plan) ==> Marked(r))
      && ((forall a :: a in plan ==> Target(a) != path) ==> Goal(r, path) == Goal(s, path))
      && (forall a :: a in plan && a.Fetch? && Target(a) == path ==>
                        Goal(r, path) == Some(Fetched(s.disk, a.entry, now)))
    decreases |plan|
  {
    if plan == [] {
    } else {
      var rest := plan[1..];
      assert plan == [plan[0]] + rest && plan[0] in plan;
      assert forall i :: 0 <= i < |rest| ==> rest[i] == plan[i + 1];
      GoalStep(s, plan[0], now, path);
      ReadyTail(s, plan, now);
      RunGoal(Do(s, plan[0], now), rest, now, path);
      if Target(plan[0]) == path {
        OnlyOnce(plan, path);
      }
    }
  }

  lemma KeepStep(s: Local, a: Chore, now: int, path: string)
    requires a.Fetch? ==> Ready(s, a.entry)
    requires Target(a) == path ==> a.Fetch? && Stuck(s.disk, a.entry)
    ensures var r := Do(s, a, now);
      (path in r.disk <==> path in s.disk) && (path in s.disk ==> r.disk[path] == s.disk[path])
  {
  }

  /** What is at a path that the plan does not touch, or only with something that gets stuck. */
  lemma {:induction false} RunKeepsAt(s: Local, plan: seq<Chore>, now: int, path: string)
    requires AllReady(s, plan) && DistinctTargets(plan)
    requires forall a :: a in plan && Target(a) == path ==> a.Fetch? && Stuck(s.disk, a.entry)
    ensures var r := Exec(s, plan, now);
      (path in r.disk <==> path in s.disk) && (path in s.disk ==> r.disk[path] == s.disk[path])
    decreases |plan|
  {
    if plan == [] {
    } else {
      assert plan[0] in plan && plan == [plan[0]] + plan[1..];
      KeepStep(s, plan[0], now, path);
      ReadyTail(s, plan, now);
      RunKeepsAt(Do(s, plan[0], now), plan[1..], now, path);
    }
  }

  lemma StartedStep(s: Local, a: Chore, now: int, path: string)
    requires Tidy(s) && (a.Fetch? ==> Ready(s, a.entry) && Target(a) != path)
    ensures Lookup(Do(s, a, now).started, path) == Lookup(s.started, path)
  {
    if a.Fetch? {
      NotStarted(s, a.entry);
      AddedLookup(s.started, ReverseEntry(a.entry), path);
    }
  }

  lemma {:induction false} NotFetched(s: Local, plan: seq<Chore>, now: int, path: string)
    requires Tidy(s) && AllReady(s, plan) && DistinctTargets(plan)
    requires forall a :: a in plan && a.Fetch? ==> Target(a) != path
    ensures Lookup(Exec(s, plan, now).started, path) == Lookup(s.started, path)
    decreases |plan|
  {
    if plan == [] {
    } else {
      assert plan == [plan[0]] + plan[1..] && plan[0] in plan;
      GoalStep(s, plan[0], now, path);
      StartedStep(s, plan[0], now, path);
      ReadyTail(s, plan, now);
      NotFetched(Do(s, plan[0], now), plan[1..], now, path);
    }
  }

  /** A download under way was under way before, or the plan has started it. */
  lemma {:induction false} StartedByPlan(s: Local, plan: seq<Chore>, now: int, x: Entry)
    requires AllReady(s, plan) && DistinctTargets(plan) && x in Exec(s, plan, now).started && x !in s.started
    ensures exists a ::
              && a in plan && a.Fetch? && x == ReverseEntry(a.entry)
              && !Stuck(s.disk, a.entry) && !a.entry.file.isDir && a.entry.file.size > 0
    decreases |plan|
  {
    if plan == [] {
    } else {
      var r := Do(s, plan[0], now);
      assert plan[0] in plan && plan == [plan[0]] + plan[1..];
      ReadyTail(s, plan, now);
      if x !in r.started {
        StartedByPlan(r, plan[1..], now, x);
      }
    }
  }

  lemma OnlyOnce(plan: seq<Chore>, path: string)
    requires plan != [] && DistinctTargets(plan) && Target(plan[0]) == path
    ensures forall a :: a in plan[1..] ==> Target(a) != path
  {
    forall a | a in plan[1..]
      ensures Target(a) != path
    {
      var i :| 0 <= i < |plan[1..]| && plan[1..][i] == a;
      assert Target(plan[0]) != Target(plan[i + 1]);
    }
  }

  // ---- what the tracker is told ----

  /** The files of those entries that somebody has. */
  function Files(es: seq<Entry>): multiset<FileInfo> {
    if es == [] then multiset{}
    else (if es[0].peers == [] then multiset{} else multiset{es[0].file}) + Files(es[1..])
  }

  lemma {:induction false} NoFiles(es: seq<Entry>)
    requires forall e :: e in es ==> e.peers == []
    ensures Files(es) == multiset{}
  {
    if es == [] {
    } else {
      NoFiles(es[1..]);
    }
  }

  /** The files that a plan fetches, where nothing is in the way and somebody has them. */
  function FetchedFiles(disk: map<string, FileInfo>, plan: seq<Chore>): multiset<FileInfo> {
    if plan == [] then multiset{} else FetchedBy(disk, plan[0]) + FetchedFiles(disk, plan[1..])
  }

  function FetchedBy(disk: map<string, FileInfo>, a: Chore): multiset<FileInfo> {
    if a.Fetch? && !Stuck(disk, a.entry) && !Unserved(a.entry) then multiset{a.entry.file} else multiset{}
  }

  lemma {:induction false} SameFetched(disk: map<string, FileInfo>, disk': map<string, FileInfo>, plan: seq<Chore>)
    requires forall a :: a in plan && a.Fetch? ==> Stuck(disk, a.entry) == Stuck(disk', a.entry)
    ensures FetchedFiles(disk, plan) == FetchedFiles(disk', plan)
  {
    if plan == [] {
    } else {
      assert plan[0] in plan && plan == [plan[0]] + plan[1..];
      SameFetched(disk, disk', plan[1..]);
    }
  }

  /** What has been reported and what is still to be reported. */
  function Reports(s: Local): multiset<FileInfo> {
    multiset(s.told) + Files(s.started)
  }

  lemma {:induction false} FilesConcat(a: seq<Entry>, b: seq<Entry>)
    ensures Files(a + b) == Files(a) + Files(b)
  {
    if a == [] {
      assert a + b == b;
    } else {
      assert (a + b)[1..] == a[1..] + b;
      FilesConcat(a[1..], b);
    }
  }

  lemma CompleteReports(s: Local, k: nat)
    requires CanEnd(s, k)
    ensures Reports(Complete(s, k)) == Reports(s)
  {
    var a, b := s.started[..k], s.started[k + 1..];
    assert s.started == a + ([s.started[k]] + b);
    FilesConcat(a, [s.started[k]] + b);
    assert ([s.started[k]] + b)[1..] == b;
    FilesConcat(a, b);
  }

  lemma {:induction false} AllReported(s: Local, ks: seq<nat>, r: Local)
    requires Ended(s, ks, r) && Stalled(r)
    ensures multiset(r.told) == Reports(s)
    decreases |ks|
  {
    if ks == [] {
      NoFiles(r.started);
    } else {
      CompleteReports(s, ks[0]);
      AllReported(Complete(s, ks[0]), ks[1..], r);
    }
  }

  lemma StartReports(s: Local, e: Entry, r: Local)
    requires r.started == s.started + [ReverseEntry(e)] && r.told == s.told
    ensures Reports(r) == Reports(s) + if e.peers == [] then multiset{} else multiset{e.file}
  {
    FilesConcat(s.started, [ReverseEntry(e)]);
    assert [ReverseEntry(e)][1..] == [];
  }

  lemma TellReports(s: Local, e: Entry, r: Local)
    requires r.started == s.started && r.told == s.told + [e.file]
    ensures Reports(r) == Reports(s) + multiset{e.file}
  {
  }

  lemma ReportStep(s: Local, a: Chore, now: int)
    requires a.Fetch? ==> Ready(s, a.entry)
    ensures Reports(Do(s, a, now)) == Reports(s) + FetchedBy(s.disk, a)
  {
    if a.Fetch? && !Stuck(s.disk, a.entry) {
      if a.entry.file.isDir || a.entry.file.size == 0 {
        TellReports(s, a.entry, Do(s, a, now));
      } else {
        StartReports(s, a.entry, Do(s, a, now));
      }
    }
  }

  lemma {:induction false} RunReports(s: Local, plan: seq<Chore>, now: int)
    requires AllReady(s, plan) && DistinctTargets(plan)
    ensures Reports(Exec(s, plan, now)) == Reports(s) + FetchedFiles(s.disk, plan)
    decreases |plan|
  {
    if plan == [] {
    } else {
      assert plan[0] in plan;
      ReportStep(s, plan[0], now);
      ReadyTail(s, plan, now);
      SameFetched(s.disk, Do(s, plan[0], now).disk, plan[1..]);
      RunReports(Do(s, plan[0], now), plan[1..], now);
    }
  }

  // ---- downloads that complete during the run ----

  /** What happens next: the run goes on, or one of the downloads under way completes. */
  datatype Move = GoOn | Ends(k: nat)

  /** The plan is carried out while downloads complete in between, and afterwards. */
  ghost predicate Interleaved(s: Local, plan: seq<Chore>, now: int, moves: seq<Move>, f: Local)
    decreases |moves|
  {
    if moves == [] then plan == [] && f == s
    else
      match moves[0]
      case GoOn => plan != [] && Interleaved(Do(s, plan[0], now), plan[1..], now, moves[1..], f)
      case Ends(k) => CanEnd(s, k) && Interleaved(Complete(s, k), plan, now, moves[1..], f)
  }

  // ---- what nobody touches ----

  /** The path is on disk as it was, and no download of it has been started. */
  ghost predicate Untouched(s: Local, r: Local, path: string) {
    && path in r.disk && path in s.disk && r.disk[path] == s.disk[path]
    && r.ignoreModify[path] == s.ignoreModify[path]
    && forall x :: x in r.started ==> x.file.path != path
  }

  ghost predicate NotFetching(s: Local, path: string) {
    forall x :: x in s.started ==> x.file.path != path
  }

  lemma OtherChore(s: Local, a: Chore, now: int, path: string)
    requires path in s.disk && Target(a) != path && NotFetching(s, path)
    ensures Untouched(s, Do(s, a, now), path)
  {
  }

  lemma OtherEnds(s: Local, k: nat, path: string)
    requires path in s.disk && NotFetching(s, path) && k < |s.started|
    ensures Untouched(s, Complete(s, k), path)
  {
    assert s.started[k] in s.started;
  }

  /** A run, and downloads that complete in between and afterwards, touch only what the plan names
      and what was being downloaded. */
  lemma {:induction false} OthersUntouched(s: Local, plan: seq<Chore>, now: int, moves: seq<Move>, f: Local,
                                         path: string)
    requires Interleaved(s, plan, now, moves, f) && path in s.disk && NotFetching(s, path)
    requires forall a :: a in plan ==> Target(a) != path
    ensures Untouched(s, f, path)
    decreases |moves|
  {
    if moves == [] {
    } else {
      match moves[0]
      case GoOn =>
        OtherChore(s, plan[0], now, path);
        OthersUntouched(Do(s, plan[0], now), plan[1..], now, moves[1..], f, path);
      case Ends(k) =>
        OtherEnds(s, k, path);
        OthersUntouched(Complete(s, k), plan, now, moves[1..], f, path);
    }
  }

  /** Equal but for the order of what the tracker was told. */
  ghost predicate Same(s: Local, r: Local) {
    r == s.(told := r.told) && multiset(r.told) == multiset(s.told)
  }

  /** The files of the downloads under way are there, and are regular files. */
  ghost predicate Grounded(s: Local) {
    forall e :: e in s.started ==> e.file.path in s.disk && !s.disk[e.file.path].isDir && !e.file.isDir
  }

  /** The plan leaves the downloads under way alone. */
  ghost predicate Clear(s: Local, plan: seq<Chore>) {
    forall a, e :: a in plan && e in s.started ==> Target(a) != e.file.path
  }

  /** A step does not look at what the tracker was told, and tells it something more. */
  lemma DownloadSame(s: Local, r: Local, e: Entry, now: int)
    requires Same(s, r)
    ensures Same(Download(s, e, now), Download(r, e, now))
  {
    var x, y := Download(s, e, now), Download(r, e, now);
    if x.told == s.told {
      assert y == x.(told := r.told);
    } else {
      assert x.told == s.told + [e.file] && y == x.(told := r.told + [e.file]);
      assert multiset(s.told + [e.file]) == multiset(r.told + [e.file]);
    }
  }

  lemma DoSame(s: Local, r: Local, a: Chore, now: int)
    requires Same(s, r)
    ensures Same(Do(s, a, now), Do(r, a, now))
  {
    match a
    case Delete(path) =>
    case Fetch(e) => DownloadSame(s, r, e, now);
  }

  lemma {:induction false} ExecSame(s: Local, r: Local, plan: seq<Chore>, now: int)
    requires Same(s, r)
    ensures Same(Exec(s, plan, now), Exec(r, plan, now))
    decreases |plan|
  {
    if plan == [] {
    } else {
      DoSame(s, r, plan[0], now);
      ExecSame(Do(s, plan[0], now), Do(r, plan[0], now), plan[1..], now);
    }
  }

  lemma {:induction false} CompletesSame(s: Local, r: Local, ks: seq<nat>, f: Local) returns (g: Local)
    requires Same(s, r) && Ended(s, ks, f)
    ensures Ended(r, ks, g) && Same(f, g)
    decreases |ks|
  {
    if ks == [] {
      g := r;
    } else {
      g := CompletesSame(Complete(s, ks[0]), Complete(r, ks[0]), ks[1..], f);
    }
  }

  lemma GroundedStep(s: Local, a: Chore, now: int)
    requires Grounded(s) && forall e :: e in s.started ==> Target(a) != e.file.path
    ensures Grounded(Do(s, a, now))
    ensures forall e :: e in Do(s, a, now).started ==> e in s.started || e.file.path == Target(a)
  {
  }

  lemma ClearStep(s: Local, a: Chore, now: int, rest: seq<Chore>)
    requires Grounded(s) && Clear(s, [a] + rest) && DistinctTargets([a] + rest)
    ensures Grounded(Do(s, a, now)) && Clear(Do(s, a, now), rest) && DistinctTargets(rest)
  {
    var plan := [a] + rest;
    assert plan[0] == a && a in plan && forall i :: 0 <= i < |rest| ==> rest[i] == plan[i + 1];
    GroundedStep(s, a, now);
    forall b | b in rest
      ensures b in plan && Target(b) != Target(a)
    {
      var i :| 0 <= i < |rest| && rest[i] == b;
      assert Target(plan[0]) != Target(plan[i + 1]);
    }
  }

  /** A completed download does not change what is on disk, nor its kind. */
  lemma CompleteKeepsKinds(s: Local, k: nat, path: string)
    requires k < |s.started| && Grounded(s)
    ensures var d := Complete(s, k).disk;
      && d.Keys == s.disk.Keys && (path in s.disk ==> d[path].isDir == s.disk[path].isDir)
      && HasParent(d, path) == HasParent(s.disk, path) && CanOpen(d, path) == CanOpen(s.disk, path)
  {
    assert s.started[k] in s.started;
  }

  lemma MakeDirPostponed(disk: map<string, FileInfo>, f: FileInfo, path: string, now: int)
    requires f.path in disk && !f.isDir && !disk[f.path].isDir
    ensures MakeDir(disk[f.path := f], path, now) == MakeDir(disk, path, now)[f.path := f]
  {
    var d := disk[f.path := f];
    assert HasParent(d, path) == HasParent(disk, path);
    if path !in disk {
      assert d[path := FileInfo(path, 0, now, true)] == disk[path := FileInfo(path, 0, now, true)][f.path := f];
    }
  }

  /** A download that completes before a step might as well complete after it. */
  lemma Postpone(s: Local, k: nat, a: Chore, now: int)
    requires k < |s.started| && Grounded(s) && Target(a) != s.started[k].file.path
    ensures k < |Do(s, a, now).started| && Do(s, a, now).started[k] == s.started[k]
    ensures Same(Do(Complete(s, k), a, now), Complete(Do(s, a, now), k))
  {
    assert s.started[k] in s.started;
    match a
    case Delete(path) => PostponeErase(s, k, path);
    case Fetch(e) =>
      if e.file.path !in s.ignoreModify {
        if e.file.isDir {
          PostponeDirectory(s, k, e, now);
        } else {
          PostponeFile(s, k, e, now);
        }
      }
  }

  lemma PostponeErase(s: Local, k: nat, path: string)
    requires k < |s.started| && Grounded(s) && path != s.started[k].file.path
    ensures Erase(Complete(s, k), path) == Complete(Erase(s, path), k)
  {
    var f := s.started[k].file;
    CompleteKeepsKinds(s, k, path);
    assert s.disk[f.path := f] - {path} == (s.disk - {path})[f.path := f];
  }

  lemma MarkPostponed(marks: multiset<string>, p: string, path: string)
    requires p != path
    ensures (path in marks - multiset{p}) == (path in marks)
    ensures marks - multiset{p} + multiset{path} == marks + multiset{path} - multiset{p}
  {
  }

  lemma PostponeDirectory(s: Local, k: nat, e: Entry, now: int)
    requires k < |s.started| && Grounded(s) && e.file.path != s.started[k].file.path
    requires e.file.path !in s.ignoreModify && e.file.isDir
    ensures k < |Download(s, e, now).started|
    ensures Same(Download(Complete(s, k), e, now), Complete(Download(s, e, now), k))
  {
    var f := s.started[k].file;
    assert s.started[k] in s.started;
    CompleteKeepsKinds(s, k, e.file.path);
    MarkPostponed(s.ignoreModify, f.path, e.file.path);
    MakeDirPostponed(s.disk, f, e.file.path, now);
  }

  lemma PostponeFile(s: Local, k: nat, e: Entry, now: int)
    requires k < |s.started| && Grounded(s) && e.file.path != s.started[k].file.path
    requires e.file.path !in s.ignoreModify && !e.file.isDir
    ensures k < |Download(s, e, now).started|
    ensures Same(Download(Complete(s, k), e, now), Complete(Download(s, e, now), k))
  {
    CompleteKeepsKinds(s, k, e.file.path);
    if CanOpen(s.disk, e.file.path) {
      PostponeOpened(s, k, e, now);
    } else {
      PostponeStray(s, k, e, now);
    }
  }

  lemma PostponeOpened(s: Local, k: nat, e: Entry, now: int)
    requires k < |s.started| && e.file.path != s.started[k].file.path
    requires e.file.path !in s.ignoreModify && !e.file.isDir
    requires CanOpen(s.disk, e.file.path) && CanOpen(Complete(s, k).disk, e.file.path)
    ensures k < |Download(s, e, now).started|
    ensures Same(Download(Complete(s, k), e, now), Complete(Download(s, e, now), k))
  {
    if e.file.size == 0 {
      PostponeEmpty(s, k, e, now);
    } else {
      PostponeStart(s, k, e, now);
    }
  }

  lemma ToldInEitherOrder(told: seq<FileInfo>, f: FileInfo, g: FileInfo)
    ensures multiset(told + [f] + [g]) == multiset(told + [g] + [f])
  {
  }

  lemma PostponeEmpty(s: Local, k: nat, e: Entry, now: int)
    requires k < |s.started| && e.file.path != s.started[k].file.path
    requires e.file.path !in s.ignoreModify && !e.file.isDir && e.file.size == 0
    requires CanOpen(s.disk, e.file.path) && CanOpen(Complete(s, k).disk, e.file.path)
    ensures k < |Download(s, e, now).started|
    ensures Same(Download(Complete(s, k), e, now), Complete(Download(s, e, now), k))
  {
    var f, path := s.started[k].file, e.file.path;
    var placed := FileInfo(path, 0, now, false);
    MarkPostponed(s.ignoreModify, f.path, path);
    ToldInEitherOrder(s.told, f, e.file);
    var first, second := Download(Complete(s, k), e, now), Complete(Download(s, e, now), k);
    assert first.disk == s.disk[f.path := f][path := placed] == s.disk[path := placed][f.path := f] == second.disk;
    assert first.told == s.told + [f] + [e.file] && second.told == s.told + [e.file] + [f];
  }

  lemma PostponeStart(s: Local, k: nat, e: Entry, now: int)
    requires k < |s.started| && e.file.path != s.started[k].file.path
    requires e.file.path !in s.ignoreModify && !e.file.isDir && e.file.size != 0
    requires CanOpen(s.disk, e.file.path) && CanOpen(Complete(s, k).disk, e.file.path)
    ensures k < |Download(s, e, now).started|
    ensures Download(Complete(s, k), e, now) == Complete(Download(s, e, now), k)
  {
    var f, path := s.started[k].file, e.file.path;
    var placed := FileInfo(path, 0, now, false);
    MarkPostponed(s.ignoreModify, f.path, path);
    CutAppended(s.started, k, ReverseEntry(e));
    var first, second := Download(Complete(s, k), e, now), Complete(Download(s, e, now), k);
    assert first.disk == s.disk[f.path := f][path := placed] == s.disk[path := placed][f.path := f] == second.disk;
  }

  lemma PostponeStray(s: Local, k: nat, e: Entry, now: int)
    requires k < |s.started| && Grounded(s) && e.file.path != s.started[k].file.path
    requires e.file.path !in s.ignoreModify && !e.file.isDir
    requires !CanOpen(s.disk, e.file.path) && !CanOpen(Complete(s, k).disk, e.file.path)
    ensures Same(Download(Complete(s, k), e, now), Complete(Download(s, e, now), k))
  {
    var f, path := s.started[k].file, e.file.path;
    assert s.started[k] in s.started;
    MarkPostponed(s.ignoreModify, f.path, path);
    if path !in s.disk {
      MakeDirPostponed(s.disk, f, Parent(path).value, now);
    }
  }

  lemma CutAppended(es: seq<Entry>, k: nat, x: Entry)
    requires k < |es|
    ensures (es + [x])[k] == es[k]
    ensures es[..k] + es[k + 1..] + [x] == (es + [x])[..k] + (es + [x])[k + 1..]
  {
  }

  lemma {:induction false} PostponeAll(s: Local, k: nat, plan: seq<Chore>, now: int)
    requires k < |s.started| && Grounded(s) && Clear(s, plan) && DistinctTargets(plan)
    ensures k < |Exec(s, plan, now).started| && Exec(s, plan, now).started[k] == s.started[k]
    ensures Same(Exec(Complete(s, k), plan, now), Complete(Exec(s, plan, now), k))
    decreases |plan|
  {
    if plan == [] {
    } else {
      var a, rest := plan[0], plan[1..];
      assert plan == [a] + rest && a in plan && s.started[k] in s.started;
      Postpone(s, k, a, now);
      ClearStep(s, a, now, rest);
      ExecSame(Do(Complete(s, k), a, now), Complete(Do(s, a, now), k), rest, now);
      PostponeAll(Do(s, a, now), k, rest, now);
    }
  }

  /** So they all might complete after the run. */
  lemma {:induction false} Serialised(s: Local, plan: seq<Chore>, now: int, moves: seq<Move>, f: Local)
    returns (ks: seq<nat>, g: Local)
    requires Interleaved(s, plan, now, moves, f) && Grounded(s) && Clear(s, plan) && DistinctTargets(plan)
    ensures Ended(Exec(s, plan, now), ks, g) && Same(f, g)
    decreases |moves|
  {
    if moves == [] {
      ks, g := [], f;
    } else {
      match moves[0]
      case GoOn =>
        assert plan == [plan[0]] + plan[1..];
        ClearStep(s, plan[0], now, plan[1..]);
        ks, g := Serialised(Do(s, plan[0], now), plan[1..], now, moves[1..], f);
      case Ends(k) =>
        EndedStaysGrounded(s, k, plan);
        ks, g := Serialised(Complete(s, k), plan, now, moves[1..], f);
        PostponeAll(s, k, plan, now);
        var h := CompletesSame(Exec(Complete(s, k), plan, now), Complete(Exec(s, plan, now), k), ks, g);
        assert ([k] + ks)[1..] == ks;
        ks, g := [k] + ks, h;
    }
  }

  lemma EndedStaysGrounded(s: Local, k: nat, plan: seq<Chore>)
    requires k < |s.started| && Grounded(s) && Clear(s, plan)
    ensures Grounded(Complete(s, k)) && Clear(Complete(s, k), plan)
  {
    var r := Complete(s, k);
    assert s.started[k] in s.started;
    forall e | e in r.started
      ensures e in s.started
    {
      assert s.started == s.started[..k] + [s.started[k]] + s.started[k + 1..];
    }
  }
}
