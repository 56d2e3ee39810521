/** How a peer brings its directory in line with the table (peer/peer.c): what
    update_from_filetable() decides from a listing, and what carrying that out does. */
module Reconciles {
  import opened CStrings
  import opened Table
  import opened TableLaws
  import opened MergeLaws
  import opened Wire

  datatype Chore = Delete(path: string) | Fetch(entry: Entry)

  function Target(a: Chore): string {
    match a case Delete(path) => path case Fetch(e) => e.file.path
  }

  /** The peer: strays are the paths that it opened relative to its working directory instead of
      the watched one. */
  datatype Local = Local(
    disk: map<string, FileInfo>,      // the watched directory
    ignoreModify: multiset<string>,   // the files whose changes the monitor ignores
    started: seq<Entry>,              // the downloads under way
    told: seq<FileInfo>,              // the DOWNLOAD_COMPLETE events sent
    strays: seq<string>
  )

  // ---- what to do ----

  predicate Stale(f: FileInfo, e: Entry, me: Addr) {
    me !in e.peers && (f.mtime < e.file.mtime || f.size != e.file.size)
  }

  /** What the first loop of update_from_filetable() does about one local file. */
  function Decide(c: seq<Entry>, me: Addr, f: FileInfo): seq<Chore> {
    match Lookup(c, f.path)
    case None => if IsDotfile(f.path) then [] else [Delete(f.path)]
    case Some(e) => if Stale(f, e, me) then [Fetch(e)] else []
  }

  function FilePlan(c: seq<Entry>, me: Addr, files: seq<FileInfo>): seq<Chore> {
    if files == [] then [] else Decide(c, me, files[0]) + FilePlan(c, me, files[1..])
  }

  /** The second loop: the entries without a local file. */
  function MissingPlan(c: seq<Entry>, files: seq<FileInfo>): seq<Chore> {
    if c == [] then []
    else (if FileAt(files, c[0].file.path).None? then [Fetch(c[0])] else []) + MissingPlan(c[1..], files)
  }

  function Plan(c: seq<Entry>, me: Addr, files: seq<FileInfo>): seq<Chore> {
    FilePlan(c, me, files) + MissingPlan(c, files)
  }

  // ---- doing it ----

  function LastSlash(path: string): (i: int)
    ensures -1 <= i < |path| && (i >= 0 ==> path[i] == '/')
  {
    if path == "" then -1
    else if path[|path| - 1] == '/' then |path| - 1
    else LastSlash(path[..|path| - 1])
  }

  /** The directory that a path is in; None for the watched directory itself. */
  function Parent(path: string): (d: Option<string>)
    ensures d.Some? ==> Inside(d.value, path)
  {
    var i := LastSlash(path);
    if i < 0 then None
    else
      assert path[..i] + "/" == path[..i + 1];
      Some(path[..i])
  }

  predicate HasParent(disk: map<string, FileInfo>, path: string) {
    match Parent(path) case None => true case Some(d) => d in disk && disk[d].isDir
  }

  /** delete_file(): rmdir() needs an empty directory. */
  function Erase(s: Local, path: string): Local {
    if path !in s.disk || (s.disk[path].isDir && exists q :: q in s.disk && Inside(path, q)) then s
    else s.(disk := s.disk - {path})
  }

  /** mkdir() */
  function MakeDir(disk: map<string, FileInfo>, path: string, now: int): map<string, FileInfo> {
    if path in disk || !HasParent(disk, path) then disk else disk[path := FileInfo(path, 0, now, true)]
  }

  /** Whether fopen(path, "w") succeeds. */
  predicate CanOpen(disk: map<string, FileInfo>, path: string) {
    if path in disk then !disk[path].isDir else HasParent(disk, path)
  }

  /** download_file(), up to where init_download() returns; what is downloaded is a copy of the
      entry, in which the peers are turned around. */
  function Download(s: Local, e: Entry, now: int): Local {
    var path := e.file.path;
    if path in s.ignoreModify then s
    else
      var marked := s.(ignoreModify := s.ignoreModify + multiset{path});
      if e.file.isDir then
        if path in s.disk || !HasParent(s.disk, path) then marked
        else s.(disk := MakeDir(s.disk, path, now), told := s.told + [e.file])
      else if CanOpen(s.disk, path) then
        var placed := s.disk[path := FileInfo(path, 0, now, false)];
        if e.file.size == 0 then s.(disk := placed, told := s.told + [e.file])
        else marked.(disk := placed, started := s.started + [ReverseEntry(e)])
      else
        var strayed := marked.(strays := s.strays + [path]);
        if path in s.disk then strayed else strayed.(disk := MakeDir(s.disk, Parent(path).value, now))
  }

  function Do(s: Local, a: Chore, now: int): Local {
    match a case Delete(path) => Erase(s, path) case Fetch(e) => Download(s, e, now)
  }

  function Exec(s: Local, plan: seq<Chore>, now: int): Local
    decreases |plan|
  {
    if plan == [] then s else Exec(Do(s, plan[0], now), plan[1..], now)
  }

  lemma {:induction false} ExecConcat(s: Local, p: seq<Chore>, q: seq<Chore>, now: int)
    ensures Exec(s, p + q, now) == Exec(Exec(s, p, now), q, now)
    decreases |p|
  {
    if p == [] {
      assert p + q == q;
    } else {
      assert (p + q)[1..] == p[1..] + q;
      ExecConcat(Do(s, p[0], now), p[1..], q, now);
    }
  }

  lemma {:induction false} FilePlanConcat(c: seq<Entry>, me: Addr, f: seq<FileInfo>, g: seq<FileInfo>)
    ensures FilePlan(c, me, f + g) == FilePlan(c, me, f) + FilePlan(c, me, g)
  {
    if f == [] {
      assert f + g == g;
    } else {
      assert (f + g)[1..] == f[1..] + g;
      FilePlanConcat(c, me, f[1..], g);
    }
  }

  // ---- each file and each entry is dealt with once ----

  ghost predicate DistinctTargets(plan: seq<Chore>) {
    forall i, j :: 0 <= i < j < |plan| ==> Target(plan[i]) != Target(plan[j])
  }

  ghost predicate UniquePaths(c: seq<Entry>) {
    forall i, j :: 0 <= i < j < |c| ==> c[i].file.path != c[j].file.path
  }

  lemma {:induction false} FilePlanMeaning(c: seq<Entry>, me: Addr, files: seq<FileInfo>, a: Chore)
    ensures a in FilePlan(c, me, files) <==> exists f :: f in files && a in Decide(c, me, f)
  {
    if files == [] {
    } else {
      FilePlanMeaning(c, me, files[1..], a);
      assert files == [files[0]] + files[1..];
    }
  }

  lemma {:induction false} MissingPlanMeaning(c: seq<Entry>, files: seq<FileInfo>, a: Chore)
    ensures a in MissingPlan(c, files) <==> a.Fetch? && a.entry in c && FileAt(files, a.entry.file.path).None?
  {
    if c == [] {
    } else {
      MissingPlanMeaning(c[1..], files, a);
      assert c == [c[0]] + c[1..];
    }
  }

  lemma LookupMember(c: seq<Entry>, e: Entry)
    requires UniquePaths(c)
    ensures e in c <==> Lookup(c, e.file.path) == Some(e)
  {
    if e in c {
      var i :| 0 <= i < |c| && c[i] == e;
      assert Find(c, e.file.path) == i;
    }
  }

  lemma InFilePlanIff(c: seq<Entry>, me: Addr, files: seq<FileInfo>, a: Chore)
    requires DistinctPaths(files)
    ensures a in FilePlan(c, me, files) <==>
            FileAt(files, Target(a)).Some? && a in Decide(c, me, FileAt(files, Target(a)).value)
  {
    FilePlanMeaning(c, me, files, a);
    if exists f :: f in files && a in Decide(c, me, f) {
      var f :| f in files && a in Decide(c, me, f);
      FileAtMember(files, f);
    }
  }

  /** A local file is deleted exactly when the table does not have it and it is not hidden. */
  lemma DeletedIff(c: seq<Entry>, me: Addr, files: seq<FileInfo>, path: string)
    requires DistinctPaths(files)
    ensures Delete(path) in Plan(c, me, files) <==>
            FileAt(files, path).Some? && Lookup(c, path).None? && !IsDotfile(path)
  {
    InFilePlanIff(c, me, files, Delete(path));
    MissingPlanMeaning(c, files, Delete(path));
  }

  /** An entry is downloaded exactly when its file is missing, or is stale while the table does
      not list this peer. */
  lemma FetchedIff(c: seq<Entry>, me: Addr, files: seq<FileInfo>, e: Entry)
    requires UniquePaths(c) && DistinctPaths(files)
    ensures Fetch(e) in Plan(c, me, files) <==>
            e in c && match FileAt(files, e.file.path)
                      case None => true
                      case Some(f) => me !in e.peers && (f.mtime < e.file.mtime || f.size != e.file.size)
  {
    InFilePlanIff(c, me, files, Fetch(e));
    MissingPlanMeaning(c, files, Fetch(e));
    LookupMember(c, e);
  }

  lemma {:induction false} FilePlanDistinct(c: seq<Entry>, me: Addr, files: seq<FileInfo>)
    requires DistinctPaths(files)
    ensures DistinctTargets(FilePlan(c, me, files))
    ensures forall a :: a in FilePlan(c, me, files) ==> FileAt(files, Target(a)).Some?
  {
    if files == [] {
    } else {
      var rest := files[1..];
      assert forall i :: 0 <= i < |rest| ==> rest[i] == files[i + 1];
      FilePlanDistinct(c, me, rest);
      var p := FilePlan(c, me, rest);
      forall k | 0 <= k < |p|
        ensures Target(p[k]) != files[0].path
      {
        assert p[k] in p;
        var f := FileAt(rest, Target(p[k])).value;
        var i :| 0 <= i < |rest| && rest[i] == f;
        assert files[i + 1].path != files[0].path;
      }
    }
  }

  lemma {:induction false} MissingPlanDistinct(c: seq<Entry>, files: seq<FileInfo>)
    requires UniquePaths(c)
    ensures DistinctTargets(MissingPlan(c, files))
  {
    if c == [] {
    } else {
      var rest := c[1..];
      assert forall i :: 0 <= i < |rest| ==> rest[i] == c[i + 1];
      MissingPlanDistinct(rest, files);
      var p := MissingPlan(rest, files);
      forall k | 0 <= k < |p|
        ensures Target(p[k]) != c[0].file.path
      {
        MissingPlanMeaning(rest, files, p[k]);
        var i :| 0 <= i < |rest| && rest[i] == p[k].entry;
        assert c[i + 1].file.path != c[0].file.path;
      }
    }
  }

  /** No file and no entry is dealt with twice. */
  lemma EachOnce(c: seq<Entry>, me: Addr, files: seq<FileInfo>)
    requires UniquePaths(c) && DistinctPaths(files)
    ensures DistinctTargets(Plan(c, me, files))
  {
    var p, q := FilePlan(c, me, files), MissingPlan(c, files);
    FilePlanDistinct(c, me, files);
    MissingPlanDistinct(c, files);
    forall i, j | 0 <= i < |p| && 0 <= j < |q|
      ensures Target(p[i]) != Target(q[j])
    {
      assert p[i] in p;
      MissingPlanMeaning(c, files, q[j]);
    }
  }

  /** What concerns the files in the listing comes before what is missing. */
  lemma ListedComeFirst(c: seq<Entry>, me: Addr, files: seq<FileInfo>, i: nat, j: nat)
    requires DistinctPaths(files) && i < j < |Plan(c, me, files)|
    requires FileAt(files, Target(Plan(c, me, files)[j])).Some?
    ensures FileAt(files, Target(Plan(c, me, files)[i])).Some?
  {
    var p, q := FilePlan(c, me, files), MissingPlan(c, files);
    FilePlanDistinct(c, me, files);
    if j < |p| {
      assert p[i] in p;
    } else {
      assert Plan(c, me, files)[j] == q[j - |p|] && q[j - |p|] in q;
      MissingPlanMeaning(c, files, q[j - |p|]);
    }
  }
}
