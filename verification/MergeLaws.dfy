/** Merging a peer's list of files into the table: a last-writer-wins join. */
module MergeLaws {
  import opened CStrings
  import opened Table
  import opened TableLaws

  ghost predicate DistinctPaths(files: seq<FileInfo>) {
    forall i, j :: 0 <= i < j < |files| ==> files[i].path != files[j].path
  }

  ghost predicate DistinctEvents(events: seq<Event>) {
    forall i, j :: 0 <= i < j < |events| ==> events[i].file.path != events[j].file.path
  }

  /** The file with this path in a list, if any. */
  function FileAt(files: seq<FileInfo>, path: string): (r: Option<FileInfo>)
    ensures r.Some? ==> r.value in files && r.value.path == path
    ensures r.None? ==> forall i :: 0 <= i < |files| ==> files[i].path != path
  {
    if files == [] then None
    else if files[0].path == path then Some(files[0])
    else FileAt(files[1..], path)
  }

  function EventAt(events: seq<Event>, path: string): (r: Option<Event>)
    ensures r.Some? ==> r.value in events && r.value.file.path == path
    ensures r.None? ==> forall i :: 0 <= i < |events| ==> events[i].file.path != path
  {
    if events == [] then None
    else if events[0].file.path == path then Some(events[0])
    else EventAt(events[1..], path)
  }

  /** What one event of a diff does to the entry at its own path. */
  function ApplyOne(was: Option<Entry>, e: Event, who: Addr): Option<Entry> {
    match (e.action, was)
    case (Modified, Some(x)) =>
      if IpFits(who.ip) then Some(Entry(x.file.(size := e.file.size, mtime := e.file.mtime), [who])) else was
    case (Created, Some(x)) =>
      if IsDotfile(e.file.path) || !IpFits(who.ip) then was
      else Some(Entry(x.file.(size := Normal(e.file).size, mtime := e.file.mtime), [who]))
    case (Created, None) =>
      if IsDotfile(e.file.path) || !IpFits(who.ip) then None else Some(Entry(Normal(e.file), [who]))
    case (DownloadComplete, Some(x)) =>
      if x.file.size == e.file.size && !Lists(x.peers, who.ip) then Some(x.(peers := [who] + x.peers)) else was
    case (Deleted, _) => None
    case (_, None) => None
  }

  lemma ApplyLookup(c: seq<Entry>, e: Event, who: Addr, path: string)
    requires WellFormed(c) && !e.action.Deleted?
    ensures WellFormed(Apply(c, e, who))
    ensures Lookup(Apply(c, e, who), path) ==
            if path == e.file.path then ApplyOne(Lookup(c, path), e, who) else Lookup(c, path)
  {
    match e.action
    case Modified => UpdateModLaw(c, e.file, who, path);
    case Created => InsertLaw(c, e.file, who, path);
    case DownloadComplete => AddPeerLaw(c, e.file.path, who, e.file.size, path);
  }

  /** Events on distinct paths act independently of each other. */
  lemma {:induction false} EventsLookup(c: seq<Entry>, events: seq<Event>, who: Addr, path: string)
    requires WellFormed(c) && DistinctEvents(events)
    requires forall i :: 0 <= i < |events| ==> !events[i].action.Deleted?
    ensures Lookup(EventMerge(c, events, who), path) ==
            match EventAt(events, path)
            case Some(e) => ApplyOne(Lookup(c, path), e, who)
            case None => Lookup(c, path)
    decreases |events|
  {
    if events == [] {
    } else {
      var rest := events[1..];
      assert forall i :: 0 <= i < |rest| ==> rest[i] == events[i + 1];
      ApplyLookup(c, events[0], who, path);
      EventsLookup(Apply(c, events[0], who), rest, who, path);
    }
  }

  lemma {:induction false} EventAtMember(events: seq<Event>, e: Event)
    requires DistinctEvents(events) && e in events
    ensures EventAt(events, e.file.path) == Some(e)
  {
    if events[0] != e {
      var rest := events[1..];
      assert forall i :: 0 <= i < |rest| ==> rest[i] == events[i + 1];
      var k :| 0 <= k < |events| && events[k] == e;
      assert rest[k - 1] == e;
      EventAtMember(rest, e);
    }
  }

  /** So neither the reversal of the diff nor any other order of its events matters. */
  lemma EventOrderIrrelevant(c: seq<Entry>, events: seq<Event>, others: seq<Event>, who: Addr)
    requires WellFormed(c) && DistinctEvents(events) && DistinctEvents(others)
    requires forall e :: e in events <==> e in others
    requires forall e :: e in events ==> !e.action.Deleted?
    ensures EventMerge(c, events, who) == EventMerge(c, others, who)
  {
    forall path
      ensures Lookup(EventMerge(c, events, who), path) == Lookup(EventMerge(c, others, who), path)
    {
      EventsLookup(c, events, who, path);
      EventsLookup(c, others, who, path);
      if EventAt(events, path).Some? {
        EventAtMember(others, EventAt(events, path).value);
      } else if EventAt(others, path).Some? {
        EventAtMember(events, EventAt(others, path).value);
      }
    }
    EventMergeKeeps(c, events, who);
    EventMergeKeeps(c, others, who);
    LookupsDetermine(EventMerge(c, events, who), EventMerge(c, others, who));
  }

  lemma {:induction false} DiffEvents(c: seq<Entry>, files: seq<FileInfo>)
    requires DistinctPaths(files)
    ensures DistinctEvents(FileDiff(c, files))
    ensures forall e :: e in FileDiff(c, files) ==> !e.action.Deleted? && e.file in files
  {
    if files == [] {
    } else {
      var rest, events := files[1..], FileDiff(c, files[1..]);
      assert forall i :: 0 <= i < |rest| ==> rest[i] == files[i + 1];
      DiffEvents(c, rest);
      forall i | 0 <= i < |events|
        ensures events[i].file.path != files[0].path
      {
        assert events[i] in events && events[i].file in rest;
      }
    }
  }

  lemma {:induction false} DiffEventAt(c: seq<Entry>, files: seq<FileInfo>, path: string)
    requires DistinctPaths(files)
    ensures EventAt(FileDiff(c, files), path) ==
            match FileAt(files, path) case Some(f) => DiffOne(c, f) case None => None
  {
    if files == [] {
    } else {
      var rest := files[1..];
      assert forall i :: 0 <= i < |rest| ==> rest[i] == files[i + 1];
      DiffEventAt(c, rest, path);
      assert FileAt(rest, files[0].path).None?;
      if DiffOne(c, files[0]).Some? {
        EventAtAppend(FileDiff(c, rest), DiffOne(c, files[0]).value, path);
      } else {
        assert FileDiff(c, files) == FileDiff(c, rest);
      }
    }
  }

  lemma {:induction false} EventAtAppend(events: seq<Event>, e: Event, path: string)
    ensures EventAt(events + [e], path) ==
            if EventAt(events, path).Some? then EventAt(events, path) else if e.file.path == path then Some(e) else None
  {
    if events == [] {
      assert events + [e] == [e];
    } else {
      assert (events + [e])[1..] == events[1..] + [e];
      EventAtAppend(events[1..], e, path);
    }
  }

  /** What registering a list with file f (or without any file) at a path makes of the entry:
      an absent file is created, a newer one replaces size, time and peers, an equally old one
      of the same size adds the peer, an older one changes nothing. */
  function MergeOne(was: Option<Entry>, f: Option<FileInfo>, who: Addr): Option<Entry> {
    match (was, f)
    case (_, None) => was
    case (None, Some(f)) => if IsDotfile(f.path) then None else Some(Entry(Normal(f), [who]))
    case (Some(e), Some(f)) =>
      if e.file.mtime < f.mtime then Some(Entry(e.file.(size := f.size, mtime := f.mtime), [who]))
      else if e.file.mtime == f.mtime && e.file.size == f.size && !Lists(e.peers, who.ip)
      then Some(e.(peers := [who] + e.peers))
      else was
  }

  /** Diff-then-apply is that, file by file. */
  lemma MergeLookup(c: seq<Entry>, files: seq<FileInfo>, who: Addr, path: string)
    requires WellFormed(c) && DistinctPaths(files) && IpFits(who.ip)
    ensures WellFormed(Merge(c, files, who))
    ensures Lookup(Merge(c, files, who), path) == MergeOne(Lookup(c, path), FileAt(files, path), who)
  {
    DiffEvents(c, files);
    DiffEventAt(c, files, path);
    EventsLookup(c, FileDiff(c, files), who, path);
    EventMergeKeeps(c, FileDiff(c, files), who);
  }

  /** Merging the same list again changes nothing. */
  lemma MergeIdempotent(c: seq<Entry>, files: seq<FileInfo>, who: Addr)
    requires WellFormed(c) && DistinctPaths(files) && IpFits(who.ip)
    ensures Merge(Merge(c, files, who), files, who) == Merge(c, files, who)
  {
    var d := Merge(c, files, who);
    MergeLookup(c, files, who, "");
    forall path
      ensures Lookup(Merge(d, files, who), path) == Lookup(d, path)
    {
      MergeLookup(c, files, who, path);
      MergeLookup(d, files, who, path);
      if Lookup(d, path).Some? && FileAt(files, path).Some? {
        var peers := Lookup(d, path).value.peers;
        assert peers != [] && peers[0] == who ==> Lists(peers, who.ip);
      }
    }
    MergeLookup(d, files, who, "");
    LookupsDetermine(Merge(d, files, who), d);
  }

  // ---- several registrations ----

  datatype Registration = Registration(who: Addr, files: seq<FileInfo>)

  function RegisterAll(c: seq<Entry>, regs: seq<Registration>): seq<Entry> {
    if regs == [] then c
    else
      var last := regs[|regs| - 1];
      Merge(RegisterAll(c, regs[..|regs| - 1]), last.files, last.who)
  }

  /** The registration offers this version of the path. */
  predicate Offers(r: Registration, f: FileInfo) {
    FileAt(r.files, f.path) == Some(f)
  }

  /** Path and time determine the size, the path determines the kind, directories have size 0. */
  predicate Compatible(f: FileInfo, g: FileInfo) {
    f.path == g.path ==> f.isDir == g.isDir && (f.mtime == g.mtime ==> f.size == g.size)
  }

  ghost predicate Consistent(c: seq<Entry>, regs: seq<Registration>) {
    && WellFormed(c)
    && (forall r :: r in regs ==> DistinctPaths(r.files) && IpFits(r.who.ip))
    && (forall i, j :: 0 <= i < j < |regs| ==> regs[i].who.ip != regs[j].who.ip)
    && (forall e, r, a :: e in c && r in regs && a in e.peers ==> a.ip != r.who.ip)
    && (forall r, f :: r in regs && f in r.files ==> Normal(f) == f)
    && (forall r, s, f, g :: r in regs && s in regs && f in r.files && g in s.files ==> Compatible(f, g))
    && (forall e, r, f :: e in c && r in regs && f in r.files ==> Compatible(e.file, f))
  }

  /** e is the outcome at a path, said without reference to any order: the latest version, and
      as its peers everyone that has that version. */
  ghost predicate IsLatest(c: seq<Entry>, regs: seq<Registration>, path: string, e: Entry) {
    var was := Lookup(c, path);
    && e.file.path == path
    && (was.Some? || !IsDotfile(path))
    && (Offered(regs, e.file) || (was.Some? && was.value.file == e.file))
    && (forall r :: r in regs ==> NoneNewer(r, e.file))
    && (was.Some? ==> was.value.file.mtime <= e.file.mtime)
    && (forall a :: a in e.peers <==>
          OfferedBy(regs, e.file, a) || (was.Some? && was.value.file.mtime == e.file.mtime && a in was.value.peers))
  }

  ghost predicate Offered(regs: seq<Registration>, f: FileInfo) {
    exists r :: r in regs && Offers(r, f)
  }

  ghost predicate OfferedBy(regs: seq<Registration>, f: FileInfo, a: Addr) {
    exists r :: r in regs && r.who == a && Offers(r, f)
  }

  predicate NoneNewer(r: Registration, f: FileInfo) {
    match FileAt(r.files, f.path) case Some(g) => g.mtime <= f.mtime case None => true
  }

  ghost predicate NothingOffered(c: seq<Entry>, regs: seq<Registration>, path: string) {
    && Lookup(c, path).None?
    && (IsDotfile(path) || forall r :: r in regs ==> FileAt(r.files, path).None?)
  }

  ghost predicate IsOutcome(c: seq<Entry>, regs: seq<Registration>, path: string, o: Option<Entry>) {
    match o
    case Some(e) => IsLatest(c, regs, path, e)
    case None => NothingOffered(c, regs, path)
  }

  /** regs is prior and one more. */
  ghost predicate Extends(prior: seq<Registration>, last: Registration, regs: seq<Registration>) {
    && (forall r :: r in regs <==> r in prior || r == last)
    && (forall r :: r in prior ==> r.who.ip != last.who.ip)
  }

  /** No peer of the outcome so far has the address that registers next. */
  lemma NewcomerIsNotListed(c: seq<Entry>, prior: seq<Registration>, last: Registration, regs: seq<Registration>,
                            path: string, e: Entry)
    requires Consistent(c, regs) && Extends(prior, last, regs) && IsLatest(c, prior, path, e)
    ensures !Lists(e.peers, last.who.ip)
  {
    forall k | 0 <= k < |e.peers|
      ensures e.peers[k].ip != last.who.ip
    {
      var a := e.peers[k];
      assert a in e.peers;
      if !OfferedBy(prior, e.file, a) {
        assert Lookup(c, path).value in c;
      }
    }
  }

  /** The outcome so far is compatible with what registers next. */
  lemma LatestIsCompatible(c: seq<Entry>, prior: seq<Registration>, last: Registration, regs: seq<Registration>,
                           path: string, e: Entry, f: FileInfo)
    requires Consistent(c, regs) && Extends(prior, last, regs) && IsLatest(c, prior, path, e)
    requires FileAt(last.files, path) == Some(f)
    ensures Compatible(e.file, f)
  {
    if Offered(prior, e.file) {
      var r :| r in prior && Offers(r, e.file);
      assert r in regs && e.file in r.files && last in regs && f in last.files;
    } else {
      assert Lookup(c, path).value in c && last in regs;
    }
  }

  lemma OfferedStep(prior: seq<Registration>, last: Registration, regs: seq<Registration>, f: FileInfo, a: Addr)
    requires Extends(prior, last, regs)
    ensures Offered(regs, f) <==> Offered(prior, f) || Offers(last, f)
    ensures OfferedBy(regs, f, a) <==> OfferedBy(prior, f, a) || (Offers(last, f) && a == last.who)
  {
    if Offered(prior, f) {
      var r :| r in prior && Offers(r, f);
      assert r in regs;
    }
    if OfferedBy(prior, f, a) {
      var r :| r in prior && r.who == a && Offers(r, f);
      assert r in regs;
    }
    if Offers(last, f) {
      assert last in regs;
    }
  }

  /** The newcomer has a version that nobody had: it becomes the latest one. */
  lemma NewVersionStep(c: seq<Entry>, prior: seq<Registration>, last: Registration, regs: seq<Registration>,
                       path: string, f: FileInfo)
    requires Consistent(c, regs) && Extends(prior, last, regs)
    requires FileAt(last.files, path) == Some(f) && (Lookup(c, path).Some? || !IsDotfile(path))
    requires Lookup(c, path).Some? ==> Lookup(c, path).value.file.mtime < f.mtime
    requires forall r :: r in prior ==> match FileAt(r.files, path) case Some(g) => g.mtime < f.mtime case None => true
    ensures IsLatest(c, regs, path, Entry(f, [last.who]))
  {
    forall a
      ensures a in [last.who] <==> OfferedBy(regs, f, a)
    {
      OfferedStep(prior, last, regs, f, a);
    }
    OfferedStep(prior, last, regs, f, last.who);
  }

  lemma SameVersionStep(c: seq<Entry>, prior: seq<Registration>, last: Registration, regs: seq<Registration>,
                        path: string, e: Entry)
    requires Extends(prior, last, regs) && IsLatest(c, prior, path, e) && FileAt(last.files, path) == Some(e.file)
    ensures IsLatest(c, regs, path, e.(peers := [last.who] + e.peers))
  {
    forall a
      ensures OfferedBy(regs, e.file, a) <==> OfferedBy(prior, e.file, a) || a == last.who
    {
      OfferedStep(prior, last, regs, e.file, a);
    }
    OfferedStep(prior, last, regs, e.file, last.who);
  }

  lemma NoVersionStep(c: seq<Entry>, prior: seq<Registration>, last: Registration, regs: seq<Registration>,
                      path: string, e: Entry)
    requires Extends(prior, last, regs) && IsLatest(c, prior, path, e)
    requires NoneNewer(last, e.file) && !Offers(last, e.file)
    ensures IsLatest(c, regs, path, e)
  {
    forall a
      ensures OfferedBy(regs, e.file, a) <==> OfferedBy(prior, e.file, a)
    {
      OfferedStep(prior, last, regs, e.file, a);
    }
    OfferedStep(prior, last, regs, e.file, last.who);
  }

  lemma OutcomeStep(c: seq<Entry>, prior: seq<Registration>, last: Registration, regs: seq<Registration>,
                    path: string, o: Option<Entry>)
    requires Consistent(c, regs) && Extends(prior, last, regs) && IsOutcome(c, prior, path, o)
    ensures IsOutcome(c, regs, path, MergeOne(o, FileAt(last.files, path), last.who))
  {
    var mine := FileAt(last.files, path);
    assert last in regs;
    match o
    case None =>
      if mine.Some? && !IsDotfile(path) {
        assert Normal(mine.value) == mine.value;
        NewVersionStep(c, prior, last, regs, path, mine.value);
      }
    case Some(e) =>
      if mine.None? {
        NoVersionStep(c, prior, last, regs, path, e);
      } else {
        var f := mine.value;
        LatestIsCompatible(c, prior, last, regs, path, e, f);
        NewcomerIsNotListed(c, prior, last, regs, path, e);
        if e.file.mtime < f.mtime {
          forall r | r in prior
            ensures match FileAt(r.files, path) case Some(g) => g.mtime < f.mtime case None => true
          {
            assert NoneNewer(r, e.file);
          }
          NewVersionStep(c, prior, last, regs, path, f);
        } else if e.file.mtime == f.mtime {
          SameVersionStep(c, prior, last, regs, path, e);
        } else {
          NoVersionStep(c, prior, last, regs, path, e);
        }
      }
  }

  lemma ConsistentPrior(c: seq<Entry>, regs: seq<Registration>)
    requires Consistent(c, regs) && regs != []
    ensures Consistent(c, regs[..|regs| - 1])
    ensures Extends(regs[..|regs| - 1], regs[|regs| - 1], regs)
  {
    var prior := regs[..|regs| - 1];
    assert regs == prior + [regs[|regs| - 1]];
    assert forall i :: 0 <= i < |prior| ==> prior[i] == regs[i];
  }

  /** What any number of registrations leave at a path is the latest version with everyone that
      offers it: a description in which their order does not occur. */
  lemma {:induction false} RegisterOutcome(c: seq<Entry>, regs: seq<Registration>, path: string)
    requires Consistent(c, regs)
    ensures WellFormed(RegisterAll(c, regs))
    ensures IsOutcome(c, regs, path, Lookup(RegisterAll(c, regs), path))
    decreases |regs|
  {
    if regs == [] {
      assert forall a, f :: !OfferedBy(regs, f, a);
    } else {
      var prior, last := regs[..|regs| - 1], regs[|regs| - 1];
      ConsistentPrior(c, regs);
      RegisterOutcome(c, prior, path);
      MergeLookup(RegisterAll(c, prior), last.files, last.who, path);
      OutcomeStep(c, prior, last, regs, path, Lookup(RegisterAll(c, prior), path));
    }
  }

  // ---- order independence ----

  /** The same files in the same order with the same sets of peers. */
  ghost predicate SameTable(c: seq<Entry>, d: seq<Entry>) {
    && |c| == |d|
    && (forall i :: 0 <= i < |c| ==> c[i].file == d[i].file && forall a :: a in c[i].peers <==> a in d[i].peers)
  }

  ghost predicate SameAnswer(o: Option<Entry>, q: Option<Entry>) {
    match (o, q)
    case (Some(e), Some(x)) => e.file == x.file && forall a :: a in e.peers <==> a in x.peers
    case (None, None) => true
    case _ => false
  }

  function Bare(c: seq<Entry>): (d: seq<Entry>)
    ensures |d| == |c| && forall i :: 0 <= i < |c| ==> d[i] == Entry(c[i].file, [])
  {
    seq(|c|, i requires 0 <= i < |c| => Entry(c[i].file, []))
  }

  lemma BareLookup(c: seq<Entry>, path: string)
    requires WellFormed(c)
    ensures WellFormed(Bare(c))
    ensures Lookup(Bare(c), path) == match Lookup(c, path) case Some(e) => Some(Entry(e.file, [])) case None => None
  {
    var i := Find(c, path);
    if i < |c| {
      assert Bare(c)[i].file.path == path;
      FindAt(Bare(c), i);
    } else {
      LookupAbsent(Bare(c), path);
    }
  }

  lemma SameAnswersSameTable(c: seq<Entry>, d: seq<Entry>)
    requires WellFormed(c) && WellFormed(d)
    requires forall path :: SameAnswer(Lookup(c, path), Lookup(d, path))
    ensures SameTable(c, d)
  {
    forall path
      ensures Lookup(Bare(c), path) == Lookup(Bare(d), path)
    {
      BareLookup(c, path);
      BareLookup(d, path);
      assert SameAnswer(Lookup(c, path), Lookup(d, path));
    }
    BareLookup(c, "");
    BareLookup(d, "");
    LookupsDetermine(Bare(c), Bare(d));
    forall i | 0 <= i < |c|
      ensures c[i].file == d[i].file && forall a :: a in c[i].peers <==> a in d[i].peers
    {
      assert Bare(c)[i] == Bare(d)[i];
      FindAt(c, i);
      FindAt(d, i);
      assert SameAnswer(Lookup(c, c[i].file.path), Lookup(d, c[i].file.path));
    }
  }

  /** The latest version is unique. */
  lemma OutcomeUnique(c: seq<Entry>, regs: seq<Registration>, path: string, o: Option<Entry>, q: Option<Entry>)
    requires Consistent(c, regs) && IsOutcome(c, regs, path, o) && IsOutcome(c, regs, path, q)
    ensures SameAnswer(o, q)
  {
    if o.Some? && q.Some? {
      LatestUnique(c, regs, path, o.value, q.value);
    } else if o.Some? {
      LatestIsOffered(c, regs, path, o.value);
    } else if q.Some? {
      LatestIsOffered(c, regs, path, q.value);
    }
  }

  lemma LatestIsOffered(c: seq<Entry>, regs: seq<Registration>, path: string, e: Entry)
    requires IsLatest(c, regs, path, e)
    ensures !NothingOffered(c, regs, path)
  {
    if Lookup(c, path).None? {
      var r :| r in regs && Offers(r, e.file);
    }
  }

  lemma LatestUnique(c: seq<Entry>, regs: seq<Registration>, path: string, e: Entry, x: Entry)
    requires Consistent(c, regs) && IsLatest(c, regs, path, e) && IsLatest(c, regs, path, x)
    ensures e.file == x.file && forall a :: a in e.peers <==> a in x.peers
  {
    LatestAtLeast(c, regs, path, e, x);
    LatestAtLeast(c, regs, path, x, e);
  }

  /** Two candidates for the latest version are versions of one file. */
  lemma CandidatesCompatible(c: seq<Entry>, regs: seq<Registration>, path: string, f: FileInfo, g: FileInfo)
    requires Consistent(c, regs) && f.path == g.path == path
    requires Offered(regs, f) || (Lookup(c, path).Some? && Lookup(c, path).value.file == f)
    requires Offered(regs, g) || (Lookup(c, path).Some? && Lookup(c, path).value.file == g)
    ensures Compatible(f, g)
  {
    if Offered(regs, f) {
      var r :| r in regs && Offers(r, f);
      assert f in r.files;
      if Offered(regs, g) {
        var s :| s in regs && Offers(s, g);
        assert g in s.files;
      } else {
        assert Lookup(c, path).value in c;
      }
    } else if Offered(regs, g) {
      var s :| s in regs && Offers(s, g);
      assert g in s.files && Lookup(c, path).value in c;
    }
  }

  lemma LatestAtLeast(c: seq<Entry>, regs: seq<Registration>, path: string, e: Entry, x: Entry)
    requires Consistent(c, regs) && IsLatest(c, regs, path, e) && IsLatest(c, regs, path, x)
    ensures x.file.mtime <= e.file.mtime && Compatible(x.file, e.file)
  {
    CandidatesCompatible(c, regs, path, x.file, e.file);
    if Offered(regs, x.file) {
      var r :| r in regs && Offers(r, x.file);
      assert NoneNewer(r, e.file);
    }
  }

  /** Registrations commute: any two orders of the same ones give the same table. */
  lemma RegisterOrderIrrelevant(c: seq<Entry>, regs: seq<Registration>, others: seq<Registration>)
    requires Consistent(c, regs) && Consistent(c, others)
    requires forall r :: r in regs <==> r in others
    ensures SameTable(RegisterAll(c, regs), RegisterAll(c, others))
  {
    RegisterOutcome(c, regs, "");
    RegisterOutcome(c, others, "");
    forall path
      ensures SameAnswer(Lookup(RegisterAll(c, regs), path), Lookup(RegisterAll(c, others), path))
    {
      RegisterOutcome(c, regs, path);
      RegisterOutcome(c, others, path);
      OutcomeTransfers(c, others, regs, path, Lookup(RegisterAll(c, others), path));
      OutcomeUnique(c, regs, path, Lookup(RegisterAll(c, regs), path), Lookup(RegisterAll(c, others), path));
    }
    SameAnswersSameTable(RegisterAll(c, regs), RegisterAll(c, others));
  }

  /** The description of the outcome depends only on which registrations there are. */
  lemma OutcomeTransfers(c: seq<Entry>, regs: seq<Registration>, others: seq<Registration>,
                         path: string, o: Option<Entry>)
    requires (forall r :: r in regs <==> r in others) && IsOutcome(c, regs, path, o)
    ensures IsOutcome(c, others, path, o)
  {
    forall f, a
      ensures Offered(regs, f) == Offered(others, f) && OfferedBy(regs, f, a) == OfferedBy(others, f, a)
    {
      OfferedTransfers(regs, others, f, a);
      OfferedTransfers(others, regs, f, a);
    }
  }

  lemma OfferedTransfers(regs: seq<Registration>, others: seq<Registration>, f: FileInfo, a: Addr)
    requires forall r :: r in regs <==> r in others
    ensures Offered(regs, f) ==> Offered(others, f)
    ensures OfferedBy(regs, f, a) ==> OfferedBy(others, f, a)
  {
    if Offered(regs, f) {
      var r :| r in regs && Offers(r, f);
      assert r in others;
    }
    if OfferedBy(regs, f, a) {
      var r :| r in regs && r.who == a && Offers(r, f);
      assert r in others;
    }
  }

  // ---- exactly when two registrations commute ----

  /** Two versions of a file whose order of arrival leaves no trace, where the table has o. To a
      new file the kind and a directory's size matter; to one that is there, only whether both
      are newer and equally old. */
  predicate CommuteAt(o: Option<Entry>, f: FileInfo, g: FileInfo) {
    match o
    case None =>
      && f.isDir == g.isDir
      && (f.mtime == g.mtime ==> f.size == g.size)
      && (if f.mtime < g.mtime then Normal(g) == g else Normal(f) == f)
    case Some(e) => f.mtime == g.mtime > e.file.mtime ==> f.size == g.size
  }

  /** What f offered by a and then g offered by b make of an entry. */
  function MergeBoth(o: Option<Entry>, f: FileInfo, a: Addr, g: FileInfo, b: Addr): Option<Entry> {
    MergeOne(MergeOne(o, Some(f), a), Some(g), b)
  }

  lemma AddedPeers(peers: seq<Addr>, a: Addr)
    ensures forall ip :: Lists([a] + peers, ip) <==> a.ip == ip || Lists(peers, ip)
  {
    forall ip
      ensures Lists([a] + peers, ip) <==> a.ip == ip || Lists(peers, ip)
    {
      if Lists(peers, ip) {
        var k :| 0 <= k < |peers| && peers[k].ip == ip;
        assert ([a] + peers)[k + 1].ip == ip;
      }
      assert ([a] + peers)[0] == a;
    }
  }

  lemma NewVersionsCommuteIff(f: FileInfo, g: FileInfo, a: Addr, b: Addr)
    requires f.path == g.path && !IsDotfile(f.path) && a.ip != b.ip
    ensures SameAnswer(MergeBoth(None, f, a, g, b), MergeBoth(None, g, b, f, a)) <==> CommuteAt(None, f, g)
  {
    assert [a][0] == a && [b][0] == b;
    assert a in [a] && b in [b] && a !in [b] && b !in [a];
    assert b in [b] + [a] && a in [b] + [a] && a in [a] + [b] && b in [a] + [b];
    assert !Lists([a], b.ip) && !Lists([b], a.ip);
    forall x
      ensures x in [a] + [b] <==> x in [b] + [a]
    {
    }
  }

  /** A version that is newer than the entry leaves nothing of its peers. */
  lemma NewerVersionsCommuteIff(e: Entry, f: FileInfo, g: FileInfo, a: Addr, b: Addr)
    requires f.path == g.path == e.file.path && a.ip != b.ip
    requires e.file.mtime < f.mtime || e.file.mtime < g.mtime
    ensures SameAnswer(MergeBoth(Some(e), f, a, g, b), MergeBoth(Some(e), g, b, f, a)) <==> CommuteAt(Some(e), f, g)
  {
    assert [a][0] == a && [b][0] == b;
    assert a in [a] && b in [b] && a !in [b] && b !in [a];
    assert !Lists([a], b.ip) && !Lists([b], a.ip);
    forall x
      ensures x in [b] + [a] <==> x in [a] + [b]
    {
    }
  }

  /** Versions that are not newer only add peers. */
  lemma OlderVersionsCommute(e: Entry, f: FileInfo, g: FileInfo, a: Addr, b: Addr)
    requires f.path == g.path == e.file.path && a.ip != b.ip
    requires f.mtime <= e.file.mtime && g.mtime <= e.file.mtime
    ensures SameAnswer(MergeBoth(Some(e), f, a, g, b), MergeBoth(Some(e), g, b, f, a))
  {
    forall x
      ensures x in [b] + ([a] + e.peers) <==> x in [a] + ([b] + e.peers)
    {
    }
    AddedPeers(e.peers, a);
    AddedPeers(e.peers, b);
  }

  /** At any path of any table. */
  lemma VersionsCommuteIff(o: Option<Entry>, f: FileInfo, g: FileInfo, a: Addr, b: Addr)
    requires f.path == g.path && !IsDotfile(f.path) && a.ip != b.ip && (o.Some? ==> o.value.file.path == f.path)
    ensures SameAnswer(MergeBoth(o, f, a, g, b), MergeBoth(o, g, b, f, a)) <==> CommuteAt(o, f, g)
  {
    match o
    case None => NewVersionsCommuteIff(f, g, a, b);
    case Some(e) =>
      if e.file.mtime < f.mtime || e.file.mtime < g.mtime {
        NewerVersionsCommuteIff(e, f, g, a, b);
      } else {
        OlderVersionsCommute(e, f, g, a, b);
      }
  }

  lemma SameTableAnswers(c: seq<Entry>, d: seq<Entry>, path: string)
    requires WellFormed(c) && WellFormed(d) && SameTable(c, d)
    ensures SameAnswer(Lookup(c, path), Lookup(d, path))
  {
    var i := Find(c, path);
    if i < |c| {
      assert c[i].file == d[i].file;
      FindAt(d, i);
    } else {
      assert forall k :: 0 <= k < |c| ==> c[k].file == d[k].file;
      LookupAbsent(d, path);
    }
  }

  /** Every two versions that a and b have of a file commute at what the table has. */
  ghost predicate AllCommute(c: seq<Entry>, a: Registration, b: Registration) {
    forall f, g :: f in a.files && g in b.files && f.path == g.path && !IsDotfile(f.path) ==>
                     CommuteAt(Lookup(c, f.path), f, g)
  }

  lemma {:induction false} FileAtMember(files: seq<FileInfo>, f: FileInfo)
    requires DistinctPaths(files) && f in files
    ensures FileAt(files, f.path) == Some(f)
  {
    if files[0] != f {
      var rest := files[1..];
      assert forall i :: 0 <= i < |rest| ==> rest[i] == files[i + 1];
      var k :| 0 <= k < |files| && files[k] == f;
      assert rest[k - 1] == f;
      FileAtMember(rest, f);
    }
  }

  lemma TwoMergesAt(c: seq<Entry>, a: Registration, b: Registration, path: string)
    requires WellFormed(c)
    requires DistinctPaths(a.files) && DistinctPaths(b.files) && IpFits(a.who.ip) && IpFits(b.who.ip)
    ensures var t := Merge(Merge(c, a.files, a.who), b.files, b.who);
      WellFormed(t) &&
      Lookup(t, path) ==
      MergeOne(MergeOne(Lookup(c, path), FileAt(a.files, path), a.who), FileAt(b.files, path), b.who)
  {
    MergeLookup(c, a.files, a.who, path);
    MergeLookup(Merge(c, a.files, a.who), b.files, b.who, path);
  }

  /** Where only one of the two has a version, their order does not matter. */
  lemma TwoOrdersAt(c: seq<Entry>, a: Registration, b: Registration, path: string)
    requires WellFormed(c) && a.who.ip != b.who.ip
    requires DistinctPaths(a.files) && DistinctPaths(b.files) && IpFits(a.who.ip) && IpFits(b.who.ip)
    ensures SameAnswer(Lookup(Merge(Merge(c, a.files, a.who), b.files, b.who), path),
                       Lookup(Merge(Merge(c, b.files, b.who), a.files, a.who), path))
      <==> match (FileAt(a.files, path), FileAt(b.files, path))
           case (Some(f), Some(g)) => IsDotfile(path) || CommuteAt(Lookup(c, path), f, g)
           case _ => true
  {
    TwoMergesAt(c, a, b, path);
    TwoMergesAt(c, b, a, path);
    match (FileAt(a.files, path), FileAt(b.files, path))
    case (Some(f), Some(g)) =>
      if IsDotfile(path) {
        LookupAbsent(c, path);
      } else {
        VersionsCommuteIff(Lookup(c, path), f, g, a.who, b.who);
      }
    case _ =>
  }

  lemma AgreeingOrdersCommute(c: seq<Entry>, a: Registration, b: Registration)
    requires WellFormed(c) && a.who.ip != b.who.ip
    requires DistinctPaths(a.files) && DistinctPaths(b.files) && IpFits(a.who.ip) && IpFits(b.who.ip)
    requires SameTable(Merge(Merge(c, a.files, a.who), b.files, b.who), Merge(Merge(c, b.files, b.who), a.files, a.who))
    ensures AllCommute(c, a, b)
  {
    TwoMergesAt(c, a, b, "");
    TwoMergesAt(c, b, a, "");
    forall f, g | f in a.files && g in b.files && f.path == g.path && !IsDotfile(f.path)
      ensures CommuteAt(Lookup(c, f.path), f, g)
    {
      FileAtMember(a.files, f);
      FileAtMember(b.files, g);
      SameTableAnswers(Merge(Merge(c, a.files, a.who), b.files, b.who), Merge(Merge(c, b.files, b.who), a.files, a.who),
                       f.path);
      TwoOrdersAt(c, a, b, f.path);
    }
  }

  lemma CommutingOrdersAgree(c: seq<Entry>, a: Registration, b: Registration)
    requires WellFormed(c) && a.who.ip != b.who.ip && AllCommute(c, a, b)
    requires DistinctPaths(a.files) && DistinctPaths(b.files) && IpFits(a.who.ip) && IpFits(b.who.ip)
    ensures SameTable(Merge(Merge(c, a.files, a.who), b.files, b.who), Merge(Merge(c, b.files, b.who), a.files, a.who))
  {
    var ab, ba := Merge(Merge(c, a.files, a.who), b.files, b.who), Merge(Merge(c, b.files, b.who), a.files, a.who);
    TwoMergesAt(c, a, b, "");
    TwoMergesAt(c, b, a, "");
    forall path
      ensures SameAnswer(Lookup(ab, path), Lookup(ba, path))
    {
      TwoOrdersAt(c, a, b, path);
    }
    SameAnswersSameTable(ab, ba);
  }

  /** Registering a and then b in any table gives what b and then a gives, exactly when every two
      versions that they have of a file commute there. */
  lemma TwoOrdersAgreeIff(c: seq<Entry>, a: Registration, b: Registration)
    requires WellFormed(c) && a.who.ip != b.who.ip
    requires DistinctPaths(a.files) && DistinctPaths(b.files) && IpFits(a.who.ip) && IpFits(b.who.ip)
    ensures SameTable(Merge(Merge(c, a.files, a.who), b.files, b.who), Merge(Merge(c, b.files, b.who), a.files, a.who))
            <==> AllCommute(c, a, b)
  {
    var ab, ba := Merge(Merge(c, a.files, a.who), b.files, b.who), Merge(Merge(c, b.files, b.who), a.files, a.who);
    if AllCommute(c, a, b) {
      CommutingOrdersAgree(c, a, b);
    }
    if SameTable(ab, ba) {
      AgreeingOrdersCommute(c, a, b);
    }
  }

  /** Two peers with different files of the same name and time: the first one to register wins. */
  lemma FirstRegistrationCanWin(a: Addr, b: Addr)
    requires IpFits(a.ip) && IpFits(b.ip) && a.ip != b.ip
    ensures var f, g := FileInfo("x", 1, 7, false), FileInfo("x", 2, 7, false);
      !SameTable(Merge(Merge([], [f], a), [g], b), Merge(Merge([], [g], b), [f], a))
  {
    var f, g := FileInfo("x", 1, 7, false), FileInfo("x", 2, 7, false);
    assert f in [f] && g in [g] && !CommuteAt(Lookup([], "x"), f, g);
    TwoOrdersAgreeIff([], Registration(a, [f]), Registration(b, [g]));
  }
}
