/** Who a table lists as holding a file, read off the log of everything the tracker was told. */
module History {
  import opened CStrings
  import opened Table
  import opened TableLaws
  import opened MergeLaws

  /** A peer reports an event, or is removed from the table. */
  datatype Op = Report(e: Event, who: Addr) | Leave(who: Addr)

  function ApplyOp(c: seq<Entry>, op: Op): seq<Entry> {
    match op
    case Report(e, who) => Apply(c, e, who)
    case Leave(who) => RemovePeerAll(c, who)
  }

  /** The table after the log, from the empty table. */
  function Run(log: seq<Op>): seq<Entry> {
    if log == [] then [] else ApplyOp(Run(log[..|log| - 1]), log[|log| - 1])
  }

  /** What the table said about a path before operation i. */
  function Before(log: seq<Op>, i: nat, path: string): Option<Entry>
    requires i <= |log|
  {
    Lookup(Run(log[..i]), path)
  }

  /** Operation i gives the path a new version: it creates it, or modifies it while it is there. */
  predicate Writes(log: seq<Op>, i: nat, path: string)
    requires i < |log|
  {
    && log[i].Report? && log[i].e.file.path == path && !IsDotfile(path) && IpFits(log[i].who.ip)
    && (log[i].e.action.Created? || (log[i].e.action.Modified? && Before(log, i, path).Some?))
  }

  /** Operation i reports a complete download of the size the entry has at that moment. */
  predicate Completes(log: seq<Op>, i: nat, path: string)
    requires i < |log|
  {
    && log[i].Report? && log[i].e.action.DownloadComplete? && log[i].e.file.path == path
    && Before(log, i, path).Some? && Before(log, i, path).value.file.size == log[i].e.file.size
  }

  /** Operation i removes the path, by its name or with a directory. */
  predicate Erases(log: seq<Op>, i: nat, path: string)
    requires i < |log|
  {
    && log[i].Report? && log[i].e.action.Deleted?
    && var d := log[i].e.file.path;
    Before(log, i, d).Some? && (path == d || (Before(log, i, d).value.file.isDir && HasPrefix(d, path)))
  }

  predicate Adds(log: seq<Op>, i: nat, path: string, q: Addr)
    requires i < |log|
  {
    (Writes(log, i, path) || Completes(log, i, path)) && log[i].who == q
  }

  predicate Ends(log: seq<Op>, i: nat, path: string, q: Addr)
    requires i < |log|
  {
    || (Writes(log, i, path) && log[i].who != q)
    || Erases(log, i, path)
    || log[i] == Leave(q)
  }

  /** q created or modified the file or completed its download, and since then nobody else wrote
      it, it was not removed, and q did not leave. */
  ghost predicate HoldsFile(log: seq<Op>, path: string, q: Addr) {
    exists i :: 0 <= i < |log| && Adds(log, i, path, q) && forall j :: i < j < |log| ==> !Ends(log, j, path, q)
  }

  predicate IsListed(o: Option<Entry>, q: Addr) {
    o.Some? && q in o.value.peers
  }

  lemma {:induction false} RunWellFormed(log: seq<Op>)
    ensures WellFormed(Run(log))
    decreases |log|
  {
    if log == [] {
    } else {
      RunWellFormed(log[..|log| - 1]);
      match log[|log| - 1]
      case Report(e, who) => ApplyKeeps(Run(log[..|log| - 1]), e, who);
      case Leave(who) => RemovePeerAllLaw(Run(log[..|log| - 1]), who, "");
    }
  }

  /** The last operation of the log, at one path. */
  lemma LastOp(log: seq<Op>, path: string)
    requires log != []
    ensures var m := |log| - 1; var o := Before(log, m, path);
      Lookup(Run(log), path) ==
      match log[m]
      case Leave(who) => (match o case Some(e) => Some(e.(peers := DropPeer(e.peers, who))) case None => None)
      case Report(e, who) =>
        if e.action.Deleted? then (if Erases(log, m, path) then None else o)
        else if e.file.path == path then ApplyOne(o, e, who)
        else o
  {
    var m := |log| - 1;
    var c := Run(log[..m]);
    RunWellFormed(log[..m]);
    match log[m]
    case Leave(who) => RemovePeerAllLaw(c, who, path);
    case Report(e, who) =>
      if e.action.Deleted? {
        RemoveLaw(c, e.file.path, path);
      } else {
        ApplyLookup(c, e, who, path);
      }
  }

  /** The reporter of a completed download is refused, as its ip is listed under another port. */
  predicate Refused(log: seq<Op>, i: nat)
    requires i < |log|
  {
    && log[i].Report? && Completes(log, i, log[i].e.file.path)
    && var peers := Before(log, i, log[i].e.file.path).value.peers;
    Lists(peers, log[i].who.ip) && log[i].who !in peers
  }

  ghost predicate NobodyRefused(log: seq<Op>) {
    forall i :: 0 <= i < |log| ==> !Refused(log, i)
  }

  /** How an event at its own path changes who is listed there. */
  lemma EventPeers(o: Option<Entry>, e: Event, who: Addr, q: Addr)
    requires !e.action.Deleted?
    requires o.Some? && e.action.DownloadComplete? && o.value.file.size == e.file.size ==>
               (Lists(o.value.peers, who.ip) ==> who in o.value.peers)
    requires o.Some? ==> !IsDotfile(e.file.path)
    ensures var writes := !IsDotfile(e.file.path) && IpFits(who.ip) &&
                          (e.action.Created? || (e.action.Modified? && o.Some?));
      var completes := e.action.DownloadComplete? && o.Some? && o.value.file.size == e.file.size;
      IsListed(ApplyOne(o, e, who), q) <==>
      ((writes || completes) && who == q) || (IsListed(o, q) && !(writes && who != q))
  {
  }

  /** A report as the last operation. */
  lemma LastReportPeers(log: seq<Op>, path: string, q: Addr)
    requires log != [] && log[|log| - 1].Report? && !Refused(log, |log| - 1)
    ensures var m := |log| - 1;
      IsListed(Lookup(Run(log), path), q) <==>
      Adds(log, m, path, q) || (IsListed(Before(log, m, path), q) && !Ends(log, m, path, q))
  {
    var m := |log| - 1;
    var o := Before(log, m, path);
    LastOp(log, path);
    RunWellFormed(log[..m]);
    assert o.Some? ==> !IsDotfile(path);
    if !log[m].e.action.Deleted? && log[m].e.file.path == path {
      EventPeers(o, log[m].e, log[m].who, q);
    }
  }

  /** A departure as the last operation. */
  lemma LastLeavePeers(log: seq<Op>, path: string, q: Addr)
    requires log != [] && log[|log| - 1].Leave?
    ensures IsListed(Lookup(Run(log), path), q) <==>
            IsListed(Before(log, |log| - 1, path), q) && log[|log| - 1] != Leave(q)
  {
    var m := |log| - 1;
    var o := Before(log, m, path);
    LastOp(log, path);
    RunWellFormed(log[..m]);
    if o.Some? {
      DropPeerLaw(o.value.peers, log[m].who);
    }
  }

  lemma PrefixOps(log: seq<Op>, i: nat, path: string, q: Addr)
    requires log != [] && i < |log| - 1
    ensures Adds(log[..|log| - 1], i, path, q) == Adds(log, i, path, q)
    ensures Ends(log[..|log| - 1], i, path, q) == Ends(log, i, path, q)
  {
    assert log[..|log| - 1][..i] == log[..i];
  }

  /** The table and the log say the same about q and the path. */
  ghost predicate Agrees(log: seq<Op>, path: string, q: Addr) {
    IsListed(Lookup(Run(log), path), q) <==> HoldsFile(log, path, q)
  }

  /** Unless a completed download was refused, the peers of an entry are exactly those that the
      log says hold the file. */
  lemma {:induction false} PeersAreHolders(log: seq<Op>, path: string, q: Addr)
    requires NobodyRefused(log)
    ensures Agrees(log, path, q)
    decreases |log|
  {
    if log == [] {
    } else {
      var m := |log| - 1;
      PriorNobodyRefused(log);
      PeersAreHolders(log[..m], path, q);
      if log[m].Report? {
        LastReportPeers(log, path, q);
      } else {
        LastLeavePeers(log, path, q);
      }
      HoldsStep(log, path, q);
    }
  }

  lemma PriorNobodyRefused(log: seq<Op>)
    requires log != [] && NobodyRefused(log)
    ensures NobodyRefused(log[..|log| - 1])
  {
    var prior := log[..|log| - 1];
    forall i | 0 <= i < |prior|
      ensures !Refused(prior, i)
    {
      assert prior[..i] == log[..i] && !Refused(log, i);
    }
  }

  /** And exactly then: the refused reporter holds the file and is not listed. */
  lemma PeersAreHoldersIff(log: seq<Op>)
    ensures (forall n, path, q :: 0 <= n <= |log| ==> Agrees(log[..n], path, q)) <==> NobodyRefused(log)
  {
    if NobodyRefused(log) {
      forall n, path, q | 0 <= n <= |log|
        ensures Agrees(log[..n], path, q)
      {
        UpToNobodyRefused(log, n);
        PeersAreHolders(log[..n], path, q);
      }
    } else {
      var i :| 0 <= i < |log| && Refused(log, i);
      RefusedIsNotListed(log, i);
    }
  }

  lemma {:induction false} UpToNobodyRefused(log: seq<Op>, n: nat)
    requires n <= |log| && NobodyRefused(log)
    ensures NobodyRefused(log[..n])
    decreases |log|
  {
    if n == |log| {
      assert log[..n] == log;
    } else {
      PriorNobodyRefused(log);
      UpToNobodyRefused(log[..|log| - 1], n);
      assert log[..|log| - 1][..n] == log[..n];
    }
  }

  lemma RefusedIsNotListed(log: seq<Op>, i: nat)
    requires i < |log| && Refused(log, i)
    ensures !Agrees(log[..i + 1], log[i].e.file.path, log[i].who)
  {
    var seen, path := log[..i + 1], log[i].e.file.path;
    assert seen[i] == log[i] && seen[..i] == log[..i];
    LastOp(seen, path);
    assert Adds(seen, i, path, log[i].who);
    assert HoldsFile(seen, path, log[i].who);
  }

  lemma HoldsStep(log: seq<Op>, path: string, q: Addr)
    requires log != []
    ensures HoldsFile(log, path, q) <==>
            Adds(log, |log| - 1, path, q) || (HoldsFile(log[..|log| - 1], path, q) && !Ends(log, |log| - 1, path, q))
  {
    var m := |log| - 1;
    var prior := log[..m];
    forall i | 0 <= i < m
      ensures Adds(prior, i, path, q) == Adds(log, i, path, q) && Ends(prior, i, path, q) == Ends(log, i, path, q)
    {
      PrefixOps(log, i, path, q);
    }
    if HoldsFile(log, path, q) && !Adds(log, m, path, q) {
      var i :| 0 <= i < |log| && Adds(log, i, path, q) && forall j :: i < j < |log| ==> !Ends(log, j, path, q);
      assert Adds(prior, i, path, q);
      assert forall j :: i < j < m ==> Ends(prior, j, path, q) == Ends(log, j, path, q);
      assert HoldsFile(prior, path, q);
    }
    if HoldsFile(prior, path, q) && !Ends(log, m, path, q) {
      var i :| 0 <= i < m && Adds(prior, i, path, q) && forall j :: i < j < m ==> !Ends(prior, j, path, q);
      assert Adds(log, i, path, q);
    }
  }

  /** A host that comes back under another port before its departure was noticed is refused. */
  lemma ComebackIsRefused(f: FileInfo, a: Addr, b: Addr)
    requires a.ip == b.ip && a.port != b.port && IpFits(a.ip) && !IsDotfile(f.path) && Normal(f) == f
    ensures Refused([Report(Event(Created, f), a), Report(Event(DownloadComplete, f), b)], 1)
  {
    var first, second := Report(Event(Created, f), a), Report(Event(DownloadComplete, f), b);
    var log := [first, second];
    assert log[..1] == [first] && [first][..0] == [];
    assert Run([first]) == ApplyOp(Run([first][..0]), first) == Insert([], f, a);
    assert Insert([], f, a) == [Entry(f, [a])];
    var peers := [a];
    assert peers[0].ip == b.ip;
  }

  // ---- the version ----

  /** Operation i wrote the version that the path still has. */
  ghost predicate LastWrite(log: seq<Op>, i: nat, path: string)
    requires i < |log|
  {
    Writes(log, i, path) && forall j :: i < j < |log| ==> !Writes(log, j, path) && !Erases(log, j, path)
  }

  /** An entry with the time and size that operation i reported. */
  predicate HasVersion(o: Option<Entry>, op: Op)
    requires op.Report?
  {
    && o.Some? && o.value.file.mtime == op.e.file.mtime
    && o.value.file.size == if op.e.action.Created? then Normal(op.e.file).size else op.e.file.size
  }

  /** How the last operation moves the version. */
  lemma VersionStep(log: seq<Op>, path: string)
    requires log != []
    ensures var m := |log| - 1; var o, after := Before(log, m, path), Lookup(Run(log), path);
      && (Writes(log, m, path) ==> HasVersion(after, log[m]))
      && (Erases(log, m, path) ==> after.None?)
      && (!Writes(log, m, path) && !Erases(log, m, path) ==>
            o.Some? == after.Some? && (o.Some? ==> after.value.file == o.value.file))
  {
    LastOp(log, path);
    RunWellFormed(log[..|log| - 1]);
  }

  lemma LastWriteStep(log: seq<Op>, i: nat, path: string)
    requires log != [] && i < |log| - 1
    ensures var m := |log| - 1;
      LastWrite(log, i, path) <==> LastWrite(log[..m], i, path) && !Writes(log, m, path) && !Erases(log, m, path)
  {
    var m := |log| - 1;
    var prior := log[..m];
    forall j | i <= j < m
      ensures Writes(prior, j, path) == Writes(log, j, path) && Erases(prior, j, path) == Erases(log, j, path)
    {
      assert prior[..j] == log[..j];
    }
  }

  lemma {:induction false} LastWriteVersion(log: seq<Op>, path: string, i: nat)
    requires i < |log| && LastWrite(log, i, path)
    ensures HasVersion(Lookup(Run(log), path), log[i])
    decreases |log|
  {
    var m := |log| - 1;
    VersionStep(log, path);
    if i < m {
      LastWriteStep(log, i, path);
      LastWriteVersion(log[..m], path, i);
    }
  }

  lemma {:induction false} LastWriteOf(log: seq<Op>, path: string) returns (i: nat)
    requires Lookup(Run(log), path).Some?
    ensures i < |log| && LastWrite(log, i, path)
    decreases |log|
  {
    var m := |log| - 1;
    VersionStep(log, path);
    if Writes(log, m, path) {
      i := m;
    } else {
      i := LastWriteOf(log[..m], path);
      LastWriteStep(log, i, path);
    }
  }

  /** The entry's time and size are those of the last write that no removal followed, and there is
      an entry exactly when there is such a write. */
  lemma VersionIsLastWrite(log: seq<Op>, path: string)
    ensures Lookup(Run(log), path).Some? <==> exists i :: 0 <= i < |log| && LastWrite(log, i, path)
    ensures forall i :: 0 <= i < |log| && LastWrite(log, i, path) ==> HasVersion(Lookup(Run(log), path), log[i])
  {
    if Lookup(Run(log), path).Some? {
      var i := LastWriteOf(log, path);
    }
    forall i | 0 <= i < |log| && LastWrite(log, i, path)
      ensures HasVersion(Lookup(Run(log), path), log[i])
    {
      LastWriteVersion(log, path, i);
    }
  }

  // ---- the kind ----

  /** Operation i created the path where there was none, and it has not been removed since. */
  ghost predicate FirstWrite(log: seq<Op>, i: nat, path: string)
    requires i < |log|
  {
    && Writes(log, i, path) && Before(log, i, path).None?
    && forall j :: i < j < |log| ==> !Erases(log, j, path)
  }

  predicate HasKind(o: Option<Entry>, op: Op)
    requires op.Report?
  {
    o.Some? && o.value.file.isDir == op.e.file.isDir
  }

  lemma KindStep(log: seq<Op>, path: string)
    requires log != []
    ensures var m := |log| - 1; var o, after := Before(log, m, path), Lookup(Run(log), path);
      && (Erases(log, m, path) ==> after.None?)
      && (FirstWrite(log, m, path) ==> HasKind(after, log[m]))
      && (!Erases(log, m, path) && !FirstWrite(log, m, path) ==>
            o.Some? == after.Some? && (o.Some? ==> after.value.file.isDir == o.value.file.isDir))
      && (FirstWrite(log, m, path) ==> o.None?)
  {
    LastOp(log, path);
    RunWellFormed(log[..|log| - 1]);
  }

  lemma FirstWriteStep(log: seq<Op>, i: nat, path: string)
    requires log != [] && i < |log| - 1
    ensures FirstWrite(log, i, path) <==> FirstWrite(log[..|log| - 1], i, path) && !Erases(log, |log| - 1, path)
  {
    var prior := log[..|log| - 1];
    forall j | i <= j < |prior|
      ensures Writes(prior, j, path) == Writes(log, j, path) && Erases(prior, j, path) == Erases(log, j, path)
      ensures Before(prior, j, path) == Before(log, j, path)
    {
      assert prior[..j] == log[..j];
    }
  }

  lemma {:induction false} FirstWriteKind(log: seq<Op>, path: string, i: nat)
    requires i < |log| && FirstWrite(log, i, path)
    ensures HasKind(Lookup(Run(log), path), log[i])
    decreases |log|
  {
    var m := |log| - 1;
    KindStep(log, path);
    if i < m {
      FirstWriteStep(log, i, path);
      FirstWriteKind(log[..m], path, i);
    }
  }

  lemma {:induction false} FirstWriteOf(log: seq<Op>, path: string) returns (i: nat)
    requires Lookup(Run(log), path).Some?
    ensures i < |log| && FirstWrite(log, i, path)
    decreases |log|
  {
    var m := |log| - 1;
    KindStep(log, path);
    if FirstWrite(log, m, path) {
      i := m;
    } else {
      i := FirstWriteOf(log[..m], path);
      FirstWriteStep(log, i, path);
    }
  }

  /** Whether the entry is a directory was settled by the first write since it was last absent;
      later writes do not change it. */
  lemma KindIsFirstWrite(log: seq<Op>, path: string)
    ensures Lookup(Run(log), path).Some? <==> exists i :: 0 <= i < |log| && FirstWrite(log, i, path)
    ensures forall i :: 0 <= i < |log| && FirstWrite(log, i, path) ==> HasKind(Lookup(Run(log), path), log[i])
  {
    if Lookup(Run(log), path).Some? {
      var i := FirstWriteOf(log, path);
    }
    forall i | 0 <= i < |log| && FirstWrite(log, i, path)
      ensures HasKind(Lookup(Run(log), path), log[i])
    {
      FirstWriteKind(log, path, i);
    }
  }
}
