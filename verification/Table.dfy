/** The file table as a value: the entries in list order, and what each operation of
    filetable/filetable.c makes of them. */
module Table {
  import opened CStrings

  datatype Option<+T> = None | Some(value: T)

  datatype FileInfo = FileInfo(path: string, size: nat, mtime: int, isDir: bool)

  datatype Addr = Addr(ip: string, port: int)

  datatype Entry = Entry(file: FileInfo, peers: seq<Addr>)

  datatype Action = Modified | Created | Deleted | DownloadComplete

  datatype Event = Event(action: Action, file: FileInfo)

  /** The ip field of a peer holds 39 characters and the terminator. */
  predicate IpFits(ip: string) { |ip| + 1 <= 40 }

  predicate Lists(peers: seq<Addr>, ip: string) {
    exists k :: 0 <= k < |peers| && peers[k].ip == ip
  }

  ghost predicate DistinctIps(peers: seq<Addr>) {
    forall j, k :: 0 <= j < k < |peers| ==> peers[j].ip != peers[k].ip
  }

  ghost predicate Sorted(c: seq<Entry>) {
    forall i, j :: 0 <= i < j < |c| ==> Less(c[i].file.path, c[j].file.path)
  }

  /** What every operation keeps. */
  ghost predicate WellFormed(c: seq<Entry>) {
    && Sorted(c)
    && (forall i :: 0 <= i < |c| ==> !IsDotfile(c[i].file.path) && DistinctIps(c[i].peers))
  }

  /** Where the first entry with this path is, or the length. */
  function Find(c: seq<Entry>, path: string): (i: nat)
    ensures i <= |c| && (i < |c| ==> c[i].file.path == path)
    ensures forall k :: 0 <= k < i ==> c[k].file.path != path
  {
    if c == [] || c[0].file.path == path then 0 else 1 + Find(c[1..], path)
  }

  /** filetable_getEntry() */
  function Lookup(c: seq<Entry>, path: string): Option<Entry> {
    var i := Find(c, path);
    if i < |c| then Some(c[i]) else None
  }

  /** Where a path that is not in the table belongs: before the first larger one. */
  function Position(c: seq<Entry>, path: string): (i: nat)
    ensures i <= |c| && (i < |c| ==> Less(path, c[i].file.path))
    ensures forall k :: 0 <= k < i ==> !Less(path, c[k].file.path)
  {
    if c == [] || Less(path, c[0].file.path) then 0 else 1 + Position(c[1..], path)
  }

  /** filetable_updateMod(): the entry keeps its path and kind; who becomes its only peer. */
  function UpdateMod(c: seq<Entry>, f: FileInfo, who: Addr): seq<Entry> {
    var i := Find(c, f.path);
    if !IpFits(who.ip) || i == |c| then c
    else c[i := Entry(FileInfo(f.path, f.size, f.mtime, c[i].file.isDir), [who])]
  }

  /** The size under which a file is inserted. */
  function Normal(f: FileInfo): FileInfo {
    if f.isDir then f.(size := 0) else f
  }

  /** filetable_insert() */
  function Insert(c: seq<Entry>, f: FileInfo, who: Addr): seq<Entry> {
    if IsDotfile(f.path) then c
    else if !IpFits(who.ip) || Find(c, f.path) < |c| then UpdateMod(c, Normal(f), who)
    else
      var i := Position(c, f.path);
      c[..i] + [Entry(Normal(f), [who])] + c[i..]
  }

  /** The entries whose path does not start with d. */
  function Without(c: seq<Entry>, d: string): seq<Entry> {
    if c == [] then []
    else (if HasPrefix(d, c[0].file.path) then [] else [c[0]]) + Without(c[1..], d)
  }

  /** filetable_remove() */
  function Remove(c: seq<Entry>, path: string): seq<Entry> {
    var i := Find(c, path);
    if i == |c| then c
    else if c[i].file.isDir then Without(c, path)
    else c[..i] + c[i + 1..]
  }

  /** filetable_addPeer() */
  function AddPeer(c: seq<Entry>, path: string, who: Addr, size: nat): seq<Entry> {
    var i := Find(c, path);
    if i == |c| || c[i].file.size != size || Lists(c[i].peers, who.ip) then c
    else c[i := c[i].(peers := [who] + c[i].peers)]
  }

  /** The list without the first occurrence of who. */
  function DropPeer(peers: seq<Addr>, who: Addr): seq<Addr> {
    if peers == [] then []
    else if peers[0] == who then peers[1..]
    else [peers[0]] + DropPeer(peers[1..], who)
  }

  /** filetable_removePeerAll() */
  function RemovePeerAll(c: seq<Entry>, who: Addr): (r: seq<Entry>)
    ensures |r| == |c|
    ensures forall i :: 0 <= i < |c| ==> r[i] == c[i].(peers := DropPeer(c[i].peers, who))
  {
    seq(|c|, i requires 0 <= i < |c| => c[i].(peers := DropPeer(c[i].peers, who)))
  }

  /** The event filetable_fileDiff() makes for one file, if any. */
  function DiffOne(c: seq<Entry>, f: FileInfo): Option<Event> {
    match Lookup(c, f.path)
    case None => Some(Event(Created, f))
    case Some(e) =>
      if e.file.mtime < f.mtime then Some(Event(Modified, f))
      else if e.file.mtime == f.mtime then Some(Event(DownloadComplete, f))
      else None
  }

  /** filetable_fileDiff(): the events come out in the reverse order of the files. */
  function FileDiff(c: seq<Entry>, files: seq<FileInfo>): seq<Event> {
    if files == [] then []
    else
      FileDiff(c, files[1..]) +
      match DiffOne(c, files[0]) case Some(e) => [e] case None => []
  }

  function Apply(c: seq<Entry>, e: Event, who: Addr): seq<Entry> {
    match e.action
    case Modified => UpdateMod(c, e.file, who)
    case Created => Insert(c, e.file, who)
    case Deleted => Remove(c, e.file.path)
    case DownloadComplete => AddPeer(c, e.file.path, who, e.file.size)
  }

  /** filetable_eventMerge() */
  function EventMerge(c: seq<Entry>, events: seq<Event>, who: Addr): seq<Entry>
    decreases |events|
  {
    if events == [] then c else EventMerge(Apply(c, events[0], who), events[1..], who)
  }

  /** filetable_merge() */
  function Merge(c: seq<Entry>, files: seq<FileInfo>, who: Addr): seq<Entry> {
    EventMerge(c, FileDiff(c, files), who)
  }
}
