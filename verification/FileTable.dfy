/** The linked lists of filetable/filetable.c: the list of entries and, in each entry, the list
    of peers. Every operation is proved to do to the lists what Table says it does to the value. */
module FileTables {
  import opened CStrings
  import opened Counting
  import opened Sequences
  import opened Table
  import opened TableLaws

  /** A node of a peer list; owner is the entry whose list it belongs to. */
  class IP {
    const addr: Addr
    ghost const owner: TableEntry
    var next: IP?

    constructor (addr: Addr, next: IP?, ghost owner: TableEntry)
      ensures this.addr == addr && this.next == next && this.owner == owner
    {
      this.addr := addr;
      this.owner := owner;
      this.next := next;
    }
  }

  /** The node at position i, null past the end. */
  ghost function PeerAt(spine: seq<IP>, i: nat): IP? {
    if i < |spine| then spine[i] else null
  }

  ghost function EntryAt(nodes: seq<TableEntry>, i: nat): TableEntry? {
    if i < |nodes| then nodes[i] else null
  }

  /** spine lists the nodes reached from head, in order. */
  ghost predicate PeerChain(head: IP?, spine: seq<IP>)
    reads spine
  {
    && head == PeerAt(spine, 0)
    && (forall i {:trigger spine[i].next} :: 0 <= i < |spine| ==> spine[i].next == PeerAt(spine, i + 1))
    && (forall i, j :: 0 <= i < j < |spine| ==> spine[i] != spine[j])
  }

  ghost predicate EntryChain(head: TableEntry?, nodes: seq<TableEntry>)
    reads nodes
  {
    && head == EntryAt(nodes, 0)
    && (forall i {:trigger nodes[i].next} :: 0 <= i < |nodes| ==> nodes[i].next == EntryAt(nodes, i + 1))
    && (forall i, j :: 0 <= i < j < |nodes| ==> nodes[i] != nodes[j])
  }

  /** An entry of the table; spine and peers are its peer list as nodes and as values. */
  class TableEntry {
    var file: FileInfo
    var iphead: IP?
    var numpeers: int
    var next: TableEntry?
    ghost var spine: seq<IP>
    ghost var peers: seq<Addr>

    /** The list and the values agree, whatever the count says. */
    ghost predicate Chained()
      reads this, spine
    {
      && PeerChain(iphead, spine)
      && |spine| == |peers|
      && (forall i {:trigger spine[i]} :: 0 <= i < |spine| ==> spine[i].owner == this && spine[i].addr == peers[i])
    }

    ghost predicate Valid()
      reads this, spine
    {
      Chained() && numpeers == |spine|
    }

    ghost function Value(): Entry
      reads this
    {
      Entry(file, peers)
    }

    constructor (file: FileInfo, who: Addr)
      ensures Valid() && Value() == Entry(file, [who]) && fresh(spine) && next == null
    {
      this.file := file;
      this.next := null;
      this.numpeers := 1;
      this.peers := [who];
      new;
      var ip := new IP(who, null, this);
      this.iphead := ip;
      this.spine := [ip];
    }

    /** An entry as filetable_receive() reads it, before its peers. */
    constructor Announced(file: FileInfo, numpeers: nat)
      ensures this.file == file && this.numpeers == numpeers && next == null
      ensures iphead == null && spine == [] && peers == []
    {
      this.file, this.numpeers := file, numpeers;
      iphead, next := null, null;
      spine, peers := [], [];
    }

    /** The part of filetable_updateMod() that replaces what the entry says. */
    method Reset(f: FileInfo, who: Addr)
      modifies this
      ensures Valid() && fresh(spine) && next == old(next)
      ensures Value() == Entry(old(file).(size := f.size, mtime := f.mtime), [who])
    {
      file := file.(size := f.size, mtime := f.mtime);
      var ip := new IP(who, null, this);
      iphead := ip;
      numpeers := 1;
      spine, peers := [ip], [who];
    }

    /** The loop of filetable_addPeer() that looks for the ip. */
    method ListsIp(ip: string) returns (r: bool)
      requires Valid()
      ensures r == Lists(peers, ip)
    {
      var cur := iphead;
      ghost var k := 0;
      while cur != null
        invariant 0 <= k <= |spine| && cur == PeerAt(spine, k)
        invariant forall j :: 0 <= j < k ==> peers[j].ip != ip
        decreases |spine| - k
      {
        if cur.addr.ip == ip {
          assert peers[k].ip == ip;
          return true;
        }
        cur := cur.next;
        k := k + 1;
      }
      return false;
    }

    /** The part of filetable_addPeer() that links a peer in at the head. */
    method LinkPeer(who: Addr)
      requires Valid()
      modifies this
      ensures Valid() && next == old(next) && file == old(file) && peers == [who] + old(peers)
      ensures |spine| > 0 && fresh(spine[0]) && spine[1..] == old(spine)
    {
      var newpeer := new IP(who, iphead, this);
      iphead := newpeer;
      numpeers := numpeers + 1;
      spine, peers := [newpeer] + spine, [who] + peers;
    }

    /** filetable_entryContainsPeer() */
    method ContainsPeer(who: Addr) returns (r: bool)
      requires Valid()
      ensures r <==> who in peers
    {
      var cur := iphead;
      ghost var k := 0;
      while cur != null
        invariant 0 <= k <= |spine| && cur == PeerAt(spine, k)
        invariant forall j :: 0 <= j < k ==> peers[j] != who
        decreases |spine| - k
      {
        if cur.addr == who {
          assert peers[k] == who;
          return true;
        }
        cur := cur.next;
        k := k + 1;
      }
      return false;
    }

    /** Puts a copied or received peer at the head; the count is already right. */
    method PushPeer(addr: Addr)
      requires Chained()
      modifies this`iphead, this`spine, this`peers
      ensures Chained() && peers == [addr] + old(peers)
      ensures |spine| > 0 && fresh(spine[0]) && spine[1..] == old(spine)
    {
      iphead := new IP(addr, iphead, this);
      spine, peers := [iphead] + spine, [addr] + peers;
    }

    /** tableentry_clone(): the peers of the copy are turned around. */
    method Clone() returns (clone: TableEntry)
      requires Valid()
      ensures fresh(clone) && fresh(clone.spine) && clone.Valid() && clone.next == null
      ensures clone.Value() == Entry(file, Reverse(peers))
    {
      clone := new TableEntry.Announced(file, numpeers);
      var peer := iphead;
      ghost var k := 0;
      while peer != null
        invariant 0 <= k <= |spine| && peer == PeerAt(spine, k)
        invariant fresh(clone) && fresh(clone.spine) && clone.Chained() && |clone.peers| == k
        invariant forall i :: 0 <= i < k ==> clone.peers[i] == peers[k - 1 - i]
        invariant clone.file == file && clone.numpeers == numpeers && clone.next == null
        decreases |spine| - k
      {
        ghost var was := clone.spine;
        clone.PushPeer(peer.addr);
        assert clone.spine == [clone.spine[0]] + was;
        peer := peer.next;
        k := k + 1;
      }
    }

    /** The loop of filetable_entryRemovePeer(). */
    method FindPeer(who: Addr) returns (prev: IP?, cur: IP?, ghost k: nat)
      requires Valid()
      ensures k <= |spine| && cur == PeerAt(spine, k) && prev == if k == 0 then null else PeerAt(spine, k - 1)
      ensures k < |spine| ==> peers[k] == who
      ensures forall j :: 0 <= j < k ==> peers[j] != who
    {
      prev, cur, k := null, iphead, 0;
      while cur != null && cur.addr != who
        invariant 0 <= k <= |spine| && cur == PeerAt(spine, k)
        invariant prev == if k == 0 then null else PeerAt(spine, k - 1)
        invariant forall j :: 0 <= j < k ==> peers[j] != who
        decreases |spine| - k
      {
        prev := cur;
        cur := cur.next;
        k := k + 1;
      }
    }

    /** filetable_entryRemovePeer() */
    method RemovePeer(who: Addr)
      requires Valid()
      modifies this, spine
      ensures Valid() && next == old(next) && file == old(file) && peers == DropPeer(old(peers), who)
      ensures forall p :: p in spine ==> p in old(spine)
    {
      var prev, cur, k := FindPeer(who);
      DropPeerAt(peers, who, k);
      if cur != null {
        UnlinkPeer(prev, cur, k);
      }
    }

    method UnlinkPeer(prev: IP?, cur: IP, ghost k: nat)
      requires Valid() && k < |spine| && cur == spine[k] && prev == if k == 0 then null else PeerAt(spine, k - 1)
      modifies this, spine
      ensures Valid() && next == old(next) && file == old(file)
      ensures peers == old(peers)[..k] + old(peers)[k + 1..]
      ensures forall p :: p in spine ==> p in old(spine)
    {
      if prev == null {
        iphead := iphead.next;
      } else {
        prev.next := cur.next;
      }
      numpeers := numpeers - 1;
      spine, peers := spine[..k] + spine[k + 1..], peers[..k] + peers[k + 1..];
    }
  }

  lemma {:induction false} DropPeerAt(peers: seq<Addr>, who: Addr, k: nat)
    requires k <= |peers| && (k < |peers| ==> peers[k] == who)
    requires forall j :: 0 <= j < k ==> peers[j] != who
    ensures DropPeer(peers, who) == if k == |peers| then peers else peers[..k] + peers[k + 1..]
  {
    if peers != [] && k > 0 {
      DropPeerAt(peers[1..], who, k - 1);
      assert peers == [peers[0]] + peers[1..];
    }
  }

  /** nodes and contents are the list of entries as nodes and as values. */
  class FileTable {
    var numfiles: int
    var head: TableEntry?
    ghost var nodes: seq<TableEntry>
    ghost var contents: seq<Entry>
    ghost var Repr: set<object>

    /** The entries are distinct and linked in the order of nodes. */
    ghost predicate Linked()
      reads this, nodes
    {
      EntryChain(head, nodes) && numfiles == |nodes|
    }

    /** Entry e, part of this table, is valid and holds v. */
    ghost predicate Holds(e: TableEntry, v: Entry)
      reads this, Repr
    {
      && e in Repr && (forall q :: q in e.spine ==> q in Repr)
      && e.Valid()
      && e.Value() == v
    }

    /** Everything but the count, which is ahead of the list while a table is received. */
    ghost predicate Growing()
      reads this, Repr
    {
      && this in Repr
      && (forall i :: 0 <= i < |nodes| ==> nodes[i] in Repr)
      && EntryChain(head, nodes)
      && |nodes| == |contents|
      && (forall i :: 0 <= i < |nodes| ==> Holds(nodes[i], contents[i]))
    }

    ghost predicate Valid()
      reads this, Repr
    {
      Growing() && numfiles == |nodes|
    }

    /** filetable_init() */
    constructor ()
      ensures Valid() && fresh(Repr) && contents == []
    {
      numfiles := 0;
      head := null;
      nodes, contents, Repr := [], [], {this};
    }

    /** The table as filetable_receive() reads it, before its entries. */
    constructor Announced(numfiles: nat)
      ensures Growing() && fresh(Repr) && contents == [] && this.numfiles == numfiles
    {
      this.numfiles := numfiles;
      head := null;
      nodes, contents, Repr := [], [], {this};
    }

    /** Puts a received entry at the head, by its link. */
    method PushLink(entry: TableEntry)
      requires EntryChain(head, nodes) && entry !in nodes
      modifies this`head, this`nodes, entry`next
      ensures EntryChain(head, nodes) && nodes == [entry] + old(nodes)
    {
      entry.next := head;
      head := entry;
      nodes := [entry] + nodes;
    }

    /** Puts a received entry at the head. */
    method PushEntry(entry: TableEntry)
      requires Growing() && entry.Valid() && entry !in Repr && forall q :: q in entry.spine ==> q !in Repr
      modifies this, entry`next
      ensures Growing() && numfiles == old(numfiles) && Repr == old(Repr) + {entry} + set q <- entry.spine
      ensures contents == [entry.Value()] + old(contents)
    {
      PushLink(entry);
      contents := [entry.Value()] + contents;
      Repr := Repr + {entry} + set q <- entry.spine;
      StillHold(|old(nodes)|);
      assert Holds(entry, entry.Value());
      forall i | 0 <= i < |nodes|
        ensures Holds(nodes[i], contents[i])
      {
        if i > 0 {
          assert nodes[i] == old(nodes)[i - 1] && contents[i] == old(contents)[i - 1];
        }
      }
    }

    /** filetable_getEntry() */
    method GetEntry(filename: string) returns (entry: TableEntry?, ghost k: nat)
      requires Valid()
      ensures k == Find(contents, filename)
      ensures entry == EntryAt(nodes, Find(contents, filename))
    {
      entry := head;
      k := 0;
      while entry != null && entry.file.path != filename
        invariant 0 <= k <= |nodes| && entry == EntryAt(nodes, k)
        invariant forall j :: 0 <= j < k ==> contents[j].file.path != filename
        decreases |nodes| - k
      {
        entry := entry.next;
        k := k + 1;
      }
      FindIs(contents, filename, k);
    }

    /** Entries of which at most the link to the next one changed hold what they held. */
    twostate lemma StillHold(k: nat)
      requires old(Growing()) && old(Repr) <= Repr
      requires forall e :: e in old(nodes) && e != EntryAt(old(nodes), k) ==>
                 && e.file == old(e.file) && e.iphead == old(e.iphead)
                 && e.numpeers == old(e.numpeers) && e.peers == old(e.peers)
                 && e.spine == old(e.spine) && unchanged(e.spine)
      ensures forall i :: 0 <= i < |old(nodes)| && i != k ==> Holds(old(nodes)[i], old(contents)[i])
    {
      forall i | 0 <= i < |old(nodes)| && i != k
        ensures Holds(old(nodes)[i], old(contents)[i])
      {
        assert old(nodes)[i] in old(nodes) && old(Holds(nodes[i], contents[i]));
      }
    }

    /** Changing what entries say leaves the links alone. */
    twostate lemma LinksKept()
      requires old(Linked()) && nodes == old(nodes) && head == old(head) && numfiles == old(numfiles)
      requires forall i :: 0 <= i < |nodes| ==> nodes[i].next == old(nodes[i].next)
      ensures Linked()
    {
    }

    /** A table in which the entry at k has changed. */
    lemma OneChanged(c0: seq<Entry>, k: nat, v: Entry)
      requires this in Repr && (forall i :: 0 <= i < |nodes| ==> nodes[i] in Repr) && Linked()
      requires k < |nodes| == |c0| && contents == c0[k := v] && Holds(nodes[k], v)
      requires forall i :: 0 <= i < |nodes| && i != k ==> Holds(nodes[i], c0[i])
      ensures Valid()
    {
    }

    /** Replaces what the entry at k says. */
    method ResetEntry(entry: TableEntry, ghost k: nat, f: FileInfo, who: Addr)
      requires Valid() && k < |nodes| && nodes[k] == entry && entry.file.path == f.path
      modifies Repr
      ensures Valid() && fresh(Repr - old(Repr)) && nodes == old(nodes)
      ensures contents ==
              old(contents)[k := Entry(FileInfo(f.path, f.size, f.mtime, old(contents)[k].file.isDir), [who])]
    {
      assert Holds(entry, contents[k]);
      entry.Reset(f, who);
      Repr := Repr + set p <- entry.spine;
      contents := contents[k := entry.Value()];
      LinksKept();
      StillHold(k);
      OneChanged(old(contents), k, entry.Value());
    }

    /** filetable_updateMod() */
    method UpdateMod(f: FileInfo, who: Addr) returns (r: int)
      requires Valid()
      modifies Repr
      ensures Valid() && fresh(Repr - old(Repr)) && nodes == old(nodes)
      ensures contents == Table.UpdateMod(old(contents), f, who)
      ensures r == if !IpFits(who.ip) then -2 else if Find(old(contents), f.path) == |old(nodes)| then -1 else 0
    {
      if |who.ip| + 1 > 40 {
        return -2;
      }
      var cur, k := GetEntry(f.path);
      if cur == null {
        return -1;
      }
      ResetEntry(cur, k, f, who);
      return 0;
    }

    /** Links a peer into the entry at k. */
    method LinkPeerTo(entry: TableEntry, ghost k: nat, who: Addr)
      requires Valid() && k < |nodes| && nodes[k] == entry
      modifies Repr
      ensures Valid() && fresh(Repr - old(Repr)) && nodes == old(nodes)
      ensures contents == old(contents)[k := old(contents)[k].(peers := [who] + old(contents)[k].peers)]
    {
      assert Holds(entry, contents[k]);
      entry.LinkPeer(who);
      Repr := Repr + {entry.spine[0]};
      contents := contents[k := entry.Value()];
      assert entry.spine == [entry.spine[0]] + old(entry.spine);
      LinksKept();
      StillHold(k);
      OneChanged(old(contents), k, entry.Value());
    }

    /** filetable_addPeer() */
    method AddPeer(filename: string, who: Addr, size: nat) returns (r: int)
      requires Valid()
      modifies Repr
      ensures Valid() && fresh(Repr - old(Repr)) && nodes == old(nodes)
      ensures contents == Table.AddPeer(old(contents), filename, who, size)
      ensures r == if Find(old(contents), filename) == |old(nodes)| then -1 else 0
    {
      var entry, k := GetEntry(filename);
      if entry == null {
        return -1;
      }
      assert Holds(entry, contents[k]);
      if entry.file.size != size {
        return 0;
      }
      var listed := entry.ListsIp(who.ip);
      if listed {
        return 0;
      }
      LinkPeerTo(entry, k, who);
      return 0;
    }

    /** filetable_removePeerAll() */
    method RemovePeerAll(who: Addr)
      requires Valid()
      modifies Repr
      ensures Valid() && Repr == old(Repr) && nodes == old(nodes)
      ensures contents == Table.RemovePeerAll(old(contents), who)
    {
      var cur := head;
      ghost var k := 0;
      while cur != null
        invariant Valid() && Repr == old(Repr) && nodes == old(nodes)
        invariant 0 <= k <= |nodes| && cur == EntryAt(nodes, k)
        invariant forall i :: 0 <= i < k ==> contents[i] == Table.RemovePeerAll(old(contents), who)[i]
        invariant forall i :: k <= i < |nodes| ==> contents[i] == old(contents)[i]
        decreases |nodes| - k
      {
        RemovePeerFrom(cur, k, who);
        cur := cur.next;
        k := k + 1;
      }
    }

    method RemovePeerFrom(entry: TableEntry, ghost k: nat, who: Addr)
      requires Valid() && k < |nodes| && nodes[k] == entry
      modifies Repr
      ensures Valid() && Repr == old(Repr) && nodes == old(nodes)
      ensures contents == old(contents)[k := old(contents)[k].(peers := DropPeer(old(contents)[k].peers, who))]
    {
      assert forall i, p :: 0 <= i < |nodes| && p in nodes[i].spine ==> p.owner == nodes[i];
      entry.RemovePeer(who);
      contents := contents[k := entry.Value()];
      LinksKept();
      StillHold(k);
      OneChanged(old(contents), k, entry.Value());
    }

    /** The event that the body of the filetable_fileDiff() loop makes for one file. */
    method DiffFile(tomerge: FileInfo) returns (evt: Option<Event>)
      requires Valid()
      ensures evt == DiffOne(contents, tomerge)
    {
      evt := None;
      var entry, k := GetEntry(tomerge.path);
      if entry == null {
        evt := Some(Event(Created, tomerge));
      } else if entry.file.mtime < tomerge.mtime {
        evt := Some(Event(Modified, tomerge));
      } else if entry.file.mtime == tomerge.mtime {
        evt := Some(Event(DownloadComplete, tomerge));
      }
    }

    /** filetable_fileDiff(): the events are put at the head one by one. */
    method FileDiff(files: seq<FileInfo>) returns (events: seq<Event>)
      requires Valid()
      ensures events == Table.FileDiff(contents, files)
    {
      events := [];
      for i := 0 to |files|
        invariant Table.FileDiff(contents, files) == Table.FileDiff(contents, files[i..]) + events
      {
        var evt := DiffFile(files[i]);
        DiffStep(contents, files, i, events);
        if evt.Some? {
          events := [evt.value] + events;
        }
      }
      assert files[|files|..] == [];
    }

    /** The loop of filetable_insert() that finds the place of a path. */
    method FindPlace(path: string) returns (prv: TableEntry?, ghost p: nat)
      requires Valid()
      ensures p == Position(contents, path)
      ensures prv == if Position(contents, path) == 0 then null else EntryAt(nodes, Position(contents, path) - 1)
    {
      prv, p := null, 0;
      var cur := head;
      while cur != null && !(StrCmp(path, cur.file.path) < 0)
        invariant 0 <= p <= |nodes| && cur == EntryAt(nodes, p)
        invariant prv == if p == 0 then null else EntryAt(nodes, p - 1)
        invariant forall j :: 0 <= j < p ==> !Less(path, contents[j].file.path)
        decreases |nodes| - p
      {
        prv := cur;
        cur := cur.next;
        p := p + 1;
      }
      PositionIs(contents, path, p);
    }

    /** Putting an entry between two others, by their links. */
    twostate lemma LinksInserted(p: nat)
      requires old(Linked()) && p <= |old(nodes)| < |nodes| && nodes[p] !in old(nodes)
      requires |nodes| == numfiles == |old(nodes)| + 1
      requires forall i {:trigger nodes[i]} :: 0 <= i < |nodes| ==>
                 nodes[i] == if i < p then old(nodes)[i] else if i == p then nodes[p] else old(nodes)[i - 1]
      requires head == (if p == 0 then nodes[p] else old(head)) && nodes[p].next == EntryAt(old(nodes), p)
      requires forall i :: 0 <= i < |old(nodes)| ==>
                 old(nodes)[i].next == if i + 1 == p then nodes[p] else EntryAt(old(nodes), i + 1)
      ensures Linked()
    {
    }

    /** The bookkeeping of an insertion at p whose links are already made. */
    ghost method RecordInsertion(p: nat, entry: TableEntry)
      requires p <= |nodes| == |contents| && this in Repr
      modifies this`nodes, this`contents, this`Repr
      ensures |nodes| == |contents| == |old(nodes)| + 1
      ensures forall i {:trigger nodes[i]} :: 0 <= i < |nodes| ==>
                nodes[i] == if i < p then old(nodes)[i] else if i == p then entry else old(nodes)[i - 1]
      ensures contents == old(contents)[..p] + [entry.Value()] + old(contents)[p..]
      ensures Repr == old(Repr) + {entry} + set q <- entry.spine
    {
      nodes := nodes[..p] + [entry] + nodes[p..];
      contents := contents[..p] + [entry.Value()] + contents[p..];
      Repr := Repr + {entry} + set q <- entry.spine;
    }

    /** Links a new entry in after prv, or at the head. */
    method SpliceIn(prv: TableEntry?, entry: TableEntry, ghost p: nat)
      requires Linked() && |nodes| == |contents| && this in Repr
      requires p <= |nodes| && prv == (if p == 0 then null else EntryAt(nodes, p - 1)) && entry !in nodes
      modifies this, entry`next, (if prv == null then {} else {prv})`next
      ensures Linked()
      ensures |nodes| == |contents| == |old(nodes)| + 1
      ensures forall i {:trigger nodes[i]} :: 0 <= i < |nodes| ==>
                nodes[i] == if i < p then old(nodes)[i] else if i == p then entry else old(nodes)[i - 1]
      ensures contents == old(contents)[..p] + [entry.Value()] + old(contents)[p..]
      ensures Repr == old(Repr) + {entry} + set q <- entry.spine
    {
      if prv == null {
        entry.next := head;
        head := entry;
      } else {
        entry.next := prv.next;
        prv.next := entry;
      }
      numfiles := numfiles + 1;
      RecordInsertion(p, entry);
      LinksInserted(p);
    }

    method LinkEntry(prv: TableEntry?, entry: TableEntry, ghost p: nat)
      requires Valid() && p <= |nodes| && prv == if p == 0 then null else EntryAt(nodes, p - 1)
      requires entry.Valid() && entry !in Repr && forall q :: q in entry.spine ==> q !in Repr
      modifies Repr, entry`next
      ensures Valid() && Repr == old(Repr) + {entry} + set q <- entry.spine
      ensures contents == old(contents[..p] + [entry.Value()] + contents[p..])
    {
      SpliceIn(prv, entry, p);
      StillHold(|old(nodes)|);
      assert Holds(entry, entry.Value());
      forall i | 0 <= i < |nodes|
        ensures Holds(nodes[i], contents[i])
      {
        var k := if i < p then i else i - 1;
        assert i != p ==> nodes[i] == old(nodes)[k] && contents[i] == old(contents)[k];
      }
    }

    /** filetable_insert(); f is how it leaves the caller's struct. */
    method Insert(file: FileInfo, who: Addr) returns (r: int, f: FileInfo)
      requires Valid()
      modifies Repr
      ensures Valid() && fresh(Repr - old(Repr))
      ensures contents == Table.Insert(old(contents), file, who)
      ensures f == if IsDotfile(file.path) then file else Normal(file)
      ensures r == 0 <==> !IsDotfile(file.path) && IpFits(who.ip) && Find(old(contents), file.path) == |old(contents)|
      ensures r == 0 || r == 1
    {
      f := file;
      if IsDotfile(f.path) {
        return 1, f;
      }
      if f.isDir {
        f := f.(size := 0);
      }
      var u := UpdateMod(f, who);
      if u != -1 {
        return 1, f;
      }
      InsertNew(f, who);
      return 0, f;
    }

    /** The part of filetable_insert() for a path that is not in the table. */
    method InsertNew(f: FileInfo, who: Addr)
      requires Valid() && Find(contents, f.path) == |contents|
      modifies Repr
      ensures Valid() && fresh(Repr - old(Repr))
      ensures var p := Position(old(contents), f.path);
        contents == old(contents)[..p] + [Entry(f, [who])] + old(contents)[p..]
    {
      var prv, p := FindPlace(f.path);
      // The guard of the source against inserting a path twice never fires.
      assert prv != null ==> prv.file.path == contents[p - 1].file.path != f.path;
      var entry := new TableEntry(f, who);
      LinkEntry(prv, entry, p);
    }

    /** Taking the entry at i out, by the links. */
    twostate lemma LinksCut(i: nat)
      requires old(Linked()) && i < |old(nodes)|
      requires |nodes| == numfiles == |old(nodes)| - 1
      requires forall m {:trigger nodes[m]} :: 0 <= m < |nodes| ==>
                 nodes[m] == if m < i then old(nodes)[m] else old(nodes)[m + 1]
      requires head == if i == 0 then old(nodes[i].next) else old(head)
      requires forall m :: 0 <= m < |old(nodes)| ==>
                 old(nodes)[m].next == if m + 1 == i then old(nodes[i].next) else EntryAt(old(nodes), m + 1)
      ensures Linked()
    {
    }

    /** Takes cur, which follows prv or is the head, out of the list. If prv is not in the list any
        more this misses the list. */
    method SpliceOut(prv: TableEntry?, cur: TableEntry, ghost i: nat, ghost sound: bool)
      requires Linked() && |nodes| == |contents| && i < |nodes| && cur == nodes[i]
      requires if sound then prv == (if i == 0 then null else EntryAt(nodes, i - 1)) else prv != null && prv !in nodes
      modifies this, (if prv == null then {} else {prv})`next
      ensures Repr == old(Repr) && numfiles == old(numfiles) - 1 && |nodes| == |contents|
      ensures sound ==>
                && Linked() && cur.next == EntryAt(nodes, i)
                && nodes == old(nodes)[..i] + old(nodes)[i + 1..]
                && contents == old(contents)[..i] + old(contents)[i + 1..]
      ensures !sound ==> EntryChain(head, nodes) && nodes == old(nodes) && contents == old(contents)
    {
      if prv == null {
        head := cur.next;
      } else {
        prv.next := cur.next;
      }
      numfiles := numfiles - 1;
      if sound {
        nodes := nodes[..i] + nodes[i + 1..];
        contents := contents[..i] + contents[i + 1..];
        LinksCut(i);
      }
    }

    method Unlink(prv: TableEntry?, cur: TableEntry, ghost i: nat, ghost sound: bool)
      requires Valid() && i < |nodes| && cur == nodes[i] && (prv != null ==> prv in Repr)
      requires if sound then prv == (if i == 0 then null else EntryAt(nodes, i - 1)) else prv != null && prv !in nodes
      modifies Repr
      ensures Repr == old(Repr)
      ensures sound ==>
                && Valid() && cur.next == EntryAt(nodes, i)
                && nodes == old(nodes)[..i] + old(nodes)[i + 1..]
                && contents == old(contents)[..i] + old(contents)[i + 1..]
      ensures !sound ==>
                Growing() && numfiles == |nodes| - 1 && nodes == old(nodes) && contents == old(contents)
    {
      SpliceOut(prv, cur, i, sound);
      StillHold(|old(nodes)|);
      forall m | 0 <= m < |nodes|
        ensures Holds(nodes[m], contents[m])
      {
        var k := if sound && i <= m then m + 1 else m;
        assert nodes[m] == old(nodes)[k] && contents[m] == old(contents)[k];
      }
    }

    /** The search loop of filetable_remove(). */
    method FindWithPrevious(filename: string) returns (prv: TableEntry?, cur: TableEntry?, ghost i: nat)
      requires Valid()
      ensures i == Find(contents, filename) && cur == EntryAt(nodes, i)
      ensures prv == if i == 0 then null else EntryAt(nodes, i - 1)
    {
      prv, cur, i := null, head, 0;
      while cur != null && cur.file.path != filename
        invariant 0 <= i <= |nodes| && cur == EntryAt(nodes, i)
        invariant prv == if i == 0 then null else EntryAt(nodes, i - 1)
        invariant forall j :: 0 <= j < i ==> contents[j].file.path != filename
        decreases |nodes| - i
      {
        prv := cur;
        cur := cur.next;
        i := i + 1;
      }
      FindIs(contents, filename, i);
    }

    /** cur->file->is_dir = false */
    method ClearDirFlag(cur: TableEntry, ghost i: nat)
      requires Valid() && i < |nodes| && cur == nodes[i]
      modifies Repr
      ensures Valid() && Repr == old(Repr) && nodes == old(nodes)
      ensures contents == old(contents)[i := AsFile(old(contents)[i])]
    {
      assert Holds(cur, contents[i]);
      cur.file := cur.file.(isDir := false);
      contents := contents[i := cur.Value()];
      LinksKept();
      StillHold(i);
      OneChanged(old(contents), i, cur.Value());
    }

    /** The loop of filetable_remove() over the whole list, which removes what properly extends d,
        and everything that each of those takes along. */
    method RemoveInside(d: string)
      requires Valid()
      modifies Repr
      ensures Valid() && Repr == old(Repr)
      ensures nodes == Keep(old(nodes), old(contents), d) && contents == Keep(old(contents), old(contents), d)
      decreases Count(contents, IsDirectory), 1
    {
      var sub := head;
      ghost var pos := 0;
      while sub != null
        invariant Valid() && Repr == old(Repr)
        invariant SameKept(nodes, contents, old(nodes), old(contents), d)
        invariant 0 <= pos <= |nodes| && sub == EntryAt(nodes, pos) && NoneExtends(contents, pos, d)
        decreases |nodes| - pos
      {
        ghost var n1, c1 := nodes, contents;
        pos, sub := VisitSub(d, pos, sub);
        SameKeptTwice(nodes, contents, n1, c1, old(nodes), old(contents), d);
      }
      KeepAll(nodes, contents, d);
      KeepAll(contents, contents, d);
    }

    /** One turn of that loop, at the entry at pos; none of those before it extends d. Removing an
        entry leaves its own link as it was, so sub->next is what now follows. */
    method VisitSub(d: string, ghost pos: nat, sub: TableEntry) returns (ghost pos': nat, next: TableEntry?)
      requires Valid() && pos < |nodes| && sub == nodes[pos] && NoneExtends(contents, pos, d)
      modifies Repr
      ensures Valid() && Repr == old(Repr)
      ensures SameKept(nodes, contents, old(nodes), old(contents), d)
      ensures pos' <= |nodes| && next == EntryAt(nodes, pos') && NoneExtends(contents, pos', d)
      ensures |nodes| - pos' < |old(nodes)| - pos
      decreases Count(contents, IsDirectory), 0, 2
    {
      assert Holds(nodes[pos], contents[pos]);
      var path := sub.file.path;
      pos' := pos + 1;
      if HasPrefix(d, path) && path != d {
        NestedIsSound(nodes, contents, pos, d);
        var r := RemoveNodes(path);
        pos' := pos;
      }
      next := sub.next;
    }

    /** The part of filetable_remove() for a directory: clear its flag, then the loop. */
    method RemoveContained(cur: TableEntry, ghost i: nat)
      requires Valid() && i < |nodes| && cur == nodes[i] && contents[i].file.isDir
      modifies Repr
      ensures Valid() && Repr == old(Repr)
      ensures nodes == Keep(old(nodes), old(contents), old(contents)[i].file.path)
      ensures contents == KeptAsFile(old(contents), i)
      decreases Count(contents, IsDirectory), 0, 0
    {
      assert Holds(cur, contents[i]);
      var dirname := cur.file.path;
      DirectoryCount(contents, i);
      ClearDirFlag(cur, i);
      KeepByPath(nodes, old(contents), contents, dirname);
      RemoveInside(dirname);
    }

    /** filetable_remove(), in terms of the list: the entry at i goes, and for a directory all that
        properly extends its path. The removed node still points to what follows. If the entry just
        before a directory is one of those, the list keeps the directory, marked as a file, and the
        count is off. */
    method RemoveNodes(filename: string) returns (r: int)
      requires Valid()
      modifies Repr
      ensures Repr == old(Repr)
      ensures var i := Find(old(contents), filename);
        if i == |old(nodes)| then r == -1 && Valid() && nodes == old(nodes) && contents == old(contents)
        else
          && r == 0
          && (Sound(old(contents), i) ==>
                && Valid() && nodes == Rest(old(nodes), old(contents), i)
                && contents == Rest(old(contents), old(contents), i)
                && old(nodes)[i].next == EntryAt(nodes, PlaceOf(old(contents), i)))
          && (!Sound(old(contents), i) ==>
                && Growing() && numfiles == |nodes| - 1
                && nodes == Keep(old(nodes), old(contents), old(contents)[i].file.path)
                && contents == KeptAsFile(old(contents), i))
      decreases Count(contents, IsDirectory), 0, 1
    {
      var prv, cur, i := FindWithPrevious(filename);
      if cur == null {
        return -1;
      }
      assert Holds(cur, contents[i]);
      ghost var sound, place := Sound(contents, i), PlaceOf(contents, i);
      if cur.file.isDir {
        RemoveContained(cur, i);
        WhereKept(old(nodes), old(contents), i);
      }
      Unlink(prv, cur, place, sound);
      return 0;
    }

    /** filetable_remove() */
    method Remove(filename: string) returns (r: int)
      requires Valid()
      modifies Repr
      ensures Repr == old(Repr)
      ensures r == if Find(old(contents), filename) == |old(contents)| then -1 else 0
      ensures Growing() && contents == AfterRemove(old(contents), filename)
      ensures numfiles == if RemovesSoundly(old(contents), filename) then |nodes| else |nodes| - 1
      ensures Sorted(old(contents)) ==> Valid() && contents == Table.Remove(old(contents), filename)
    {
      r := RemoveNodes(filename);
      if Sorted(old(contents)) {
        SortedIsSound(old(contents), filename);
      }
    }

    /** The switch in filetable_eventMerge(). */
    method ApplyEvent(e: Event, who: Addr)
      requires Valid() && WellFormed(contents)
      modifies Repr
      ensures Valid() && fresh(Repr - old(Repr)) && contents == Apply(old(contents), e, who)
    {
      match e.action
      case Modified => var _ := UpdateMod(e.file, who);
      case Created => var _, _ := Insert(e.file, who);
      case Deleted => var _ := Remove(e.file.path);
      case DownloadComplete => var _ := AddPeer(e.file.path, who, e.file.size);
    }

    /** filetable_eventMerge() */
    method EventMerge(events: seq<Event>, who: Addr)
      requires Valid() && WellFormed(contents)
      modifies Repr
      ensures Valid() && fresh(Repr - old(Repr)) && WellFormed(contents)
      ensures contents == Table.EventMerge(old(contents), events, who)
    {
      for i := 0 to |events|
        invariant Valid() && fresh(Repr - old(Repr)) && WellFormed(contents)
        invariant Table.EventMerge(contents, events[i..], who) == Table.EventMerge(old(contents), events, who)
      {
        ApplyKeeps(contents, events[i], who);
        MergeStep(contents, events, i, who);
        ApplyEvent(events[i], who);
      }
      assert events[|events|..] == [];
    }

    /** filetable_merge() */
    method Merge(files: seq<FileInfo>, who: Addr) returns (events: seq<Event>)
      requires Valid() && WellFormed(contents)
      modifies Repr
      ensures Valid() && fresh(Repr - old(Repr)) && WellFormed(contents)
      ensures events == Table.FileDiff(old(contents), files)
      ensures contents == Table.Merge(old(contents), files, who)
    {
      events := FileDiff(files);
      EventMerge(events, who);
    }
  }

  lemma MergeStep(c: seq<Entry>, events: seq<Event>, i: nat, who: Addr)
    requires i < |events|
    ensures Table.EventMerge(c, events[i..], who) == Table.EventMerge(Apply(c, events[i], who), events[i + 1..], who)
  {
    assert events[i..][0] == events[i] && events[i..][1..] == events[i + 1..];
  }

  predicate IsDirectory(e: Entry) { e.file.isDir }

  function AsFile(e: Entry): Entry { e.(file := e.file.(isDir := false)) }

  lemma DirectoryCount(c: seq<Entry>, i: nat)
    requires i < |c| && IsDirectory(c[i])
    ensures Count(c[i := AsFile(c[i])], IsDirectory) < Count(c, IsDirectory)
  {
    CountUpdate(c, i, AsFile(c[i]), IsDirectory);
  }

  // ---- what removing a directory leaves of any list ----

  predicate Extends(d: string, path: string) { HasPrefix(d, path) && path != d }

  /** Those of xs, which go with the entries of c, whose path does not properly extend d. */
  ghost function Keep<T>(xs: seq<T>, c: seq<Entry>, d: string): seq<T>
    requires |xs| == |c|
  {
    if c == [] then []
    else if Extends(d, c[0].file.path) then Keep(xs[1..], c[1..], d)
    else [xs[0]] + Keep(xs[1..], c[1..], d)
  }

  /** The first n entries do not extend d. */
  ghost predicate NoneExtends(c: seq<Entry>, n: nat, d: string) {
    n <= |c| && forall k :: 0 <= k < n ==> !Extends(d, c[k].file.path)
  }

  /** Removing a directory that is just after something it contains goes wrong. */
  predicate Sound(c: seq<Entry>, i: nat)
    requires i < |c|
  {
    !c[i].file.isDir || i == 0 || !Extends(c[i].file.path, c[i - 1].file.path)
  }

  /** What is left of xs when the i-th entry is removed. */
  ghost function Rest<T>(xs: seq<T>, c: seq<Entry>, i: nat): seq<T>
    requires i < |c| == |xs|
  {
    var d := c[i].file.path;
    if c[i].file.isDir then Keep(xs[..i], c[..i], d) + Keep(xs[i + 1..], c[i + 1..], d) else xs[..i] + xs[i + 1..]
  }

  /** Where the i-th entry is when what it contains has been removed. */
  ghost function PlaceOf(c: seq<Entry>, i: nat): nat
    requires i < |c|
  {
    if c[i].file.isDir then |Keep(c[..i], c[..i], c[i].file.path)| else i
  }

  /** What is left when the i-th entry, a directory, stays as a file. */
  ghost function KeptAsFile(c: seq<Entry>, i: nat): seq<Entry>
    requires i < |c|
  {
    var f := c[i := AsFile(c[i])];
    Keep(f, f, c[i].file.path)
  }

  ghost predicate RemovesSoundly(c: seq<Entry>, path: string) {
    Find(c, path) < |c| ==> Sound(c, Find(c, path))
  }

  ghost function RemoveFirst(c: seq<Entry>, path: string): seq<Entry> {
    if Find(c, path) == |c| then c else Rest(c, c, Find(c, path))
  }

  /** The list has lost some entries that extend d. */
  ghost predicate SameKept(n: seq<TableEntry>, c: seq<Entry>, n0: seq<TableEntry>, c0: seq<Entry>, d: string) {
    && |n| == |c| && |n0| == |c0|
    && Keep(n, c, d) == Keep(n0, c0, d) && Keep(c, c, d) == Keep(c0, c0, d)
    && Count(c, IsDirectory) <= Count(c0, IsDirectory)
  }

  lemma SameKeptTwice(n: seq<TableEntry>, c: seq<Entry>, n1: seq<TableEntry>, c1: seq<Entry>,
                      n0: seq<TableEntry>, c0: seq<Entry>, d: string)
    requires SameKept(n, c, n1, c1, d) && SameKept(n1, c1, n0, c0, d)
    ensures SameKept(n, c, n0, c0, d)
  {
  }

  lemma {:induction false} KeepConcat<T>(xs: seq<T>, c: seq<Entry>, ys: seq<T>, e: seq<Entry>, d: string)
    requires |xs| == |c| && |ys| == |e|
    ensures Keep(xs + ys, c + e, d) == Keep(xs, c, d) + Keep(ys, e, d)
  {
    if c == [] {
      assert xs + ys == ys && c + e == e;
    } else {
      assert (xs + ys)[1..] == xs[1..] + ys && (c + e)[1..] == c[1..] + e;
      KeepConcat(xs[1..], c[1..], ys, e, d);
    }
  }

  lemma {:induction false} KeepAll<T>(xs: seq<T>, c: seq<Entry>, d: string)
    requires |xs| == |c| && NoneExtends(c, |c|, d)
    ensures Keep(xs, c, d) == xs
  {
    if c == [] {
    } else {
      assert forall k :: 0 <= k < |c[1..]| ==> c[1..][k] == c[k + 1];
      KeepAll(xs[1..], c[1..], d);
    }
  }

  lemma {:induction false} KeepLength<T>(xs: seq<T>, c: seq<Entry>, d: string)
    requires |xs| == |c|
    ensures |Keep(xs, c, d)| == |Keep(c, c, d)| <= |c|
    ensures forall x :: x in Keep(xs, c, d) ==> x in xs
  {
    if c == [] {
    } else {
      KeepLength(xs[1..], c[1..], d);
    }
  }

  lemma {:induction false} KeepByPath<T>(xs: seq<T>, c: seq<Entry>, e: seq<Entry>, d: string)
    requires |xs| == |c| == |e| && forall k :: 0 <= k < |c| ==> c[k].file.path == e[k].file.path
    ensures Keep(xs, c, d) == Keep(xs, e, d)
  {
    if c == [] {
    } else {
      KeepByPath(xs[1..], c[1..], e[1..], d);
    }
  }

  lemma ExtendsTransitive(d: string, e: string, path: string)
    requires Extends(d, e) && Extends(e, path)
    ensures Extends(d, path)
  {
    assert path[..|d|] == path[..|e|][..|d|] == e[..|d|];
  }

  /** What extends e, which extends d, makes no difference to d. */
  lemma {:induction false} KeepKeep<T>(xs: seq<T>, c: seq<Entry>, e: string, d: string)
    requires |xs| == |c| && Extends(d, e)
    ensures |Keep(xs, c, e)| == |Keep(c, c, e)| && Keep(Keep(xs, c, e), Keep(c, c, e), d) == Keep(xs, c, d)
  {
    if c == [] {
    } else {
      KeepKeep(xs[1..], c[1..], e, d);
      if Extends(e, c[0].file.path) {
        ExtendsTransitive(d, e, c[0].file.path);
      } else {
        KeepConcat([xs[0]], [c[0]], Keep(xs[1..], c[1..], e), Keep(c[1..], c[1..], e), d);
        KeepConcat([xs[0]], [c[0]], xs[1..], c[1..], d);
        assert [xs[0]] + xs[1..] == xs && [c[0]] + c[1..] == c;
      }
    }
  }

  lemma {:induction false} KeepCount(c: seq<Entry>, d: string)
    ensures Count(Keep(c, c, d), IsDirectory) <= Count(c, IsDirectory)
  {
    if c == [] {
    } else {
      KeepCount(c[1..], d);
      CountConcat([c[0]], Keep(c[1..], c[1..], d), IsDirectory);
      CountConcat([c[0]], c[1..], IsDirectory);
      assert [c[0]] + c[1..] == c;
    }
  }

  /** Inside the loop: an entry that extends d, after entries that do not, is removed soundly, and
      what is removed extends d. */
  lemma NestedIsSound(n: seq<TableEntry>, c: seq<Entry>, pos: nat, d: string)
    requires pos < |c| == |n| && NoneExtends(c, pos, d) && Extends(d, c[pos].file.path)
    ensures Find(c, c[pos].file.path) == pos && Sound(c, pos) && PlaceOf(c, pos) == pos
    ensures |Rest(c, c, pos)| == |Rest(n, c, pos)| < |c| && NoneExtends(Rest(c, c, pos), pos, d)
    ensures SameKept(Rest(n, c, pos), Rest(c, c, pos), n, c, d)
  {
    var path := c[pos].file.path;
    forall k | 0 <= k < pos
      ensures c[k].file.path != path && !Extends(path, c[k].file.path)
    {
      if Extends(path, c[k].file.path) {
        ExtendsTransitive(d, path, c[k].file.path);
      }
    }
    KeepAll(n[..pos], c[..pos], path);
    KeepAll(c[..pos], c[..pos], path);
    RestKept(n, c, pos, d);
    RestKept(c, c, pos, d);
    RestCount(c, pos);
  }

  lemma RestKept<T>(xs: seq<T>, c: seq<Entry>, pos: nat, d: string)
    requires pos < |c| == |xs| && Extends(d, c[pos].file.path)
    requires Keep(xs[..pos], c[..pos], c[pos].file.path) == xs[..pos]
    requires Keep(c[..pos], c[..pos], c[pos].file.path) == c[..pos]
    ensures |Rest(xs, c, pos)| == |Rest(c, c, pos)| < |c|
    ensures Rest(c, c, pos)[..pos] == c[..pos]
    ensures Keep(Rest(xs, c, pos), Rest(c, c, pos), d) == Keep(xs, c, d)
  {
    var path := c[pos].file.path;
    var ys, e := xs[pos + 1..], c[pos + 1..];
    var ks, f := if c[pos].file.isDir then Keep(ys, e, path) else ys, if c[pos].file.isDir then Keep(e, e, path) else e;
    KeepLength(ys, e, path);
    assert Rest(xs, c, pos) == xs[..pos] + ks && Rest(c, c, pos) == c[..pos] + f;
    KeepConcat(xs[..pos], c[..pos], ks, f, d);
    if c[pos].file.isDir {
      KeepKeep(ys, e, path, d);
    }
    assert xs == xs[..pos] + ([xs[pos]] + ys) && c == c[..pos] + ([c[pos]] + e);
    KeepConcat(xs[..pos], c[..pos], [xs[pos]] + ys, [c[pos]] + e, d);
    KeepConcat([xs[pos]], [c[pos]], ys, e, d);
    assert Keep([xs[pos]], [c[pos]], d) == [];
    assert [] + Keep(ys, e, d) == Keep(ys, e, d);
  }

  lemma RestCount(c: seq<Entry>, pos: nat)
    requires pos < |c| && Keep(c[..pos], c[..pos], c[pos].file.path) == c[..pos]
    ensures Count(Rest(c, c, pos), IsDirectory) <= Count(c, IsDirectory)
  {
    Around(c, pos);
    KeptCount(c[..pos], c[pos], c[pos + 1..]);
  }

  lemma KeptCount(a: seq<Entry>, x: Entry, e: seq<Entry>)
    ensures var f := if IsDirectory(x) then Keep(e, e, x.file.path) else e;
      Count(a + f, IsDirectory) <= Count(a + ([x] + e), IsDirectory)
  {
    if IsDirectory(x) {
      KeepCount(e, x.file.path);
      MiddleCount(a, x, e, Keep(e, e, x.file.path));
    } else {
      MiddleCount(a, x, e, e);
    }
  }

  lemma Around<T>(s: seq<T>, i: nat)
    requires i < |s|
    ensures s == s[..i] + ([s[i]] + s[i + 1..])
  {
  }

  lemma MiddleCount(a: seq<Entry>, x: Entry, e: seq<Entry>, f: seq<Entry>)
    requires Count(f, IsDirectory) <= Count(e, IsDirectory)
    ensures Count(a + f, IsDirectory) <= Count(a + ([x] + e), IsDirectory)
  {
    CountConcat(a, f, IsDirectory);
    CountConcat(a, [x] + e, IsDirectory);
    CountConcat([x], e, IsDirectory);
  }

  /** Where a directory and the entry before it are when what it contains has been removed. */
  lemma WhereKept(n: seq<TableEntry>, c: seq<Entry>, i: nat)
    requires i < |c| == |n| && c[i].file.isDir && forall j, k :: 0 <= j < k < |n| ==> n[j] != n[k]
    ensures var m := Keep(n, c, c[i].file.path); var p := PlaceOf(c, i);
      && p < |m| == |KeptAsFile(c, i)| && m[p] == n[i]
      && m[..p] + m[p + 1..] == Rest(n, c, i)
      && KeptAsFile(c, i)[..p] + KeptAsFile(c, i)[p + 1..] == Rest(c, c, i)
      && (if !Sound(c, i) then n[i - 1] !in m
          else if i == 0 then p == 0
          else p > 0 && m[p - 1] == n[i - 1])
  {
    var d := c[i].file.path;
    PartsKept(n, c, i);
    PartsAsFile(c, i);
    if !Sound(c, i) {
      DroppedIsGone(n, c, i - 1, d);
    } else if i > 0 {
      LastIsKept(n, c, i, d);
    }
  }

  lemma PartsKept<T>(xs: seq<T>, c: seq<Entry>, i: nat)
    requires i < |c| == |xs| && c[i].file.isDir
    ensures var d := c[i].file.path; var m := Keep(xs, c, d); var p := PlaceOf(c, i);
      && p < |m| && m[p] == xs[i] && m[..p] == Keep(xs[..i], c[..i], d)
      && m[..p] + m[p + 1..] == Rest(xs, c, i) && |m| == |Rest(c, c, i)| + 1
  {
    var d := c[i].file.path;
    SplitAt(xs, c, i);
    KeepLength(xs[..i], c[..i], d);
    KeepLength(xs[i + 1..], c[i + 1..], d);
  }

  lemma PartsAsFile(c: seq<Entry>, i: nat)
    requires i < |c| && c[i].file.isDir
    ensures var m := KeptAsFile(c, i); var p := PlaceOf(c, i);
      p < |m| == |Rest(c, c, i)| + 1 && m[p] == AsFile(c[i]) && m[..p] + m[p + 1..] == Rest(c, c, i)
  {
    var f := c[i := AsFile(c[i])];
    SplitAt(f, f, i);
    assert f[..i] == c[..i] && f[i + 1..] == c[i + 1..];
  }

  lemma SplitAt<T>(xs: seq<T>, c: seq<Entry>, i: nat)
    requires i < |c| == |xs|
    ensures var d := c[i].file.path;
      Keep(xs, c, d) == Keep(xs[..i], c[..i], d) + [xs[i]] + Keep(xs[i + 1..], c[i + 1..], d)
  {
    var d := c[i].file.path;
    assert xs == xs[..i] + [xs[i]] + xs[i + 1..] && c == c[..i] + [c[i]] + c[i + 1..];
    KeepConcat(xs[..i] + [xs[i]], c[..i] + [c[i]], xs[i + 1..], c[i + 1..], d);
    KeepConcat(xs[..i], c[..i], [xs[i]], [c[i]], d);
    assert Keep([xs[i]], [c[i]], d) == [xs[i]];
  }

  lemma LastIsKept<T>(xs: seq<T>, c: seq<Entry>, i: nat, d: string)
    requires 0 < i <= |c| == |xs| && !Extends(d, c[i - 1].file.path)
    ensures Keep(xs[..i], c[..i], d) != [] && Keep(xs[..i], c[..i], d)[|Keep(xs[..i], c[..i], d)| - 1] == xs[i - 1]
  {
    assert xs[..i] == xs[..i - 1] + [xs[i - 1]] && c[..i] == c[..i - 1] + [c[i - 1]];
    KeepConcat(xs[..i - 1], c[..i - 1], [xs[i - 1]], [c[i - 1]], d);
    assert Keep([xs[i - 1]], [c[i - 1]], d) == [xs[i - 1]];
  }

  lemma DroppedIsGone(n: seq<TableEntry>, c: seq<Entry>, i: nat, d: string)
    requires i < |c| == |n| && Extends(d, c[i].file.path) && forall j, k :: 0 <= j < k < |n| ==> n[j] != n[k]
    ensures n[i] !in Keep(n, c, d)
  {
    assert n == n[..i] + ([n[i]] + n[i + 1..]) && c == c[..i] + ([c[i]] + c[i + 1..]);
    KeepConcat(n[..i], c[..i], [n[i]] + n[i + 1..], [c[i]] + c[i + 1..], d);
    KeepConcat([n[i]], [c[i]], n[i + 1..], c[i + 1..], d);
    assert Keep([n[i]], [c[i]], d) == [];
    KeepLength(n[..i], c[..i], d);
    KeepLength(n[i + 1..], c[i + 1..], d);
  }

  /** What filetable_remove() leaves of any list. */
  ghost function AfterRemove(c: seq<Entry>, path: string): seq<Entry> {
    if RemovesSoundly(c, path) then RemoveFirst(c, path) else KeptAsFile(c, Find(c, path))
  }

  /** The path and nothing but what it contains goes exactly if the entry just before it is not
      inside it; otherwise the path stays, as a file. */
  lemma RemovedIff(c: seq<Entry>, path: string)
    ensures AfterRemove(c, path) == RemoveFirst(c, path) <==> RemovesSoundly(c, path)
    ensures !RemovesSoundly(c, path) ==> AsFile(c[Find(c, path)]) in AfterRemove(c, path)
  {
    if !RemovesSoundly(c, path) {
      PartsAsFile(c, Find(c, path));
    }
  }

  /** The order in which a table is received: the directory follows what it contains. */
  lemma DirectoryAfterContent()
    ensures var c := [Entry(FileInfo("d/x", 1, 1, false), []), Entry(FileInfo("d", 0, 1, true), [])];
      !RemovesSoundly(c, "d") && AfterRemove(c, "d") == [Entry(FileInfo("d", 0, 1, false), [])]
  {
    var x, d := Entry(FileInfo("d/x", 1, 1, false), []), Entry(FileInfo("d", 0, 1, true), []);
    var c := [x, d];
    FindIs(c, "d", 1);
    var f := c[1 := AsFile(d)];
    assert f == [x, AsFile(d)] && f[1..] == [AsFile(d)];
    assert Keep(f[1..], f[1..], "d") == [AsFile(d)];
  }

  // ---- in a sorted table ----

  /** In a sorted table nothing goes wrong, and what goes is what the directory's path is a prefix
      of. */
  lemma SortedIsSound(c: seq<Entry>, path: string)
    requires Sorted(c)
    ensures RemovesSoundly(c, path) && RemoveFirst(c, path) == Table.Remove(c, path)
  {
    var i := Find(c, path);
    if i < |c| && c[i].file.isDir {
      if i > 0 && Extends(path, c[i - 1].file.path) {
        PrefixLess(path, c[i - 1].file.path);
        LessTotal(path, c[i - 1].file.path);
      }
      LessIrreflexive(path);
      OthersKept(c[..i], path);
      OthersKept(c[i + 1..], path);
      WithoutSelf(c, i);
    }
  }

  lemma WithoutSelf(c: seq<Entry>, i: nat)
    requires i < |c|
    ensures var d := c[i].file.path; Without(c, d) == Without(c[..i], d) + Without(c[i + 1..], d)
  {
    Around(c, i);
    WithoutAround(c[..i], c[i], c[i + 1..]);
  }

  lemma WithoutAround(a: seq<Entry>, x: Entry, b: seq<Entry>)
    ensures Without(a + ([x] + b), x.file.path) == Without(a, x.file.path) + Without(b, x.file.path)
  {
    WithoutConcat(a, [x] + b, x.file.path);
    assert ([x] + b)[1..] == b;
  }

  lemma {:induction false} OthersKept(c: seq<Entry>, d: string)
    requires forall k :: 0 <= k < |c| ==> c[k].file.path != d
    ensures Keep(c, c, d) == Without(c, d)
  {
    if c == [] {
    } else {
      assert forall k :: 0 <= k < |c[1..]| ==> c[1..][k] == c[k + 1];
      OthersKept(c[1..], d);
    }
  }

  lemma {:induction false} PositionIs(c: seq<Entry>, path: string, p: nat)
    requires p <= |c| && (p < |c| ==> Less(path, c[p].file.path))
    requires forall j :: 0 <= j < p ==> !Less(path, c[j].file.path)
    ensures Position(c, path) == p
  {
    if p > 0 {
      PositionIs(c[1..], path, p - 1);
    }
  }

  lemma DiffStep(c: seq<Entry>, files: seq<FileInfo>, i: nat, events: seq<Event>)
    requires i < |files|
    ensures Table.FileDiff(c, files[i..]) + events ==
            Table.FileDiff(c, files[i + 1..]) +
            (match DiffOne(c, files[i]) case Some(e) => [e] + events case None => events)
  {
    assert files[i..][0] == files[i] && files[i..][1..] == files[i + 1..];
  }

  lemma {:induction false} FindIs(c: seq<Entry>, path: string, k: nat)
    requires k <= |c| && (k < |c| ==> c[k].file.path == path)
    requires forall j :: 0 <= j < k ==> c[j].file.path != path
    ensures Find(c, path) == k
  {
    if k > 0 {
      FindIs(c[1..], path, k - 1);
    }
  }
}
