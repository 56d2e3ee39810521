/** Sending and receiving over a connection, one struct at a time (messaging/segment.c and the
    send and receive functions of the lists), proved to write what Wire encodes and to read what
    Wire decodes. */
module Messaging {
  import opened Table
  import opened FileTables
  import opened EventQueues
  import opened Wire

  /** A message in memory: the body that recv_message() attaches. */
  datatype Body =
    | RegisterBody(listenPort: int, files: seq<FileInfo>)
    | RegisterAckBody(interval: int, pieceLen: int)
    | FileUpdateBody(events: seq<Event>)
    | TableUpdateBody(table: FileTable)
    | NoBody
    | UnknownBody

  /** body holds the content of m. */
  ghost predicate Carries(body: Body, m: Message)
    reads if body.TableUpdateBody? then {body.table} + body.table.Repr else {}
  {
    match body
    case RegisterBody(port, files) => m == Register(port, files)
    case RegisterAckBody(interval, len) => m == RegisterAck(interval, len)
    case FileUpdateBody(events) => m == FileUpdate(events)
    case TableUpdateBody(table) => table.Valid() && m == TableUpdate(table.contents)
    case NoBody => m == KeepAlive
    case UnknownBody => m == Other
  }

  /** One direction of a connection: the structs sent and not yet received. */
  class Stream {
    var records: seq<Record>

    /** send() */
    method Send(r: Record)
      modifies this
      ensures records == old(records) + [r]
    {
      records := records + [r];
    }

    /** recv() of a whole struct into zeroed memory. */
    method Recv(zero: Record) returns (r: Record)
      modifies this
      ensures (r, records) == Take(old(records), zero)
    {
      if records == [] {
        return zero;
      }
      r := records[0];
      records := records[1..];
    }

    // ---- lists ----

    /** The inner loop of filetable_send(). */
    method SendPeers(entry: TableEntry)
      requires entry.Valid()
      modifies this
      ensures records == old(records) + EncodePeers(entry.peers)
    {
      var cur := entry.iphead;
      ghost var k := 0;
      while cur != null
        invariant 0 <= k <= |entry.spine| && cur == FileTables.PeerAt(entry.spine, k)
        invariant records + EncodePeers(entry.peers[k..]) == old(records) + EncodePeers(entry.peers)
        decreases |entry.spine| - k
      {
        Regroup(records, AddrRecord(cur.addr), EncodePeers(entry.peers[k + 1..]));
        assert entry.peers[k..][1..] == entry.peers[k + 1..];
        Send(AddrRecord(cur.addr));
        cur := cur.next;
        k := k + 1;
      }
      assert entry.peers[k..] == [];
    }

    /** The body of the loop of filetable_send(). */
    method SendEntry(entry: TableEntry)
      requires entry.Valid()
      modifies this
      ensures records == old(records) + EncodeEntry(entry.Value())
    {
      Send(EntryRecord(entry.numpeers));
      Send(InfoRecord(entry.file));
      SendPeers(entry);
      Regroup2(old(records), EntryRecord(entry.numpeers), InfoRecord(entry.file), EncodePeers(entry.peers));
    }

    /** filetable_send() */
    method SendTable(table: FileTable)
      requires table.Valid() && this !in table.Repr
      modifies this
      ensures records == old(records) + EncodeTable(table.contents)
    {
      Send(TableRecord(table.numfiles));
      ghost var sent := records;
      var entry := table.head;
      ghost var k := 0;
      while entry != null
        invariant table.Valid() && 0 <= k <= |table.nodes| && entry == EntryAt(table.nodes, k)
        invariant records + EncodeEntries(table.contents[k..]) == sent + EncodeEntries(table.contents)
        decreases |table.nodes| - k
      {
        assert table.Holds(entry, table.contents[k]);
        EntrySent(records, table.contents, k);
        SendEntry(entry);
        entry := entry.next;
        k := k + 1;
      }
      assert table.contents[k..] == [];
      Regroup(old(records), TableRecord(table.numfiles), EncodeEntries(table.contents));
    }

    /** The innermost loop of filetable_receive(). */
    method ReceivePeers(entry: TableEntry) returns (ok: bool)
      requires entry.iphead == null && entry.spine == [] && entry.peers == [] && entry.numpeers >= 0
      modifies this, entry`iphead, entry`spine, entry`peers
      ensures match DecodePeers(entry.numpeers, old(records), [])
              case None => !ok
              case Some((peers, rest)) =>
                ok && entry.Valid() && fresh(entry.spine) && entry.peers == peers && records == rest
    {
      ghost var r0 := records;
      for j := 0 to entry.numpeers
        invariant entry.Chained() && |entry.peers| == j && fresh(entry.spine)
        invariant DecodePeers(entry.numpeers - j, records, entry.peers) == DecodePeers(entry.numpeers, r0, [])
      {
        var r := Recv(ZERO_ADDR);
        if !r.AddrRecord? {
          return false;
        }
        ghost var was := entry.spine;
        entry.PushPeer(r.addr);
        assert entry.spine == [entry.spine[0]] + was;
      }
      return true;
    }

    /** The body of the loop of filetable_receive() over the entries. */
    method ReceiveEntry() returns (entry: TableEntry?)
      modifies this
      ensures match DecodeEntry(old(records))
              case None => entry == null
              case Some((e, rest)) =>
                && entry != null && fresh(entry) && fresh(entry.spine)
                && entry.Valid() && entry.Value() == e && records == rest
    {
      var r := Recv(EntryRecord(0));
      var info := Recv(ZERO_INFO);
      if !r.EntryRecord? || !info.InfoRecord? {
        return null;
      }
      entry := new TableEntry.Announced(info.file, r.numpeers);
      var ok := ReceivePeers(entry);
      if !ok {
        return null;
      }
    }

    /** One turn of that loop. */
    method ReceiveInto(table: FileTable) returns (ok: bool)
      requires table.Growing() && this !in table.Repr
      modifies this, table
      ensures match DecodeEntry(old(records))
              case None => !ok
              case Some((e, rest)) => ok && records == rest && table.contents == [e] + old(table.contents)
      ensures ok ==> table.Growing()
      ensures table.numfiles == old(table.numfiles) && fresh(table.Repr - old(table.Repr))
    {
      var entry := ReceiveEntry();
      if entry == null {
        return false;
      }
      table.PushEntry(entry);
      return true;
    }

    /** The loop of filetable_receive(). */
    method ReceiveEntries(table: FileTable) returns (ok: bool)
      requires table.Growing() && table.contents == [] && table.numfiles >= 0 && this !in table.Repr
      modifies this, table
      ensures table.numfiles == old(table.numfiles) && fresh(table.Repr - old(table.Repr))
      ensures match DecodeEntries(table.numfiles, old(records), [])
              case None => !ok
              case Some((c, rest)) => ok && table.Valid() && table.contents == c && records == rest
    {
      ghost var r0 := records;
      for i := 0 to table.numfiles
        invariant table.numfiles == old(table.numfiles) && this !in table.Repr
        invariant table.Growing() && fresh(table.Repr - old(table.Repr)) && |table.contents| == i
        invariant DecodeEntries(table.numfiles - i, records, table.contents) == DecodeEntries(table.numfiles, r0, [])
      {
        ok := ReceiveInto(table);
        if !ok {
          return;
        }
      }
      return true;
    }

    /** filetable_receive() */
    method ReceiveTable() returns (table: FileTable?)
      modifies this
      ensures match DecodeTable(old(records))
              case None => table == null
              case Some((c, rest)) =>
                table != null && fresh(table.Repr) && table.Valid() && table.contents == c && records == rest
    {
      var r := Recv(TableRecord(0));
      if !r.TableRecord? {
        return null;
      }
      table := new FileTable.Announced(r.numfiles);
      var ok := ReceiveEntries(table);
      if !ok {
        table := null;
      }
    }

    /** fileinfo_send_all() */
    method SendInfos(files: seq<FileInfo>)
      modifies this
      ensures records == old(records) + EncodeInfos(files)
    {
      var file := files;
      while file != []
        invariant records + EncodeInfos(file) == old(records) + EncodeInfos(files)
        decreases |file|
      {
        Regroup(records, InfoRecord(file[0]), EncodeInfos(file[1..]));
        Send(InfoRecord(file[0]));
        file := file[1..];
      }
    }

    /** fileinfo_receive() */
    method ReceiveInfos(n: int) returns (files: Option<seq<FileInfo>>)
      modifies this
      ensures match DecodeInfos(n, old(records), [])
              case None => files == None
              case Some((v, rest)) => files == Some(v) && records == rest
    {
      if n <= 0 {
        return Some([]);
      }
      var head := [];
      for i := 0 to n
        invariant DecodeInfos(n - i, records, head) == DecodeInfos(n, old(records), [])
      {
        var r := Recv(ZERO_INFO);
        if !r.InfoRecord? {
          return None;
        }
        head := [r.file] + head;
      }
      return Some(head);
    }

    /** fileevent_send_all() */
    method SendEvents(events: FileEvent?, ghost nodes: seq<FileEvent>)
      requires Chain(events, nodes)
      modifies this
      ensures records == old(records) + EncodeEvents(Events(nodes))
    {
      var event := events;
      ghost var k := 0;
      while event != null
        invariant 0 <= k <= |nodes| && event == NodeAt(nodes, k)
        invariant records + EncodeEvents(Events(nodes[k..])) == old(records) + EncodeEvents(Events(nodes))
        decreases |nodes| - k
      {
        EventSent(records, nodes, k);
        Send(InfoRecord(event.event.file));
        Send(EventRecord(event.event.action));
        event := event.next;
        k := k + 1;
      }
      assert Events(nodes[k..]) == [];
    }

    /** fileevent_receive() */
    method ReceiveEvents(n: int) returns (events: Option<seq<Event>>)
      modifies this
      ensures match DecodeEvents(n, old(records), [])
              case None => events == None
              case Some((v, rest)) => events == Some(v) && records == rest
    {
      if n <= 0 {
        return Some([]);
      }
      var head := [];
      for i := 0 to n
        invariant DecodeEvents(n - i, records, head) == DecodeEvents(n, old(records), [])
      {
        var info := Recv(ZERO_INFO);
        var event := Recv(ZERO_EVENT);
        if !info.InfoRecord? || !event.EventRecord? {
          return None;
        }
        head := [Event(event.action, info.file)] + head;
      }
      return Some(head);
    }

    // ---- messages ----

    /** send_register() */
    method SendRegister(port: int, files: seq<FileInfo>)
      modifies this
      ensures records == old(records) + Encode(Register(port, files))
    {
      Send(HeaderRecord(RegisterKind));
      var nFiles, tmp := 0, files;
      while tmp != []
        invariant nFiles + |tmp| == |files|
        decreases |tmp|
      {
        nFiles := nFiles + 1;
        tmp := tmp[1..];
      }
      Send(RegisterRecord(port, nFiles));
      SendInfos(files);
      Regroup2(old(records), HeaderRecord(RegisterKind), RegisterRecord(port, nFiles), EncodeInfos(files));
    }

    /** send_register_ack() */
    method SendRegisterAck(interval: int, pieceLen: int)
      modifies this
      ensures records == old(records) + Encode(RegisterAck(interval, pieceLen))
    {
      Send(HeaderRecord(RegisterAckKind));
      Send(AckRecord(interval, pieceLen));
      Regroup2(old(records), HeaderRecord(RegisterAckKind), AckRecord(interval, pieceLen), []);
    }

    /** send_keep_alive() */
    method SendKeepAlive()
      modifies this
      ensures records == old(records) + Encode(KeepAlive)
    {
      Send(HeaderRecord(KeepAliveKind));
    }

    /** send_file_update() */
    method SendFileUpdate(events: FileEvent?, ghost nodes: seq<FileEvent>)
      requires Chain(events, nodes)
      modifies this
      ensures records == old(records) + Encode(FileUpdate(Events(nodes)))
    {
      Send(HeaderRecord(FileUpdateKind));
      var nEvents, tmp := 0, events;
      while tmp != null
        invariant 0 <= nEvents <= |nodes| && tmp == NodeAt(nodes, nEvents)
        decreases |nodes| - nEvents
      {
        nEvents := nEvents + 1;
        tmp := tmp.next;
      }
      Send(UpdateRecord(nEvents));
      SendEvents(events, nodes);
      Regroup2(old(records), HeaderRecord(FileUpdateKind), UpdateRecord(nEvents), EncodeEvents(Events(nodes)));
    }

    /** send_table_update() */
    method SendTableUpdate(table: FileTable)
      requires table.Valid() && this !in table.Repr
      modifies this
      ensures records == old(records) + Encode(TableUpdate(table.contents))
    {
      Send(HeaderRecord(TableUpdateKind));
      Send(TableBodyRecord);
      SendTable(table);
      Regroup2(old(records), HeaderRecord(TableUpdateKind), TableBodyRecord, EncodeTable(table.contents));
    }

    /** receive_register() */
    method ReceiveRegister() returns (body: Option<Body>)
      modifies this
      ensures Received(body, DecodeBody(RegisterKind, old(records)))
    {
      var r := Recv(RegisterRecord(0, 0));
      if !r.RegisterRecord? {
        return None;
      }
      var files := ReceiveInfos(r.nFiles);
      return if files.Some? then Some(RegisterBody(r.listenPort, files.value)) else None;
    }

    /** receive_register_ack() */
    method ReceiveRegisterAck() returns (body: Option<Body>)
      modifies this
      ensures Received(body, DecodeBody(RegisterAckKind, old(records)))
    {
      var r := Recv(AckRecord(0, 0));
      return if r.AckRecord? then Some(RegisterAckBody(r.interval, r.pieceLen)) else None;
    }

    /** receive_file_update() */
    method ReceiveFileUpdate() returns (body: Option<Body>)
      modifies this
      ensures Received(body, DecodeBody(FileUpdateKind, old(records)))
    {
      var r := Recv(UpdateRecord(0));
      if !r.UpdateRecord? {
        return None;
      }
      var events := ReceiveEvents(r.nEvents);
      return if events.Some? then Some(FileUpdateBody(events.value)) else None;
    }

    /** receive_table_update() */
    method ReceiveTableUpdate() returns (body: Option<Body>)
      modifies this
      ensures Received(body, DecodeBody(TableUpdateKind, old(records)))
      ensures body.Some? && body.value.TableUpdateBody? ==> fresh(body.value.table.Repr)
    {
      var r := Recv(TableBodyRecord);
      if !r.TableBodyRecord? {
        return None;
      }
      var table := ReceiveTable();
      return if table != null then Some(TableUpdateBody(table)) else None;
    }

    /** What was received is what the decoding says, and so is what is left. */
    ghost predicate Received(body: Option<Body>, decoded: Option<(Message, seq<Record>)>)
      reads this, if body.Some? && body.value.TableUpdateBody? then {body.value.table} + body.value.table.Repr else {}
    {
      match decoded
      case None => body == None
      case Some((m, rest)) => body.Some? && Carries(body.value, m) && records == rest
    }

    /** recv_message() */
    method RecvMessage() returns (body: Option<Body>)
      modifies this
      ensures Received(body, Decode(old(records)))
      ensures body.Some? && body.value.TableUpdateBody? ==> fresh(body.value.table.Repr)
    {
      if records == [] {
        return None;
      }
      var r := Recv(HeaderRecord(OtherKind));
      if !r.HeaderRecord? {
        return None;
      }
      match r.kind {
        case RegisterKind => body := ReceiveRegister();
        case RegisterAckKind => body := ReceiveRegisterAck();
        case FileUpdateKind => body := ReceiveFileUpdate();
        case TableUpdateKind => body := ReceiveTableUpdate();
        case KeepAliveKind => body := Some(NoBody);
        case OtherKind => body := Some(UnknownBody);
      }
    }
  }

  lemma Regroup(s: seq<Record>, r: Record, rest: seq<Record>)
    ensures s + ([r] + rest) == s + [r] + rest
  {
  }

  lemma EntrySent(s: seq<Record>, c: seq<Entry>, k: nat)
    requires k < |c|
    ensures s + EncodeEntries(c[k..]) == s + EncodeEntry(c[k]) + EncodeEntries(c[k + 1..])
  {
    assert c[k..][0] == c[k] && c[k..][1..] == c[k + 1..];
  }

  lemma Regroup2(s: seq<Record>, q: Record, r: Record, rest: seq<Record>)
    ensures s + [q] + [r] + rest == s + ([q, r] + rest)
  {
  }

  lemma EventSent(s: seq<Record>, nodes: seq<FileEvent>, k: nat)
    requires k < |nodes|
    ensures s + EncodeEvents(Events(nodes[k..])) ==
            s + [InfoRecord(nodes[k].event.file)] + [EventRecord(nodes[k].event.action)] +
            EncodeEvents(Events(nodes[k + 1..]))
  {
    var events := Events(nodes[k..]);
    assert events[0] == nodes[k].event && events[1..] == Events(nodes[k + 1..]);
    Regroup2(s, InfoRecord(events[0].file), EventRecord(events[0].action), EncodeEvents(events[1..]));
  }
}
