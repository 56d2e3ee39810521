/** The messages between tracker and peers as streams of typed records (messaging/segment.c and
    the send and receive functions of the lists). Lists travel with their length in front and are
    rebuilt by inserting at the head, which reverses them. */
module Wire {
  import opened Sequences
  import opened Table
  import opened TableLaws
  import opened MergeLaws

  datatype Kind = RegisterKind | RegisterAckKind | KeepAliveKind | TableUpdateKind | FileUpdateKind | OtherKind

  /** One struct sent or received in one call. */
  datatype Record =
    | HeaderRecord(kind: Kind)
    | RegisterRecord(listenPort: int, nFiles: int)
    | AckRecord(interval: int, pieceLen: int)
    | UpdateRecord(nEvents: int)
    | TableBodyRecord
    | TableRecord(numfiles: nat)
    | EntryRecord(numpeers: nat)
    | InfoRecord(file: FileInfo)
    | AddrRecord(addr: Addr)
    | EventRecord(action: Action)

  datatype Message =
    | Register(listenPort: int, files: seq<FileInfo>)
    | RegisterAck(interval: int, pieceLen: int)
    | KeepAlive
    | TableUpdate(table: seq<Entry>)
    | FileUpdate(events: seq<Event>)
    | Other

  // ---- sending ----

  function EncodePeers(peers: seq<Addr>): seq<Record> {
    if peers == [] then [] else [AddrRecord(peers[0])] + EncodePeers(peers[1..])
  }

  function EncodeEntry(e: Entry): seq<Record> {
    [EntryRecord(|e.peers|), InfoRecord(e.file)] + EncodePeers(e.peers)
  }

  function EncodeEntries(c: seq<Entry>): seq<Record> {
    if c == [] then [] else EncodeEntry(c[0]) + EncodeEntries(c[1..])
  }

  function EncodeTable(c: seq<Entry>): seq<Record> {
    [TableRecord(|c|)] + EncodeEntries(c)
  }

  function EncodeInfos(files: seq<FileInfo>): seq<Record> {
    if files == [] then [] else [InfoRecord(files[0])] + EncodeInfos(files[1..])
  }

  function EncodeEvents(events: seq<Event>): seq<Record> {
    if events == [] then []
    else [InfoRecord(events[0].file), EventRecord(events[0].action)] + EncodeEvents(events[1..])
  }

  function Encode(m: Message): seq<Record> {
    match m
    case Register(port, files) => [HeaderRecord(RegisterKind), RegisterRecord(port, |files|)] + EncodeInfos(files)
    case RegisterAck(interval, len) => [HeaderRecord(RegisterAckKind), AckRecord(interval, len)]
    case KeepAlive => [HeaderRecord(KeepAliveKind)]
    case Other => [HeaderRecord(OtherKind)]
    case TableUpdate(c) => [HeaderRecord(TableUpdateKind), TableBodyRecord] + EncodeTable(c)
    case FileUpdate(events) => [HeaderRecord(FileUpdateKind), UpdateRecord(|events|)] + EncodeEvents(events)
  }

  // ---- receiving: the value read and the records left, or None if the stream does not fit ----

  /** recv() of one struct. After the end of the stream it leaves the struct as it was, zeroed. */
  function Take(s: seq<Record>, zero: Record): (Record, seq<Record>) {
    if s == [] then (zero, []) else (s[0], s[1..])
  }

  const ZERO_INFO: Record := InfoRecord(FileInfo("", 0, 0, false))
  const ZERO_ADDR: Record := AddrRecord(Addr("", 0))
  const ZERO_EVENT: Record := EventRecord(Modified)

  function DecodePeers(n: nat, s: seq<Record>, acc: seq<Addr>): Option<(seq<Addr>, seq<Record>)> {
    if n == 0 then Some((acc, s))
    else
      var (r, rest) := Take(s, ZERO_ADDR);
      if !r.AddrRecord? then None else DecodePeers(n - 1, rest, [r.addr] + acc)
  }

  function DecodeEntry(s: seq<Record>): Option<(Entry, seq<Record>)> {
    var (r, s1) := Take(s, EntryRecord(0));
    var (info, s2) := Take(s1, ZERO_INFO);
    if !r.EntryRecord? || !info.InfoRecord? then None
    else match DecodePeers(r.numpeers, s2, [])
         case None => None
         case Some((peers, rest)) => Some((Entry(info.file, peers), rest))
  }

  function DecodeEntries(n: nat, s: seq<Record>, acc: seq<Entry>): Option<(seq<Entry>, seq<Record>)> {
    if n == 0 then Some((acc, s))
    else match DecodeEntry(s)
         case None => None
         case Some((e, rest)) => DecodeEntries(n - 1, rest, [e] + acc)
  }

  function DecodeTable(s: seq<Record>): Option<(seq<Entry>, seq<Record>)> {
    var (r, rest) := Take(s, TableRecord(0));
    if !r.TableRecord? then None else DecodeEntries(r.numfiles, rest, [])
  }

  function DecodeInfos(n: int, s: seq<Record>, acc: seq<FileInfo>): Option<(seq<FileInfo>, seq<Record>)>
    decreases n
  {
    if n <= 0 then Some((acc, s))
    else
      var (r, rest) := Take(s, ZERO_INFO);
      if !r.InfoRecord? then None else DecodeInfos(n - 1, rest, [r.file] + acc)
  }

  function DecodeEvents(n: int, s: seq<Record>, acc: seq<Event>): Option<(seq<Event>, seq<Record>)>
    decreases n
  {
    if n <= 0 then Some((acc, s))
    else
      var (info, s1) := Take(s, ZERO_INFO);
      var (event, s2) := Take(s1, ZERO_EVENT);
      if !info.InfoRecord? || !event.EventRecord? then None
      else DecodeEvents(n - 1, s2, [Event(event.action, info.file)] + acc)
  }

  function DecodeBody(kind: Kind, s: seq<Record>): Option<(Message, seq<Record>)> {
    match kind
    case KeepAliveKind => Some((KeepAlive, s))
    case OtherKind => Some((Other, s))
    case RegisterKind =>
      var (r, s1) := Take(s, RegisterRecord(0, 0));
      if !r.RegisterRecord? then None
      else (match DecodeInfos(r.nFiles, s1, [])
            case None => None
            case Some((files, rest)) => Some((Register(r.listenPort, files), rest)))
    case RegisterAckKind =>
      var (r, s1) := Take(s, AckRecord(0, 0));
      if !r.AckRecord? then None else Some((RegisterAck(r.interval, r.pieceLen), s1))
    case FileUpdateKind =>
      var (r, s1) := Take(s, UpdateRecord(0));
      if !r.UpdateRecord? then None
      else (match DecodeEvents(r.nEvents, s1, [])
            case None => None
            case Some((events, rest)) => Some((FileUpdate(events), rest)))
    case TableUpdateKind =>
      var (r, s1) := Take(s, TableBodyRecord);
      if !r.TableBodyRecord? then None
      else (match DecodeTable(s1)
            case None => None
            case Some((c, rest)) => Some((TableUpdate(c), rest)))
  }

  /** recv_message(); None also when the other side has hung up. */
  function Decode(s: seq<Record>): Option<(Message, seq<Record>)> {
    if s == [] || !s[0].HeaderRecord? then None else DecodeBody(s[0].kind, s[1..])
  }

  // ---- what arrives ----

  function ReverseEntry(e: Entry): Entry { e.(peers := Reverse(e.peers)) }

  /** The table as it arrives: the entries reversed, and each peer list reversed. */
  function ReverseTable(c: seq<Entry>): (r: seq<Entry>)
    ensures |r| == |c| && forall i :: 0 <= i < |c| ==> r[i] == ReverseEntry(c[|c| - 1 - i])
  {
    seq(|c|, i requires 0 <= i < |c| => ReverseEntry(c[|c| - 1 - i]))
  }

  function Arrived(m: Message): Message {
    match m
    case Register(port, files) => Register(port, Reverse(files))
    case TableUpdate(c) => TableUpdate(ReverseTable(c))
    case FileUpdate(events) => FileUpdate(Reverse(events))
    case _ => m
  }

  lemma {:induction false} PeersArrive(peers: seq<Addr>, rest: seq<Record>, acc: seq<Addr>)
    ensures DecodePeers(|peers|, EncodePeers(peers) + rest, acc) == Some((Reverse(peers) + acc, rest))
  {
    if peers == [] {
      assert EncodePeers(peers) + rest == rest && Reverse(peers) + acc == acc;
    } else {
      var s := EncodePeers(peers) + rest;
      assert s[0] == AddrRecord(peers[0]) && s[1..] == EncodePeers(peers[1..]) + rest;
      PeersArrive(peers[1..], rest, [peers[0]] + acc);
      assert Reverse(peers) + acc == Reverse(peers[1..]) + ([peers[0]] + acc);
    }
  }

  lemma EntryArrives(e: Entry, rest: seq<Record>)
    ensures DecodeEntry(EncodeEntry(e) + rest) == Some((ReverseEntry(e), rest))
  {
    var s := EncodeEntry(e) + rest;
    assert s[1..] == [InfoRecord(e.file)] + (EncodePeers(e.peers) + rest);
    PeersArrive(e.peers, rest, []);
    assert Reverse(e.peers) + [] == Reverse(e.peers);
  }

  lemma {:induction false} EntriesArrive(c: seq<Entry>, rest: seq<Record>, acc: seq<Entry>)
    ensures DecodeEntries(|c|, EncodeEntries(c) + rest, acc) == Some((ReverseTable(c) + acc, rest))
  {
    if c == [] {
      assert EncodeEntries(c) + rest == rest && ReverseTable(c) + acc == acc;
    } else {
      assert EncodeEntries(c) + rest == EncodeEntry(c[0]) + (EncodeEntries(c[1..]) + rest);
      EntryArrives(c[0], EncodeEntries(c[1..]) + rest);
      EntriesArrive(c[1..], rest, [ReverseEntry(c[0])] + acc);
      assert ReverseTable(c) + acc == ReverseTable(c[1..]) + ([ReverseEntry(c[0])] + acc);
    }
  }

  lemma {:induction false} InfosArrive(files: seq<FileInfo>, rest: seq<Record>, acc: seq<FileInfo>)
    ensures DecodeInfos(|files|, EncodeInfos(files) + rest, acc) == Some((Reverse(files) + acc, rest))
  {
    if files == [] {
      assert EncodeInfos(files) + rest == rest && Reverse(files) + acc == acc;
    } else {
      var s := EncodeInfos(files) + rest;
      assert s[0] == InfoRecord(files[0]) && s[1..] == EncodeInfos(files[1..]) + rest;
      InfosArrive(files[1..], rest, [files[0]] + acc);
      assert Reverse(files) + acc == Reverse(files[1..]) + ([files[0]] + acc);
    }
  }

  lemma {:induction false} EventsArrive(events: seq<Event>, rest: seq<Record>, acc: seq<Event>)
    ensures DecodeEvents(|events|, EncodeEvents(events) + rest, acc) == Some((Reverse(events) + acc, rest))
  {
    if events == [] {
      assert EncodeEvents(events) + rest == rest && Reverse(events) + acc == acc;
    } else {
      var s := EncodeEvents(events) + rest;
      assert s[1..] == [EventRecord(events[0].action)] + (EncodeEvents(events[1..]) + rest);
      EventsArrive(events[1..], rest, [events[0]] + acc);
      assert Reverse(events) + acc == Reverse(events[1..]) + ([events[0]] + acc);
    }
  }

  /** Receiving a sent table consumes exactly its records and yields it reversed. */
  lemma TableArrives(c: seq<Entry>, rest: seq<Record>)
    ensures DecodeTable(EncodeTable(c) + rest) == Some((ReverseTable(c), rest))
  {
    var s := EncodeTable(c) + rest;
    assert s[1..] == EncodeEntries(c) + rest;
    EntriesArrive(c, rest, []);
    assert ReverseTable(c) + [] == ReverseTable(c);
  }

  lemma RegisterArrives(port: int, files: seq<FileInfo>, rest: seq<Record>)
    ensures Decode(Encode(Register(port, files)) + rest) == Some((Register(port, Reverse(files)), rest))
  {
    var s := Encode(Register(port, files)) + rest;
    assert s[0] == HeaderRecord(RegisterKind);
    assert s[1..] == [RegisterRecord(port, |files|)] + (EncodeInfos(files) + rest);
    InfosArrive(files, rest, []);
    assert Reverse(files) + [] == Reverse(files);
  }

  lemma UpdateArrives(events: seq<Event>, rest: seq<Record>)
    ensures Decode(Encode(FileUpdate(events)) + rest) == Some((FileUpdate(Reverse(events)), rest))
  {
    var s := Encode(FileUpdate(events)) + rest;
    assert s[0] == HeaderRecord(FileUpdateKind);
    assert s[1..] == [UpdateRecord(|events|)] + (EncodeEvents(events) + rest);
    EventsArrive(events, rest, []);
    assert Reverse(events) + [] == Reverse(events);
  }

  lemma TableUpdateArrives(c: seq<Entry>, rest: seq<Record>)
    ensures Decode(Encode(TableUpdate(c)) + rest) == Some((TableUpdate(ReverseTable(c)), rest))
  {
    var s := Encode(TableUpdate(c)) + rest;
    assert s[0] == HeaderRecord(TableUpdateKind);
    assert s[1..] == [TableBodyRecord] + (EncodeTable(c) + rest);
    TableArrives(c, rest);
  }

  lemma AckArrives(interval: int, len: int, rest: seq<Record>)
    ensures Decode(Encode(RegisterAck(interval, len)) + rest) == Some((RegisterAck(interval, len), rest))
  {
    var s := Encode(RegisterAck(interval, len)) + rest;
    assert s[0] == HeaderRecord(RegisterAckKind) && s[1..] == [AckRecord(interval, len)] + rest;
  }

  /** Receiving a sent message of any type, whatever follows it. */
  lemma MessageArrives(m: Message, rest: seq<Record>)
    ensures Decode(Encode(m) + rest) == Some((Arrived(m), rest))
  {
    match m
    case Register(port, files) => RegisterArrives(port, files, rest);
    case RegisterAck(interval, len) => AckArrives(interval, len, rest);
    case KeepAlive => assert (Encode(m) + rest)[1..] == rest;
    case Other => assert (Encode(m) + rest)[1..] == rest;
    case TableUpdate(c) => TableUpdateArrives(c, rest);
    case FileUpdate(events) => UpdateArrives(events, rest);
  }

  /** Sent on as it arrived, a message arrives as it was. */
  lemma TwoHops(m: Message)
    ensures Arrived(Arrived(m)) == m
  {
    match m
    case TableUpdate(c) =>
      forall i | 0 <= i < |c|
        ensures ReverseTable(ReverseTable(c))[i] == c[i]
      {
        ReverseTwice(c[i].peers);
      }
      assert ReverseTable(ReverseTable(c)) == c;
    case Register(_, files) => ReverseTwice(files);
    case FileUpdate(events) => ReverseTwice(events);
    case _ =>
  }

  function EncodeAll(ms: seq<Message>): seq<Record> {
    if ms == [] then [] else Encode(ms[0]) + EncodeAll(ms[1..])
  }

  /** Receiving n messages one after the other. */
  function DecodeMany(n: nat, s: seq<Record>): Option<(seq<Message>, seq<Record>)> {
    if n == 0 then Some(([], s))
    else match Decode(s)
         case None => None
         case Some((m, rest)) =>
           match DecodeMany(n - 1, rest)
           case None => None
           case Some((ms, left)) => Some(([m] + ms, left))
  }

  /** A stream of messages of any types is received message by message, in order. */
  lemma {:induction false} StreamArrives(ms: seq<Message>, rest: seq<Record>)
    ensures DecodeMany(|ms|, EncodeAll(ms) + rest) ==
            Some((seq(|ms|, i requires 0 <= i < |ms| => Arrived(ms[i])), rest))
  {
    var all := seq(|ms|, i requires 0 <= i < |ms| => Arrived(ms[i]));
    if ms == [] {
      assert EncodeAll(ms) + rest == rest && all == [];
    } else {
      var tail := ms[1..];
      assert EncodeAll(ms) + rest == Encode(ms[0]) + (EncodeAll(tail) + rest);
      MessageArrives(ms[0], EncodeAll(tail) + rest);
      StreamArrives(tail, rest);
      assert all == [Arrived(ms[0])] + seq(|tail|, i requires 0 <= i < |tail| => Arrived(tail[i]));
    }
  }

  // ---- connections that end in the middle of a message ----

  /** An update of which nothing but the header arrived is received as an empty one. */
  lemma CutOffUpdate()
    ensures Decode([HeaderRecord(FileUpdateKind)]) == Some((FileUpdate([]), []))
    ensures Decode([HeaderRecord(RegisterKind)]) == Some((Register(0, []), []))
    ensures Decode([HeaderRecord(TableUpdateKind)]) == Some((TableUpdate([]), []))
  {
    assert [HeaderRecord(FileUpdateKind)][1..] == [];
    assert [HeaderRecord(RegisterKind)][1..] == [];
    assert [HeaderRecord(TableUpdateKind)][1..] == [];
  }

  /** Entries of which nothing arrived. */
  function Blank(n: nat): seq<Entry> {
    if n == 0 then [] else Blank(n - 1) + [Entry(FileInfo("", 0, 0, false), [])]
  }

  lemma {:induction false} BlankEntries(n: nat, acc: seq<Entry>)
    ensures DecodeEntries(n, [], acc) == Some((Blank(n) + acc, []))
  {
    var zero := Entry(FileInfo("", 0, 0, false), []);
    if n == 0 {
      assert Blank(0) + acc == acc;
    } else {
      assert DecodeEntry([]) == Some((zero, []));
      BlankEntries(n - 1, [zero] + acc);
      assert Blank(n - 1) + ([zero] + acc) == Blank(n) + acc;
    }
  }

  lemma {:induction false} EntriesThenEnd(c: seq<Entry>, missing: nat, acc: seq<Entry>)
    ensures DecodeEntries(|c| + missing, EncodeEntries(c), acc) == Some((Blank(missing) + (ReverseTable(c) + acc), []))
  {
    if c == [] {
      BlankEntries(missing, acc);
      assert ReverseTable(c) + acc == acc;
    } else {
      EntryArrives(c[0], EncodeEntries(c[1..]));
      EntriesThenEnd(c[1..], missing, [ReverseEntry(c[0])] + acc);
      assert ReverseTable(c) + acc == ReverseTable(c[1..]) + ([ReverseEntry(c[0])] + acc);
    }
  }

  /** A table that is cut off after some of its entries is filled up with blank ones. */
  lemma CutOffTable(c: seq<Entry>, missing: nat)
    ensures DecodeTable([TableRecord(|c| + missing)] + EncodeEntries(c)) == Some((Blank(missing) + ReverseTable(c), []))
  {
    var s := [TableRecord(|c| + missing)] + EncodeEntries(c);
    assert s[0] == TableRecord(|c| + missing) && s[1..] == EncodeEntries(c);
    EntriesThenEnd(c, missing, []);
    assert ReverseTable(c) + [] == ReverseTable(c);
  }

  // ---- the counters ----

  lemma {:induction false} DecodedLength(n: nat, s: seq<Record>, acc: seq<Entry>)
    ensures DecodeEntries(n, s, acc).Some? ==> |DecodeEntries(n, s, acc).value.0| == |acc| + n
    decreases n
  {
    if n > 0 && DecodeEntry(s).Some? {
      DecodedLength(n - 1, DecodeEntry(s).value.1, [DecodeEntry(s).value.0] + acc);
    }
  }

  lemma Miscounted(c: seq<Entry>, n: nat, s: seq<Record>)
    requires n != |c| && s != [] && s[0] == TableRecord(n)
    ensures DecodeTable(s).Some? ==> |DecodeTable(s).value.0| != |ReverseTable(c)|
  {
    DecodedLength(n, s[1..], []);
  }

  /** A table sent with some other number in numfiles arrives correctly exactly when that number
      is the length of the list. */
  lemma TableArrivesIffCounted(c: seq<Entry>, n: nat, rest: seq<Record>)
    ensures DecodeTable([TableRecord(n)] + EncodeEntries(c) + rest) == Some((ReverseTable(c), rest)) <==> n == |c|
  {
    if n == |c| {
      TableArrives(c, rest);
    } else {
      Miscounted(c, n, [TableRecord(n)] + EncodeEntries(c) + rest);
    }
  }

  // ---- the table on the other side ----

  /** The received table answers every lookup with the same file and the same set of peers,
      although it is no longer sorted. */
  lemma ArrivedTableAnswers(c: seq<Entry>, path: string)
    requires WellFormed(c)
    ensures Lookup(ReverseTable(c), path) ==
            match Lookup(c, path) case Some(e) => Some(ReverseEntry(e)) case None => None
  {
    var r := ReverseTable(c);
    if Lookup(c, path).None? {
      LookupAbsent(c, path);
      LookupAbsent(r, path);
    } else {
      var i := Find(c, path);
      assert r[|c| - 1 - i].file.path == path;
      LookupAbsent(r, path);
      FindAt(c, |c| - 1 - Find(r, path));
    }
  }

  lemma ArrivedPeersAnswer(c: seq<Entry>, path: string, a: Addr)
    requires WellFormed(c) && Lookup(c, path).Some?
    ensures Lookup(ReverseTable(c), path).Some?
    ensures a in Lookup(ReverseTable(c), path).value.peers <==> a in Lookup(c, path).value.peers
  {
    ArrivedTableAnswers(c, path);
    ReverseMembers(Lookup(c, path).value.peers, a);
  }

  lemma FileAtReverse(files: seq<FileInfo>, path: string)
    requires DistinctPaths(files)
    ensures DistinctPaths(Reverse(files)) && FileAt(Reverse(files), path) == FileAt(files, path)
  {
    var r := FileAt(Reverse(files), path);
    if r.Some? {
      ReverseMembers(files, r.value);
      FileAtMember(files, r.value);
    } else if FileAt(files, path).Some? {
      ReverseMembers(files, FileAt(files, path).value);
    }
  }

  /** Nor does it matter to the table that a registration arrives with its files turned around. */
  lemma ArrivedFilesMerge(c: seq<Entry>, files: seq<FileInfo>, who: Addr)
    requires WellFormed(c) && DistinctPaths(files) && IpFits(who.ip)
    ensures Merge(c, Reverse(files), who) == Merge(c, files, who)
  {
    FileAtReverse(files, "");
    MergeLookup(c, files, who, "");
    MergeLookup(c, Reverse(files), who, "");
    forall path
      ensures Lookup(Merge(c, Reverse(files), who), path) == Lookup(Merge(c, files, who), path)
    {
      FileAtReverse(files, path);
      MergeLookup(c, files, who, path);
      MergeLookup(c, Reverse(files), who, path);
    }
    LookupsDetermine(Merge(c, Reverse(files), who), Merge(c, files, who));
  }
}
