/** Messages of which only a part arrives: recv() then leaves structs zeroed, and what was not
    received is taken to be zeros. */
module WireCuts {
  import opened Sequences
  import opened Table
  import opened Wire

  // ---- what a message becomes if only its first k records arrive ----

  const NO_FILE := FileInfo("", 0, 0, false)
  const NO_ADDR := Addr("", 0)

  function Minus(k: nat, n: nat): nat { if n <= k then k - n else 0 }

  function CutInfos(files: seq<FileInfo>, k: nat): seq<FileInfo> {
    if files == [] then []
    else [if k >= 1 then files[0] else NO_FILE] + CutInfos(files[1..], Minus(k, 1))
  }

  function CutEvents(events: seq<Event>, k: nat): seq<Event> {
    if events == [] then []
    else
      [Event(if k >= 2 then events[0].action else Modified, if k >= 1 then events[0].file else NO_FILE)] +
      CutEvents(events[1..], Minus(k, 2))
  }

  function CutPeers(peers: seq<Addr>, k: nat): seq<Addr> {
    if peers == [] then []
    else [if k >= 1 then peers[0] else NO_ADDR] + CutPeers(peers[1..], Minus(k, 1))
  }

  /** An entry whose count of peers does not arrive has none. */
  function CutEntry(e: Entry, k: nat): Entry {
    Entry(if k >= 2 then e.file else NO_FILE, if k >= 1 then CutPeers(e.peers, Minus(k, 2)) else [])
  }

  function CutEntries(c: seq<Entry>, k: nat): seq<Entry> {
    if c == [] then [] else [CutEntry(c[0], k)] + CutEntries(c[1..], Minus(k, |EncodeEntry(c[0])|))
  }

  function CutTable(c: seq<Entry>, k: nat): seq<Entry> {
    if k == 0 then [] else CutEntries(c, k - 1)
  }

  /** The message as if it had been sent with zeros for what does not arrive; k counts the header. */
  function Cut(m: Message, k: nat): Message
    requires k > 0
  {
    match m
    case Register(port, files) => if k == 1 then Register(0, []) else Register(port, CutInfos(files, k - 2))
    case RegisterAck(interval, len) => if k == 1 then RegisterAck(0, 0) else m
    case KeepAlive => m
    case Other => m
    case TableUpdate(c) => TableUpdate(CutTable(c, Minus(k, 2)))
    case FileUpdate(events) => if k == 1 then FileUpdate([]) else FileUpdate(CutEvents(events, k - 2))
  }

  // ---- what is received ----

  /** The first k records of a list of records that starts with r. */
  lemma TakeFirst(r: Record, rest: seq<Record>, k: nat, zero: Record)
    requires k <= 1 + |rest|
    ensures Take(([r] + rest)[..k], zero) == if k == 0 then (zero, []) else (r, rest[..k - 1])
  {
    var s := ([r] + rest)[..k];
    if k > 0 {
      assert s[0] == r && s[1..] == rest[..k - 1];
    }
  }

  lemma {:induction false} InfosCut(files: seq<FileInfo>, k: nat, acc: seq<FileInfo>)
    requires k <= |EncodeInfos(files)|
    ensures DecodeInfos(|files|, EncodeInfos(files)[..k], acc) == Some((Reverse(CutInfos(files, k)) + acc, []))
  {
    var cut := CutInfos(files, k);
    if files == [] {
      assert Reverse(cut) + acc == acc;
    } else {
      var rest := EncodeInfos(files[1..]);
      TakeFirst(InfoRecord(files[0]), rest, k, ZERO_INFO);
      InfosCut(files[1..], Minus(k, 1), [cut[0]] + acc);
      assert k == 0 ==> rest[..0] == [];
      ReverseFirst(cut);
      assert cut[1..] == CutInfos(files[1..], Minus(k, 1));
      assert Reverse(cut[1..]) + [cut[0]] + acc == Reverse(cut[1..]) + ([cut[0]] + acc);
    }
  }

  lemma {:induction false} PeersCut(peers: seq<Addr>, k: nat, acc: seq<Addr>)
    requires k <= |EncodePeers(peers)|
    ensures DecodePeers(|peers|, EncodePeers(peers)[..k], acc) == Some((Reverse(CutPeers(peers, k)) + acc, []))
  {
    var cut := CutPeers(peers, k);
    if peers == [] {
      assert Reverse(cut) + acc == acc;
    } else {
      var rest := EncodePeers(peers[1..]);
      TakeFirst(AddrRecord(peers[0]), rest, k, ZERO_ADDR);
      PeersCut(peers[1..], Minus(k, 1), [cut[0]] + acc);
      assert k == 0 ==> rest[..0] == [];
      ReverseFirst(cut);
      assert cut[1..] == CutPeers(peers[1..], Minus(k, 1));
      assert Reverse(cut[1..]) + [cut[0]] + acc == Reverse(cut[1..]) + ([cut[0]] + acc);
    }
  }

  lemma {:induction false} EventsCut(events: seq<Event>, k: nat, acc: seq<Event>)
    requires k <= |EncodeEvents(events)|
    ensures DecodeEvents(|events|, EncodeEvents(events)[..k], acc) == Some((Reverse(CutEvents(events, k)) + acc, []))
  {
    var cut := CutEvents(events, k);
    if events == [] {
      assert Reverse(cut) + acc == acc;
    } else {
      var rest := EncodeEvents(events[1..]);
      EventCut(events[0], rest, k);
      EventsCut(events[1..], Minus(k, 2), [cut[0]] + acc);
      ReverseFirst(cut);
      assert cut[1..] == CutEvents(events[1..], Minus(k, 2));
      assert Reverse(cut[1..]) + [cut[0]] + acc == Reverse(cut[1..]) + ([cut[0]] + acc);
    }
  }

  /** The two records of one event. */
  lemma EventCut(e: Event, rest: seq<Record>, k: nat)
    requires k <= 2 + |rest|
    ensures var s := ([InfoRecord(e.file), EventRecord(e.action)] + rest)[..k];
      var (info, s1) := Take(s, ZERO_INFO); var (event, s2) := Take(s1, ZERO_EVENT);
      && info == InfoRecord(if k >= 1 then e.file else NO_FILE)
      && event == EventRecord(if k >= 2 then e.action else Modified)
      && s2 == rest[..Minus(k, 2)]
  {
    var tail := [EventRecord(e.action)] + rest;
    assert [InfoRecord(e.file), EventRecord(e.action)] + rest == [InfoRecord(e.file)] + tail;
    TakeFirst(InfoRecord(e.file), tail, k, ZERO_INFO);
    TakeFirst(EventRecord(e.action), rest, Minus(k, 1), ZERO_EVENT);
    assert rest[..0] == [];
  }

  /** One entry: if it is cut off, nothing is left for the next one. */
  lemma EntryCut(e: Entry, rest: seq<Record>, k: nat)
    requires k <= |EncodeEntry(e)| + |rest|
    ensures DecodeEntry((EncodeEntry(e) + rest)[..k]) ==
            Some((ReverseEntry(CutEntry(e, k)), rest[..Minus(k, |EncodeEntry(e)|)]))
  {
    var n := |EncodeEntry(e)|;
    if n <= k {
      assert (EncodeEntry(e) + rest)[..k] == EncodeEntry(e) + rest[..k - n];
      EntryArrives(e, rest[..k - n]);
      WholeEntry(e, k);
    } else {
      assert (EncodeEntry(e) + rest)[..k] == EncodeEntry(e)[..k] && rest[..0] == [];
      PartOfEntry(e, k);
    }
  }

  lemma PartOfEntry(e: Entry, k: nat)
    requires k < |EncodeEntry(e)|
    ensures DecodeEntry(EncodeEntry(e)[..k]) == Some((ReverseEntry(CutEntry(e, k)), []))
  {
    var peers := EncodePeers(e.peers);
    var tail := [InfoRecord(e.file)] + peers;
    assert EncodeEntry(e) == [EntryRecord(|e.peers|)] + tail;
    TakeFirst(EntryRecord(|e.peers|), tail, k, EntryRecord(0));
    TakeFirst(InfoRecord(e.file), peers, Minus(k, 1), ZERO_INFO);
    if k == 0 {
      assert DecodePeers(0, [], []) == Some(([], []));
      assert Reverse<Addr>([]) == [];
    } else {
      PeersCut(e.peers, Minus(k, 2), []);
      var cut := CutPeers(e.peers, Minus(k, 2));
      assert Reverse(cut) + [] == Reverse(cut);
      assert k == 1 ==> peers[..0] == [];
    }
  }

  lemma {:induction false} WholePeers(peers: seq<Addr>, k: nat)
    requires |peers| <= k
    ensures CutPeers(peers, k) == peers
  {
    if peers == [] {
    } else {
      WholePeers(peers[1..], k - 1);
    }
  }

  lemma {:induction false} PeerRecords(peers: seq<Addr>)
    ensures |EncodePeers(peers)| == |peers|
  {
    if peers == [] {
    } else {
      PeerRecords(peers[1..]);
    }
  }

  lemma WholeEntry(e: Entry, k: nat)
    requires |EncodeEntry(e)| <= k
    ensures CutEntry(e, k) == e
  {
    PeerRecords(e.peers);
    WholePeers(e.peers, k - 2);
  }

  lemma {:induction false} EntriesCut(c: seq<Entry>, k: nat, acc: seq<Entry>)
    requires k <= |EncodeEntries(c)|
    ensures DecodeEntries(|c|, EncodeEntries(c)[..k], acc) == Some((ReverseTable(CutEntries(c, k)) + acc, []))
  {
    var cut := CutEntries(c, k);
    if c == [] {
      assert ReverseTable(cut) + acc == acc;
    } else {
      EntryCut(c[0], EncodeEntries(c[1..]), k);
      EntriesCut(c[1..], Minus(k, |EncodeEntry(c[0])|), [ReverseEntry(cut[0])] + acc);
      assert cut[1..] == CutEntries(c[1..], Minus(k, |EncodeEntry(c[0])|));
      TableReverseFirst(cut);
      assert ReverseTable(cut) + acc == ReverseTable(cut[1..]) + ([ReverseEntry(cut[0])] + acc);
    }
  }

  lemma TableReverseFirst(c: seq<Entry>)
    requires c != []
    ensures ReverseTable(c) == ReverseTable(c[1..]) + [ReverseEntry(c[0])]
  {
  }

  lemma TableCut(c: seq<Entry>, k: nat)
    requires k <= |EncodeTable(c)|
    ensures DecodeTable(EncodeTable(c)[..k]) == Some((ReverseTable(CutTable(c, k)), []))
  {
    TakeFirst(TableRecord(|c|), EncodeEntries(c), k, TableRecord(0));
    if k == 0 {
      assert ReverseTable([]) == [];
    } else {
      EntriesCut(c, k - 1, []);
      var cut := CutEntries(c, k - 1);
      assert ReverseTable(cut) + [] == ReverseTable(cut);
    }
  }

  /** The records after the header, as the body of a message is read from them. */
  lemma AfterHeader(kind: Kind, body: seq<Record>, k: nat)
    requires 0 < k <= 1 + |body|
    ensures Decode(([HeaderRecord(kind)] + body)[..k]) == DecodeBody(kind, body[..k - 1])
  {
    var s := ([HeaderRecord(kind)] + body)[..k];
    assert s[0] == HeaderRecord(kind) && s[1..] == body[..k - 1];
  }

  lemma RegisterCut(port: int, files: seq<FileInfo>, k: nat)
    requires 0 < k <= |Encode(Register(port, files))|
    ensures Decode(Encode(Register(port, files))[..k]) == Some((Arrived(Cut(Register(port, files), k)), []))
  {
    var body := [RegisterRecord(port, |files|)] + EncodeInfos(files);
    assert Encode(Register(port, files)) == [HeaderRecord(RegisterKind)] + body;
    AfterHeader(RegisterKind, body, k);
    RegisterBodyCut(port, files, k - 1);
  }

  lemma RegisterBodyCut(port: int, files: seq<FileInfo>, k: nat)
    requires k <= 1 + |EncodeInfos(files)|
    ensures DecodeBody(RegisterKind, ([RegisterRecord(port, |files|)] + EncodeInfos(files))[..k]) ==
            Some((Arrived(Cut(Register(port, files), k + 1)), []))
  {
    TakeFirst(RegisterRecord(port, |files|), EncodeInfos(files), k, RegisterRecord(0, 0));
    if k == 0 {
      assert Reverse<FileInfo>([]) == [];
    } else {
      InfosCut(files, k - 1, []);
      assert Reverse(CutInfos(files, k - 1)) + [] == Reverse(CutInfos(files, k - 1));
    }
  }

  lemma UpdateCut(events: seq<Event>, k: nat)
    requires 0 < k <= |Encode(FileUpdate(events))|
    ensures Decode(Encode(FileUpdate(events))[..k]) == Some((Arrived(Cut(FileUpdate(events), k)), []))
  {
    var records := EncodeEvents(events);
    var body := [UpdateRecord(|events|)] + records;
    assert Encode(FileUpdate(events)) == [HeaderRecord(FileUpdateKind)] + body;
    AfterHeader(FileUpdateKind, body, k);
    TakeFirst(UpdateRecord(|events|), records, k - 1, UpdateRecord(0));
    if k == 1 {
      assert Reverse<Event>([]) == [];
    } else {
      EventsCut(events, k - 2, []);
      assert Reverse(CutEvents(events, k - 2)) + [] == Reverse(CutEvents(events, k - 2));
    }
  }

  lemma TableUpdateCut(c: seq<Entry>, k: nat)
    requires 0 < k <= |Encode(TableUpdate(c))|
    ensures Decode(Encode(TableUpdate(c))[..k]) == Some((Arrived(Cut(TableUpdate(c), k)), []))
  {
    var table := EncodeTable(c);
    var body := [TableBodyRecord] + table;
    assert Encode(TableUpdate(c)) == [HeaderRecord(TableUpdateKind)] + body;
    AfterHeader(TableUpdateKind, body, k);
    TakeFirst(TableBodyRecord, table, k - 1, TableBodyRecord);
    assert table[..0] == [];
    TableCut(c, Minus(k, 2));
  }

  lemma AckCut(interval: int, len: int, k: nat)
    requires 0 < k <= |Encode(RegisterAck(interval, len))|
    ensures Decode(Encode(RegisterAck(interval, len))[..k]) == Some((Arrived(Cut(RegisterAck(interval, len), k)), []))
  {
    var body := [AckRecord(interval, len)] + [];
    assert Encode(RegisterAck(interval, len)) == [HeaderRecord(RegisterAckKind)] + body;
    AfterHeader(RegisterAckKind, body, k);
    TakeFirst(AckRecord(interval, len), [], k - 1, AckRecord(0, 0));
  }

  lemma NothingCut(m: Message)
    ensures Decode(Encode(m)[..|Encode(m)|]) == Some((Arrived(m), []))
  {
    MessageArrives(m, []);
    assert Encode(m)[..|Encode(m)|] == Encode(m) + [];
  }

  /** Whatever part of a message arrives, if any, it is received as the message that has zeros for
      the rest. */
  lemma CutArrives(m: Message, k: nat)
    requires 0 < k <= |Encode(m)|
    ensures Decode(Encode(m)[..k]) == Some((Arrived(Cut(m, k)), []))
  {
    match m
    case Register(port, files) => RegisterCut(port, files, k);
    case RegisterAck(interval, len) => AckCut(interval, len, k);
    case TableUpdate(c) => TableUpdateCut(c, k);
    case FileUpdate(events) => UpdateCut(events, k);
    case KeepAlive => NothingCut(m);
    case Other => NothingCut(m);
  }

  /** A message is rejected exactly if nothing of it arrives. */
  lemma RejectedIff(m: Message, k: nat)
    requires k <= |Encode(m)|
    ensures Decode(Encode(m)[..k]).None? <==> k == 0
  {
    if k > 0 {
      CutArrives(m, k);
    }
  }

  // ---- when that makes no difference ----

  predicate IsZero(r: Record) {
    match r
    case HeaderRecord(_) => false
    case RegisterRecord(port, n) => port == 0 && n == 0
    case AckRecord(interval, len) => interval == 0 && len == 0
    case UpdateRecord(n) => n == 0
    case TableBodyRecord => true
    case TableRecord(n) => n == 0
    case EntryRecord(n) => n == 0
    case InfoRecord(file) => file == NO_FILE
    case AddrRecord(addr) => addr == NO_ADDR
    case EventRecord(action) => action == Modified
  }

  ghost predicate AllZero(s: seq<Record>) {
    forall i :: 0 <= i < |s| ==> IsZero(s[i])
  }

  lemma AllZeroConcat(s: seq<Record>, t: seq<Record>)
    ensures AllZero(s + t) <==> AllZero(s) && AllZero(t)
  {
    if AllZero(s + t) {
      assert forall i :: 0 <= i < |s| ==> s[i] == (s + t)[i];
      assert forall i :: 0 <= i < |t| ==> t[i] == (s + t)[|s| + i];
    }
  }

  /** What is missing of a list of records that starts with those of s. */
  lemma MissingZero(s: seq<Record>, t: seq<Record>, k: nat)
    requires k <= |s| + |t|
    ensures AllZero((s + t)[k..]) <==> (k <= |s| ==> AllZero(s[k..])) && AllZero(t[Minus(k, |s|)..])
  {
    if k <= |s| {
      assert (s + t)[k..] == s[k..] + t && t[0..] == t;
      AllZeroConcat(s[k..], t);
    } else {
      assert (s + t)[k..] == t[k - |s|..];
    }
  }

  lemma OneZero(r: Record, k: nat)
    requires k <= 1
    ensures AllZero([r][k..]) <==> k == 1 || IsZero(r)
  {
    if k == 0 {
      assert [r][0..] == [r] && [r][0] == r;
    } else {
      assert [r][1..] == [];
    }
  }

  lemma {:induction false} InfosSameIff(files: seq<FileInfo>, k: nat)
    requires k <= |EncodeInfos(files)|
    ensures CutInfos(files, k) == files <==> AllZero(EncodeInfos(files)[k..])
  {
    if files == [] {
    } else {
      var r := InfoRecord(files[0]);
      MissingZero([r], EncodeInfos(files[1..]), k);
      if k <= 1 {
        OneZero(r, k);
      }
      InfosSameIff(files[1..], Minus(k, 1));
      assert files == [files[0]] + files[1..];
    }
  }

  lemma {:induction false} PeersSameIff(peers: seq<Addr>, k: nat)
    requires k <= |EncodePeers(peers)|
    ensures CutPeers(peers, k) == peers <==> AllZero(EncodePeers(peers)[k..])
  {
    if peers == [] {
    } else {
      var r := AddrRecord(peers[0]);
      MissingZero([r], EncodePeers(peers[1..]), k);
      if k <= 1 {
        OneZero(r, k);
      }
      PeersSameIff(peers[1..], Minus(k, 1));
      assert peers == [peers[0]] + peers[1..];
    }
  }

  lemma TwoZeros(q: Record, r: Record, k: nat)
    requires k <= 2
    ensures AllZero([q, r][k..]) <==> (k >= 1 || IsZero(q)) && (k >= 2 || IsZero(r))
  {
    assert [q, r] == [q] + [r];
    MissingZero([q], [r], k);
    OneZero(r, Minus(k, 1));
    if k <= 1 {
      OneZero(q, k);
    }
  }

  lemma {:induction false} EventsSameIff(events: seq<Event>, k: nat)
    requires k <= |EncodeEvents(events)|
    ensures CutEvents(events, k) == events <==> AllZero(EncodeEvents(events)[k..])
  {
    if events == [] {
    } else {
      var q, r := InfoRecord(events[0].file), EventRecord(events[0].action);
      MissingZero([q, r], EncodeEvents(events[1..]), k);
      if k <= 2 {
        TwoZeros(q, r, k);
      }
      EventsSameIff(events[1..], Minus(k, 2));
      assert events == [events[0]] + events[1..];
    }
  }

  lemma EntrySameIff(e: Entry, k: nat)
    requires k <= |EncodeEntry(e)|
    ensures CutEntry(e, k) == e <==> AllZero(EncodeEntry(e)[k..])
  {
    var q, r := EntryRecord(|e.peers|), InfoRecord(e.file);
    MissingZero([q, r], EncodePeers(e.peers), k);
    PeersSameIff(e.peers, Minus(k, 2));
    if k <= 2 {
      TwoZeros(q, r, k);
    }
  }

  lemma {:induction false} EntriesSameIff(c: seq<Entry>, k: nat)
    requires k <= |EncodeEntries(c)|
    ensures CutEntries(c, k) == c <==> AllZero(EncodeEntries(c)[k..])
  {
    if c == [] {
    } else {
      var n := |EncodeEntry(c[0])|;
      MissingZero(EncodeEntry(c[0]), EncodeEntries(c[1..]), k);
      if k <= n {
        EntrySameIff(c[0], k);
      } else {
        WholeEntry(c[0], k);
      }
      EntriesSameIff(c[1..], Minus(k, n));
      assert c == [c[0]] + c[1..];
    }
  }

  /** Two records and then a list. */
  lemma AfterTwo(q: Record, r: Record, list: seq<Record>, k: nat)
    requires 1 <= k <= 2 + |list|
    ensures AllZero(([q, r] + list)[k..]) <==> (k == 1 ==> IsZero(r)) && AllZero(list[Minus(k, 2)..])
  {
    MissingZero([q, r], list, k);
    if k <= 2 {
      TwoZeros(q, r, k);
    }
  }

  lemma TableSameIff(c: seq<Entry>, k: nat)
    requires k <= |EncodeTable(c)|
    ensures CutTable(c, k) == c <==> AllZero(EncodeTable(c)[k..])
  {
    MissingZero([TableRecord(|c|)], EncodeEntries(c), k);
    if k <= 1 {
      OneZero(TableRecord(|c|), k);
    }
    EntriesSameIff(c, Minus(k, 1));
  }

  lemma RegisterSameIff(port: int, files: seq<FileInfo>, k: nat)
    requires 0 < k <= |Encode(Register(port, files))|
    ensures Cut(Register(port, files), k) == Register(port, files) <==> AllZero(Encode(Register(port, files))[k..])
  {
    var body, list := RegisterRecord(port, |files|), EncodeInfos(files);
    AfterTwo(HeaderRecord(RegisterKind), body, list, k);
    if k > 1 {
      InfosSameIff(files, k - 2);
    } else if files == [] {
      assert list[0..] == [];
    } else {
      assert !IsZero(body);
    }
  }

  lemma UpdateSameIff(events: seq<Event>, k: nat)
    requires 0 < k <= |Encode(FileUpdate(events))|
    ensures Cut(FileUpdate(events), k) == FileUpdate(events) <==> AllZero(Encode(FileUpdate(events))[k..])
  {
    var body, list := UpdateRecord(|events|), EncodeEvents(events);
    AfterTwo(HeaderRecord(FileUpdateKind), body, list, k);
    if k > 1 {
      EventsSameIff(events, k - 2);
    } else if events == [] {
      assert list[0..] == [];
    } else {
      assert !IsZero(body);
    }
  }

  lemma SameIff(m: Message, k: nat)
    requires 0 < k <= |Encode(m)|
    ensures Cut(m, k) == m <==> AllZero(Encode(m)[k..])
  {
    match m
    case Register(port, files) =>
      RegisterSameIff(port, files, k);
    case FileUpdate(events) =>
      UpdateSameIff(events, k);
    case TableUpdate(c) =>
      AfterTwo(HeaderRecord(TableUpdateKind), TableBodyRecord, EncodeTable(c), k);
      TableSameIff(c, Minus(k, 2));
    case RegisterAck(interval, len) =>
      TwoZeros(HeaderRecord(RegisterAckKind), AckRecord(interval, len), k);
    case KeepAlive =>
    case Other =>
  }

  /** A message that is cut off is received like the whole one exactly if all that is missing was
      zero. */
  lemma UnnoticedIff(m: Message, k: nat)
    requires 0 < k <= |Encode(m)|
    ensures Decode(Encode(m)[..k]) == Decode(Encode(m)) <==> AllZero(Encode(m)[k..])
  {
    CutArrives(m, k);
    NothingCut(m);
    assert Encode(m)[..|Encode(m)|] == Encode(m);
    SameIff(m, k);
    TwoHops(m);
    TwoHops(Cut(m, k));
  }
}
