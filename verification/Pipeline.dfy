/** The way of the file events from the observer to the tracker: the order in which they are
    merged into the table. */
module Pipeline {
  import opened CStrings
  import opened Sequences
  import opened Table
  import opened EventQueues
  import opened Wire
  import opened Messaging

  /** What one call of fileobserver_get_events() reads, and the ignore sets at that time. */
  datatype Batch = Batch(raw: seq<Option<Event>>, ignoreModify: multiset<string>, ignoreDelete: multiset<string>)

  /** The events of a batch that count, in the order in which they happened. */
  function Observed(b: Batch): seq<Event> {
    Unignored(Decoded(b.raw), b.ignoreModify, b.ignoreDelete)
  }

  /** The queue after these batches, starting empty. */
  function Queued(batches: seq<Batch>): seq<Event> {
    if batches == [] then []
    else
      var b := batches[|batches| - 1];
      Queued(batches[..|batches| - 1]) + Unignored(Reverse(Decoded(b.raw)), b.ignoreModify, b.ignoreDelete)
  }

  /** Every event that counts, in the order in which they happened. */
  function Chronological(batches: seq<Batch>): seq<Event> {
    if batches == [] then [] else Observed(batches[0]) + Chronological(batches[1..])
  }

  /** The same with the batches, but not the events in them, turned around. */
  function Delivered(batches: seq<Batch>): seq<Event> {
    if batches == [] then [] else Delivered(batches[1..]) + Observed(batches[0])
  }

  /** The queue of a monitor that has handled these batches since it was last drained. */
  ghost predicate HasHandled(m: Monitor, batches: seq<Batch>)
    reads m, m.queue, m.queue.nodes
  {
    m.queue.Valid() && Events(m.queue.nodes) == Queued(batches)
  }

  /** One turn of monitor_thread(). */
  method HandleBatch(m: Monitor, raw: seq<Option<Event>>, ghost batches: seq<Batch>)
    requires HasHandled(m, batches)
    modifies m`dirs, m.queue, m.queue.nodes
    ensures HasHandled(m, batches + [Batch(raw, m.ignoreModify, m.ignoreDelete)])
  {
    ghost var more := batches + [Batch(raw, m.ignoreModify, m.ignoreDelete)];
    assert more[..|more| - 1] == batches;
    m.HandleBatch(raw);
  }

  /** One turn of read_monitor_thread(): the queue is drained into one message, which arrives as
      the list of Delivered(batches) whatever is sent after it. */
  method Report(m: Monitor, stream: Stream, ghost batches: seq<Batch>)
    requires HasHandled(m, batches) && m.queue.length != 0
    modifies m.queue, stream
    ensures HasHandled(m, [])
    ensures stream.records == old(stream.records) + Encode(FileUpdate(Queued(batches)))
    ensures forall rest ::
              Decode(Encode(FileUpdate(Queued(batches))) + rest) == Some((FileUpdate(Delivered(batches)), rest))
  {
    ghost var nodes := m.queue.nodes;
    var events := m.queue.Get();
    stream.SendFileUpdate(events, nodes);
    forall rest
      ensures Decode(Encode(FileUpdate(Queued(batches))) + rest) == Some((FileUpdate(Delivered(batches)), rest))
    {
      DrainArrives(batches, rest);
    }
  }

  lemma {:induction false} UnignoredConcat(s: seq<Event>, t: seq<Event>, m: multiset<string>, d: multiset<string>)
    ensures Unignored(s + t, m, d) == Unignored(s, m, d) + Unignored(t, m, d)
  {
    if s == [] {
      assert s + t == t;
    } else {
      assert (s + t)[1..] == s[1..] + t;
      UnignoredConcat(s[1..], t, m, d);
    }
  }

  /** Dropping events and turning the list around can be done in either order. */
  lemma {:induction false} UnignoredReverse(s: seq<Event>, m: multiset<string>, d: multiset<string>)
    ensures Unignored(Reverse(s), m, d) == Reverse(Unignored(s, m, d))
  {
    if s == [] {
    } else {
      ReverseFirst(s);
      UnignoredConcat(Reverse(s[1..]), [s[0]], m, d);
      UnignoredReverse(s[1..], m, d);
      var rest := Unignored(s[1..], m, d);
      assert Unignored([s[0]], m, d) == if Ignored(s[0], m, d) then [] else [s[0]];
      if !Ignored(s[0], m, d) {
        ReverseFirst([s[0]] + rest);
      }
    }
  }

  lemma {:induction false} DeliveredLast(batches: seq<Batch>)
    requires batches != []
    ensures Delivered(batches) == Observed(batches[|batches| - 1]) + Delivered(batches[..|batches| - 1])
  {
    if |batches| > 1 {
      DeliveredLast(batches[1..]);
      assert batches[1..][..|batches| - 2] == batches[..|batches| - 1][1..];
    }
  }

  /** The queue read backwards: the last batch first, each batch in the order of its events. */
  lemma {:induction false} QueueBackwards(batches: seq<Batch>)
    ensures Reverse(Queued(batches)) == Delivered(batches)
    decreases |batches|
  {
    if batches == [] {
    } else {
      var n := |batches| - 1;
      var b := batches[n];
      UnignoredReverse(Decoded(b.raw), b.ignoreModify, b.ignoreDelete);
      ReverseTwice(Observed(b));
      ReverseConcat(Queued(batches[..n]), Reverse(Observed(b)));
      QueueBackwards(batches[..n]);
      DeliveredLast(batches);
    }
  }

  /** What the tracker merges after a drain of these batches: the events of the last batch, then
      those of the one before it, and so on, each batch in its own order. */
  lemma DrainArrives(batches: seq<Batch>, rest: seq<Record>)
    ensures Decode(Encode(FileUpdate(Queued(batches))) + rest) == Some((FileUpdate(Delivered(batches)), rest))
  {
    UpdateArrives(Queued(batches), rest);
    QueueBackwards(batches);
  }

  // ---- when the order of events survives ----

  /** At most one batch has events that count. */
  ghost predicate OneBatch(batches: seq<Batch>) {
    forall i, j :: 0 <= i < j < |batches| ==> Observed(batches[i]) == [] || Observed(batches[j]) == []
  }

  ghost predicate AllDistinct(events: seq<Event>) {
    forall i, j :: 0 <= i < j < |events| ==> events[i] != events[j]
  }

  lemma {:induction false} SameEvents(batches: seq<Batch>)
    ensures |Delivered(batches)| == |Chronological(batches)|
    ensures Chronological(batches) == [] <==> forall i :: 0 <= i < |batches| ==> Observed(batches[i]) == []
  {
    if batches == [] {
    } else {
      SameEvents(batches[1..]);
      if forall i :: 0 <= i < |batches[1..]| ==> Observed(batches[1..][i]) == [] {
        assert forall i :: 1 <= i < |batches| ==> batches[i] == batches[1..][i - 1];
      } else {
        var i :| 0 <= i < |batches[1..]| && Observed(batches[1..][i]) != [];
        assert Observed(batches[i + 1]) != [];
      }
    }
  }

  lemma OneBatchTail(batches: seq<Batch>)
    requires batches != []
    ensures OneBatch(batches) <==>
            OneBatch(batches[1..]) && (Observed(batches[0]) == [] || Chronological(batches[1..]) == [])
  {
    var tail := batches[1..];
    SameEvents(tail);
    assert forall i :: 0 <= i < |tail| ==> tail[i] == batches[i + 1];
    if OneBatch(tail) && (Observed(batches[0]) == [] || Chronological(tail) == []) {
      forall i, j | 0 <= i < j < |batches|
        ensures Observed(batches[i]) == [] || Observed(batches[j]) == []
      {
        assert batches[j] == tail[j - 1];
        if i > 0 {
          assert batches[i] == tail[i - 1];
        }
      }
    }
    if OneBatch(batches) && Observed(batches[0]) != [] {
      forall i | 0 <= i < |tail|
        ensures Observed(tail[i]) == []
      {
        assert Observed(batches[i + 1]) == [];
      }
    }
  }

  /** The events of a drain that were all read at once reach the table in the order in which they
      happened. */
  lemma {:induction false} OneBatchChronological(batches: seq<Batch>)
    requires OneBatch(batches)
    ensures Delivered(batches) == Chronological(batches)
  {
    if batches == [] {
    } else {
      var first, tail := Observed(batches[0]), batches[1..];
      OneBatchTail(batches);
      SameEvents(tail);
      OneBatchChronological(tail);
      if first == [] {
        assert Delivered(tail) + first == Delivered(tail) && first + Chronological(tail) == Chronological(tail);
      } else {
        assert Delivered(tail) == Chronological(tail) == [];
      }
    }
  }

  /** If no event occurs twice, they do so exactly then. */
  lemma {:induction false} ChronologicalIff(batches: seq<Batch>)
    requires AllDistinct(Chronological(batches))
    ensures Delivered(batches) == Chronological(batches) <==> OneBatch(batches)
  {
    if batches == [] {
    } else {
      var first, tail := Observed(batches[0]), batches[1..];
      var late, rest := Delivered(tail), Chronological(tail);
      OneBatchTail(batches);
      SameEvents(tail);
      RestDistinct(first, rest);
      ChronologicalIff(tail);
      DeliveredMembers(tail);
      FirstThenRest(first, rest, late);
    }
  }

  /** If one does, two batches can go unnoticed. */
  lemma RepeatedBatch(f: FileInfo)
    requires !IsDotfile(f.path)
    ensures var b := Batch([Some(Event(Modified, f))], multiset{}, multiset{});
      Delivered([b, b]) == Chronological([b, b]) && !OneBatch([b, b])
  {
    var e := Event(Modified, f);
    var b := Batch([Some(e)], multiset{}, multiset{});
    var twice := [b, b];
    ObservedOne(e);
    assert twice[1..] == [b] && [b][1..] == [];
    assert Delivered([b]) == [e] && Chronological([b]) == [e];
    assert twice[0] == twice[1] == b;
  }

  lemma RestDistinct(first: seq<Event>, rest: seq<Event>)
    requires AllDistinct(first + rest)
    ensures AllDistinct(rest)
  {
    assert forall i :: 0 <= i < |rest| ==> rest[i] == (first + rest)[|first| + i];
  }

  lemma FirstThenRest(first: seq<Event>, rest: seq<Event>, late: seq<Event>)
    requires AllDistinct(first + rest) && |late| == |rest| && forall e :: e in late ==> e in rest
    ensures late + first == first + rest <==> late == rest && (first == [] || rest == [])
  {
    if first == [] {
      assert late + first == late && first + rest == rest;
    } else if rest == [] {
      assert late == rest && late + first == first && first + rest == first;
    } else {
      assert late[0] in rest;
      DifferentStart(first, rest, late);
    }
  }

  lemma DifferentStart(first: seq<Event>, rest: seq<Event>, late: seq<Event>)
    requires first != [] && late != [] && late[0] in rest && AllDistinct(first + rest)
    ensures late + first != first + rest
  {
    var k :| 0 <= k < |rest| && rest[k] == late[0];
    assert (first + rest)[0] != (first + rest)[|first| + k];
    assert (late + first)[0] != (first + rest)[0];
  }

  lemma {:induction false} DeliveredMembers(batches: seq<Batch>)
    ensures forall e :: e in Delivered(batches) <==> e in Chronological(batches)
  {
    if batches == [] {
    } else {
      DeliveredMembers(batches[1..]);
    }
  }

  /** A file created and then deleted, in two batches of one drain, stays in the table. */
  lemma DeletionOvertakesCreation(f: FileInfo, who: Addr)
    requires !IsDotfile(f.path) && IpFits(who.ip)
    ensures var batches := [Batch([Some(Event(Created, f))], multiset{}, multiset{}),
                            Batch([Some(Event(Deleted, f))], multiset{}, multiset{})];
      && EventMerge([], Chronological(batches), who) == []
      && EventMerge([], Delivered(batches), who) == [Entry(Normal(f), [who])]
  {
    var c, d := Event(Created, f), Event(Deleted, f);
    var b, b' := Batch([Some(c)], multiset{}, multiset{}), Batch([Some(d)], multiset{}, multiset{});
    var batches := [b, b'];
    ObservedOne(c);
    ObservedOne(d);
    assert batches[1..] == [b'] && [b'][1..] == [];
    assert Chronological([b']) == [d] && Delivered([b']) == [d];
    assert Chronological(batches) == [c, d] && Delivered(batches) == [d, c];
    var one := [Entry(Normal(f), [who])];
    assert Apply([], c, who) == one;
    assert Apply([], d, who) == [];
    assert [c, d][1..] == [d] && [d, c][1..] == [c];
    assert Remove(one, f.path) == [] by {
      assert Find(one, f.path) == 0;
      assert one[..0] + one[1..] == [];
      assert Without(one, f.path) == [];
    }
    MergeTwo([], c, d, who);
    MergeTwo([], d, c, who);
  }

  lemma ObservedOne(e: Event)
    requires !IsDotfile(e.file.path)
    ensures Observed(Batch([Some(e)], multiset{}, multiset{})) == [e]
  {
    var none: multiset<string> := multiset{};
    assert [Some(e)][1..] == [];
    assert Decoded([Some(e)]) == [e] + Decoded([]);
    assert [e][1..] == [];
    assert Unignored([e], none, none) == [e] + Unignored([], none, none);
  }

  lemma MergeTwo(t: seq<Entry>, e: Event, g: Event, who: Addr)
    ensures EventMerge(t, [e, g], who) == Apply(Apply(t, e, who), g, who)
  {
    assert [e, g][1..] == [g] && [g][1..] == [];
    assert EventMerge(Apply(t, e, who), [g], who) == EventMerge(Apply(Apply(t, e, who), g, who), [], who);
  }
}
