/** The queue of file events between the monitor and the thread that reports them
    (monitor/eventqueue.c), and the monitor that fills it. */
module EventQueues {
  import opened CStrings
  import opened Sequences
  import opened Table

  class FileEvent {
    const event: Event
    var next: FileEvent?

    constructor (event: Event, next: FileEvent?)
      ensures this.event == event && this.next == next
    {
      this.event, this.next := event, next;
    }
  }

  ghost function NodeAt(nodes: seq<FileEvent>, i: nat): FileEvent? {
    if i < |nodes| then nodes[i] else null
  }

  /** nodes lists what is reached from head, in order. */
  ghost predicate Chain(head: FileEvent?, nodes: seq<FileEvent>)
    reads nodes
  {
    && head == NodeAt(nodes, 0)
    && (forall i {:trigger nodes[i].next} :: 0 <= i < |nodes| ==> nodes[i].next == NodeAt(nodes, i + 1))
    && (forall i, j :: 0 <= i < j < |nodes| ==> nodes[i] != nodes[j])
  }

  function Events(nodes: seq<FileEvent>): (r: seq<Event>)
    ensures |r| == |nodes| && forall i :: 0 <= i < |nodes| ==> r[i] == nodes[i].event
  {
    seq(|nodes|, i requires 0 <= i < |nodes| => nodes[i].event)
  }

  class EventQueue {
    var head: FileEvent?
    var tail: FileEvent?
    var length: int
    ghost var nodes: seq<FileEvent>

    ghost predicate Valid()
      reads this, nodes
    {
      && Chain(head, nodes)
      && tail == (if nodes == [] then null else NodeAt(nodes, |nodes| - 1))
      && length == |nodes|
    }

    /** eventqueue_init() */
    constructor ()
      ensures Valid() && nodes == []
    {
      head, tail, length, nodes := null, null, 0, [];
    }

    /** eventqueue_add() */
    method Add(event: FileEvent)
      requires Valid() && event !in nodes
      modifies this, event`next, (if tail == null then {} else {tail})`next
      ensures Valid() && nodes == old(nodes) + [event]
    {
      event.next := null;
      if head == null {
        head := event;
        tail := head;
      } else {
        tail.next := event;
        tail := tail.next;
      }
      length := length + 1;
      nodes := nodes + [event];
    }

    /** eventqueue_remove_all() */
    method RemoveAll() returns (tmp: FileEvent?)
      requires Valid()
      modifies this
      ensures Chain(tmp, old(nodes)) && Valid() && nodes == []
    {
      tmp := head;
      head, tail, length := null, null, 0;
      nodes := [];
    }

    /** eventqueue_get_blocking(), once its wait is over: the length it waits for to change is
        the number of events there are. */
    method Get() returns (events: FileEvent?)
      requires Valid() && length != 0
      modifies this
      ensures events != null && Chain(events, old(nodes)) && Valid() && nodes == []
    {
      events := RemoveAll();
    }
  }

  // ---- the monitor ----

  /** What the monitor drops: dotfiles, and what the ignore sets name for this kind of event. */
  predicate Ignored(e: Event, ignoreModify: multiset<string>, ignoreDelete: multiset<string>) {
    || IsDotfile(e.file.path)
    || match e.action
       case Modified => e.file.path in ignoreModify
       case Created => e.file.path in ignoreModify
       case Deleted => e.file.path in ignoreDelete
       case DownloadComplete => false
  }

  function Unignored(events: seq<Event>, ignoreModify: multiset<string>, ignoreDelete: multiset<string>): seq<Event> {
    if events == [] then []
    else
      (if Ignored(events[0], ignoreModify, ignoreDelete) then [] else [events[0]]) +
      Unignored(events[1..], ignoreModify, ignoreDelete)
  }

  /** What is left are all those that are no dotfiles, no creations or changes of a path in the one
      set, and no deletions of a path in the other; each as often as it was there. */
  lemma {:induction false} UnignoredExactly(events: seq<Event>, ignoreModify: multiset<string>,
                                            ignoreDelete: multiset<string>, e: Event)
    ensures multiset(Unignored(events, ignoreModify, ignoreDelete))[e] ==
            if && !IsDotfile(e.file.path)
               && ((e.action.Modified? || e.action.Created?) ==> e.file.path !in ignoreModify)
               && (e.action.Deleted? ==> e.file.path !in ignoreDelete)
            then multiset(events)[e]
            else 0
  {
    if events == [] {
    } else {
      UnignoredExactly(events[1..], ignoreModify, ignoreDelete, e);
      assert events == [events[0]] + events[1..];
    }
  }

  /** The raw events that could be decoded. */
  function Decoded(raw: seq<Option<Event>>): seq<Event> {
    if raw == [] then [] else (if raw[0].Some? then [raw[0].value] else []) + Decoded(raw[1..])
  }

  lemma {:induction false} DecodedExactly(raw: seq<Option<Event>>, e: Event)
    ensures multiset(Decoded(raw))[e] == multiset(raw)[Some(e)]
  {
    if raw == [] {
    } else {
      DecodedExactly(raw[1..], e);
      assert raw == [raw[0]] + raw[1..];
    }
  }

  lemma BatchExactly(raw: seq<Option<Event>>, ignoreModify: multiset<string>, ignoreDelete: multiset<string>, e: Event)
    ensures multiset(Unignored(Reverse(Decoded(raw)), ignoreModify, ignoreDelete))[e] ==
            if && !IsDotfile(e.file.path)
               && ((e.action.Modified? || e.action.Created?) ==> e.file.path !in ignoreModify)
               && (e.action.Deleted? ==> e.file.path !in ignoreDelete)
            then multiset(raw)[Some(e)]
            else 0
  {
    UnignoredExactly(Reverse(Decoded(raw)), ignoreModify, ignoreDelete, e);
    ReverseAll(Decoded(raw));
    DecodedExactly(raw, e);
  }

  /** The directory that an event makes, if any. */
  function NewDirectory(e: Event): seq<string> {
    if e.action.Created? && e.file.isDir then [e.file.path] else []
  }

  function NewDirectories(events: seq<Event>): seq<string> {
    if events == [] then [] else NewDirectory(events[0]) + NewDirectories(events[1..])
  }

  lemma {:induction false} NewDirectoriesAre(raw: seq<Option<Event>>, p: string)
    ensures p in NewDirectories(Decoded(raw)) <==> exists f :: Some(Event(Created, f)) in raw && f.isDir && f.path == p
  {
    if raw == [] {
    } else {
      NewDirectoriesAre(raw[1..], p);
      assert raw == [raw[0]] + raw[1..];
      DecodedFirst(raw);
      if raw[0].Some? && p in NewDirectory(raw[0].value) {
        assert Some(Event(Created, raw[0].value.file)) in raw;
      }
    }
  }

  lemma DecodedFirst(raw: seq<Option<Event>>)
    requires raw != []
    ensures NewDirectories(Decoded(raw)) ==
            (if raw[0].Some? then NewDirectory(raw[0].value) else []) + NewDirectories(Decoded(raw[1..]))
  {
    var rest := Decoded(raw[1..]);
    if raw[0].Some? {
      assert Decoded(raw) == [raw[0].value] + rest && ([raw[0].value] + rest)[1..] == rest;
    } else {
      assert Decoded(raw) == [] + rest == rest;
    }
  }

  /** watch_subdir(), as fileobserver_get_events() calls it; dirs are the directories watched
      below the main one. */
  method WatchSubdir(dirs: seq<string>, e: Event) returns (watched: seq<string>)
    ensures watched == dirs + NewDirectory(e)
  {
    watched := dirs;
    if e.action.Created? && e.file.isDir {
      watched := watched + [e.file.path];
    }
  }

  /** Puts an event that was read at the head of the list. */
  method Prepend(event: Event, head: FileEvent?, ghost nodes: seq<FileEvent>)
    returns (r: FileEvent, ghost nodes': seq<FileEvent>)
    requires Chain(head, nodes)
    ensures fresh(r) && nodes' == [r] + nodes && Chain(r, nodes') && Events(nodes') == [event] + Events(nodes)
  {
    r := new FileEvent(event, head);
    nodes' := [r] + nodes;
  }

  /** The loop of fileobserver_get_events(): what it reads comes out with the latest event first,
      and the new directories get watched. */
  method ObserverGetEvents(raw: seq<Option<Event>>, dirs: seq<string>)
    returns (head: FileEvent?, ghost nodes: seq<FileEvent>, watched: seq<string>)
    ensures Chain(head, nodes) && fresh(nodes) && Events(nodes) == Reverse(Decoded(raw))
    ensures watched == dirs + NewDirectories(Decoded(raw))
  {
    head, nodes, watched := null, [], dirs;
    for i := 0 to |raw|
      invariant Chain(head, nodes) && fresh(nodes)
      invariant Reverse(Decoded(raw)) == Reverse(Decoded(raw[i..])) + Events(nodes)
      invariant dirs + NewDirectories(Decoded(raw)) == watched + NewDirectories(Decoded(raw[i..]))
    {
      ObservedStep(raw, i, Events(nodes));
      WatchedStep(raw, i, watched);
      if raw[i].Some? {
        watched := WatchSubdir(watched, raw[i].value);
        head, nodes := Prepend(raw[i].value, head, nodes);
      }
    }
    assert raw[|raw|..] == [];
  }

  lemma WatchedStep(raw: seq<Option<Event>>, i: nat, watched: seq<string>)
    requires i < |raw|
    ensures watched + NewDirectories(Decoded(raw[i..])) ==
            (if raw[i].Some? then watched + NewDirectory(raw[i].value) else watched) +
            NewDirectories(Decoded(raw[i + 1..]))
  {
    assert raw[i..][0] == raw[i] && raw[i..][1..] == raw[i + 1..];
    var rest := Decoded(raw[i + 1..]);
    if raw[i].Some? {
      var all := [raw[i].value] + rest;
      assert Decoded(raw[i..]) == all && all[1..] == rest;
    } else {
      assert Decoded(raw[i..]) == [] + rest == rest;
    }
  }

  lemma ObservedStep(raw: seq<Option<Event>>, i: nat, done: seq<Event>)
    requires i < |raw|
    ensures Reverse(Decoded(raw[i..])) + done ==
            Reverse(Decoded(raw[i + 1..])) + (if raw[i].Some? then [raw[i].value] + done else done)
  {
    assert raw[i..][0] == raw[i] && raw[i..][1..] == raw[i + 1..];
    var rest := Decoded(raw[i + 1..]);
    if raw[i].Some? {
      assert Decoded(raw[i..]) == [raw[i].value] + rest;
      ReverseFirst([raw[i].value] + rest);
      assert Reverse(rest) + [raw[i].value] + done == Reverse(rest) + ([raw[i].value] + done);
    } else {
      assert Decoded(raw[i..]) == rest;
    }
  }

  class Monitor {
    const queue: EventQueue
    var ignoreModify: multiset<string>
    var ignoreDelete: multiset<string>
    var dirs: seq<string>

    constructor ()
      ensures queue.Valid() && queue.nodes == [] && fresh(queue) && dirs == []
      ensures ignoreModify == multiset{} && ignoreDelete == multiset{}
    {
      queue := new EventQueue();
      ignoreModify, ignoreDelete, dirs := multiset{}, multiset{}, [];
    }

    /** The tests of the loop in monitor_thread(). */
    method Drops(e: Event) returns (r: bool)
      ensures r == Ignored(e, ignoreModify, ignoreDelete)
    {
      if e.file.path != [] && e.file.path[0] == '.' {
        return true;
      }
      match e.action {
        case Modified =>
          return e.file.path in ignoreModify;
        case Created =>
          return e.file.path in ignoreModify;
        case Deleted =>
          return e.file.path in ignoreDelete;
        case _ =>
          return false;
      }
    }

    /** The loop of monitor_thread() over one list of events; queueing an event cuts its link to
        the next one, which is why that is read first. */
    method Enqueue(events: FileEvent?, ghost nodes: seq<FileEvent>)
      requires queue.Valid() && Chain(events, nodes) && forall n :: n in nodes ==> n !in queue.nodes
      modifies queue, queue.nodes, nodes
      ensures queue.Valid() && ignoreModify == old(ignoreModify) && ignoreDelete == old(ignoreDelete)
      ensures Events(queue.nodes) == old(Events(queue.nodes)) + Unignored(Events(nodes), ignoreModify, ignoreDelete)
      ensures forall e :: multiset(Events(queue.nodes))[e] == multiset(old(Events(queue.nodes)))[e] +
                if && !IsDotfile(e.file.path)
                   && ((e.action.Modified? || e.action.Created?) ==> e.file.path !in ignoreModify)
                   && (e.action.Deleted? ==> e.file.path !in ignoreDelete)
                then multiset(Events(nodes))[e]
                else 0
    {
      var event := events;
      ghost var i := 0;
      ghost var q0 := queue.nodes;
      ghost var all := set n <- q0 + nodes;
      while event != null
        invariant 0 <= i <= |nodes| && Pending(event, nodes, i, all)
        invariant Events(queue.nodes) + Unignored(Events(nodes[i..]), ignoreModify, ignoreDelete) ==
                  Events(q0) + Unignored(Events(nodes), ignoreModify, ignoreDelete)
        decreases |nodes| - i
      {
        event := Visit(event, nodes, i, all);
        i := i + 1;
      }
      assert Events(nodes[i..]) == [];
      forall e {
        UnignoredExactly(Events(nodes), ignoreModify, ignoreDelete, e);
      }
    }

    /** The queue is in order and the nodes from i on are still linked; all has both. */
    ghost predicate Pending(event: FileEvent?, nodes: seq<FileEvent>, i: nat, all: set<FileEvent>)
      requires i <= |nodes|
      reads this, queue, queue.nodes, nodes
    {
      && queue.Valid() && Chain(event, nodes[i..])
      && (forall n :: n in queue.nodes ==> n in all) && (forall n :: n in nodes ==> n in all)
      && (forall n :: n in nodes[i..] ==> n !in queue.nodes)
    }

    /** One turn of that loop. */
    method Visit(event: FileEvent, ghost nodes: seq<FileEvent>, ghost i: nat, ghost all: set<FileEvent>)
      returns (tmp: FileEvent?)
      requires i < |nodes| && Pending(event, nodes, i, all)
      modifies queue, all
      ensures Pending(tmp, nodes, i + 1, all)
      ensures ignoreModify == old(ignoreModify) && ignoreDelete == old(ignoreDelete)
      ensures Events(queue.nodes) + Unignored(Events(nodes[i + 1..]), ignoreModify, ignoreDelete) ==
              old(Events(queue.nodes)) + Unignored(Events(nodes[i..]), ignoreModify, ignoreDelete)
    {
      EnqueueStep(nodes, i, queue.nodes, ignoreModify, ignoreDelete);
      ghost var rest := nodes[i..];
      assert rest[1..] == nodes[i + 1..];
      ChainRest(event, rest);
      tmp := event.next;
      var drops := Drops(event.event);
      if !drops {
        assert queue.tail != null ==> queue.tail in queue.nodes;
        queue.Add(event);
      }
    }

    /** The events that the observer has read are queued, the latest first. */
    method QueueObserved(raw: seq<Option<Event>>)
      requires queue.Valid()
      modifies this`dirs, queue, queue.nodes
      ensures queue.Valid()
      ensures Events(queue.nodes) ==
              old(Events(queue.nodes)) + Unignored(Reverse(Decoded(raw)), ignoreModify, ignoreDelete)
      ensures dirs == old(dirs) + NewDirectories(Decoded(raw))
    {
      var head, nodes, watched := ObserverGetEvents(raw, dirs);
      dirs := watched;
      assert forall n :: n in nodes ==> n !in queue.nodes;
      assert Events(nodes) == Reverse(Decoded(raw)) && queue.nodes == old(queue.nodes);
      assert Events(queue.nodes) == old(Events(queue.nodes));
      Enqueue(head, nodes);
    }

    /** One turn of monitor_thread(). */
    method HandleBatch(raw: seq<Option<Event>>)
      requires queue.Valid()
      modifies this`dirs, queue, queue.nodes
      ensures queue.Valid()
      ensures Events(queue.nodes) ==
              old(Events(queue.nodes)) + Unignored(Reverse(Decoded(raw)), ignoreModify, ignoreDelete)
      ensures dirs == old(dirs) + NewDirectories(Decoded(raw))
      ensures forall e :: multiset(Events(queue.nodes))[e] == multiset(old(Events(queue.nodes)))[e] +
                if && !IsDotfile(e.file.path)
                   && ((e.action.Modified? || e.action.Created?) ==> e.file.path !in ignoreModify)
                   && (e.action.Deleted? ==> e.file.path !in ignoreDelete)
                then multiset(raw)[Some(e)]
                else 0
      ensures forall p :: p in dirs <==>
                p in old(dirs) || exists f :: Some(Event(Created, f)) in raw && f.isDir && f.path == p
    {
      QueueObserved(raw);
      forall e {
        BatchExactly(raw, ignoreModify, ignoreDelete, e);
      }
      forall p {
        NewDirectoriesAre(raw, p);
      }
    }
  }

  lemma ChainRest(head: FileEvent?, nodes: seq<FileEvent>)
    requires Chain(head, nodes) && head != null
    ensures Chain(head.next, nodes[1..]) && nodes[0] == head && head !in nodes[1..]
  {
  }

  lemma EnqueueStep(nodes: seq<FileEvent>, i: nat, queued: seq<FileEvent>,
                    ignoreModify: multiset<string>, ignoreDelete: multiset<string>)
    requires i < |nodes|
    ensures Events(queued) + Unignored(Events(nodes[i..]), ignoreModify, ignoreDelete) ==
            (if Ignored(nodes[i].event, ignoreModify, ignoreDelete) then Events(queued)
             else Events(queued + [nodes[i]])) +
            Unignored(Events(nodes[i + 1..]), ignoreModify, ignoreDelete)
  {
    var all := Events(nodes[i..]);
    assert all[0] == nodes[i].event && all[1..] == Events(nodes[i + 1..]);
    assert Events(queued + [nodes[i]]) == Events(queued) + [nodes[i].event];
  }
}
