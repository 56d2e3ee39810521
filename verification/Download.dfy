/** The threads of one download (upload_download/download.c) as a transition system: one step
    for each critical section or unlocked access of shared memory. */
module Download {
  import opened Segmentation
  import opened Transfer

  /** What is downloaded: the file at the peers, its segments, and numPeers * stream_num. */
  datatype Job = Job(source: seq<Byte>, plan: seq<Segment>, threadCount: nat) {
    ghost predicate Valid() {
      |plan| > 0 && Tiles(plan, |source|)
    }

    function Content(i: nat): seq<Byte>
      requires i < |plan| && 0 <= plan[i].init <= plan[i].End() <= |source|
    {
      source[plan[i].init..plan[i].End()]
    }
  }

  datatype Status = Undownloaded | Downloading | Downloaded

  /** Where a peer thread stands. cur is the segment it has set to Downloading. */
  datatype Pc =
    | Claiming(slot: nat)                                                  // looking for a socket
    | Testing                                                              // at the head of the outer loop
    | Scanning(next: nat)                                                  // about to lock and look at a status
    | Starting(cur: nat)                                                   // entering seg_handler
    | Requesting(cur: nat, init: int, length: int)
    | Receiving(cur: nat, init: int, length: int, asked: Segment)
    | Pushing(cur: nat, init: int, buf: seq<Byte>)
    | Completing(cur: nat)
    | Failing(cur: nat)
    | Marking                                                              // about to set initSeg of segment 0 to -1
    | Ending                                                               // about to send the end marker
    | Leaving                                                              // about to decrement peers[0]
    | Releasing                                                            // about to free the shared state
    | Finished
  {
    predicate Working() {
      Starting? || Requesting? || Receiving? || Pushing? || Completing? || Failing?
    }

    predicate Closing() {
      Marking? || Ending? || Leaving? || Releasing? || Finished?
    }
  }

  /** slot is the entry of peers[] the socket came from, -1 before there is one. */
  datatype Thread = Thread(pc: Pc, sock: int, slot: int)

  /** seg records which segment the chunk belongs to. */
  datatype Chunk = Chunk(seg: nat, init: int, buf: seq<Byte>)

  datatype SaverPc = Checking | Waiting | Writing | Closed

  /** Where the chunk of a segment is: stacked at a position counted from the bottom. */
  datatype Place = Absent | Stacked(pos: nat) | Saved

  datatype State = State(
    slots: seq<int>,          // peers[]
    connected: nat,           // slots filled by download()
    threads: seq<Thread>,     // threads created by download()
    initSeg: seq<int>,        // arr[i]->initSeg
    status: seq<Status>,      // arr[i]->status
    numReceived: nat,
    stack: seq<Chunk>,        // handlingInfo->head is the last element
    saver: SaverPc,
    nWritten: nat,
    disk: seq<Byte>,
    failures: nat,            // how many attempts may still fail
    sockets: seq<int>,        // history: the sockets that download() stored
    holder: seq<nat>,         // history: the thread that claimed the slot
    owner: seq<nat>,          // history: the thread that last took the segment
    place: seq<Place>,        // history: where the chunk of the segment is
    got: seq<nat>,            // history: how many bytes of the segment the last answer had
    requests: seq<Segment>,   // history: the data requests sent
    releases: nat             // history: how often the shared state was freed
  )

  /** What the network does: it works, the call fails, or the peer closes the connection after it
      has sent some of an answer. */
  datatype Net = Fine | Fails | CutShort(n: nat)

  datatype Step =
    | Connect(fd: int)              // download() stores a socket
    | Spawn                         // download() creates a thread
    | Exhaust(t: nat, junk: int)    // a thread runs off the end of peers[] without a socket
    | Advance(t: nat, net: Net)     // a thread makes its next access
    | Save                          // the saver makes its next access

  function Initial(job: Job, failures: nat): State {
    State(seq(job.threadCount, _ => 0), 0, [], seq(|job.plan|, i requires 0 <= i < |job.plan| => job.plan[i].init),
          seq(|job.plan|, _ => Undownloaded), 0, [], Checking, 0, [], failures,
          [], seq(job.threadCount, _ => 0), seq(|job.plan|, _ => 0), seq(|job.plan|, _ => Absent),
          seq(|job.plan|, i requires 0 <= i < |job.plan| => if job.plan[i].length < 0 then 0 else job.plan[i].length),
          [], 0)
  }

  ghost predicate Shape(job: Job, s: State) {
    && |s.slots| == |s.holder| == job.threadCount
    && |s.sockets| == s.connected
    && |s.initSeg| == |s.status| == |s.owner| == |s.place| == |s.got| == |job.plan|
    && |s.threads| <= s.connected <= job.threadCount && s.connected <= |s.threads| + 1
    && (forall t :: 0 <= t < |s.threads| && s.threads[t].pc.Working() ==> s.threads[t].pc.cur < |job.plan|)
  }

  ghost predicate Enabled(job: Job, s: State, step: Step) {
    && Shape(job, s)
    && match step
       // The hypothesis that every connect succeeds.
       case Connect(fd) => fd >= 0 && s.connected == |s.threads| < job.threadCount
       case Spawn => s.connected == |s.threads| + 1
       case Exhaust(t, _) =>
         t < |s.threads| && s.threads[t].pc.Claiming? && s.threads[t].pc.slot >= job.threadCount
       case Advance(t, net) =>
         && t < |s.threads|
         && !s.threads[t].pc.Finished?
         && (s.threads[t].pc.Claiming? ==> s.threads[t].pc.slot < job.threadCount)
         // Only the network calls of seg_handler fail, and finitely often; an answer may be cut short.
         && (match net
             case Fine => true
             case Fails => (s.threads[t].pc.Requesting? || s.threads[t].pc.Receiving?) && s.failures > 0
             case CutShort(_) => s.threads[t].pc.Receiving?)
       case Save => !s.saver.Closed? && (s.saver.Writing? ==> |s.stack| > 0)
  }

  function SetPc(s: State, t: nat, pc: Pc): State
    requires t < |s.threads|
  {
    s.(threads := s.threads[t := s.threads[t].(pc := pc)])
  }

  function Next(job: Job, s: State, step: Step): State
    requires Enabled(job, s, step)
  {
    match step
    case Connect(fd) =>
      s.(slots := s.slots[s.connected := fd], connected := s.connected + 1, sockets := s.sockets + [fd])
    case Spawn => s.(threads := s.threads + [Thread(Claiming(0), -1, -1)])
    case Exhaust(t, junk) => s.(threads := s.threads[t := Thread(Testing, junk, -1)])
    case Advance(t, net) => Advanced(job, s, t, net)
    case Save => SaverStep(job, s)
  }

  /** peer_thread() and seg_handler() */
  function Advanced(job: Job, s: State, t: nat, net: Net): State
    requires Enabled(job, s, Advance(t, net))
  {
    match s.threads[t].pc
    case Claiming(j) =>
      if s.slots[j] >= 0 then
        s.(slots := s.slots[j := -1], threads := s.threads[t := Thread(Testing, s.slots[j], j)],
           holder := s.holder[j := t])
      else
        SetPc(s, t, Claiming(j + 1))
    case Testing => SetPc(s, t, if s.numReceived < |job.plan| then Scanning(0) else Marking)
    case Scanning(next) =>
      if next >= |job.plan| then
        SetPc(s, t, Testing)
      else if s.status[next].Undownloaded? then
        SetPc(s, t, Starting(next)).(status := s.status[next := Downloading], owner := s.owner[next := t])
      else
        SetPc(s, t, Scanning(next + 1))
    case Starting(cur) =>
      SetPc(s, t, if s.threads[t].sock == -1 then Completing(cur)
                  else Requesting(cur, s.initSeg[cur], job.plan[cur].length))
    case Requesting(cur, init, length) =>
      if !net.Fails? then
        var asked := Segment(s.initSeg[cur], job.plan[cur].length);
        SetPc(s, t, Receiving(cur, init, length, asked)).(requests := s.requests + [asked])
      else
        SetPc(s, t, Failing(cur)).(failures := if s.failures > 0 then s.failures - 1 else 0)
    case Receiving(cur, init, length, asked) =>
      if !net.Fails? then
        var answer := if asked.init >= 0 && asked.length >= 0 then Answer(job.source, asked.init, asked.length)
                      else Zeros(if length < 0 then 0 else length);
        var n := if net.CutShort? then net.n else |answer|;
        SetPc(s, t, Pushing(cur, init, Received(answer, n))).(got := s.got[cur := n])
      else
        SetPc(s, t, Failing(cur)).(failures := if s.failures > 0 then s.failures - 1 else 0)
    case Pushing(cur, init, buf) =>
      SetPc(s, t, Completing(cur)).(stack := s.stack + [Chunk(cur, init, buf)],
                                    place := s.place[cur := Stacked(|s.stack|)])
    case Completing(cur) =>
      SetPc(s, t, Scanning(cur + 1)).(status := s.status[cur := Downloaded], numReceived := s.numReceived + 1)
    case Failing(cur) =>
      SetPc(s, t, Testing).(status := s.status[cur := Undownloaded])
    case Marking =>
      SetPc(s, t, Ending).(initSeg := if |s.initSeg| > 0 then s.initSeg[0 := -1] else s.initSeg)
    case Ending => SetPc(s, t, Leaving)
    case Leaving =>
      var left := s.slots[0] - 1;
      SetPc(s, t, if left == -1 * job.threadCount - 1 then Releasing else Finished).(slots := s.slots[0 := left])
    case Releasing => SetPc(s, t, Finished).(releases := s.releases + 1)
  }

  /** file_saver() */
  function SaverStep(job: Job, s: State): State
    requires Enabled(job, s, Save)
  {
    match s.saver
    case Checking => s.(saver := if s.nWritten < |job.plan| then Waiting else Closed)
    case Waiting => if |s.stack| == 0 then s else s.(saver := Writing, nWritten := s.nWritten + 1)
    case Writing =>
      var top := s.stack[|s.stack| - 1];
      s.(saver := Checking,
         stack := s.stack[..|s.stack| - 1],
         disk := if top.init >= 0 then WriteAt(s.disk, top.init, top.buf) else s.disk,
         place := if top.seg < |s.place| then s.place[top.seg := Saved] else s.place)
  }

  /** The steps lead from s to r. */
  ghost predicate Leads(job: Job, s: State, steps: seq<Step>, r: State)
    decreases |steps|
  {
    if steps == [] then r == s
    else Enabled(job, s, steps[0]) && Leads(job, Next(job, s, steps[0]), steps[1..], r)
  }

  ghost predicate Reachable(job: Job, s: State) {
    exists failures: nat, steps: seq<Step> :: Leads(job, Initial(job, failures), steps, s)
  }
}
