/** The inductive invariant of a download and its preservation by every step. */
module DownloadInvariant {
  import opened Counting
  import opened Segmentation
  import opened Transfer
  import opened Download

  predicate HasSlot(h: Thread) { h.slot >= 0 }

  predicate HasLeft(h: Thread) { h.pc.Releasing? || h.pc.Finished? }

  predicate IsReleasing(h: Thread) { h.pc.Releasing? }

  predicate IsDone(x: Status) { x.Downloaded? }

  predicate IsSaved(x: Place) { x.Saved? }

  /** How many threads hold a slot, and how many are through with the shared state. */
  ghost function Claimed(s: State): nat { Count(s.threads, HasSlot) }

  ghost function Left(s: State): nat { Count(s.threads, HasLeft) }

  ghost function ReleasingNow(s: State): nat { Count(s.threads, IsReleasing) }

  /** The claimed slots are a prefix of peers[], each held by one thread. */
  ghost predicate SlotsInv(job: Job, s: State)
    requires Shape(job, s)
  {
    var k := Claimed(s);
    && (forall j :: 0 < j < k ==> s.slots[j] == -1)
    && (k > 0 ==> s.slots[0] == -1 - Left(s))
    && (forall j :: k <= j < s.connected ==> s.slots[j] == s.sockets[j])
    && (forall j :: 0 <= j < s.connected ==> s.sockets[j] >= 0)
    && (forall j :: s.connected <= j < |s.slots| ==> s.slots[j] == 0)
    && k <= s.connected
    && (forall t :: 0 <= t < |s.threads| ==> ThreadSlot(s.threads[t], k))
    && (forall t :: 0 <= t < |s.threads| && HasSlot(s.threads[t]) ==>
          s.threads[t].sock == s.sockets[s.threads[t].slot] && s.holder[s.threads[t].slot] == t)
    && (forall j :: 0 <= j < k ==> s.holder[j] < |s.threads| && s.threads[s.holder[j]].slot == j)
  }

  ghost predicate ThreadSlot(h: Thread, k: nat) {
    if h.pc.Claiming? then h.slot == -1 && h.pc.slot <= k
    else 0 <= h.slot < k
  }

  /** A Downloading segment is being worked on by exactly the thread that took it. */
  ghost predicate OwnersInv(job: Job, s: State)
    requires Shape(job, s)
  {
    && s.numReceived == Count(s.status, IsDone)
    && (forall t :: 0 <= t < |s.threads| && s.threads[t].pc.Working() ==>
          s.status[s.threads[t].pc.cur].Downloading? && s.owner[s.threads[t].pc.cur] == t)
    && (forall i :: 0 <= i < |s.status| && s.status[i].Downloading? ==>
          s.owner[i] < |s.threads| && s.threads[s.owner[i]].pc.Working() && s.threads[s.owner[i]].pc.cur == i)
    && (forall t :: 0 <= t < |s.threads| && s.threads[t].pc.Closing() ==> s.numReceived == |job.plan|)
  }

  /** The chunk of segment i has been pushed. */
  ghost predicate Pushed(s: State, i: nat)
    requires i < |s.status| == |s.owner|
  {
    s.status[i].Downloaded? ||
    (s.status[i].Downloading? && s.owner[i] < |s.threads| && s.threads[s.owner[i]].pc.Completing?)
  }

  ghost predicate PushedInv(job: Job, s: State)
    requires Shape(job, s)
  {
    forall i :: 0 <= i < |s.place| ==> (s.place[i].Absent? <==> !Pushed(s, i))
  }

  ghost predicate StackInv(stack: seq<Chunk>, place: seq<Place>) {
    && (forall p :: 0 <= p < |stack| ==> stack[p].seg < |place| && place[stack[p].seg] == Stacked(p))
    && (forall i :: 0 <= i < |place| && place[i].Stacked? ==>
          place[i].pos < |stack| && stack[place[i].pos].seg == i)
  }

  ghost predicate SaverInv(job: Job, s: State) {
    && s.nWritten == Count(s.place, IsSaved) + (if s.saver.Writing? then 1 else 0)
    && (s.saver.Writing? ==> |s.stack| > 0)
    && (s.saver.Closed? ==> s.nWritten >= |job.plan|)
    && (s.saver.Waiting? ==> s.nWritten < |job.plan|)
  }

  /** The segment with zeros for the bytes that the last answer did not have. */
  ghost function Part(job: Job, got: seq<nat>, i: nat): seq<Byte>
    requires job.Valid() && i < |job.plan| == |got|
  {
    Received(job.Content(i), got[i])
  }

  /** What a thread holds while it is inside seg_handler. */
  ghost predicate InFlight(job: Job, got: seq<nat>, pc: Pc)
    requires job.Valid() && |got| == |job.plan|
  {
    match pc
    case Requesting(cur, init, length) => cur < |job.plan| && Segment(init, length) == job.plan[cur]
    case Receiving(cur, init, length, asked) => cur < |job.plan| && Segment(init, length) == asked == job.plan[cur]
    case Pushing(cur, init, buf) => ChunkRight(job, got, Chunk(cur, init, buf))
    case _ => true
  }

  /** The chunk holds the bytes of its segment that arrived and knows where they go. */
  ghost predicate ChunkRight(job: Job, got: seq<nat>, c: Chunk)
    requires job.Valid() && |got| == |job.plan|
  {
    c.seg < |job.plan| && c.init == job.plan[c.seg].init && c.buf == Part(job, got, c.seg)
  }

  ghost predicate OffsetsInv(job: Job, s: State)
    requires job.Valid() && Shape(job, s)
  {
    && (forall i :: 0 < i < |s.initSeg| ==> s.initSeg[i] == job.plan[i].init)
    && (s.initSeg[0] == job.plan[0].init || s.numReceived == |job.plan|)
    && (forall r :: r in s.requests ==> r in job.plan)
  }

  ghost predicate ThreadDataInv(job: Job, s: State)
    requires job.Valid() && |s.got| == |job.plan|
  {
    forall t :: 0 <= t < |s.threads| ==> InFlight(job, s.got, s.threads[t].pc)
  }

  ghost predicate ChunksInv(job: Job, got: seq<nat>, stack: seq<Chunk>)
    requires job.Valid() && |got| == |job.plan|
  {
    forall p :: 0 <= p < |stack| ==> ChunkRight(job, got, stack[p])
  }

  ghost predicate DiskInv(job: Job, got: seq<nat>, place: seq<Place>, disk: seq<Byte>)
    requires job.Valid() && |got| == |place| == |job.plan|
  {
    && |disk| <= |job.source|
    && (forall i :: 0 <= i < |place| && place[i].Saved? ==> OnDisk(job, got, disk, i))
  }

  ghost predicate OnDisk(job: Job, got: seq<nat>, disk: seq<Byte>, i: nat)
    requires job.Valid() && i < |job.plan| == |got|
  {
    job.plan[i].End() <= |disk| && disk[job.plan[i].init..job.plan[i].End()] == Part(job, got, i)
  }

  /** The shared state is freed, or about to be, exactly when every thread has left. */
  ghost predicate ReleaseInv(job: Job, s: State) {
    ReleasingNow(s) + s.releases == (if Left(s) == job.threadCount && job.threadCount > 0 then 1 else 0)
  }

  ghost predicate Inv(job: Job, s: State) {
    && job.Valid()
    && Shape(job, s)
    && SlotsInv(job, s)
    && OwnersInv(job, s)
    && PushedInv(job, s)
    && StackInv(s.stack, s.place)
    && SaverInv(job, s)
    && OffsetsInv(job, s)
    && ThreadDataInv(job, s)
    && ChunksInv(job, s.got, s.stack)
    && DiskInv(job, s.got, s.place, s.disk)
    && ReleaseInv(job, s)
  }

  lemma InitialInv(job: Job, failures: nat)
    requires job.Valid()
    ensures Inv(job, Initial(job, failures))
  {
    var s := Initial(job, failures);
    CountNone(s.status, IsDone);
    CountNone(s.place, IsSaved);
  }

  /** A thread that is still claiming leaves at least one filled slot unclaimed. */
  lemma ClaimerFindsSlot(job: Job, s: State, t: nat)
    requires Shape(job, s) && SlotsInv(job, s) && t < |s.threads| && s.threads[t].pc.Claiming?
    ensures s.threads[t].pc.slot <= Claimed(s) < s.connected
  {
    CountFull(s.threads, HasSlot);
    assert ThreadSlot(s.threads[t], Claimed(s));
    assert !HasSlot(s.threads[t]);
  }

  /** While some segment is not Downloaded, no thread has begun to close. */
  lemma Unfinished(job: Job, s: State, i: nat)
    requires job.Valid() && Shape(job, s) && OwnersInv(job, s) && i < |s.status| && !s.status[i].Downloaded?
    ensures s.numReceived < |job.plan|
  {
    CountFull(s.status, IsDone);
    assert !IsDone(s.status[i]);
  }

  // ---- download() ----

  lemma ConnectKeeps(job: Job, s: State, fd: int)
    requires Inv(job, s) && Enabled(job, s, Connect(fd))
    ensures Inv(job, Next(job, s, Connect(fd)))
  {
    var s' := Next(job, s, Connect(fd));
    assert forall i :: 0 <= i < |s.status| ==> Pushed(s', i) == Pushed(s, i);
  }

  lemma SpawnKeepsSlots(job: Job, s: State)
    requires Shape(job, s) && SlotsInv(job, s) && ReleaseInv(job, s) && Enabled(job, s, Spawn)
    ensures SlotsInv(job, Next(job, s, Spawn)) && ReleaseInv(job, Next(job, s, Spawn))
  {
    var h := Thread(Claiming(0), -1, -1);
    CountAppend(s.threads, h, HasSlot);
    CountAppend(s.threads, h, HasLeft);
    CountAppend(s.threads, h, IsReleasing);
  }

  /** A thread that is not working yet does not disturb those that are. */
  lemma AppendKeepsOwners(job: Job, s: State, h: Thread, s': State)
    requires Shape(job, s) && OwnersInv(job, s) && Shape(job, s')
    requires s'.threads == s.threads + [h] && !h.pc.Working() && !h.pc.Closing()
    requires s'.status == s.status && s'.owner == s.owner && s'.numReceived == s.numReceived
    ensures OwnersInv(job, s') && forall i :: 0 <= i < |s.status| ==> Pushed(s', i) == Pushed(s, i)
  {
  }

  lemma SpawnKeeps(job: Job, s: State)
    requires Inv(job, s) && Enabled(job, s, Spawn)
    ensures Inv(job, Next(job, s, Spawn))
  {
    SpawnKeepsSlots(job, s);
    AppendKeepsOwners(job, s, Thread(Claiming(0), -1, -1), Next(job, s, Spawn));
  }

  // ---- peer_thread() and seg_handler() ----

  /** How one thread's step moves the three thread counts. */
  lemma ThreadCounts(s: State, t: nat, h: Thread, s': State)
    requires t < |s.threads| && s'.threads == s.threads[t := h]
    ensures Claimed(s') == Claimed(s) - (if HasSlot(s.threads[t]) then 1 else 0) + (if HasSlot(h) then 1 else 0)
    ensures Left(s') == Left(s) - (if HasLeft(s.threads[t]) then 1 else 0) + (if HasLeft(h) then 1 else 0)
    ensures ReleasingNow(s') ==
            ReleasingNow(s) - (if IsReleasing(s.threads[t]) then 1 else 0) + (if IsReleasing(h) then 1 else 0)
  {
    CountUpdate(s.threads, t, h, HasSlot);
    CountUpdate(s.threads, t, h, HasLeft);
    CountUpdate(s.threads, t, h, IsReleasing);
  }

  lemma AdvanceShape(job: Job, s: State, t: nat, net: Net)
    requires Enabled(job, s, Advance(t, net))
    ensures Shape(job, Advanced(job, s, t, net))
    ensures Advanced(job, s, t, net).threads == s.threads[t := Advanced(job, s, t, net).threads[t]]
    ensures Advanced(job, s, t, net).connected == s.connected && Advanced(job, s, t, net).sockets == s.sockets
  {
  }

  /** Claiming slot j, the first one not yet claimed. */
  lemma ClaimSlots(job: Job, s: State, t: nat, j: nat, s': State)
    requires Shape(job, s) && SlotsInv(job, s) && Shape(job, s')
    requires t < |s.threads| && s.threads[t].pc == Claiming(j) && j < |s.slots| && s.slots[j] >= 0
    requires s'.threads == s.threads[t := Thread(Testing, s.slots[j], j)] && s'.slots == s.slots[j := -1]
    requires s'.connected == s.connected && s'.sockets == s.sockets && s'.holder == s.holder[j := t]
    ensures SlotsInv(job, s')
  {
    ThreadCounts(s, t, s'.threads[t], s');
    ClaimerFindsSlot(job, s, t);
    assert j == Claimed(s);
    assert forall u :: 0 <= u < |s.threads| ==> ThreadSlot(s.threads[u], Claimed(s));
    CountSubset(s.threads, HasLeft, HasSlot);
  }

  /** Passing over a slot that is already claimed. */
  lemma PassSlots(job: Job, s: State, t: nat, j: nat, s': State)
    requires Shape(job, s) && SlotsInv(job, s) && Shape(job, s')
    requires t < |s.threads| && s.threads[t].pc == Claiming(j) && j < |s.slots| && s.slots[j] < 0
    requires s'.threads == s.threads[t := s.threads[t].(pc := Claiming(j + 1))] && s'.slots == s.slots
    requires s'.connected == s.connected && s'.sockets == s.sockets && s'.holder == s.holder
    ensures SlotsInv(job, s')
  {
    ThreadCounts(s, t, s'.threads[t], s');
    ClaimerFindsSlot(job, s, t);
    assert ThreadSlot(s.threads[t], Claimed(s));
  }

  /** A step after claiming keeps the slot; only leaving changes peers[0]. */
  lemma LaterSlots(job: Job, s: State, t: nat, pc: Pc, s': State)
    requires Shape(job, s) && SlotsInv(job, s) && Shape(job, s')
    requires t < |s.threads| && !s.threads[t].pc.Claiming? && !pc.Claiming?
    requires s'.threads == s.threads[t := s.threads[t].(pc := pc)] && s'.connected == s.connected
    requires s'.sockets == s.sockets && s'.holder == s.holder
    requires HasLeft(s'.threads[t]) == (HasLeft(s.threads[t]) || s.threads[t].pc.Leaving?)
    requires s'.slots == if s.threads[t].pc.Leaving? then s.slots[0 := s.slots[0] - 1] else s.slots
    ensures SlotsInv(job, s')
  {
    ThreadCounts(s, t, s'.threads[t], s');
    assert ThreadSlot(s.threads[t], Claimed(s));
  }

  lemma AdvanceSlots(job: Job, s: State, t: nat, net: Net)
    requires Enabled(job, s, Advance(t, net)) && SlotsInv(job, s)
    ensures Shape(job, Advanced(job, s, t, net)) && SlotsInv(job, Advanced(job, s, t, net))
  {
    var s' := Advanced(job, s, t, net);
    AdvanceShape(job, s, t, net);
    var pc := s.threads[t].pc;
    if pc.Claiming? {
      ClaimingSlots(job, s, t, net);
    } else {
      LaterSlots(job, s, t, s'.threads[t].pc, s');
    }
  }

  lemma ClaimingSlots(job: Job, s: State, t: nat, net: Net)
    requires Enabled(job, s, Advance(t, net)) && SlotsInv(job, s) && s.threads[t].pc.Claiming?
    ensures Shape(job, Advanced(job, s, t, net)) && SlotsInv(job, Advanced(job, s, t, net))
  {
    var s', slot := Advanced(job, s, t, net), s.threads[t].pc.slot;
    AdvanceShape(job, s, t, net);
    if s.slots[slot] >= 0 {
      ClaimSlots(job, s, t, slot, s');
    } else {
      PassSlots(job, s, t, slot, s');
    }
  }

  /** A step that gives segment i a new status, which only its worker may do once it is taken. */
  lemma StatusChange(job: Job, s: State, t: nat, h: Thread, i: nat, x: Status, s': State)
    requires job.Valid() && Shape(job, s) && Shape(job, s') && OwnersInv(job, s)
    requires t < |s.threads| && s'.threads == s.threads[t := h] && !h.pc.Closing()
    requires i < |s.status| && !s.status[i].Downloaded? && s'.status == s.status[i := x]
    requires s'.numReceived == s.numReceived + (if x.Downloaded? then 1 else 0)
    requires s.threads[t].pc.Working() ==> s.threads[t].pc.cur == i
    requires s.status[i].Downloading? ==> s.threads[t].pc.Working()
    requires h.pc.Working() == x.Downloading? && (h.pc.Working() ==> h.pc.cur == i)
    requires s'.owner == s.owner[i := if x.Downloading? then t else s.owner[i]]
    ensures OwnersInv(job, s')
  {
    Unfinished(job, s, i);
    CountUpdate(s.status, i, x, IsDone);
  }

  /** A step that leaves the segments alone keeps what its thread is working on. */
  lemma OwnersFrame(job: Job, s: State, t: nat, h: Thread, s': State)
    requires Shape(job, s) && OwnersInv(job, s) && Shape(job, s')
    requires t < |s.threads| && s'.threads == s.threads[t := h]
    requires s'.status == s.status && s'.owner == s.owner && s'.numReceived == s.numReceived
    requires h.pc.Working() == s.threads[t].pc.Working() && (h.pc.Working() ==> h.pc.cur == s.threads[t].pc.cur)
    requires h.pc.Closing() ==> s.numReceived == |job.plan|
    ensures OwnersInv(job, s')
  {
  }

  lemma AdvanceOwners(job: Job, s: State, t: nat, net: Net)
    requires job.Valid() && Enabled(job, s, Advance(t, net)) && OwnersInv(job, s)
    ensures Shape(job, Advanced(job, s, t, net)) && OwnersInv(job, Advanced(job, s, t, net))
  {
    var s' := Advanced(job, s, t, net);
    AdvanceShape(job, s, t, net);
    var pc := s.threads[t].pc;
    if pc.Completing? || pc.Failing? {
      StatusChange(job, s, t, s'.threads[t], pc.cur, s'.status[pc.cur], s');
    } else if pc.Scanning? && pc.next < |job.plan| && s.status[pc.next].Undownloaded? {
      StatusChange(job, s, t, s'.threads[t], pc.next, s'.status[pc.next], s');
    } else {
      OwnersFrame(job, s, t, s'.threads[t], s');
    }
  }

  lemma PushedFrame(job: Job, s: State, t: nat, h: Thread, s': State)
    requires Shape(job, s) && OwnersInv(job, s) && PushedInv(job, s) && Shape(job, s')
    requires t < |s.threads| && s'.threads == s.threads[t := h]
    requires s'.status == s.status && s'.owner == s.owner && s'.place == s.place
    requires h.pc.Completing? == s.threads[t].pc.Completing?
    ensures PushedInv(job, s')
  {
    assert forall i :: 0 <= i < |s.place| ==> Pushed(s', i) == Pushed(s, i);
  }

  /** The steps that change the status or the chunk of a segment. */
  lemma PushedChange(job: Job, s: State, t: nat, net: Net, i: nat)
    requires Enabled(job, s, Advance(t, net)) && OwnersInv(job, s) && PushedInv(job, s) && i < |s.status|
    requires var pc := s.threads[t].pc;
      || ((pc.Pushing? || pc.Completing? || pc.Failing?) && i == pc.cur)
      || (pc.Scanning? && i == pc.next && s.status[i].Undownloaded?)
    ensures Shape(job, Advanced(job, s, t, net)) && PushedInv(job, Advanced(job, s, t, net))
  {
    var s' := Advanced(job, s, t, net);
    AdvanceShape(job, s, t, net);
    forall k | 0 <= k < |s.place| && k != i
      ensures Pushed(s', k) == Pushed(s, k)
    {
    }
  }

  lemma AdvancePushed(job: Job, s: State, t: nat, net: Net)
    requires Enabled(job, s, Advance(t, net)) && SlotsInv(job, s) && OwnersInv(job, s) && PushedInv(job, s)
    ensures Shape(job, Advanced(job, s, t, net)) && PushedInv(job, Advanced(job, s, t, net))
  {
    var s' := Advanced(job, s, t, net);
    AdvanceShape(job, s, t, net);
    var pc := s.threads[t].pc;
    if pc.Pushing? || pc.Completing? || pc.Failing? {
      PushedChange(job, s, t, net, pc.cur);
    } else if pc.Scanning? && pc.next < |job.plan| && s.status[pc.next].Undownloaded? {
      PushedChange(job, s, t, net, pc.next);
    } else {
      assert ThreadSlot(s.threads[t], Claimed(s));
      PushedFrame(job, s, t, s'.threads[t], s');
    }
  }

  lemma PushStack(stack: seq<Chunk>, place: seq<Place>, c: Chunk)
    requires StackInv(stack, place) && c.seg < |place| && place[c.seg].Absent?
    ensures StackInv(stack + [c], place[c.seg := Stacked(|stack|)])
    ensures Count(place[c.seg := Stacked(|stack|)], IsSaved) == Count(place, IsSaved)
  {
    CountUpdate(place, c.seg, Stacked(|stack|), IsSaved);
  }

  lemma QueueEffect(job: Job, s: State, t: nat, net: Net)
    requires Enabled(job, s, Advance(t, net))
    ensures var s' := Advanced(job, s, t, net); var pc := s.threads[t].pc;
      && s'.saver == s.saver && s'.nWritten == s.nWritten && s'.disk == s.disk
      && s'.stack == (if pc.Pushing? then s.stack + [Chunk(pc.cur, pc.init, pc.buf)] else s.stack)
      && s'.place == (if pc.Pushing? then s.place[pc.cur := Stacked(|s.stack|)] else s.place)
  {
  }

  lemma AdvanceStack(job: Job, s: State, t: nat, net: Net)
    requires Enabled(job, s, Advance(t, net)) && OwnersInv(job, s) && PushedInv(job, s)
    requires StackInv(s.stack, s.place) && SaverInv(job, s)
    ensures StackInv(Advanced(job, s, t, net).stack, Advanced(job, s, t, net).place)
    ensures SaverInv(job, Advanced(job, s, t, net))
  {
    QueueEffect(job, s, t, net);
    var pc := s.threads[t].pc;
    if pc.Pushing? {
      assert !Pushed(s, pc.cur) && s.place[pc.cur].Absent?;
      PushStack(s.stack, s.place, Chunk(pc.cur, pc.init, pc.buf));
    }
  }

  lemma OffsetsEffect(job: Job, s: State, t: nat, net: Net)
    requires Enabled(job, s, Advance(t, net)) && |job.plan| > 0
    ensures var s' := Advanced(job, s, t, net); var pc := s.threads[t].pc;
      && s'.initSeg == (if pc.Marking? then s.initSeg[0 := -1] else s.initSeg)
      && s'.numReceived == s.numReceived + (if pc.Completing? then 1 else 0)
      && s'.requests == (if pc.Requesting? && !net.Fails?
                         then s.requests + [Segment(s.initSeg[pc.cur], job.plan[pc.cur].length)] else s.requests)
  {
  }

  /** A thread inside seg_handler reads the right offset: the end marker is not there yet. */
  lemma WorkerReads(job: Job, s: State, t: nat)
    requires job.Valid() && Shape(job, s) && OwnersInv(job, s) && OffsetsInv(job, s)
    requires t < |s.threads| && s.threads[t].pc.Working()
    ensures var cur := s.threads[t].pc.cur;
      s.numReceived < |job.plan| && Segment(s.initSeg[cur], job.plan[cur].length) == job.plan[cur]
  {
    Unfinished(job, s, s.threads[t].pc.cur);
  }

  lemma AdvanceOffsets(job: Job, s: State, t: nat, net: Net)
    requires job.Valid() && Enabled(job, s, Advance(t, net)) && OwnersInv(job, s) && OffsetsInv(job, s)
    ensures Shape(job, Advanced(job, s, t, net)) && OffsetsInv(job, Advanced(job, s, t, net))
  {
    AdvanceShape(job, s, t, net);
    OffsetsEffect(job, s, t, net);
    if s.threads[t].pc.Working() {
      WorkerReads(job, s, t);
    }
  }

  /** What a step does to the history of the answers. */
  lemma GotEffect(job: Job, s: State, t: nat, net: Net)
    requires job.Valid() && Enabled(job, s, Advance(t, net)) && InFlight(job, s.got, s.threads[t].pc)
    ensures var s' := Advanced(job, s, t, net); var pc := s.threads[t].pc;
      if pc.Receiving? && !net.Fails? then
        var n := if net.CutShort? then net.n else job.plan[pc.cur].length;
        && s'.got == s.got[pc.cur := n]
        && s'.threads[t].pc == Pushing(pc.cur, pc.init, Received(job.Content(pc.cur), n))
      else s'.got == s.got
  {
    var pc := s.threads[t].pc;
    if pc.Receiving? {
      AnswerInside(job.source, job.plan[pc.cur].init, job.plan[pc.cur].length);
    }
  }

  lemma AdvanceInFlight(job: Job, s: State, t: nat, net: Net)
    requires job.Valid() && Enabled(job, s, Advance(t, net)) && OwnersInv(job, s) && OffsetsInv(job, s)
    requires InFlight(job, s.got, s.threads[t].pc)
    ensures |Advanced(job, s, t, net).got| == |job.plan|
    ensures InFlight(job, Advanced(job, s, t, net).got, Advanced(job, s, t, net).threads[t].pc)
  {
    var pc := s.threads[t].pc;
    GotEffect(job, s, t, net);
    if pc.Working() {
      WorkerReads(job, s, t);
    }
  }

  /** Only a segment of which nothing has been pushed gets a new answer. */
  lemma AnsweredIsAbsent(job: Job, s: State, t: nat)
    requires job.Valid() && Shape(job, s) && OwnersInv(job, s) && PushedInv(job, s)
    requires t < |s.threads| && s.threads[t].pc.Receiving?
    ensures s.place[s.threads[t].pc.cur].Absent?
  {
    assert !Pushed(s, s.threads[t].pc.cur);
  }

  /** The other threads' chunks do not depend on it. */
  lemma OthersInFlight(job: Job, s: State, t: nat, got: seq<nat>, u: nat)
    requires job.Valid() && Shape(job, s) && OwnersInv(job, s) && ThreadDataInv(job, s)
    requires t < |s.threads| && u < |s.threads| && u != t && |got| == |job.plan|
    requires forall i :: 0 <= i < |got| && got[i] != s.got[i] ==> s.threads[t].pc.Working() && i == s.threads[t].pc.cur
    ensures InFlight(job, got, s.threads[u].pc)
  {
    assert InFlight(job, s.got, s.threads[u].pc);
    if s.threads[u].pc.Pushing? {
      assert got[s.threads[u].pc.cur] == s.got[s.threads[u].pc.cur];
    }
  }

  lemma AdvanceThreadData(job: Job, s: State, t: nat, net: Net)
    requires job.Valid() && Enabled(job, s, Advance(t, net)) && OwnersInv(job, s)
    requires OffsetsInv(job, s) && ThreadDataInv(job, s)
    ensures |Advanced(job, s, t, net).got| == |job.plan| && ThreadDataInv(job, Advanced(job, s, t, net))
  {
    var s' := Advanced(job, s, t, net);
    AdvanceShape(job, s, t, net);
    assert InFlight(job, s.got, s.threads[t].pc);
    GotEffect(job, s, t, net);
    AdvanceInFlight(job, s, t, net);
    forall u | 0 <= u < |s.threads| && u != t
      ensures InFlight(job, s'.got, s'.threads[u].pc)
    {
      OthersInFlight(job, s, t, s'.got, u);
    }
  }

  /** Neither do the chunks on the stack and on disk. */
  lemma AnsweredKeeps(job: Job, s: State, cur: nat, n: nat)
    requires job.Valid() && Shape(job, s) && cur < |job.plan| && s.place[cur].Absent?
    requires StackInv(s.stack, s.place) && ChunksInv(job, s.got, s.stack) && DiskInv(job, s.got, s.place, s.disk)
    ensures ChunksInv(job, s.got[cur := n], s.stack) && DiskInv(job, s.got[cur := n], s.place, s.disk)
  {
    var got := s.got[cur := n];
    forall p | 0 <= p < |s.stack|
      ensures ChunkRight(job, got, s.stack[p])
    {
      assert ChunkRight(job, s.got, s.stack[p]) && s.stack[p].seg != cur;
    }
    forall i | 0 <= i < |s.place| && s.place[i].Saved?
      ensures OnDisk(job, got, s.disk, i)
    {
      assert OnDisk(job, s.got, s.disk, i);
    }
  }

  lemma PushedData(job: Job, s: State, c: Chunk)
    requires job.Valid() && Shape(job, s) && ChunkRight(job, s.got, c)
    requires ChunksInv(job, s.got, s.stack) && DiskInv(job, s.got, s.place, s.disk)
    ensures ChunksInv(job, s.got, s.stack + [c])
    ensures DiskInv(job, s.got, s.place[c.seg := Stacked(|s.stack|)], s.disk)
  {
  }

  lemma AdvanceData(job: Job, s: State, t: nat, net: Net)
    requires job.Valid() && Enabled(job, s, Advance(t, net)) && OwnersInv(job, s) && PushedInv(job, s)
    requires InFlight(job, s.got, s.threads[t].pc)
    requires StackInv(s.stack, s.place) && ChunksInv(job, s.got, s.stack) && DiskInv(job, s.got, s.place, s.disk)
    ensures var s' := Advanced(job, s, t, net);
      && |s'.got| == |s'.place| == |job.plan|
      && ChunksInv(job, s'.got, s'.stack) && DiskInv(job, s'.got, s'.place, s'.disk)
  {
    var pc := s.threads[t].pc;
    GotEffect(job, s, t, net);
    QueueEffect(job, s, t, net);
    if pc.Receiving? {
      AnsweredIsAbsent(job, s, t);
      AnsweredKeeps(job, s, pc.cur, Advanced(job, s, t, net).got[pc.cur]);
    } else if pc.Pushing? {
      PushedData(job, s, Chunk(pc.cur, pc.init, pc.buf));
    }
  }

  /** The thread that makes the count of leavers complete is the one that releases. */
  lemma ReleaseStep(job: Job, s: State, t: nat, h: Thread, s': State)
    requires Shape(job, s) && SlotsInv(job, s) && ReleaseInv(job, s) && t < |s.threads|
    requires s'.threads == s.threads[t := h]
    requires s'.releases == s.releases + (if IsReleasing(s.threads[t]) then 1 else 0)
    requires HasLeft(h) == (HasLeft(s.threads[t]) || s.threads[t].pc.Leaving?)
    requires IsReleasing(h) == (s.threads[t].pc.Leaving? && s.slots[0] - 1 == -1 * job.threadCount - 1)
    ensures ReleaseInv(job, s')
  {
    ThreadCounts(s, t, h, s');
    CountFull(s.threads, HasLeft);
    assert ThreadSlot(s.threads[t], Claimed(s));
  }

  lemma AdvanceRelease(job: Job, s: State, t: nat, net: Net)
    requires Enabled(job, s, Advance(t, net)) && SlotsInv(job, s) && ReleaseInv(job, s)
    ensures ReleaseInv(job, Advanced(job, s, t, net))
  {
    var s' := Advanced(job, s, t, net);
    AdvanceShape(job, s, t, net);
    ReleaseStep(job, s, t, s'.threads[t], s');
  }

  lemma AdvanceKeeps(job: Job, s: State, t: nat, net: Net)
    requires Inv(job, s) && Enabled(job, s, Advance(t, net))
    ensures Inv(job, Advanced(job, s, t, net))
  {
    AdvanceSlots(job, s, t, net);
    AdvanceOwners(job, s, t, net);
    AdvancePushed(job, s, t, net);
    AdvanceStack(job, s, t, net);
    AdvanceOffsets(job, s, t, net);
    AdvanceThreadData(job, s, t, net);
    assert InFlight(job, s.got, s.threads[t].pc);
    AdvanceData(job, s, t, net);
    AdvanceRelease(job, s, t, net);
  }

  // ---- file_saver() ----

  /** Saving a chunk leaves the other segments on disk alone. */
  lemma WriteKeepsOthers(job: Job, got: seq<nat>, disk: seq<Byte>, c: Chunk, i: nat)
    requires job.Valid() && |got| == |job.plan| && ChunkRight(job, got, c)
    requires i < |job.plan| && i != c.seg && OnDisk(job, got, disk, i)
    ensures OnDisk(job, got, WriteAt(disk, c.init, c.buf), i)
  {
    if i < c.seg {
      TilesOrdered(job.plan, |job.source|, i, c.seg);
    } else {
      TilesOrdered(job.plan, |job.source|, c.seg, i);
    }
    WriteElsewhere(disk, c.init, c.buf, job.plan[i].init, job.plan[i].End());
  }

  lemma WriteKeepsDisk(job: Job, got: seq<nat>, place: seq<Place>, disk: seq<Byte>, c: Chunk)
    requires job.Valid() && |got| == |place| == |job.plan|
    requires DiskInv(job, got, place, disk) && ChunkRight(job, got, c)
    ensures DiskInv(job, got, place[c.seg := Saved], WriteAt(disk, c.init, c.buf))
  {
    forall i | 0 <= i < |place| && place[c.seg := Saved][i].Saved?
      ensures OnDisk(job, got, WriteAt(disk, c.init, c.buf), i)
    {
      if i != c.seg {
        WriteKeepsOthers(job, got, disk, c, i);
      }
    }
  }

  lemma PopKeepsStack(stack: seq<Chunk>, place: seq<Place>)
    requires StackInv(stack, place) && |stack| > 0
    ensures var top := stack[|stack| - 1];
      top.seg < |place| && place[top.seg].Stacked? && StackInv(stack[..|stack| - 1], place[top.seg := Saved])
  {
    var top := stack[|stack| - 1];
    forall i | 0 <= i < |place| && i != top.seg && place[i].Stacked?
      ensures place[i].pos < |stack| - 1
    {
      assert stack[place[i].pos].seg == i;
    }
  }

  lemma SaveTop(job: Job, s: State)
    requires job.Valid() && Shape(job, s) && Enabled(job, s, Save) && s.saver.Writing?
    requires StackInv(s.stack, s.place) && SaverInv(job, s)
    requires ChunksInv(job, s.got, s.stack) && DiskInv(job, s.got, s.place, s.disk)
    ensures var s' := SaverStep(job, s);
      && |s'.place| == |job.plan| && s'.got == s.got
      && StackInv(s'.stack, s'.place) && SaverInv(job, s') && ChunksInv(job, s'.got, s'.stack)
      && DiskInv(job, s'.got, s'.place, s'.disk)
  {
    var top := s.stack[|s.stack| - 1];
    assert ChunkRight(job, s.got, top);
    PopKeepsStack(s.stack, s.place);
    CountUpdate(s.place, top.seg, Saved, IsSaved);
    WriteKeepsDisk(job, s.got, s.place, s.disk, top);
  }

  /** What the peer threads share with each other. */
  lemma SharedFrame(job: Job, s: State, s': State)
    requires Inv(job, s) && |s'.place| == |s.place|
    requires s'.threads == s.threads && s'.slots == s.slots && s'.connected == s.connected
    requires s'.sockets == s.sockets && s'.holder == s.holder && s'.owner == s.owner
    requires s'.status == s.status && s'.numReceived == s.numReceived && s'.initSeg == s.initSeg
    requires s'.requests == s.requests && s'.releases == s.releases && s'.got == s.got
    ensures Shape(job, s') && SlotsInv(job, s') && OwnersInv(job, s') && OffsetsInv(job, s')
    ensures ThreadDataInv(job, s') && ReleaseInv(job, s')
    ensures forall i :: 0 <= i < |s.status| ==> Pushed(s', i) == Pushed(s, i)
  {
  }

  /** The saver leaves what the peer threads share with each other alone. */
  lemma SaveFrame(job: Job, s: State)
    requires Inv(job, s) && Enabled(job, s, Save)
    ensures var s' := SaverStep(job, s);
      && Shape(job, s') && SlotsInv(job, s') && OwnersInv(job, s') && OffsetsInv(job, s')
      && ThreadDataInv(job, s') && ReleaseInv(job, s')
      && (forall i :: 0 <= i < |s.status| ==> Pushed(s', i) == Pushed(s, i))
  {
    SharedFrame(job, s, SaverStep(job, s));
  }

  lemma PushedStays(job: Job, s: State, s': State)
    requires Shape(job, s) && Shape(job, s') && PushedInv(job, s)
    requires forall i :: 0 <= i < |s.status| ==> Pushed(s', i) == Pushed(s, i)
    requires forall i :: 0 <= i < |s.place| ==> s'.place[i].Absent? == s.place[i].Absent?
    ensures PushedInv(job, s')
  {
  }

  /** The saver takes a chunk off the stack and writes it. */
  lemma WriteKeeps(job: Job, s: State)
    requires Inv(job, s) && Enabled(job, s, Save) && s.saver.Writing?
    ensures Inv(job, SaverStep(job, s))
  {
    SaveFrame(job, s);
    SaveTop(job, s);
    PopKeepsStack(s.stack, s.place);
    PushedStays(job, s, SaverStep(job, s));
  }

  /** The saver looks at its counter or at the stack. */
  lemma LookKeeps(job: Job, s: State)
    requires Inv(job, s) && Enabled(job, s, Save) && !s.saver.Writing?
    ensures Inv(job, SaverStep(job, s))
  {
    SaveFrame(job, s);
    PushedStays(job, s, SaverStep(job, s));
  }

  lemma SaveKeeps(job: Job, s: State)
    requires Inv(job, s) && Enabled(job, s, Save)
    ensures Inv(job, SaverStep(job, s))
  {
    if s.saver.Writing? {
      WriteKeeps(job, s);
    } else {
      LookKeeps(job, s);
    }
  }

  // ---- runs ----

  /** Every step keeps the invariant. */
  lemma NextKeeps(job: Job, s: State, step: Step)
    requires Inv(job, s) && Enabled(job, s, step)
    ensures Inv(job, Next(job, s, step))
  {
    match step
    case Connect(fd) => ConnectKeeps(job, s, fd);
    case Spawn => SpawnKeeps(job, s);
    case Exhaust(t, junk) => ClaimerFindsSlot(job, s, t);
    case Advance(t, net) => AdvanceKeeps(job, s, t, net);
    case Save => SaveKeeps(job, s);
  }

  lemma {:induction false} LeadsKeeps(job: Job, s: State, steps: seq<Step>, r: State)
    requires Inv(job, s) && Leads(job, s, steps, r)
    ensures Inv(job, r)
    decreases |steps|
  {
    if steps == [] {
    } else {
      NextKeeps(job, s, steps[0]);
      LeadsKeeps(job, Next(job, s, steps[0]), steps[1..], r);
    }
  }

  /** The invariant holds in every state that any interleaving reaches. */
  lemma ReachableInv(job: Job, s: State)
    requires job.Valid() && Reachable(job, s)
    ensures Inv(job, s)
  {
    var failures: nat, steps: seq<Step> :| Leads(job, Initial(job, failures), steps, s);
    InitialInv(job, failures);
    LeadsKeeps(job, Initial(job, failures), steps, s);
  }
}
