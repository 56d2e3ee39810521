/** What holds in every reachable state of a download, and what it leaves on disk. */
module DownloadSafety {
  import opened Counting
  import opened Segmentation
  import opened Transfer
  import opened Download
  import opened DownloadInvariant

  // ---- the file ----

  /** A disk that holds the bytes of every segment, and nothing past the source, is the source. */
  lemma AllOnDisk(job: Job, disk: seq<Byte>)
    requires job.Valid() && |disk| <= |job.source|
    requires forall i :: 0 <= i < |job.plan| ==>
                           job.plan[i].End() <= |disk| && disk[job.plan[i].init..job.plan[i].End()] == job.Content(i)
    ensures disk == job.source
  {
    assert job.plan[|job.plan| - 1].End() <= |disk|;
    forall pos | 0 <= pos < |disk|
      ensures disk[pos] == job.source[pos]
    {
      TilesCover(job.plan, |job.source|, pos);
      var i :| 0 <= i < |job.plan| && job.plan[i].Covers(pos);
      var k := pos - job.plan[i].init;
      assert disk[job.plan[i].init..job.plan[i].End()][k] == job.Content(i)[k];
    }
  }

  /** What did not arrive of a segment is zero in the source anyway. */
  ghost predicate NothingLost(job: Job, got: seq<nat>)
    requires job.Valid() && |got| == |job.plan|
  {
    forall i, k :: 0 <= i < |job.plan| && got[i] <= k < job.plan[i].length ==> job.Content(i)[k] == 0
  }

  lemma PartIsWholeIff(job: Job, got: seq<nat>)
    requires job.Valid() && |got| == |job.plan|
    ensures (forall i :: 0 <= i < |job.plan| ==> Part(job, got, i) == job.Content(i)) <==> NothingLost(job, got)
  {
    if forall i :: 0 <= i < |job.plan| ==> Part(job, got, i) == job.Content(i) {
      forall i, k | 0 <= i < |job.plan| && got[i] <= k < job.plan[i].length
        ensures job.Content(i)[k] == 0
      {
        assert Part(job, got, i)[k] == job.Content(i)[k];
      }
    }
  }

  /** When the saver has left its loop every segment is on disk, as far as it arrived. */
  lemma ClosedFile(job: Job, s: State)
    requires Inv(job, s) && s.saver.Closed?
    ensures forall i :: 0 <= i < |job.plan| ==> OnDisk(job, s.got, s.disk, i)
  {
    CountFull(s.place, IsSaved);
    forall i | 0 <= i < |job.plan|
      ensures OnDisk(job, s.got, s.disk, i)
    {
      assert IsSaved(s.place[i]);
    }
  }

  lemma ClosedFileIsSourceIff(job: Job, s: State)
    requires Inv(job, s) && s.saver.Closed?
    ensures s.disk == job.source <==> NothingLost(job, s.got)
  {
    ClosedFile(job, s);
    PartIsWholeIff(job, s.got);
    if NothingLost(job, s.got) {
      forall i | 0 <= i < |job.plan|
        ensures job.plan[i].End() <= |s.disk| && s.disk[job.plan[i].init..job.plan[i].End()] == job.Content(i)
      {
        assert OnDisk(job, s.got, s.disk, i);
      }
      AllOnDisk(job, s.disk);
    }
    if s.disk == job.source {
      forall i | 0 <= i < |job.plan|
        ensures Part(job, s.got, i) == job.Content(i)
      {
        assert OnDisk(job, s.got, s.disk, i);
      }
    }
  }

  /** Whatever the interleaving, the number of threads, the order of the chunks and the retries,
      once the saver has left its loop: the file on disk is the file at the peers if and only if
      all that was lost in answers cut short is zero. */
  lemma SavedFileIsSourceIff(job: Job, s: State)
    requires job.Valid() && Reachable(job, s) && s.saver.Closed?
    ensures |s.got| == |job.plan| && (s.disk == job.source <==> NothingLost(job, s.got))
  {
    ReachableInv(job, s);
    ClosedFileIsSourceIff(job, s);
  }

  /** No answer is cut short. */
  ghost predicate Uncut(steps: seq<Step>) {
    forall k :: 0 <= k < |steps| && steps[k].Advance? ==> !steps[k].net.CutShort?
  }

  /** An answer that is not cut short leaves nothing of its segment lost. */
  lemma UncutStep(job: Job, s: State, step: Step)
    requires Inv(job, s) && Enabled(job, s, step) && (step.Advance? ==> !step.net.CutShort?) && NothingLost(job, s.got)
    ensures |Next(job, s, step).got| == |job.plan| && NothingLost(job, Next(job, s, step).got)
  {
    match step
    case Advance(t, net) =>
      assert InFlight(job, s.got, s.threads[t].pc);
      GotEffect(job, s, t, net);
    case _ =>
  }

  lemma {:induction false} UncutRun(job: Job, s: State, steps: seq<Step>, r: State)
    requires Inv(job, s) && Leads(job, s, steps, r) && Uncut(steps) && NothingLost(job, s.got)
    ensures Inv(job, r) && NothingLost(job, r.got)
    decreases |steps|
  {
    if steps == [] {
    } else {
      assert steps[0].Advance? ==> !steps[0].net.CutShort?;
      UncutStep(job, s, steps[0]);
      NextKeeps(job, s, steps[0]);
      assert forall k :: 0 <= k < |steps[1..]| ==> steps[1..][k] == steps[k + 1];
      UncutRun(job, Next(job, s, steps[0]), steps[1..], r);
    }
  }

  /** So it is the file at the peers after every run in which no answer is cut short. */
  lemma SavedFileIsSource(job: Job, failures: nat, steps: seq<Step>, s: State)
    requires job.Valid() && Leads(job, Initial(job, failures), steps, s) && Uncut(steps) && s.saver.Closed?
    ensures s.disk == job.source
  {
    InitialInv(job, failures);
    UncutRun(job, Initial(job, failures), steps, s);
    ClosedFileIsSourceIff(job, s);
  }

  /** The same for the segments that download() cuts, for every file size an int can hold. */
  lemma DownloadedFileIsSource(job: Job, failures: nat, steps: seq<Step>, s: State)
    requires 0 < |job.source| < INT_LIMIT && job.plan == Plan(|job.source|)
    requires Leads(job, Initial(job, failures), steps, s) && Uncut(steps) && s.saver.Closed?
    ensures s.disk == job.source
  {
    PlanTiles(|job.source|);
    LastSegment(|job.source|);
    SavedFileIsSource(job, failures, steps, s);
  }

  // ---- an answer cut short ----

  lemma {:induction false} LeadsThen(job: Job, s: State, steps: seq<Step>, mid: State, step: Step)
    requires Leads(job, s, steps, mid) && Enabled(job, mid, step)
    ensures Leads(job, s, steps + [step], Next(job, mid, step))
    decreases |steps|
  {
    if steps == [] {
      assert ([] + [step])[1..] == [];
    } else {
      assert (steps + [step])[0] == steps[0] && (steps + [step])[1..] == steps[1..] + [step];
      LeadsThen(job, Next(job, s, steps[0]), steps[1..], mid, step);
    }
  }

  /** One byte, one segment, one thread. */
  function Smallest(): Job { Job([7], [Segment(0, 1)], 1) }

  function SmallestState(pc: Pc, status: Status): State {
    State([-1], 1, [Thread(pc, 5, 0)], [0], [status], 0, [], Checking, 0, [], 0, [5], [0], [0], [Absent], [1], [], 0)
  }

  lemma ReachableThen(job: Job, s: State, step: Step)
    requires Reachable(job, s) && Enabled(job, s, step)
    ensures Reachable(job, Next(job, s, step))
  {
    var failures: nat, steps: seq<Step> :| Leads(job, Initial(job, failures), steps, s);
    LeadsThen(job, Initial(job, failures), steps, s, step);
  }

  lemma StartIsReachable()
    ensures Reachable(Smallest(), Initial(Smallest(), 0))
  {
    assert Leads(Smallest(), Initial(Smallest(), 0), [], Initial(Smallest(), 0));
  }

  lemma RunToTesting()
    ensures Reachable(Smallest(), SmallestState(Testing, Undownloaded))
  {
    var job := Smallest();
    StartIsReachable();
    var s := Initial(job, 0);
    ReachableThen(job, s, Connect(5));
    s := Next(job, s, Connect(5));
    ReachableThen(job, s, Spawn);
    s := Next(job, s, Spawn);
    ReachableThen(job, s, Advance(0, Fine));
    assert Next(job, s, Advance(0, Fine)) == SmallestState(Testing, Undownloaded);
  }

  lemma RunToStarting()
    ensures Reachable(Smallest(), SmallestState(Starting(0), Downloading))
  {
    var job := Smallest();
    RunToTesting();
    var s := SmallestState(Testing, Undownloaded);
    ReachableThen(job, s, Advance(0, Fine));
    s := Next(job, s, Advance(0, Fine));
    ReachableThen(job, s, Advance(0, Fine));
    assert Next(job, s, Advance(0, Fine)) == SmallestState(Starting(0), Downloading);
  }

  function SmallestReceiving(): State {
    SmallestState(Receiving(0, 0, 1, Segment(0, 1)), Downloading).(requests := [Segment(0, 1)])
  }

  lemma RunToReceiving()
    ensures Reachable(Smallest(), SmallestReceiving())
  {
    var job := Smallest();
    RunToStarting();
    var s := SmallestState(Starting(0), Downloading);
    ReachableThen(job, s, Advance(0, Fine));
    s := Next(job, s, Advance(0, Fine));
    ReachableThen(job, s, Advance(0, Fine));
    assert Next(job, s, Advance(0, Fine)) == SmallestReceiving();
  }

  function SmallestPushed(): State {
    SmallestState(Completing(0), Downloading).(
      requests := [Segment(0, 1)], got := [0], stack := [Chunk(0, 0, [0])], place := [Stacked(0)])
  }

  lemma RunToPushed()
    ensures Reachable(Smallest(), SmallestPushed())
  {
    var job := Smallest();
    RunToReceiving();
    var s := SmallestReceiving();
    assert Received(Answer([7], 0, 1), 0) == [0];
    ReachableThen(job, s, Advance(0, CutShort(0)));
    s := Next(job, s, Advance(0, CutShort(0)));
    ReachableThen(job, s, Advance(0, Fine));
    assert Next(job, s, Advance(0, Fine)) == SmallestPushed();
  }

  lemma RunToWriting()
    ensures Reachable(Smallest(), SmallestPushed().(saver := Writing, nWritten := 1))
  {
    var job := Smallest();
    RunToPushed();
    var s := SmallestPushed();
    ReachableThen(job, s, Save);
    s := Next(job, s, Save);
    ReachableThen(job, s, Save);
  }

  function SmallestSaved(): State {
    SmallestPushed().(saver := Checking, nWritten := 1, stack := [], disk := [0], place := [Saved])
  }

  lemma RunToSaved()
    ensures Reachable(Smallest(), SmallestSaved())
  {
    var job := Smallest();
    RunToWriting();
    var s := SmallestPushed().(saver := Writing, nWritten := 1);
    ReachableThen(job, s, Save);
    assert WriteAt([], 0, [0]) == [0];
    assert Next(job, s, Save) == SmallestSaved();
  }

  /** The peer closes the connection before it has sent the only byte; the download completes with a
      zero in its place. */
  lemma CutAnswerIsSaved() returns (s: State)
    ensures Smallest().Valid() && Smallest().source == [7]
    ensures Reachable(Smallest(), s) && s.saver.Closed? && s.disk == [0]
  {
    var job := Smallest();
    RunToSaved();
    s := SmallestSaved();
    ReachableThen(job, s, Save);
    s := Next(job, s, Save);
  }

  // ---- the sockets ----

  /** No thread takes a slot that download() has not filled, although an unfilled slot holds 0
      and passes the test; no thread runs out of slots; and slot and thread determine each
      other, each thread using the very socket stored in its slot. */
  lemma ClaimsMatch(job: Job, s: State)
    requires job.Valid() && Reachable(job, s)
    ensures forall t :: 0 <= t < |s.threads| && s.threads[t].pc.Claiming? ==> s.threads[t].pc.slot < s.connected
    ensures forall t, junk :: !Enabled(job, s, Exhaust(t, junk))
    ensures forall t :: 0 <= t < |s.threads| && !s.threads[t].pc.Claiming? ==>
              0 <= s.threads[t].slot < |s.sockets| && s.threads[t].sock == s.sockets[s.threads[t].slot] >= 0
    ensures forall t, u :: 0 <= t < u < |s.threads| && !s.threads[t].pc.Claiming? && !s.threads[u].pc.Claiming? ==>
              s.threads[t].slot != s.threads[u].slot
  {
    ReachableInv(job, s);
    forall t | 0 <= t < |s.threads|
      ensures ThreadSlot(s.threads[t], Claimed(s))
      ensures s.threads[t].pc.Claiming? ==> s.threads[t].pc.slot < s.connected
    {
      if s.threads[t].pc.Claiming? {
        ClaimerFindsSlot(job, s, t);
      }
    }
  }

  /** Once every thread exists and has claimed, every socket is in use. */
  lemma EverySocketIsUsed(job: Job, s: State, j: nat)
    requires job.Valid() && Reachable(job, s) && j < job.threadCount
    requires |s.threads| == job.threadCount
    requires forall t :: 0 <= t < |s.threads| ==> !s.threads[t].pc.Claiming?
    ensures exists t :: 0 <= t < |s.threads| && s.threads[t].slot == j
  {
    ReachableInv(job, s);
    forall t | 0 <= t < |s.threads|
      ensures HasSlot(s.threads[t])
    {
      assert ThreadSlot(s.threads[t], Claimed(s));
    }
    CountFull(s.threads, HasSlot);
    assert s.threads[s.holder[j]].slot == j;
  }

  // ---- the segments ----

  /** numReceived counts the Downloaded segments, and each Downloading segment has exactly one
      thread working on it. */
  lemma SegmentAccounting(job: Job, s: State)
    requires job.Valid() && Reachable(job, s)
    ensures s.numReceived == Count(s.status, IsDone) <= |job.plan|
    ensures forall i :: 0 <= i < |s.status| && s.status[i].Downloading? ==>
              exists t :: 0 <= t < |s.threads| && WorksOn(s.threads[t], i)
    ensures forall i, t, u :: 0 <= i < |s.status| && 0 <= t < |s.threads| && 0 <= u < |s.threads| &&
                              WorksOn(s.threads[t], i) && WorksOn(s.threads[u], i) ==>
                                s.status[i].Downloading? && t == u
  {
    ReachableInv(job, s);
    forall i | 0 <= i < |s.status| && s.status[i].Downloading?
      ensures exists t :: 0 <= t < |s.threads| && WorksOn(s.threads[t], i)
    {
      assert WorksOn(s.threads[s.owner[i]], i);
    }
    forall i, t, u | 0 <= i < |s.status| && 0 <= t < |s.threads| && 0 <= u < |s.threads| &&
                     WorksOn(s.threads[t], i) && WorksOn(s.threads[u], i)
      ensures s.status[i].Downloading? && t == u
    {
      WorkerIsOwner(job, s, i, t);
      WorkerIsOwner(job, s, i, u);
    }
  }

  predicate WorksOn(h: Thread, i: nat) {
    h.pc.Working() && h.pc.cur == i
  }

  lemma WorkerIsOwner(job: Job, s: State, i: nat, t: nat)
    requires Inv(job, s) && i < |s.status| && t < |s.threads| && WorksOn(s.threads[t], i)
    ensures s.status[i].Downloading? && s.owner[i] == t
  {
  }

  /** No data request carries the end marker -1: each asks for a whole segment. */
  lemma RequestsAreSegments(job: Job, s: State)
    requires job.Valid() && Reachable(job, s)
    ensures forall r :: r in s.requests ==> r in job.plan && r.init >= 0
  {
    ReachableInv(job, s);
  }

  predicate IsStacked(x: Place) { x.Stacked? }

  predicate IsPushed(x: Place) { !x.Absent? }

  lemma {:induction false} StackSize(stack: seq<Chunk>, place: seq<Place>)
    requires StackInv(stack, place)
    ensures Count(place, IsStacked) == |stack|
    decreases |stack|
  {
    if stack == [] {
      CountNone(place, IsStacked);
    } else {
      var top := stack[|stack| - 1];
      CountUpdate(place, top.seg, Saved, IsStacked);
      StackSize(stack[..|stack| - 1], place[top.seg := Saved]);
    }
  }

  lemma {:induction false} CountPushed(place: seq<Place>)
    ensures Count(place, IsPushed) == Count(place, IsStacked) + Count(place, IsSaved)
  {
    if place == [] {
    } else {
      CountPushed(place[1..]);
    }
  }

  /** Conservation of chunks: what was pushed is either on the stack or written. */
  lemma ChunkAccounting(job: Job, s: State)
    requires job.Valid() && Reachable(job, s)
    ensures Count(s.place, IsPushed) + (if s.saver.Writing? then 1 else 0) == s.nWritten + |s.stack|
    ensures s.saver.Writing? ==> |s.stack| > 0
    ensures forall p, q :: 0 <= p < q < |s.stack| ==> s.stack[p].seg != s.stack[q].seg
  {
    ReachableInv(job, s);
    StackSize(s.stack, s.place);
    CountPushed(s.place);
  }

  /** The step pushes the chunk of segment i. */
  predicate Pushes(s: State, step: Step, i: nat) {
    step.Advance? && step.t < |s.threads| && WorksOn(s.threads[step.t], i) && s.threads[step.t].pc.Pushing?
  }

  ghost function PushCount(job: Job, s: State, steps: seq<Step>, i: nat): nat
    decreases |steps|
  {
    if steps == [] || !Enabled(job, s, steps[0]) then 0
    else (if Pushes(s, steps[0], i) then 1 else 0) + PushCount(job, Next(job, s, steps[0]), steps[1..], i)
  }

  function WasPushed(s: State, i: nat): nat
    requires i < |s.place|
  {
    if s.place[i].Absent? then 0 else 1
  }

  lemma AdvancePushes(job: Job, s: State, t: nat, net: Net, i: nat)
    requires Inv(job, s) && Enabled(job, s, Advance(t, net)) && i < |job.plan|
    ensures var s' := Advanced(job, s, t, net);
      i < |s'.place| && WasPushed(s', i) == WasPushed(s, i) + if Pushes(s, Advance(t, net), i) then 1 else 0
  {
    QueueEffect(job, s, t, net);
    if s.threads[t].pc.Pushing? {
      assert !Pushed(s, s.threads[t].pc.cur);
    }
  }

  lemma PushStep(job: Job, s: State, step: Step, i: nat)
    requires Inv(job, s) && Enabled(job, s, step) && i < |job.plan|
    ensures var s' := Next(job, s, step);
      i < |s'.place| && WasPushed(s', i) == WasPushed(s, i) + if Pushes(s, step, i) then 1 else 0
  {
    match step
    case Advance(t, net) => AdvancePushes(job, s, t, net, i);
    case _ =>
  }

  lemma {:induction false} PushCountFrom(job: Job, s: State, steps: seq<Step>, r: State, i: nat)
    requires Inv(job, s) && Leads(job, s, steps, r) && i < |job.plan|
    ensures Inv(job, r) && WasPushed(r, i) == WasPushed(s, i) + PushCount(job, s, steps, i)
    decreases |steps|
  {
    if steps == [] {
    } else {
      PushStep(job, s, steps[0], i);
      NextKeeps(job, s, steps[0]);
      PushCountFrom(job, Next(job, s, steps[0]), steps[1..], r, i);
    }
  }

  /** In every run each segment is pushed at most once; exactly once, when its chunk has been
      stacked or saved. */
  lemma PushedOnce(job: Job, failures: nat, steps: seq<Step>, r: State, i: nat)
    requires job.Valid() && Leads(job, Initial(job, failures), steps, r) && i < |job.plan|
    ensures i < |r.place| && PushCount(job, Initial(job, failures), steps, i) == (if r.place[i].Absent? then 0 else 1)
  {
    InitialInv(job, failures);
    PushCountFrom(job, Initial(job, failures), steps, r, i);
  }

  // ---- the release of the shared state ----

  /** peers[0] counts the threads that have finished, from the moment slot 0 is claimed. */
  lemma LeaversAreCounted(job: Job, s: State)
    requires job.Valid() && Reachable(job, s)
    ensures Claimed(s) > 0 ==> |s.slots| > 0 && s.slots[0] == -1 - Left(s)
    ensures Left(s) > 0 ==> Claimed(s) > 0
    ensures s.releases <= 1
  {
    ReachableInv(job, s);
    forall t | 0 <= t < |s.threads|
      ensures HasLeft(s.threads[t]) ==> HasSlot(s.threads[t])
    {
      assert ThreadSlot(s.threads[t], Claimed(s));
    }
    CountSubset(s.threads, HasLeft, HasSlot);
  }

  /** Nothing touches the shared state after its release, and no thread but the releasing one
      while it is being released: only the saver may still move. */
  lemma NothingAfterRelease(job: Job, s: State, step: Step)
    requires job.Valid() && Reachable(job, s) && Enabled(job, s, step)
    requires s.releases > 0 || exists t :: 0 <= t < |s.threads| && s.threads[t].pc.Releasing?
    ensures step.Save? || (s.releases == 0 && step.Advance? && s.threads[step.t].pc.Releasing?)
    ensures forall t, u :: 0 <= t < u < |s.threads| && s.threads[t].pc.Releasing? ==> s.threads[u].pc.Finished?
    ensures |s.threads| == job.threadCount && s.releases <= 1
  {
    ReachableInv(job, s);
    forall t | 0 <= t < |s.threads| && s.threads[t].pc.Releasing?
      ensures ReleasingNow(s) >= 1
    {
      CountAtLeast(s.threads, t, IsReleasing);
    }
    CountFull(s.threads, HasLeft);
    assert forall t :: 0 <= t < |s.threads| ==> HasLeft(s.threads[t]);
    forall t, u | 0 <= t < u < |s.threads| && s.threads[t].pc.Releasing?
      ensures s.threads[u].pc.Finished?
    {
      if s.threads[u].pc.Releasing? {
        CountTwo(s.threads, t, u, IsReleasing);
      }
    }
  }

  lemma AllFinishedReleases(job: Job, s: State)
    requires Inv(job, s) && job.threadCount > 0 && |s.threads| == job.threadCount
    requires forall t :: 0 <= t < |s.threads| ==> s.threads[t].pc.Finished?
    ensures s.releases == 1
  {
    CountNone(s.threads, IsReleasing);
    CountFull(s.threads, HasLeft);
  }

  /** Once every thread has finished, the shared state has been released, exactly once. */
  lemma ReleasedAtTheEnd(job: Job, s: State)
    requires job.Valid() && Reachable(job, s) && job.threadCount > 0
    requires |s.threads| == job.threadCount
    requires forall t :: 0 <= t < |s.threads| ==> s.threads[t].pc.Finished?
    ensures s.releases == 1
  {
    ReachableInv(job, s);
    AllFinishedReleases(job, s);
  }

  /** Once the saver has left its loop, and frees the queue, no thread uses the queue. */
  lemma QueueIsIdleAfterSaving(job: Job, s: State, t: nat)
    requires job.Valid() && Reachable(job, s) && s.saver.Closed? && t < |s.threads|
    ensures !s.threads[t].pc.Working() || s.threads[t].pc.Completing?
    ensures s.stack == []
  {
    ReachableInv(job, s);
    CountFull(s.place, IsSaved);
    assert forall i :: 0 <= i < |s.place| ==> IsSaved(s.place[i]);
    StackSize(s.stack, s.place);
    CountNone(s.place, IsStacked);
    if s.threads[t].pc.Working() {
      assert Pushed(s, s.threads[t].pc.cur);
    }
  }
}
