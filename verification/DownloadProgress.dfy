/** A download with at least one thread and finitely many failures can always finish, and does
    only boundedly much besides scanning and spinning. */
module DownloadProgress {
  import opened Counting
  import opened Download
  import opened DownloadInvariant
  import opened DownloadSafety

  /** The steps that only look: passing over a segment, testing the loop condition again, and
      the saver finding the queue empty. */
  ghost predicate Stutters(job: Job, s: State, step: Step)
    requires Enabled(job, s, step)
  {
    match step
    case Advance(t, _) =>
      (match s.threads[t].pc
       case Testing => s.numReceived < |job.plan|
       case Scanning(next) => next >= |job.plan| || !s.status[next].Undownloaded?
       case _ => false)
    case Save => s.saver.Waiting? && |s.stack| == 0
    case _ => false
  }

  /** What a thread still has to do, apart from taking further segments. */
  function PcWork(threadCount: nat, pc: Pc): nat {
    match pc
    case Claiming(slot) => 6 + (if slot < threadCount then threadCount - slot else 0)
    case Failing(_) => 12
    case Starting(_) => 10
    case Requesting(_, _, _) => 9
    case Receiving(_, _, _, _) => 8
    case Pushing(_, _, _) => 7
    case Completing(_) => 6
    case Testing => 5
    case Scanning(_) => 5
    case Marking => 4
    case Ending => 3
    case Leaving => 2
    case Releasing => 1
    case Finished => 0
  }

  function ThreadWork(threadCount: nat, threads: seq<Thread>): nat {
    if threads == [] then 0 else PcWork(threadCount, threads[0].pc) + ThreadWork(threadCount, threads[1..])
  }

  predicate IsUndownloaded(x: Status) { x.Undownloaded? }

  ghost function SegmentWork(s: State): nat {
    6 * Count(s.status, IsUndownloaded)
  }

  /** What download() still has to do: filling a slot is 1, creating a thread pays for its work. */
  function MainWork(job: Job, s: State): nat
    requires Shape(job, s)
  {
    (job.threadCount - |s.threads|) * (8 + job.threadCount) + (job.threadCount - s.connected)
  }

  function SaverWork(job: Job, s: State): nat {
    3 * (if s.nWritten < |job.plan| then |job.plan| - s.nWritten else 0) +
    match s.saver case Checking => 2 case Waiting => 1 case Writing => 3 case Closed => 0
  }

  ghost function Work(job: Job, s: State): nat
    requires Shape(job, s)
  {
    MainWork(job, s) + ThreadWork(job.threadCount, s.threads) + SegmentWork(s) + SaverWork(job, s) + 5 * s.failures
  }

  lemma {:induction false} ThreadWorkUpdate(n: nat, threads: seq<Thread>, t: nat, h: Thread)
    requires t < |threads|
    ensures ThreadWork(n, threads[t := h]) == ThreadWork(n, threads) - PcWork(n, threads[t].pc) + PcWork(n, h.pc)
  {
    if t == 0 {
      assert threads[t := h][1..] == threads[1..];
    } else {
      assert threads[t := h][1..] == threads[1..][t - 1 := h];
      ThreadWorkUpdate(n, threads[1..], t - 1, h);
    }
  }

  lemma {:induction false} ThreadWorkAppend(n: nat, threads: seq<Thread>, h: Thread)
    ensures ThreadWork(n, threads + [h]) == ThreadWork(n, threads) + PcWork(n, h.pc)
  {
    if threads == [] {
      assert (threads + [h])[1..] == [];
    } else {
      assert (threads + [h])[1..] == threads[1..] + [h];
      ThreadWorkAppend(n, threads[1..], h);
    }
  }

  lemma SpawnWork(job: Job, s: State)
    requires Enabled(job, s, Spawn)
    ensures Shape(job, Next(job, s, Spawn)) && Work(job, Next(job, s, Spawn)) < Work(job, s)
  {
    var n := job.threadCount;
    ThreadWorkAppend(n, s.threads, Thread(Claiming(0), -1, -1));
    assert (n - |s.threads|) * (8 + n) == (n - |s.threads| - 1) * (8 + n) + (8 + n);
  }

  /** The step takes the segment it looks at. */
  predicate Takes(job: Job, s: State, pc: Pc) {
    pc.Scanning? && pc.next < |job.plan| == |s.status| && s.status[pc.next].Undownloaded?
  }

  lemma StatusEffect(job: Job, s: State, t: nat, net: Net)
    requires Enabled(job, s, Advance(t, net))
    ensures var s' := Advanced(job, s, t, net); var pc := s.threads[t].pc;
      s'.status == (if pc.Completing? then s.status[pc.cur := Downloaded]
                    else if pc.Failing? then s.status[pc.cur := Undownloaded]
                    else if Takes(job, s, pc) then s.status[pc.next := Downloading]
                    else s.status)
  {
  }

  lemma StatusWork(job: Job, s: State, t: nat, net: Net)
    requires Inv(job, s) && Enabled(job, s, Advance(t, net))
    ensures var pc := s.threads[t].pc;
      SegmentWork(Advanced(job, s, t, net)) ==
      SegmentWork(s) + (if pc.Failing? then 6 else if Takes(job, s, pc) then -6 else 0)
  {
    StatusEffect(job, s, t, net);
    var pc := s.threads[t].pc;
    if pc.Completing? {
      CountUpdate(s.status, pc.cur, Downloaded, IsUndownloaded);
    } else if pc.Failing? {
      CountUpdate(s.status, pc.cur, Undownloaded, IsUndownloaded);
    } else if Takes(job, s, pc) {
      CountUpdate(s.status, pc.next, Downloading, IsUndownloaded);
    }
  }

  /** How a thread's step moves its own work and the failures that pay for repetitions. */
  lemma PcWorkEffect(job: Job, s: State, t: nat, net: Net)
    requires Enabled(job, s, Advance(t, net))
    ensures var s' := Advanced(job, s, t, net); var n := job.threadCount; var pc := s.threads[t].pc;
      PcWork(n, s'.threads[t].pc) + 5 * s'.failures + (if Stutters(job, s, Advance(t, net)) then 0 else 1) <=
      PcWork(n, pc) + 5 * s.failures + (if Takes(job, s, pc) then 6 else if pc.Failing? then -6 else 0)
  {
  }

  lemma AdvanceFrame(job: Job, s: State, t: nat, net: Net)
    requires Enabled(job, s, Advance(t, net))
    ensures var s' := Advanced(job, s, t, net);
      Shape(job, s') && |s'.threads| == |s.threads| && MainWork(job, s') == MainWork(job, s)
      && SaverWork(job, s') == SaverWork(job, s)
  {
    AdvanceShape(job, s, t, net);
    QueueEffect(job, s, t, net);
  }

  lemma SaveWork(job: Job, s: State)
    requires Inv(job, s) && Enabled(job, s, Save)
    ensures var s' := SaverStep(job, s);
      Shape(job, s') && Work(job, s') + (if Stutters(job, s, Save) then 0 else 1) <= Work(job, s)
  {
    if s.saver.Writing? {
      WriteWork(job, s);
    }
  }

  lemma WriteWork(job: Job, s: State)
    requires Inv(job, s) && Enabled(job, s, Save) && s.saver.Writing?
    ensures Shape(job, SaverStep(job, s)) && Work(job, SaverStep(job, s)) < Work(job, s)
  {
    SaveTop(job, s);
  }

  /** Every step that does not stutter uses up work, and a stuttering step creates none. */
  lemma StepWorks(job: Job, s: State, step: Step)
    requires Inv(job, s) && Enabled(job, s, step)
    ensures Shape(job, Next(job, s, step))
    ensures Work(job, Next(job, s, step)) + (if Stutters(job, s, step) then 0 else 1) <= Work(job, s)
  {
    match step
    case Connect(fd) =>
    case Spawn => SpawnWork(job, s);
    case Exhaust(t, junk) => ClaimerFindsSlot(job, s, t);
    case Advance(t, net) =>
      AdvanceShape(job, s, t, net);
      StatusWork(job, s, t, net);
      PcWorkEffect(job, s, t, net);
      AdvanceFrame(job, s, t, net);
      ThreadWorkUpdate(job.threadCount, s.threads, t, Advanced(job, s, t, net).threads[t]);
    case Save => SaveWork(job, s);
  }

  ghost function ProgressSteps(job: Job, s: State, steps: seq<Step>): nat
    decreases |steps|
  {
    if steps == [] || !Enabled(job, s, steps[0]) then 0
    else (if Stutters(job, s, steps[0]) then 0 else 1) + ProgressSteps(job, Next(job, s, steps[0]), steps[1..])
  }

  lemma {:induction false} ProgressBoundedFrom(job: Job, s: State, steps: seq<Step>, r: State)
    requires Inv(job, s) && Leads(job, s, steps, r)
    ensures Inv(job, r) && ProgressSteps(job, s, steps) + Work(job, r) <= Work(job, s)
    decreases |steps|
  {
    if steps == [] {
    } else {
      StepWorks(job, s, steps[0]);
      NextKeeps(job, s, steps[0]);
      ProgressBoundedFrom(job, Next(job, s, steps[0]), steps[1..], r);
    }
  }

  /** In every run, of any length and interleaving, only boundedly many steps do something. */
  lemma ProgressBounded(job: Job, failures: nat, steps: seq<Step>, r: State)
    requires job.Valid() && Leads(job, Initial(job, failures), steps, r)
    ensures ProgressSteps(job, Initial(job, failures), steps) <= Work(job, Initial(job, failures))
    ensures Work(job, Initial(job, failures)) ==
            job.threadCount * (9 + job.threadCount) + 9 * |job.plan| + 2 + 5 * failures
  {
    var s := Initial(job, failures);
    InitialInv(job, failures);
    ProgressBoundedFrom(job, s, steps, r);
    CountFull(s.status, IsUndownloaded);
    assert job.threadCount * (8 + job.threadCount) + job.threadCount == job.threadCount * (9 + job.threadCount);
  }

  // ---- no state is stuck ----

  /** Every thread has finished and the saver has left its loop. */
  ghost predicate Over(job: Job, s: State) {
    && s.saver.Closed?
    && |s.threads| == job.threadCount
    && (forall t :: 0 <= t < |s.threads| ==> s.threads[t].pc.Finished?)
  }

  /** The first thread that has not finished. */
  function FirstLive(threads: seq<Thread>): (d: nat)
    ensures d <= |threads| && (d < |threads| ==> !threads[d].pc.Finished?)
    ensures forall t :: 0 <= t < d ==> threads[t].pc.Finished?
  {
    if threads == [] then 0 else if threads[0].pc.Finished? then 1 + FirstLive(threads[1..]) else 0
  }

  function FirstUndownloaded(status: seq<Status>): (u: nat)
    ensures u <= |status| && (u < |status| ==> status[u].Undownloaded?)
    ensures forall i :: 0 <= i < u ==> !status[i].Undownloaded?
  {
    if status == [] then 0 else if status[0].Undownloaded? then 0 else 1 + FirstUndownloaded(status[1..])
  }

  /** How many looks a thread takes before it takes a segment or leaves the loop, where u is the
      first segment to take. */
  function PcLooks(m: nat, u: nat, unfinished: bool, pc: Pc): nat {
    match pc
    case Testing => if unfinished then u + 1 else 0
    case Scanning(next) =>
      if next < m && next <= u then (if unfinished then u - next else m - next + 1)
      else (if next < m then m - next else 0) + (if unfinished then u + 2 else 1)
    case _ => 0
  }

  function LooksOf(job: Job, s: State, t: nat): nat
    requires t < |s.threads|
  {
    PcLooks(|job.plan|, FirstUndownloaded(s.status), s.numReceived < |job.plan|, s.threads[t].pc)
  }

  /** The looks of the first live thread. */
  function Looks(job: Job, s: State): nat {
    var d := FirstLive(s.threads);
    if d == |s.threads| then 0 else LooksOf(job, s, d)
  }

  ghost predicate Improves(job: Job, s: State, step: Step)
  {
    && Enabled(job, s, step)
    && var s' := Next(job, s, step);
    Shape(job, s) && Shape(job, s') &&
    (Work(job, s') < Work(job, s) || (Work(job, s') == Work(job, s) && Looks(job, s') < Looks(job, s)))
  }

  lemma NonStutterImproves(job: Job, s: State, step: Step)
    requires Inv(job, s) && Enabled(job, s, step) && !Stutters(job, s, step)
    ensures Improves(job, s, step)
  {
    StepWorks(job, s, step);
  }

  /** When every thread has finished, the saver still finds every chunk it needs. */
  lemma SaverCanMove(job: Job, s: State)
    requires Inv(job, s) && !s.saver.Closed? && job.threadCount > 0 && |s.threads| == job.threadCount
    requires forall t :: 0 <= t < |s.threads| ==> s.threads[t].pc.Finished?
    ensures Improves(job, s, Save)
  {
    assert s.threads[0].pc.Closing();
    CountFull(s.status, IsDone);
    forall i | 0 <= i < |s.place|
      ensures IsPushed(s.place[i])
    {
      assert IsDone(s.status[i]) && Pushed(s, i);
    }
    CountFull(s.place, IsPushed);
    CountPushed(s.place);
    StackSize(s.stack, s.place);
    NonStutterImproves(job, s, Save);
  }

  /** While no thread works, an incomplete download has a segment to take. */
  lemma SegmentToTake(job: Job, s: State)
    requires Inv(job, s) && s.numReceived < |job.plan|
    requires forall t :: 0 <= t < |s.threads| ==> !s.threads[t].pc.Working()
    ensures FirstUndownloaded(s.status) < |s.status|
  {
    CountFull(s.status, IsDone);
    assert exists i :: 0 <= i < |s.status| && !IsDone(s.status[i]);
  }

  predicate Looking(pc: Pc) { pc.Testing? || pc.Scanning? }

  /** The step is a look of thread t, after which it is in the state pc. */
  predicate LooksOn(m: nat, status: seq<Status>, unfinished: bool, pc: Pc, pc': Pc) {
    match pc
    case Testing => unfinished && pc' == Scanning(0)
    case Scanning(next) =>
      if next >= m then pc' == Testing else next < |status| && !status[next].Undownloaded? && pc' == Scanning(next + 1)
    case _ => false
  }

  lemma LooksDrop(m: nat, status: seq<Status>, unfinished: bool, pc: Pc, pc': Pc)
    requires |status| == m && LooksOn(m, status, unfinished, pc, pc')
    requires unfinished ==> FirstUndownloaded(status) < m
    ensures PcLooks(m, FirstUndownloaded(status), unfinished, pc') <
            PcLooks(m, FirstUndownloaded(status), unfinished, pc)
  {
  }

  /** A live thread that is only looking gets closer to something to do. */
  lemma LookerCanMove(job: Job, s: State, d: nat)
    requires Inv(job, s) && d == FirstLive(s.threads) < |s.threads|
    requires s.threads[d].pc.Testing? || s.threads[d].pc.Scanning?
    requires forall t :: 0 <= t < |s.threads| ==> !s.threads[t].pc.Working()
    ensures Improves(job, s, Advance(d, Fine))
  {
    var step := Advance(d, Fine);
    if Stutters(job, s, step) {
      var s' := Next(job, s, step);
      LookerWork(job, s, d);
      FirstLiveStays(s.threads, d, s'.threads[d]);
      if s.numReceived < |job.plan| {
        SegmentToTake(job, s);
      }
      LooksDrop(|job.plan|, s.status, s.numReceived < |job.plan|, s.threads[d].pc, s'.threads[d].pc);
    } else {
      NonStutterImproves(job, s, step);
    }
  }

  lemma LookerWork(job: Job, s: State, d: nat)
    requires Inv(job, s) && Enabled(job, s, Advance(d, Fine)) && Stutters(job, s, Advance(d, Fine))
    ensures var s' := Advanced(job, s, d, Fine);
      && Shape(job, s') && Work(job, s') == Work(job, s)
      && s'.status == s.status && s'.numReceived == s.numReceived
      && s'.threads == s.threads[d := s'.threads[d]]
      && LooksOn(|job.plan|, s.status, s.numReceived < |job.plan|, s.threads[d].pc, s'.threads[d].pc)
  {
    var s' := Advanced(job, s, d, Fine);
    AdvanceFrame(job, s, d, Fine);
    ThreadWorkUpdate(job.threadCount, s.threads, d, s'.threads[d]);
  }

  lemma {:induction false} FirstLiveStays(threads: seq<Thread>, d: nat, h: Thread)
    requires d == FirstLive(threads) < |threads| && !h.pc.Finished?
    ensures FirstLive(threads[d := h]) == d
  {
    if d > 0 {
      assert threads[d := h][1..] == threads[1..][d - 1 := h];
      FirstLiveStays(threads[1..], d - 1, h);
    }
  }

  predicate NoFailure(step: Step) { step.Advance? ==> step.net.Fine? }

  /** A state that is not over has an enabled step, needing no failure, that improves it. */
  lemma NeverStuck(job: Job, s: State) returns (step: Step)
    requires Inv(job, s) && job.threadCount > 0 && !Over(job, s)
    ensures Improves(job, s, step) && NoFailure(step)
  {
    if |s.threads| < job.threadCount {
      step := if s.connected == |s.threads| then Connect(0) else Spawn;
      NonStutterImproves(job, s, step);
    } else if t: nat :| t < |s.threads| && !s.threads[t].pc.Finished? &&
                        !s.threads[t].pc.Testing? && !s.threads[t].pc.Scanning? {
      step := Advance(t, Fine);
      if s.threads[t].pc.Claiming? {
        ClaimerFindsSlot(job, s, t);
      }
      NonStutterImproves(job, s, step);
    } else {
      var d := FirstLive(s.threads);
      if d == |s.threads| {
        step := Save;
        SaverCanMove(job, s);
      } else {
        step := Advance(d, Fine);
        LookerCanMove(job, s, d);
      }
    }
  }

  lemma {:induction false} CanFinishFrom(job: Job, s: State) returns (steps: seq<Step>, r: State)
    requires Inv(job, s) && job.threadCount > 0
    ensures Leads(job, s, steps, r) && Over(job, r) && Inv(job, r)
    ensures NoFailures(steps)
    decreases Work(job, s), Looks(job, s)
  {
    if Over(job, s) {
      steps, r := [], s;
    } else {
      var step := NeverStuck(job, s);
      NextKeeps(job, s, step);
      var rest;
      rest, r := CanFinishFrom(job, Next(job, s, step));
      steps := [step] + rest;
      LeadsFirst(job, s, step, rest, r);
    }
  }

  ghost predicate NoFailures(steps: seq<Step>) {
    forall k :: 0 <= k < |steps| ==> NoFailure(steps[k])
  }

  lemma LeadsFirst(job: Job, s: State, step: Step, rest: seq<Step>, r: State)
    requires Enabled(job, s, step) && NoFailure(step) && Leads(job, Next(job, s, step), rest, r) && NoFailures(rest)
    ensures Leads(job, s, [step] + rest, r) && NoFailures([step] + rest)
  {
    assert ([step] + rest)[1..] == rest;
  }

  lemma NoFailuresUncut(steps: seq<Step>)
    requires NoFailures(steps)
    ensures Uncut(steps)
  {
    assert forall k :: 0 <= k < |steps| ==> NoFailure(steps[k]);
  }

  /** From every reachable state the download can be completed, without further failures and cuts;
      the shared state has then been released once, and if nothing was lost before, the file is
      there. */
  lemma CanAlwaysFinish(job: Job, s: State)
    requires job.Valid() && Reachable(job, s) && job.threadCount > 0
    ensures |s.got| == |job.plan|
    ensures exists steps, r ::
              && Leads(job, s, steps, r) && NoFailures(steps)
              && Over(job, r) && r.releases == 1 && (NothingLost(job, s.got) ==> r.disk == job.source)
  {
    ReachableInv(job, s);
    var steps, r := CanFinishFrom(job, s);
    NoFailuresUncut(steps);
    if NothingLost(job, s.got) {
      UncutRun(job, s, steps, r);
      ClosedFileIsSourceIff(job, r);
    }
    AllFinishedReleases(job, r);
  }

  // ---- a download without peers ----

  /** Nothing has been fetched, and nobody is there to. */
  ghost predicate Alone(job: Job, s: State) {
    && job.threadCount == 0 && s.threads == [] && |s.slots| == s.connected == 0
    && s.stack == [] && s.nWritten == 0 && s.disk == [] && !s.saver.Closed? && !s.saver.Writing?
  }

  lemma {:induction false} StaysAlone(job: Job, s: State, steps: seq<Step>, r: State)
    requires |job.plan| > 0 && Alone(job, s) && Leads(job, s, steps, r)
    ensures Alone(job, r)
    decreases |steps|
  {
    if steps == [] {
    } else {
      StaysAlone(job, Next(job, s, steps[0]), steps[1..], r);
    }
  }

  /** If nobody has the file the saver waits for good, and the file, truncated when the saver opened
      it, stays empty. */
  lemma WithoutPeersNothingHappens(job: Job, s: State)
    requires job.Valid() && Reachable(job, s) && job.threadCount == 0
    ensures !s.saver.Closed? && s.disk == []
  {
    var failures: nat, steps: seq<Step> :| Leads(job, Initial(job, failures), steps, s);
    StaysAlone(job, Initial(job, failures), steps, s);
  }

  /** So a download can be finished exactly if somebody has the file. */
  lemma CanFinishIff(job: Job, s: State)
    requires job.Valid() && Reachable(job, s)
    ensures (exists steps, r :: Leads(job, s, steps, r) && Over(job, r)) <==> job.threadCount > 0
  {
    if job.threadCount > 0 {
      CanAlwaysFinish(job, s);
    } else {
      var failures: nat, before: seq<Step> :| Leads(job, Initial(job, failures), before, s);
      StaysAlone(job, Initial(job, failures), before, s);
      forall steps, r | Leads(job, s, steps, r)
        ensures !Over(job, r)
      {
        StaysAlone(job, s, steps, r);
      }
    }
  }
}
