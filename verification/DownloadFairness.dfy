/** Every fair run of a download ends: while no thread, nor the saver, is kept from running for
    good, the download completes, however the steps interleave and however often attempts fail. */
module DownloadFairness {
  import opened Counting
  import opened Download
  import opened DownloadInvariant
  import opened DownloadSafety
  import opened DownloadProgress

  // ---- stretches of a run ----

  predicate IsMain(step: Step) { step.Connect? || step.Spawn? }

  predicate IsSave(step: Step) { step.Save? }

  predicate IsAdvance(step: Step, t: nat) { step.Advance? && step.t == t }

  function AdvanceCount(steps: seq<Step>, t: nat): nat {
    if steps == [] then 0 else (if IsAdvance(steps[0], t) then 1 else 0) + AdvanceCount(steps[1..], t)
  }

  /** During these steps, from s to r, everyone who has something left to do gets to run: the
      creation of threads and the saver once, and every thread until it finishes or often enough
      to look at all segments. */
  ghost predicate Fair(job: Job, s: State, steps: seq<Step>, r: State) {
    && (|s.threads| < job.threadCount ==> Count(steps, IsMain) > 0)
    && (!s.saver.Closed? ==> Count(steps, IsSave) > 0)
    && (forall t :: 0 <= t < |s.threads| && !s.threads[t].pc.Finished? ==>
          AdvanceCount(steps, t) >= |job.plan| + 3 || (t < |r.threads| && r.threads[t].pc.Finished?))
  }

  // ---- a stretch in which nothing happens ----

  /** How a stuttering step leaves everything but the look of one thread as it was. */
  ghost predicate Idle(job: Job, s: State, step: Step, s': State)
    requires |s'.threads| == |s.threads|
  {
    && s'.status == s.status && s'.numReceived == s.numReceived && s'.saver == s.saver && s'.stack == s.stack
    && (step.Save? || step.Advance?)
    && (step.Save? ==> s'.threads == s.threads && s.saver.Waiting? && s.stack == [])
    && (step.Advance? ==>
          && step.t < |s.threads| && Looking(s.threads[step.t].pc) && Looking(s'.threads[step.t].pc)
          && s'.threads == s.threads[step.t := s'.threads[step.t]]
          && LooksOn(|job.plan|, s.status, s.numReceived < |job.plan|, s.threads[step.t].pc, s'.threads[step.t].pc))
  }

  lemma StutterIsIdle(job: Job, s: State, step: Step)
    requires Inv(job, s) && Enabled(job, s, step) && Stutters(job, s, step)
    ensures |Next(job, s, step).threads| == |s.threads| && Idle(job, s, step, Next(job, s, step))
  {
  }

  lemma FirstIsIdle(job: Job, s: State, steps: seq<Step>, r: State)
    requires Inv(job, s) && steps != [] && Leads(job, s, steps, r) && ProgressSteps(job, s, steps) == 0
    ensures var s' := Next(job, s, steps[0]);
      && |s'.threads| == |s.threads| && Idle(job, s, steps[0], s')
      && Inv(job, s') && Leads(job, s', steps[1..], r) && ProgressSteps(job, s', steps[1..]) == 0
  {
    StutterIsIdle(job, s, steps[0]);
    NextKeeps(job, s, steps[0]);
  }

  /** When nothing happens, whoever ran was only looking, and nobody finishes. */
  lemma {:induction false} IdleThread(job: Job, s: State, steps: seq<Step>, r: State, t: nat)
    requires Inv(job, s) && Leads(job, s, steps, r) && ProgressSteps(job, s, steps) == 0 && t < |s.threads|
    ensures AdvanceCount(steps, t) > 0 ==> Looking(s.threads[t].pc)
    ensures t < |r.threads| && r.threads[t].pc.Finished? == s.threads[t].pc.Finished?
    decreases |steps|
  {
    if steps == [] {
    } else {
      FirstIsIdle(job, s, steps, r);
      IdleThread(job, Next(job, s, steps[0]), steps[1..], r, t);
    }
  }

  /** Nor did download() run, and the saver found nothing. */
  lemma {:induction false} IdleMain(job: Job, s: State, steps: seq<Step>, r: State)
    requires Inv(job, s) && Leads(job, s, steps, r) && ProgressSteps(job, s, steps) == 0
    ensures Count(steps, IsMain) == 0
    ensures Count(steps, IsSave) > 0 ==> s.saver.Waiting? && s.stack == []
    decreases |steps|
  {
    if steps == [] {
    } else {
      FirstIsIdle(job, s, steps, r);
      IdleMain(job, Next(job, s, steps[0]), steps[1..], r);
    }
  }

  /** Nobody does anything but look. */
  ghost predicate Quiet(s: State) {
    forall t :: 0 <= t < |s.threads| ==> Looking(s.threads[t].pc) || s.threads[t].pc.Finished?
  }

  lemma QuietStep(job: Job, s: State, step: Step, s': State, t: nat)
    requires Inv(job, s) && |s'.threads| == |s.threads| && Idle(job, s, step, s') && Quiet(s) && t < |s.threads|
    ensures Quiet(s') && LooksOf(job, s', t) + (if IsAdvance(step, t) then 1 else 0) <= LooksOf(job, s, t)
  {
    if s.numReceived < |job.plan| {
      SegmentToTake(job, s);
    }
    if IsAdvance(step, t) {
      LooksDrop(|job.plan|, s.status, s.numReceived < |job.plan|, s.threads[t].pc, s'.threads[t].pc);
    }
  }

  /** A thread that only looks has soon looked at everything. */
  lemma {:induction false} LooksRunOut(job: Job, s: State, steps: seq<Step>, r: State, t: nat)
    requires Inv(job, s) && Leads(job, s, steps, r) && ProgressSteps(job, s, steps) == 0
    requires t < |s.threads| && Quiet(s)
    ensures AdvanceCount(steps, t) <= LooksOf(job, s, t)
    decreases |steps|
  {
    if steps == [] {
    } else {
      FirstIsIdle(job, s, steps, r);
      QuietStep(job, s, steps[0], Next(job, s, steps[0]), t);
      LooksRunOut(job, Next(job, s, steps[0]), steps[1..], r, t);
    }
  }

  lemma FewLooks(job: Job, s: State, t: nat)
    requires Inv(job, s) && t < |s.threads| && Quiet(s)
    ensures LooksOf(job, s, t) <= |job.plan| + 2
  {
    if s.numReceived < |job.plan| {
      SegmentToTake(job, s);
    }
  }

  /** In every fair stretch of a download that is not over, something happens. */
  lemma FairStretchProgresses(job: Job, s: State, steps: seq<Step>, r: State)
    requires Inv(job, s) && Leads(job, s, steps, r) && job.threadCount > 0 && Fair(job, s, steps, r) && !Over(job, s)
    ensures ProgressSteps(job, s, steps) > 0
  {
    if ProgressSteps(job, s, steps) == 0 {
      IdleMain(job, s, steps, r);
      forall t | 0 <= t < |s.threads|
        ensures s.threads[t].pc.Finished?
      {
        StretchOfOne(job, s, steps, r, t);
      }
      SaverFinds(job, s);
    }
  }

  /** In a fair stretch in which nothing happens every thread has finished before. */
  lemma StretchOfOne(job: Job, s: State, steps: seq<Step>, r: State, t: nat)
    requires Inv(job, s) && Leads(job, s, steps, r) && Fair(job, s, steps, r) && ProgressSteps(job, s, steps) == 0
    requires t < |s.threads|
    ensures s.threads[t].pc.Finished?
  {
    forall u | 0 <= u < |s.threads|
      ensures Looking(s.threads[u].pc) || s.threads[u].pc.Finished?
    {
      IdleThread(job, s, steps, r, u);
    }
    IdleThread(job, s, steps, r, t);
    LooksRunOut(job, s, steps, r, t);
    FewLooks(job, s, t);
  }

  /** Once all threads have finished, the saver does not wait in vain. */
  lemma SaverFinds(job: Job, s: State)
    requires Inv(job, s) && job.threadCount > 0 && |s.threads| == job.threadCount && !s.saver.Closed?
    requires forall t :: 0 <= t < |s.threads| ==> s.threads[t].pc.Finished?
    ensures !(s.saver.Waiting? && s.stack == [])
  {
    SaverCanMove(job, s);
  }

  // ---- fair runs ----

  /** The stretches, each with the state it ends in, follow one another from s to r. */
  ghost predicate FairRun(job: Job, s: State, stretches: seq<(seq<Step>, State)>, r: State)
    decreases |stretches|
  {
    if stretches == [] then r == s
    else
      var (steps, mid) := stretches[0];
      Fair(job, s, steps, mid) && Leads(job, s, steps, mid) && FairRun(job, mid, stretches[1..], r)
  }

  lemma OverIsOver(job: Job, s: State, step: Step)
    requires Inv(job, s) && Over(job, s)
    ensures !Enabled(job, s, step)
  {
  }

  /** Each stretch of a fair run uses up work, until the download is over. */
  lemma {:induction false} FairRunWorks(job: Job, s: State, stretches: seq<(seq<Step>, State)>, r: State)
    requires Inv(job, s) && job.threadCount > 0 && FairRun(job, s, stretches, r)
    ensures Inv(job, r)
    ensures Over(job, r) || |stretches| + Work(job, r) <= Work(job, s)
    ensures Over(job, s) ==> Over(job, r)
    decreases |stretches|
  {
    if stretches == [] {
    } else {
      var (steps, mid) := stretches[0];
      if Over(job, s) {
        if steps != [] {
          OverIsOver(job, s, steps[0]);
        }
      } else {
        FairStretchProgresses(job, s, steps, mid);
        ProgressBoundedFrom(job, s, steps, mid);
      }
      FairRunWorks(job, mid, stretches[1..], r);
    }
  }

  /** Only download() creates threads, and only the saver leaves its loop. */
  lemma {:induction false} WhoMoved(job: Job, s: State, steps: seq<Step>, r: State)
    requires Leads(job, s, steps, r)
    ensures |s.threads| < |r.threads| ==> Count(steps, IsMain) > 0
    ensures r.saver.Closed? && !s.saver.Closed? ==> Count(steps, IsSave) > 0
    decreases |steps|
  {
    if steps == [] {
    } else {
      WhoMoved(job, Next(job, s, steps[0]), steps[1..], r);
    }
  }

  /** From every reachable state there is a fair stretch, even one that ends the download. */
  lemma FairStretchExists(job: Job, s: State)
    requires job.Valid() && Reachable(job, s) && job.threadCount > 0
    ensures exists steps, r :: Leads(job, s, steps, r) && Fair(job, s, steps, r) && Over(job, r)
  {
    CanAlwaysFinish(job, s);
    var steps, r :| Leads(job, s, steps, r) && Over(job, r);
    FinishingIsFair(job, s, steps, r);
  }

  /** A run that ends the download is fair as a whole. */
  lemma FinishingIsFair(job: Job, s: State, steps: seq<Step>, r: State)
    requires Leads(job, s, steps, r) && Over(job, r)
    ensures Fair(job, s, steps, r)
  {
    WhoMoved(job, s, steps, r);
    ThreadsStay(job, s, steps, r);
  }

  lemma {:induction false} ThreadsStay(job: Job, s: State, steps: seq<Step>, r: State)
    requires Leads(job, s, steps, r)
    ensures |s.threads| <= |r.threads|
    decreases |steps|
  {
    if steps == [] {
    } else {
      ThreadsStay(job, Next(job, s, steps[0]), steps[1..], r);
    }
  }

  /** Every download with at least one thread and finitely many failures that is run fairly for
      long enough is over, with the shared state released once, and with the right file on disk
      exactly if nothing was lost in answers cut short. */
  lemma FairDownloadCompletes(job: Job, failures: nat, stretches: seq<(seq<Step>, State)>, r: State)
    requires job.Valid() && job.threadCount > 0 && FairRun(job, Initial(job, failures), stretches, r)
    requires |stretches| > job.threadCount * (9 + job.threadCount) + 9 * |job.plan| + 2 + 5 * failures
    ensures Over(job, r) && r.releases == 1
    ensures |r.got| == |job.plan| && (r.disk == job.source <==> NothingLost(job, r.got))
  {
    var s := Initial(job, failures);
    InitialInv(job, failures);
    ProgressBounded(job, failures, [], s);
    FairRunWorks(job, s, stretches, r);
    ClosedFileIsSourceIff(job, r);
    AllFinishedReleases(job, r);
  }
}
