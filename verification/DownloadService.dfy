/** The two ends of a connection together: what a thread of a download receives is what the
    uploader sends for the requests that this thread makes. */
module DownloadService {
  import opened Download
  import opened DownloadInvariant
  import opened Segmentation
  import opened Transfer
  import opened Upload

  /** What thread t writes to its socket in these steps. */
  ghost function Asked(job: Job, s: State, steps: seq<Step>, t: nat, path: string): seq<Request>
    decreases |steps|
  {
    if steps == [] || !Enabled(job, s, steps[0]) then []
    else AskedNow(job, s, steps[0], t, path) + Asked(job, Next(job, s, steps[0]), steps[1..], t, path)
  }

  /** A request for a segment, or at the end the sequence of segment 0 as it is then. */
  ghost function AskedNow(job: Job, s: State, step: Step, t: nat, path: string): seq<Request>
    requires Enabled(job, s, step)
  {
    if !step.Advance? || step.t != t then []
    else
      match s.threads[t].pc
      case Requesting(cur, _, _) =>
        if step.net.Fails? then [] else [RequestFor(path, Segment(s.initSeg[cur], job.plan[cur].length))]
      case Ending => if |job.plan| > 0 then [RequestFor(path, Segment(s.initSeg[0], job.plan[0].length))] else []
      case _ => []
  }

  /** What it reads from its socket. */
  ghost function Answers(job: Job, s: State, steps: seq<Step>, t: nat): seq<seq<Byte>>
    decreases |steps|
  {
    if steps == [] || !Enabled(job, s, steps[0]) then []
    else AnswerNow(job, s, steps[0], t) + Answers(job, Next(job, s, steps[0]), steps[1..], t)
  }

  ghost function AnswerNow(job: Job, s: State, step: Step, t: nat): seq<seq<Byte>>
    requires Enabled(job, s, step)
  {
    if step.Advance? && step.t == t && Next(job, s, step).threads[t].pc.Pushing?
    then [Next(job, s, step).threads[t].pc.buf]
    else []
  }

  /** No call of thread t fails and none of its answers is cut short. */
  ghost predicate Faultless(steps: seq<Step>, t: nat) {
    forall k :: 0 <= k < |steps| && steps[k].Advance? && steps[k].t == t ==> steps[k].net.Fine?
  }

  /** The request that thread t has made and not had answered. */
  ghost function Outstanding(s: State, t: nat, path: string): seq<Request> {
    if t < |s.threads| && s.threads[t].pc.Receiving? then [RequestFor(path, s.threads[t].pc.asked)] else []
  }

  ghost function OutstandingAnswer(job: Job, s: State, t: nat): seq<seq<Byte>>
    requires job.Valid() && Shape(job, s)
  {
    if t < |s.threads| && s.threads[t].pc.Receiving? then [job.Content(s.threads[t].pc.cur)] else []
  }

  /** The thread is past its last request. */
  predicate Silent(pc: Pc) { pc.Leaving? || pc.Releasing? || pc.Finished? }

  /** A thread that is about to send the end marker finds it in segment 0. */
  ghost predicate Marked(s: State, t: nat) {
    t < |s.threads| && s.threads[t].pc.Ending? ==> |s.initSeg| > 0 && s.initSeg[0] == -1
  }

  lemma MarkedStep(job: Job, s: State, step: Step, t: nat)
    requires job.Valid() && Enabled(job, s, step) && Marked(s, t)
    ensures Marked(Next(job, s, step), t)
  {
    match step
    case Advance(u, net) => OffsetsEffect(job, s, u, net);
    case _ =>
  }

  /** A step of somebody else. */
  lemma OtherStep(job: Job, s: State, step: Step, t: nat)
    requires Enabled(job, s, step) && !(step.Advance? && step.t == t) && !(step.Exhaust? && step.t == t)
    ensures var s' := Next(job, s, step);
      t < |s.threads| ==> t < |s'.threads| && s'.threads[t] == s.threads[t]
    ensures var s' := Next(job, s, step);
      t >= |s.threads| && t < |s'.threads| ==> s'.threads[t].pc.Claiming?
  {
    match step
    case Advance(u, net) => AdvanceShape(job, s, u, net);
    case _ =>
  }

  lemma SilentStep(job: Job, s: State, step: Step, t: nat, path: string)
    requires Inv(job, s) && Enabled(job, s, step) && t < |s.threads| && Silent(s.threads[t].pc)
    ensures t < |Next(job, s, step).threads| && Silent(Next(job, s, step).threads[t].pc)
    ensures AskedNow(job, s, step, t, path) == [] && AnswerNow(job, s, step, t) == []
  {
    if !(step.Advance? && step.t == t) && !(step.Exhaust? && step.t == t) {
      OtherStep(job, s, step, t);
    }
  }

  lemma {:induction false} SilentStays(job: Job, s: State, steps: seq<Step>, r: State, t: nat, path: string)
    requires Inv(job, s) && Leads(job, s, steps, r) && t < |s.threads| && Silent(s.threads[t].pc)
    ensures Asked(job, s, steps, t, path) == [] && Answers(job, s, steps, t) == []
    ensures t < |r.threads| && Silent(r.threads[t].pc)
    decreases |steps|
  {
    if steps == [] {
    } else {
      NextKeeps(job, s, steps[0]);
      SilentStep(job, s, steps[0], t, path);
      SilentStays(job, Next(job, s, steps[0]), steps[1..], r, t, path);
    }
  }

  /** The answer that a request for a whole segment gets. */
  lemma ServedFirst(job: Job, path: string, i: nat, rest: seq<Request>)
    requires job.Valid() && i < |job.plan|
    ensures var files := map[path := job.source];
      Served(files, [RequestFor(path, job.plan[i])] + rest) == [job.Content(i)] + Served(files, rest)
  {
    var q := RequestFor(path, job.plan[i]);
    assert ([q] + rest)[0] == q && ([q] + rest)[1..] == rest;
    AnswerInside(job.source, job.plan[i].init, job.plan[i].length);
  }

  lemma ServedEnd(files: map<string, seq<Byte>>, q: Request, rest: seq<Request>)
    requires q.init == END_MARKER
    ensures Served(files, [q] + rest) == []
  {
    assert ([q] + rest)[0] == q;
  }

  /** Thread t reads the answer to its request. */
  lemma OwnAnswer(job: Job, s: State, t: nat, path: string)
    requires Inv(job, s) && Enabled(job, s, Advance(t, Fine)) && s.threads[t].pc.Receiving?
    ensures var step := Advance(t, Fine); var s' := Next(job, s, step); var pc := s.threads[t].pc;
      && t < |s'.threads| && !s'.threads[t].pc.Receiving?
      && pc.cur < |job.plan| && pc.asked == job.plan[pc.cur]
      && AskedNow(job, s, step, t, path) == [] && AnswerNow(job, s, step, t) == [job.Content(pc.cur)]
  {
    assert InFlight(job, s.got, s.threads[t].pc);
    GotEffect(job, s, t, Fine);
    var cur := s.threads[t].pc.cur;
    assert Received(job.Content(cur), job.plan[cur].length) == job.Content(cur);
  }

  lemma OwnRequest(job: Job, s: State, t: nat, path: string)
    requires Enabled(job, s, Advance(t, Fine)) && s.threads[t].pc.Requesting?
    ensures var step := Advance(t, Fine); var s' := Next(job, s, step);
      && t < |s'.threads| && s'.threads[t].pc.Receiving? && AnswerNow(job, s, step, t) == []
      && AskedNow(job, s, step, t, path) == [RequestFor(path, s'.threads[t].pc.asked)]
  {
  }

  lemma OwnEnd(job: Job, s: State, t: nat, path: string) returns (q: Request)
    requires Inv(job, s) && Enabled(job, s, Advance(t, Fine)) && s.threads[t].pc.Ending? && Marked(s, t)
    ensures var step := Advance(t, Fine); var s' := Next(job, s, step);
      && t < |s'.threads| && Silent(s'.threads[t].pc) && AnswerNow(job, s, step, t) == []
      && AskedNow(job, s, step, t, path) == [q] && q.init == END_MARKER
  {
    q := RequestFor(path, Segment(s.initSeg[0], job.plan[0].length));
  }

  lemma OwnOther(job: Job, s: State, t: nat, path: string)
    requires Enabled(job, s, Advance(t, Fine))
    requires !s.threads[t].pc.Receiving? && !s.threads[t].pc.Requesting? && !s.threads[t].pc.Ending?
    ensures var step := Advance(t, Fine); var s' := Next(job, s, step);
      && t < |s'.threads| && !s'.threads[t].pc.Receiving?
      && AskedNow(job, s, step, t, path) == [] && AnswerNow(job, s, step, t) == []
  {
  }

  /** The claim of ServedFrom for what comes after a step. */
  ghost predicate ServedAfter(job: Job, s: State, asked: seq<Request>, answers: seq<seq<Byte>>, t: nat, path: string) {
    Served(map[path := job.source], Outstanding(s, t, path) + asked) == answers
  }

  lemma OwnServed(job: Job, s: State, asked: seq<Request>, answers: seq<seq<Byte>>, t: nat, path: string)
    requires Inv(job, s) && Enabled(job, s, Advance(t, Fine)) && Marked(s, t)
    requires ServedAfter(job, Next(job, s, Advance(t, Fine)), asked, answers, t, path)
    requires s.threads[t].pc.Ending? ==> answers == []
    ensures ServedAfter(job, s, AskedNow(job, s, Advance(t, Fine), t, path) + asked,
                        AnswerNow(job, s, Advance(t, Fine), t) + answers, t, path)
  {
    var files, pc := map[path := job.source], s.threads[t].pc;
    if pc.Receiving? {
      OwnAnswer(job, s, t, path);
      ServedFirst(job, path, pc.cur, asked);
      assert [] + asked == asked;
    } else if pc.Requesting? {
      OwnRequest(job, s, t, path);
      var now := AskedNow(job, s, Advance(t, Fine), t, path);
      assert [] + (now + asked) == now + asked && [] + answers == answers;
    } else if pc.Ending? {
      var q := OwnEnd(job, s, t, path);
      ServedEnd(files, q, asked);
      assert [] + ([q] + asked) == [q] + asked;
    } else {
      OwnOther(job, s, t, path);
      assert [] + asked == asked && [] + answers == answers;
    }
  }

  lemma OtherServed(job: Job, s: State, step: Step, asked: seq<Request>, answers: seq<seq<Byte>>, t: nat, path: string)
    requires Inv(job, s) && Enabled(job, s, step) && !(step.Advance? && step.t == t)
    requires ServedAfter(job, Next(job, s, step), asked, answers, t, path)
    ensures ServedAfter(job, s, AskedNow(job, s, step, t, path) + asked, AnswerNow(job, s, step, t) + answers, t, path)
  {
    if step.Exhaust? && step.t == t {
      ClaimerFindsSlot(job, s, t);
    } else {
      OtherStep(job, s, step, t);
    }
    assert [] + asked == asked && [] + answers == answers;
  }

  lemma ServedStep(job: Job, s: State, step: Step, rest: seq<Step>, r: State, t: nat, path: string)
    requires Inv(job, s) && Enabled(job, s, step) && Marked(s, t) && Inv(job, r) && Inv(job, Next(job, s, step))
    requires step.Advance? && step.t == t ==> step.net.Fine?
    requires Leads(job, Next(job, s, step), rest, r)
    requires var s' := Next(job, s, step);
      var answers := Answers(job, s', rest, t) + OutstandingAnswer(job, r, t);
      ServedAfter(job, s', Asked(job, s', rest, t, path), answers, t, path)
    ensures var s' := Next(job, s, step);
      ServedAfter(job, s, AskedNow(job, s, step, t, path) + Asked(job, s', rest, t, path),
                  AnswerNow(job, s, step, t) + (Answers(job, s', rest, t) + OutstandingAnswer(job, r, t)), t, path)
  {
    var s' := Next(job, s, step);
    var asked, answers := Asked(job, s', rest, t, path), Answers(job, s', rest, t) + OutstandingAnswer(job, r, t);
    if step.Advance? && step.t == t {
      if s.threads[t].pc.Ending? {
        var q := OwnEnd(job, s, t, path);
        SilentStays(job, s', rest, r, t, path);
      }
      OwnServed(job, s, asked, answers, t, path);
    } else {
      OtherServed(job, s, step, asked, answers, t, path);
    }
  }

  lemma ServedNow(job: Job, s: State, t: nat, path: string)
    requires Inv(job, s)
    ensures ServedAfter(job, s, [], [] + OutstandingAnswer(job, s, t), t, path)
  {
    if t < |s.threads| && s.threads[t].pc.Receiving? {
      assert InFlight(job, s.got, s.threads[t].pc);
      ServedFirst(job, path, s.threads[t].pc.cur, []);
    }
  }

  /** From any state on: the uploader's answers to what is outstanding and still to be asked are
      what the thread still reads. */
  lemma {:induction false} ServedFrom(job: Job, s: State, steps: seq<Step>, r: State, t: nat, path: string)
    requires Inv(job, s) && Leads(job, s, steps, r) && Faultless(steps, t) && Marked(s, t)
    ensures Inv(job, r)
    ensures ServedAfter(job, s, Asked(job, s, steps, t, path), Answers(job, s, steps, t) + OutstandingAnswer(job, r, t),
                        t, path)
    decreases |steps|
  {
    if steps == [] {
      ServedNow(job, s, t, path);
    } else {
      var step, rest := steps[0], steps[1..];
      var s' := Next(job, s, step);
      NextKeeps(job, s, step);
      MarkedStep(job, s, step, t);
      FaultlessRest(steps, t);
      ServedFrom(job, s', rest, r, t, path);
      ServedStep(job, s, step, rest, r, t, path);
      AppendTwice(AnswerNow(job, s, step, t), Answers(job, s', rest, t), OutstandingAnswer(job, r, t));
    }
  }

  lemma FaultlessRest(steps: seq<Step>, t: nat)
    requires steps != [] && Faultless(steps, t)
    ensures Faultless(steps[1..], t) && (steps[0].Advance? && steps[0].t == t ==> steps[0].net.Fine?)
  {
    assert forall k :: 0 <= k < |steps[1..]| ==> steps[1..][k] == steps[k + 1];
  }

  lemma AppendTwice<T>(a: seq<T>, b: seq<T>, c: seq<T>)
    ensures a + b + c == a + (b + c)
  {
  }

  /** In every run, what a thread whose calls do not fail has read from its socket, and the answer it
      is still waiting for, is what the uploader's loop sends for what the thread has written. */
  lemma ThreadIsServed(job: Job, failures: nat, steps: seq<Step>, r: State, t: nat, path: string)
    requires job.Valid() && Leads(job, Initial(job, failures), steps, r) && Faultless(steps, t)
    ensures Shape(job, r)
    ensures Served(map[path := job.source], Asked(job, Initial(job, failures), steps, t, path)) ==
            Answers(job, Initial(job, failures), steps, t) + OutstandingAnswer(job, r, t)
  {
    var s := Initial(job, failures);
    InitialInv(job, failures);
    ServedFrom(job, s, steps, r, t, path);
    assert [] + Asked(job, s, steps, t, path) == Asked(job, s, steps, t, path);
  }
}
