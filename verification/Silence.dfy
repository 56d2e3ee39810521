/** A peer does not report its own downloads, and still reports what its user does: the marks of the
    downloads and the filter of the monitor together. */
module Silence {
  import opened CStrings
  import opened Sequences
  import opened Table
  import opened EventQueues
  import opened Reconciles
  import opened Settling

  /** At any time in any run, with downloads completing in between, there is at most one download of
      a path, and its path is marked. */
  lemma {:induction false} StaysTidy(s: Local, part: seq<Chore>, now: int, moves: seq<Move>, r: Local)
    requires Tidy(s) && Interleaved(s, part, now, moves, r)
    ensures Tidy(r)
    decreases |moves|
  {
    if moves == [] {
    } else {
      match moves[0]
      case GoOn =>
        TidyAfterChore(s, part[0], now);
        StaysTidy(Do(s, part[0], now), part[1..], now, moves[1..], r);
      case Ends(k) =>
        TidyAfterEnd(s, k);
        StaysTidy(Complete(s, k), part, now, moves[1..], r);
    }
  }

  lemma TidyAfterChore(s: Local, a: Chore, now: int)
    requires Tidy(s)
    ensures Tidy(Do(s, a, now))
  {
  }

  /** What the monitor would queue of a batch at that time: no creation or change of a path that is
      being downloaded; each deletion of it by the user, unless the peer is deleting it itself; and
      all events of what is neither hidden nor marked. */
  lemma OwnWritesAreSilent(s: Local, part: seq<Chore>, now: int, moves: seq<Move>, r: Local,
                           raw: seq<Option<Event>>, deleting: multiset<string>, e: Event)
    requires Tidy(s) && Interleaved(s, part, now, moves, r)
    ensures var n := multiset(Unignored(Reverse(Decoded(raw)), r.ignoreModify, deleting))[e];
      && ((exists x :: x in r.started && x.file.path == e.file.path) && (e.action.Created? || e.action.Modified?) ==>
            n == 0)
      && (e.action.Deleted? && !IsDotfile(e.file.path) && e.file.path !in deleting ==> n == multiset(raw)[Some(e)])
      && (!IsDotfile(e.file.path) && e.file.path !in r.ignoreModify && e.file.path !in deleting ==>
            n == multiset(raw)[Some(e)])
  {
    StaysTidy(s, part, now, moves, r);
    BatchExactly(raw, r.ignoreModify, deleting, e);
  }
}
