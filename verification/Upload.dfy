/** The uploader's side of a connection (upload_download/upload.c): requests are answered until
    the end marker comes, a file cannot be opened, or the other side is gone. */
module Upload {
  import opened Segmentation
  import opened Table
  import opened Transfer

  /** A SequenceInfo, the path in the FileInfo_FS that follows it, and whether the answer can be
      written to the connection. */
  datatype Request = Request(init: int, length: nat, path: string, delivered: bool)

  const END_MARKER := -1

  /** The answer to one request, if there is one. A seek to a negative offset fails and leaves the
      file at its beginning. */
  function AnswerTo(files: map<string, seq<Byte>>, q: Request): Option<seq<Byte>> {
    if q.init == END_MARKER || q.path !in files || !q.delivered then None
    else Some(Answer(files[q.path], if q.init < 0 then 0 else q.init, q.length))
  }

  /** The answers to a stream of requests. */
  function Served(files: map<string, seq<Byte>>, requests: seq<Request>): seq<seq<Byte>> {
    if requests == [] then []
    else match AnswerTo(files, requests[0])
         case None => []
         case Some(answer) => [answer] + Served(files, requests[1..])
  }

  /** The body of the loop of send_file(), for a request that has been read. */
  method AnswerRequest(files: map<string, seq<Byte>>, seqInf: Request) returns (answer: Option<seq<Byte>>)
    ensures answer == AnswerTo(files, seqInf)
  {
    if seqInf.init == END_MARKER {
      return None;
    }
    if seqInf.path !in files {
      return None;
    }
    var position := if seqInf.init < 0 then 0 else seqInf.init;
    var buf := ReadSegment(files[seqInf.path], position, seqInf.length);
    if !seqInf.delivered {
      return None;
    }
    return Some(buf[..]);
  }

  /** The answer to a request is the stretch of the file it names: the bytes from its offset on, or
      from the beginning if the offset is negative, and zeros where the file has ended. */
  ghost predicate IsStretch(file: seq<Byte>, q: Request, answer: seq<Byte>) {
    && |answer| == q.length
    && forall k :: 0 <= k < q.length ==>
         var at := (if q.init < 0 then 0 else q.init) + k;
         answer[k] == (if at < |file| then file[at] else 0)
  }

  /** These requests are answered up to the first that is the end marker, names a file that is not
      there, or whose answer cannot be written; nothing is sent for that one or after it. */
  lemma {:induction false} ServedExactly(files: map<string, seq<Byte>>, requests: seq<Request>)
    ensures var sent := Served(files, requests); var n := |sent|;
      && n <= |requests|
      && (n < |requests| ==>
            requests[n].init == -1 || requests[n].path !in files || !requests[n].delivered)
      && forall i :: 0 <= i < n ==>
           && requests[i].init != -1 && requests[i].path in files && requests[i].delivered
           && IsStretch(files[requests[i].path], requests[i], sent[i])
  {
    if requests == [] {
    } else if AnswerTo(files, requests[0]).Some? {
      ServedExactly(files, requests[1..]);
      var sent := Served(files, requests);
      assert forall i :: 1 <= i < |sent| ==> requests[i] == requests[1..][i - 1];
    }
  }

  /** send_file() */
  method SendFile(files: map<string, seq<Byte>>, requests: seq<Request>) returns (sent: seq<seq<Byte>>)
    ensures sent == Served(files, requests)
    ensures |sent| <= |requests|
    ensures |sent| < |requests| ==>
              var q := requests[|sent|]; q.init == -1 || q.path !in files || !q.delivered
    ensures forall i :: 0 <= i < |sent| ==>
              && requests[i].init != -1 && requests[i].path in files && requests[i].delivered
              && IsStretch(files[requests[i].path], requests[i], sent[i])
  {
    ServedExactly(files, requests);
    sent := [];
    var rest := requests;
    while rest != []
      invariant Served(files, requests) == sent + Served(files, rest)
      decreases |rest|
    {
      var answer := AnswerRequest(files, rest[0]);
      if answer.None? {
        break;
      }
      rest := rest[1..];
      sent := sent + [answer.value];
    }
  }

  function RequestFor(path: string, s: Segment): Request {
    Request(s.init, if s.length < 0 then 0 else s.length, path, true)
  }

  /** The requests for these segments, the end marker, and what follows it. */
  function Session(path: string, plan: seq<Segment>, later: seq<Request>): seq<Request> {
    if plan == [] then [Request(END_MARKER, 0, path, true)] + later
    else [RequestFor(path, plan[0])] + Session(path, plan[1..], later)
  }

  function Concat(pieces: seq<seq<Byte>>): seq<Byte> {
    if pieces == [] then [] else pieces[0] + Concat(pieces[1..])
  }

  lemma ServeOne(files: map<string, seq<Byte>>, path: string, plan: seq<Segment>, k: nat, rest: seq<Request>)
    requires path in files && Tiles(plan, |files[path]|) && k < |plan|
    ensures Concat(Served(files, [RequestFor(path, plan[k])] + rest)) ==
            files[path][plan[k].init..plan[k].End()] + Concat(Served(files, rest))
  {
    var s := plan[k];
    var all := [RequestFor(path, s)] + rest;
    assert all[0] == RequestFor(path, s) && all[1..] == rest;
    AnswerInside(files[path], s.init, s.length);
    var pieces := Served(files, all);
    assert pieces[0] == files[path][s.init..s.End()] && pieces[1..] == Served(files, rest);
  }

  lemma {:induction false} RestServed(files: map<string, seq<Byte>>, path: string, plan: seq<Segment>,
                                      later: seq<Request>, k: nat)
    requires path in files && Tiles(plan, |files[path]|) && k < |plan|
    ensures Concat(Served(files, Session(path, plan[k..], later))) == files[path][plan[k].init..]
    decreases |plan| - k
  {
    var file := files[path];
    assert plan[k..][0] == plan[k] && plan[k..][1..] == plan[k + 1..];
    ServeOne(files, path, plan, k, Session(path, plan[k + 1..], later));
    if k + 1 < |plan| {
      RestServed(files, path, plan, later, k + 1);
    } else {
      assert Served(files, Session(path, plan[k + 1..], later)) == [];
    }
    assert file[plan[k].init..] == file[plan[k].init..plan[k].End()] + file[plan[k].End()..];
  }

  /** Asked for the segments of a file one after the other, the uploader sends the file, and
      nothing that comes after the end marker. */
  lemma PlanServed(files: map<string, seq<Byte>>, path: string, plan: seq<Segment>, later: seq<Request>)
    requires path in files && Tiles(plan, |files[path]|)
    ensures Concat(Served(files, Session(path, plan, later))) == files[path]
  {
    if plan != [] {
      RestServed(files, path, plan, later, 0);
      assert plan[0..] == plan;
    }
  }
}
