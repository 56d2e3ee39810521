/** What the tracker's tables are by what has happened: each connection, the table and whom it
    lists, read off the steps taken, without the state they led through. */
module TrackerHistory {
  import opened CStrings
  import opened Table
  import opened TableLaws
  import opened MergeLaws
  import opened History
  import opened TrackerProtocol

  /** A step, and the number of the connection that takes it; connections are numbered as they are
      accepted. */
  datatype Act = Act(id: nat, step: Step)

  function Accepts(acts: seq<Act>): nat {
    if acts == [] then 0
    else Accepts(acts[..|acts| - 1]) + if acts[|acts| - 1].step.Accept? then 1 else 0
  }

  ghost predicate TakenBy(prior: seq<Act>, s: State, a: Act)
    requires Enabled(s, a.step)
  {
    match a.step
    case Accept(_) => a.id == Accepts(prior)
    case Register(k, _, _, _) => a.id == s.members[k].id
    case Update(k, _, _) => a.id == s.members[k].id
    case KeepAlive(k, _) => a.id == s.members[k].id
    case HangUp(k) => a.id == s.members[k].id
    case Sweep(_) => true
  }

  /** The steps lead from the beginning to s. */
  ghost predicate Ran(acts: seq<Act>, s: State)
    decreases |acts|
  {
    if acts == [] then s == INITIAL
    else
      var m := |acts| - 1;
      exists p :: Ran(acts[..m], p) && Enabled(p, acts[m].step) && TakenBy(acts[..m], p, acts[m])
                  && s == Next(p, acts[m].step)
  }

  // ---- a connection, by the steps ----

  function IpOf(acts: seq<Act>, id: nat): string {
    if acts == [] then ""
    else
      var a := acts[|acts| - 1];
      if a.id == id && a.step.Accept? then a.step.ip else IpOf(acts[..|acts| - 1], id)
  }

  /** The port that the last registration announced. */
  function PortOf(acts: seq<Act>, id: nat): int {
    if acts == [] then 0
    else
      var a := acts[|acts| - 1];
      if a.id == id && a.step.Accept? then 0
      else if a.id == id && a.step.Register? then a.step.port
      else PortOf(acts[..|acts| - 1], id)
  }

  /** The time of the last message of any kind; without one it is that of a zeroed struct. */
  function HeardAt(acts: seq<Act>, id: nat): int {
    if acts == [] then 0
    else
      var a := acts[|acts| - 1];
      if a.id != id then HeardAt(acts[..|acts| - 1], id)
      else
        match a.step
        case Accept(_) => 0
        case Register(_, _, _, now) => now
        case Update(_, _, now) => now
        case KeepAlive(_, now) => now
        case _ => HeardAt(acts[..|acts| - 1], id)
  }

  function PhaseOf(acts: seq<Act>, id: nat): Phase {
    if acts == [] then Accepted
    else
      var a := acts[|acts| - 1];
      if a.id == id && a.step.Accept? then Accepted
      else if a.id == id && a.step.Register? then Registered
      else if a.id == id && a.step.HangUp? then HungUp
      else PhaseOf(acts[..|acts| - 1], id)
  }

  function AddressOf(acts: seq<Act>, id: nat): Addr { Addr(IpOf(acts, id), PortOf(acts, id)) }

  /** The connection has been accepted, and whenever the tracker swept since then, at most five
      seconds had passed since its last message. */
  ghost predicate Stays(acts: seq<Act>, id: nat) {
    exists i :: 0 <= i < |acts| && acts[i].id == id && acts[i].step.Accept? && AllowedSince(acts, i, id)
  }

  ghost predicate AllowedSince(acts: seq<Act>, i: nat, id: nat) {
    forall j :: i < j < |acts| && acts[j].step.Sweep? ==> acts[j].step.now - HeardAt(acts[..j], id) <= 5
  }

  lemma StaysStep(acts: seq<Act>, id: nat)
    requires acts != []
    ensures var m := |acts| - 1; var a := acts[m];
      Stays(acts, id) <==>
      if a.step.Sweep? then Stays(acts[..m], id) && a.step.now - HeardAt(acts[..m], id) <= 5
      else (a.id == id && a.step.Accept?) || Stays(acts[..m], id)
  {
    var m := |acts| - 1;
    var prior := acts[..m];
    forall i | 0 <= i < m
      ensures AllowedSince(acts, i, id) <==>
              AllowedSince(prior, i, id) && (acts[m].step.Sweep? ==> acts[m].step.now - HeardAt(prior, id) <= 5)
    {
      assert forall j :: i < j < m ==> acts[j] == prior[j] && acts[..j] == prior[..j];
      if AllowedSince(acts, i, id) {
        forall j | i < j < m && prior[j].step.Sweep?
          ensures prior[j].step.now - HeardAt(prior[..j], id) <= 5
        {
          assert acts[j].step.Sweep?;
        }
      }
    }
    if Stays(acts, id) {
      var i :| 0 <= i < |acts| && acts[i].id == id && acts[i].step.Accept? && AllowedSince(acts, i, id);
      assert i < m ==> prior[i] == acts[i];
    }
    if Stays(prior, id) {
      var i :| 0 <= i < |prior| && prior[i].id == id && prior[i].step.Accept? && AllowedSince(prior, i, id);
      assert acts[i] == prior[i];
    }
    if acts[m].id == id && acts[m].step.Accept? {
      assert AllowedSince(acts, m, id);
    }
  }

  function MemberOf(acts: seq<Act>, id: nat): Member {
    Member(id, IpOf(acts, id), PortOf(acts, id), HeardAt(acts, id), PhaseOf(acts, id))
  }

  /** The latest connection comes first. */
  ghost predicate Descending(members: seq<Member>) {
    forall i, j :: 0 <= i < j < |members| ==> members[i].id > members[j].id
  }

  /** The members are the connections with smaller numbers than n that stay. */
  ghost predicate AreThose(members: seq<Member>, acts: seq<Act>, n: nat) {
    && Descending(members)
    && (forall m :: m in members ==> m.id < n && Stays(acts, m.id) && m == MemberOf(acts, m.id))
    && (forall id: nat :: id < n && Stays(acts, id) ==> MemberOf(acts, id) in members)
  }

  ghost predicate Matches(acts: seq<Act>, s: State) {
    && s.accepted == Accepts(acts) && AreThose(s.members, acts, Accepts(acts))
    && forall id: nat :: Stays(acts, id) ==> id < Accepts(acts)
  }

  /** A step does not change what the steps say of the other connections, but a sweep may end their
      stay. */
  lemma OtherConnection(acts: seq<Act>, id: nat)
    requires acts != [] && (acts[|acts| - 1].id != id || acts[|acts| - 1].step.Sweep?)
    ensures MemberOf(acts, id) == MemberOf(acts[..|acts| - 1], id)
    ensures !acts[|acts| - 1].step.Sweep? ==> Stays(acts, id) == Stays(acts[..|acts| - 1], id)
  {
    StaysStep(acts, id);
  }

  lemma MatchesAccept(acts: seq<Act>, p: State)
    requires acts != [] && Matches(acts[..|acts| - 1], p)
    requires var a := acts[|acts| - 1];
      a.step.Accept? && Enabled(p, a.step) && TakenBy(acts[..|acts| - 1], p, a)
    ensures Matches(acts, Next(p, acts[|acts| - 1].step))
  {
    var m := |acts| - 1;
    var prior, id, s := acts[..m], acts[m].id, Next(p, acts[m].step);
    assert s.members == [MemberOf(acts, id)] + p.members;
    StaysStep(acts, id);
    forall x: nat | x != id
      ensures MemberOf(acts, x) == MemberOf(prior, x) && Stays(acts, x) == Stays(prior, x)
    {
      OtherConnection(acts, x);
    }
    forall i | 0 <= i < |p.members|
      ensures p.members[i].id < id
    {
      assert p.members[i] in p.members;
    }
  }

  /** The steps say the same of every connection but one. */
  ghost predicate AlikeBut(prior: seq<Act>, acts: seq<Act>, id: nat) {
    forall x: nat :: Stays(acts, x) == Stays(prior, x) && (x != id ==> MemberOf(acts, x) == MemberOf(prior, x))
  }

  lemma ReplacedDescending(members: seq<Member>, k: nat, m: Member)
    requires Descending(members) && k < |members| && m.id == members[k].id
    ensures Descending(members[k := m])
    ensures forall x :: x in members[k := m] ==> x == m || (x in members && x.id != m.id)
    ensures m in members[k := m] && forall x :: x in members && x.id != m.id ==> x in members[k := m]
  {
    var after := members[k := m];
    assert after[k] == m;
    forall x | x in after
      ensures x == m || (x in members && x.id != m.id)
    {
      var i :| 0 <= i < |after| && after[i] == x;
      assert i != k ==> members[i] == x;
    }
    forall x | x in members && x.id != m.id
      ensures x in after
    {
      var i :| 0 <= i < |members| && members[i] == x;
      assert after[i] == x;
    }
  }

  /** The member that takes the step is replaced. */
  lemma Replaced(members: seq<Member>, prior: seq<Act>, acts: seq<Act>, n: nat, k: nat)
    requires AreThose(members, prior, n) && k < |members| && AlikeBut(prior, acts, members[k].id)
    ensures AreThose(members[k := MemberOf(acts, members[k].id)], acts, n)
  {
    assert members[k] in members;
    ReplacedDescending(members, k, MemberOf(acts, members[k].id));
  }

  lemma MatchesChange(acts: seq<Act>, p: State, k: nat)
    requires acts != [] && Matches(acts[..|acts| - 1], p) && k < |p.members| && acts[|acts| - 1].id == p.members[k].id
    requires !acts[|acts| - 1].step.Accept? && !acts[|acts| - 1].step.Sweep?
    ensures AreThose(p.members[k := MemberOf(acts, p.members[k].id)], acts, Accepts(acts))
    ensures Accepts(acts) == p.accepted && forall id: nat :: Stays(acts, id) ==> id < Accepts(acts)
  {
    var prior, id := acts[..|acts| - 1], p.members[k].id;
    forall x: nat
      ensures Stays(acts, x) == Stays(prior, x) && (x != id ==> MemberOf(acts, x) == MemberOf(prior, x))
    {
      StaysStep(acts, x);
      if x != id {
        OtherConnection(acts, x);
      }
    }
    Replaced(p.members, prior, acts, p.accepted, k);
  }

  lemma MatchesStep(acts: seq<Act>, p: State, k: nat)
    requires acts != [] && Matches(acts[..|acts| - 1], p) && k < |p.members|
    requires var a := acts[|acts| - 1];
      && Enabled(p, a.step) && TakenBy(acts[..|acts| - 1], p, a)
      && match a.step
         case Register(j, _, _, _) => j == k
         case Update(j, _, _) => j == k
         case KeepAlive(j, _) => j == k
         case HangUp(j) => j == k
         case _ => false
    ensures Matches(acts, Next(p, acts[|acts| - 1].step))
  {
    assert p.members[k] in p.members;
    MatchesChange(acts, p, k);
    assert Next(p, acts[|acts| - 1].step).members == p.members[k := MemberOf(acts, p.members[k].id)];
  }

  lemma {:induction false} KeptDescending(members: seq<Member>, now: int)
    requires Descending(members)
    ensures Descending(Kept(members, now))
  {
    if members == [] {
    } else {
      var rest := members[1..];
      assert forall i :: 0 <= i < |rest| ==> rest[i] == members[i + 1];
      KeptDescending(rest, now);
      KeptMembers(rest, now);
      forall i | 0 <= i < |Kept(rest, now)|
        ensures Kept(rest, now)[i].id < members[0].id
      {
        assert Kept(rest, now)[i] in rest;
      }
    }
  }

  lemma MatchesSweep(acts: seq<Act>, p: State)
    requires acts != [] && Matches(acts[..|acts| - 1], p) && acts[|acts| - 1].step.Sweep?
    ensures Matches(acts, Next(p, acts[|acts| - 1].step))
  {
    var m := |acts| - 1;
    var prior, now := acts[..m], acts[m].step.now;
    KeptMembers(p.members, now);
    KeptDescending(p.members, now);
    forall x: nat
      ensures MemberOf(acts, x) == MemberOf(prior, x)
      ensures Stays(acts, x) <==> Stays(prior, x) && now - HeardAt(prior, x) <= 5
    {
      StaysStep(acts, x);
      OtherConnection(acts, x);
    }
  }

  lemma {:induction false} RanMatches(acts: seq<Act>, s: State)
    requires Ran(acts, s)
    ensures Matches(acts, s)
    decreases |acts|
  {
    if acts == [] {
    } else {
      var m := |acts| - 1;
      var p :| Ran(acts[..m], p) && Enabled(p, acts[m].step) && TakenBy(acts[..m], p, acts[m])
               && s == Next(p, acts[m].step);
      RanMatches(acts[..m], p);
      match acts[m].step
      case Accept(_) => MatchesAccept(acts, p);
      case Register(k, _, _, _) => MatchesStep(acts, p, k);
      case Update(k, _, _) => MatchesStep(acts, p, k);
      case KeepAlive(k, _) => MatchesStep(acts, p, k);
      case HangUp(k) => MatchesStep(acts, p, k);
      case Sweep(_) => MatchesSweep(acts, p);
    }
  }

  // ---- the peer table ----

  /** In every reachable state the peer table has exactly the connections that stay, the latest
      first, each with the ip it was accepted from, the port it registered, and the time of its
      last message. */
  lemma PeerTableIs(acts: seq<Act>, s: State, id: nat)
    requires Ran(acts, s)
    ensures (exists m :: m in s.members && m.id == id) <==> Stays(acts, id)
    ensures forall m :: m in s.members && m.id == id ==>
              && m.ip == IpOf(acts, id) && m.port == PortOf(acts, id)
              && m.stamp == HeardAt(acts, id) && m.phase == PhaseOf(acts, id)
    ensures forall i, j :: 0 <= i < j < |s.members| ==> s.members[i].id > s.members[j].id
  {
    RanMatches(acts, s);
    if Stays(acts, id) {
      assert MemberOf(acts, id) in s.members;
    }
  }

  lemma RanThen(acts: seq<Act>, s: State, a: Act)
    requires Ran(acts, s) && Enabled(s, a.step) && TakenBy(acts, s, a)
    ensures Ran(acts + [a], Next(s, a.step))
    ensures (acts + [a])[|acts|] == a && (acts + [a])[..|acts|] == acts
  {
    var more := acts + [a];
    assert more[..|more| - 1] == acts && more[|more| - 1] == a;
  }

  /** A sweep leaves a peer in the table exactly if it was there and was heard of, by a message of
      any kind, no more than five seconds ago. */
  lemma SweepKeepsIff(acts: seq<Act>, s: State, now: int, id: nat)
    requires Ran(acts, s)
    ensures (exists m :: m in Next(s, Sweep(now)).members && m.id == id) <==>
            (exists m :: m in s.members && m.id == id) && now - HeardAt(acts, id) <= 5
  {
    var a := Act(id, Sweep(now));
    RanThen(acts, s, a);
    StaysStep(acts + [a], id);
    PeerTableIs(acts, s, id);
    PeerTableIs(acts + [a], Next(s, Sweep(now)), id);
  }

  /** A message keeps a peer in the table for the next five seconds. */
  lemma MessageKeeps(acts: seq<Act>, s: State, k: nat, step: Step, at: int, now: int)
    requires Ran(acts, s) && Enabled(s, step) && now - at <= 5
    requires match step
             case Register(j, _, _, t) => j == k && t == at
             case Update(j, _, t) => j == k && t == at
             case KeepAlive(j, t) => j == k && t == at
             case _ => false
    ensures exists m :: m in Next(Next(s, step), Sweep(now)).members && m.id == s.members[k].id
  {
    var a := Act(s.members[k].id, step);
    var more := acts + [a];
    RanThen(acts, s, a);
    assert HeardAt(more, a.id) == at;
    assert s.members[k] in s.members;
    StaysStep(more, a.id);
    PeerTableIs(acts, s, a.id);
    PeerTableIs(more, Next(s, step), a.id);
    SweepKeepsIff(more, Next(s, step), now, a.id);
  }

  // ---- the file table ----

  /** The departures of those connections with smaller numbers than n that a sweep evicts. */
  ghost function LeavesBelow(acts: seq<Act>, n: nat, now: int): seq<Op> {
    if n == 0 then []
    else
      (if Stays(acts, n - 1) && now - HeardAt(acts, n - 1) > 5 then [Leave(AddressOf(acts, n - 1))] else []) +
      LeavesBelow(acts, n - 1, now)
  }

  ghost predicate SomebodyStays(acts: seq<Act>) { exists id: nat :: Stays(acts, id) }

  /** What the tracker has been told since it was last alone. */
  ghost function Told(acts: seq<Act>): seq<Op>
    decreases |acts|
  {
    if acts == [] then []
    else
      var a, prior := acts[|acts| - 1], acts[..|acts| - 1];
      match a.step
      case Register(_, port, files, _) =>
        Told(prior) + Reports(FileDiff(Run(Told(prior)), files), Addr(IpOf(prior, a.id), port))
      case Update(_, events, _) => Told(prior) + Reports(events, AddressOf(prior, a.id))
      case HangUp(_) => Told(prior) + [Leave(AddressOf(prior, a.id))]
      case Sweep(now) => if SomebodyStays(acts) then Told(prior) + LeavesBelow(prior, Accepts(prior), now) else []
      case _ => Told(prior)
  }

  /** The evicted in their order. */
  lemma {:induction false} EvictedAre(members: seq<Member>, acts: seq<Act>, n: nat, now: int)
    requires AreThose(members, acts, n)
    ensures Evicted(members, now) == LeavesBelow(acts, n, now)
    decreases n, 1
  {
    if n == 0 {
      NobodyBelow(members, acts);
    } else if Stays(acts, n - 1) {
      EvictedWithFirst(members, acts, n, now);
    } else {
      NotAmong(members, acts, n);
      EvictedAre(members, acts, n - 1, now);
      NobodyEvicted(acts, n, now);
    }
  }

  lemma {:induction false} EvictedWithFirst(members: seq<Member>, acts: seq<Act>, n: nat, now: int)
    requires n > 0 && AreThose(members, acts, n) && Stays(acts, n - 1)
    ensures Evicted(members, now) == LeavesBelow(acts, n, now)
    decreases n, 0
  {
    FirstIs(members, acts, n);
    EvictedAre(members[1..], acts, n - 1, now);
    FirstEvicted(members, acts, n, now);
  }

  lemma NobodyEvicted(acts: seq<Act>, n: nat, now: int)
    requires n > 0 && !Stays(acts, n - 1)
    ensures LeavesBelow(acts, n, now) == LeavesBelow(acts, n - 1, now)
  {
  }

  lemma FirstEvicted(members: seq<Member>, acts: seq<Act>, n: nat, now: int)
    requires n > 0 && Stays(acts, n - 1) && members != [] && members[0] == MemberOf(acts, n - 1)
    requires Evicted(members[1..], now) == LeavesBelow(acts, n - 1, now)
    ensures Evicted(members, now) == LeavesBelow(acts, n, now)
  {
  }

  lemma NobodyBelow(members: seq<Member>, acts: seq<Act>)
    requires AreThose(members, acts, 0)
    ensures members == []
  {
    if members != [] {
      FirstBelow(members, 0);
      assert false;
    }
  }

  lemma FirstBelow(members: seq<Member>, n: int)
    requires members != [] && forall m :: m in members ==> m.id < n
    ensures members[0].id < n
  {
    assert members[0] in members;
  }

  lemma NotAmong(members: seq<Member>, acts: seq<Act>, n: nat)
    requires n > 0 && AreThose(members, acts, n) && !Stays(acts, n - 1)
    ensures AreThose(members, acts, n - 1)
  {
  }

  lemma FirstIs(members: seq<Member>, acts: seq<Act>, n: nat)
    requires n > 0 && AreThose(members, acts, n) && Stays(acts, n - 1)
    ensures members != [] && members[0] == MemberOf(acts, n - 1) && AreThose(members[1..], acts, n - 1)
  {
    var i :| 0 <= i < |members| && members[i] == MemberOf(acts, n - 1);
    assert members[0] in members;
    var rest := members[1..];
    assert forall j :: 0 <= j < |rest| ==> rest[j] == members[j + 1];
    forall m | m in rest
      ensures m in members && m.id < n - 1
    {
      var j :| 0 <= j < |rest| && rest[j] == m;
    }
    forall id: nat | id < n - 1 && Stays(acts, id)
      ensures MemberOf(acts, id) in rest
    {
      var j :| 0 <= j < |members| && members[j] == MemberOf(acts, id);
      assert rest[j - 1] == MemberOf(acts, id);
    }
  }

  lemma SomebodyIsLeft(acts: seq<Act>, s: State)
    requires Matches(acts, s)
    ensures s.members != [] <==> SomebodyStays(acts)
  {
    if s.members != [] {
      assert s.members[0] in s.members;
    }
  }

  lemma {:induction false} LogIsTold(acts: seq<Act>, s: State)
    requires Ran(acts, s)
    ensures Inv(s) && s.log == Told(acts)
    decreases |acts|
  {
    if acts == [] {
    } else {
      var m := |acts| - 1;
      var p :| Ran(acts[..m], p) && Enabled(p, acts[m].step) && TakenBy(acts[..m], p, acts[m])
               && s == Next(p, acts[m].step);
      LogIsTold(acts[..m], p);
      RanMatches(acts[..m], p);
      RanMatches(acts, s);
      NextKeeps(p, acts[m].step);
      ToldStep(acts, p);
    }
  }

  lemma ToldStep(acts: seq<Act>, p: State)
    requires acts != [] && Matches(acts[..|acts| - 1], p) && Inv(p) && p.log == Told(acts[..|acts| - 1])
    requires var a := acts[|acts| - 1];
      Enabled(p, a.step) && TakenBy(acts[..|acts| - 1], p, a) && Matches(acts, Next(p, a.step))
    ensures Next(p, acts[|acts| - 1].step).log == Told(acts)
  {
    var m := |acts| - 1;
    match acts[m].step
    case Register(k, _, _, _) => assert p.members[k] in p.members;
    case Update(k, _, _) => assert p.members[k] in p.members;
    case HangUp(k) => assert p.members[k] in p.members;
    case Sweep(now) =>
      EvictedAre(p.members, acts[..m], Accepts(acts[..m]), now);
      SomebodyIsLeft(acts, Next(p, Sweep(now)));
    case _ =>
  }

  /** In every reachable state the file table is what the operations the tracker has been told of
      since it was last alone make of the empty table. */
  lemma TableIsTold(acts: seq<Act>, s: State)
    requires Ran(acts, s)
    ensures s.table == Run(Told(acts)) && WellFormed(s.table)
  {
    LogIsTold(acts, s);
  }

  // ---- whom the table lists ----

  /** In every reachable state, unless a completed download was refused, the peers of an entry are
      exactly those that, by what the tracker was told since it was last alone, hold the file. */
  lemma HoldersUnlessRefused(acts: seq<Act>, s: State, path: string, q: Addr)
    requires Ran(acts, s) && NobodyRefused(Told(acts))
    ensures IsListed(Lookup(s.table, path), q) <==> HoldsFile(Told(acts), path, q)
  {
    LogIsTold(acts, s);
    PeersAreHolders(Told(acts), path, q);
  }

  /** And each file is as last written, and is there exactly if no removal came after. */
  lemma FilesAreAsWritten(acts: seq<Act>, s: State, path: string)
    requires Ran(acts, s)
    ensures var told := Told(acts);
      && (Lookup(s.table, path).Some? <==> exists i :: 0 <= i < |told| && LastWrite(told, i, path))
      && (forall i :: 0 <= i < |told| && LastWrite(told, i, path) ==> HasVersion(Lookup(s.table, path), told[i]))
  {
    LogIsTold(acts, s);
    VersionIsLastWrite(Told(acts), path);
  }

  /** Connections from one ip that are in the table, registered and not closed, use one port. */
  ghost predicate OnePort(acts: seq<Act>) {
    forall i: nat, j: nat :: Stays(acts, i) && Stays(acts, j) && PhaseOf(acts, i).Registered? &&
                             PhaseOf(acts, j).Registered? && IpOf(acts, i) == IpOf(acts, j) ==>
                               PortOf(acts, i) == PortOf(acts, j)
  }

  /** So it was at all times; a host may come back under another port. */
  ghost predicate OnePortThroughout(acts: seq<Act>) {
    forall n :: 0 <= n <= |acts| ==> OnePort(acts[..n])
  }

  lemma OnePortMembers(acts: seq<Act>, s: State)
    requires Matches(acts, s) && OnePort(acts)
    ensures OnePortEach(s.members)
  {
    forall j | 0 <= j < |s.members|
      ensures s.members[j] == MemberOf(acts, s.members[j].id) && Stays(acts, s.members[j].id)
    {
      assert s.members[j] in s.members;
    }
  }

  lemma {:induction false} OnePortRefusesNobody(acts: seq<Act>, s: State)
    requires Ran(acts, s) && OnePortThroughout(acts)
    ensures NobodyRefused(Told(acts))
    decreases |acts|
  {
    if acts == [] {
    } else {
      var m := |acts| - 1;
      var p :| Ran(acts[..m], p) && Enabled(p, acts[m].step) && TakenBy(acts[..m], p, acts[m])
               && s == Next(p, acts[m].step);
      assert forall n :: 0 <= n <= m ==> acts[..m][..n] == acts[..n];
      assert acts[..m + 1] == acts;
      OnePortRefusesNobody(acts[..m], p);
      LogIsTold(acts[..m], p);
      LogIsTold(acts, s);
      RanMatches(acts, s);
      OnePortMembers(acts, s);
      StepRefusesNobody(p, acts[m].step);
    }
  }

  /** So it is whenever no ip was connected under two ports at once, hosts that leave and come back
      under another port included. */
  lemma ListedAreHolders(acts: seq<Act>, s: State, path: string, q: Addr)
    requires Ran(acts, s) && OnePortThroughout(acts)
    ensures IsListed(Lookup(s.table, path), q) <==> HoldsFile(Told(acts), path, q)
  {
    OnePortRefusesNobody(acts, s);
    HoldersUnlessRefused(acts, s, path, q);
  }

  // ---- what one message does to the table ----

  /** The entry after an event at its own path. */
  ghost predicate EventDone(was: Option<Entry>, e: Event, who: Addr, res: Option<Entry>) {
    match e.action
    case Created =>
      if IsDotfile(e.file.path) then res == was
      else
        && res.Some? && res.value.peers == [who]
        && res.value.file.path == e.file.path && res.value.file.mtime == e.file.mtime
        && res.value.file.size == (if e.file.isDir then 0 else e.file.size)
        && res.value.file.isDir == (if was.Some? then was.value.file.isDir else e.file.isDir)
    case Modified =>
      if was.None? then res.None?
      else
        && res.Some? && res.value.peers == [who]
        && res.value.file == FileInfo(e.file.path, e.file.size, e.file.mtime, was.value.file.isDir)
    case Deleted => res.None?
    case DownloadComplete =>
      if was.None? then res.None?
      else
        && res.Some? && res.value.file == was.value.file
        && res.value.peers ==
           if was.value.file.size == e.file.size && (forall p :: p in was.value.peers ==> p.ip != who.ip)
           then [who] + was.value.peers else was.value.peers
  }

  lemma ListsAny(peers: seq<Addr>, ip: string)
    ensures Lists(peers, ip) <==> exists p :: p in peers && p.ip == ip
  {
    if exists p :: p in peers && p.ip == ip {
      var p :| p in peers && p.ip == ip;
      var k :| 0 <= k < |peers| && peers[k] == p;
      assert peers[k].ip == ip;
    }
  }

  lemma EventEffect(c: seq<Entry>, e: Event, who: Addr, path: string)
    requires WellFormed(c) && IpFits(who.ip)
    ensures var was, res := Lookup(c, path), Lookup(Apply(c, e, who), path);
      if path == e.file.path then EventDone(was, e, who, res)
      else if e.action.Deleted? && HasPrefix(e.file.path, path) && Lookup(c, e.file.path).Some? &&
              Lookup(c, e.file.path).value.file.isDir
      then res.None?
      else res == was
  {
    if e.action.Deleted? {
      RemoveLaw(c, e.file.path, path);
    } else {
      ApplyLookup(c, e, who, path);
      if Lookup(c, path).Some? {
        ListsAny(Lookup(c, path).value.peers, who.ip);
      }
    }
  }

  lemma {:induction false} EventMergeLast(c: seq<Entry>, events: seq<Event>, who: Addr)
    requires events != []
    ensures EventMerge(c, events, who) ==
            Apply(EventMerge(c, events[..|events| - 1], who), events[|events| - 1], who)
    decreases |events|
  {
    var m := |events| - 1;
    if m == 0 {
      assert events[1..] == [] && events[..0] == [];
    } else {
      EventMergeLast(Apply(c, events[0], who), events[1..], who);
      assert events[1..][..m - 1] == events[..m][1..];
    }
  }

  /** An update applies its events one after the other, each under the ip of the connection and the
      port it registered: a created file is there with this peer alone, a modified one has the new
      time and size and this peer alone, a deleted one is gone, with what a directory's path is a
      prefix of, and a completed one of the same size lists this peer too. */
  lemma UpdateEffect(acts: seq<Act>, s: State, k: nat, events: seq<Event>, now: int, path: string)
    requires Ran(acts, s) && Enabled(s, Update(k, events, now))
    ensures var who := AddressOf(acts, s.members[k].id);
      var after := Next(s, Update(k, events, now)).table;
      if events == [] then after == s.table
      else
        var e := events[|events| - 1];
        var before := Next(s, Update(k, events[..|events| - 1], now)).table;
        var was, res := Lookup(before, path), Lookup(after, path);
        if path == e.file.path then EventDone(was, e, who, res)
        else if e.action.Deleted? && HasPrefix(e.file.path, path) && Lookup(before, e.file.path).Some? &&
                Lookup(before, e.file.path).value.file.isDir
        then res.None?
        else res == was
  {
    RanMatches(acts, s);
    LogIsTold(acts, s);
    assert s.members[k] in s.members;
    var who := AddressOf(acts, s.members[k].id);
    if events != [] {
      var m := |events| - 1;
      EventMergeLast(s.table, events, who);
      EventMergeKeeps(s.table, events[..m], who);
      EventEffect(EventMerge(s.table, events[..m], who), events[m], who, path);
    }
  }

  /** A registration joins the list into the table under the port that the message announces: a new
      file is there with this peer alone, a newer one has its time and size and this peer alone, an
      equally old one of the same size lists this peer too, and everything else stays. */
  lemma RegisterEffect(acts: seq<Act>, s: State, k: nat, port: int, files: seq<FileInfo>, now: int, path: string)
    requires Ran(acts, s) && Enabled(s, Register(k, port, files, now)) && DistinctPaths(files)
    ensures var who := Addr(IpOf(acts, s.members[k].id), port);
      var was, res := Lookup(s.table, path), Lookup(Next(s, Register(k, port, files, now)).table, path);
      match FileAt(files, path)
      case None => res == was
      case Some(f) =>
        if was.None? then EventDone(was, Event(Created, f), who, res)
        else if was.value.file.mtime < f.mtime then EventDone(was, Event(Modified, f), who, res)
        else if was.value.file.mtime == f.mtime then EventDone(was, Event(DownloadComplete, f), who, res)
        else res == was
  {
    RanMatches(acts, s);
    LogIsTold(acts, s);
    assert s.members[k] in s.members;
    MergeLookup(s.table, files, Addr(IpOf(acts, s.members[k].id), port), path);
    if Lookup(s.table, path).Some? {
      ListsAny(Lookup(s.table, path).value.peers, IpOf(acts, s.members[k].id));
    }
  }

  /** A connection that ends is listed nowhere any more, and nothing else changes. */
  lemma HangUpEffect(acts: seq<Act>, s: State, k: nat, path: string)
    requires Ran(acts, s) && Enabled(s, HangUp(k))
    ensures var who := AddressOf(acts, s.members[k].id);
      var was, res := Lookup(s.table, path), Lookup(Next(s, HangUp(k)).table, path);
      if was.None? then res.None?
      else
        && res.Some? && res.value.file == was.value.file
        && forall q :: q in res.value.peers <==> q in was.value.peers && q != who
  {
    RanMatches(acts, s);
    LogIsTold(acts, s);
    assert s.members[k] in s.members;
    var who := AddressOf(acts, s.members[k].id);
    RemovePeerAllLaw(s.table, who, path);
    if Lookup(s.table, path).Some? {
      DropPeerLaw(Lookup(s.table, path).value.peers, who);
    }
  }

  /** A connection in the table from q has been silent for more than five seconds. */
  ghost predicate SilentFrom(acts: seq<Act>, now: int, q: Addr) {
    exists id: nat :: Stays(acts, id) && now - HeardAt(acts, id) > 5 && AddressOf(acts, id) == q
  }

  lemma SilentIffEvicted(acts: seq<Act>, s: State, now: int, q: Addr)
    requires Matches(acts, s)
    ensures IsEvicted(s.members, now, q) <==> SilentFrom(acts, now, q)
  {
    if IsEvicted(s.members, now, q) {
      var k :| 0 <= k < |s.members| && now - s.members[k].stamp > 5 && s.members[k].Address() == q;
      assert s.members[k] in s.members && Stays(acts, s.members[k].id);
    }
    if SilentFrom(acts, now, q) {
      var id: nat :| Stays(acts, id) && now - HeardAt(acts, id) > 5 && AddressOf(acts, id) == q;
      var k :| 0 <= k < |s.members| && s.members[k] == MemberOf(acts, id);
      assert s.members[k].Address() == q;
    }
  }

  /** While somebody is left, a sweep takes the silent off every entry and changes nothing else. */
  lemma SweepEffectOnTable(acts: seq<Act>, s: State, now: int, path: string)
    requires Ran(acts, s) && exists id: nat :: Stays(acts, id) && now - HeardAt(acts, id) <= 5
    ensures var was, res := Lookup(s.table, path), Lookup(Next(s, Sweep(now)).table, path);
      if was.None? then res.None?
      else
        && res.Some? && res.value.file == was.value.file
        && forall q :: q in res.value.peers <==> q in was.value.peers && !SilentFrom(acts, now, q)
  {
    RanMatches(acts, s);
    RanReachable(acts, s);
    SweepEffect(s, now, path);
    var id: nat :| Stays(acts, id) && now - HeardAt(acts, id) <= 5;
    assert MemberOf(acts, id) in s.members;
    assert MemberOf(acts, id) in Next(s, Sweep(now)).members;
    forall q
      ensures IsEvicted(s.members, now, q) <==> SilentFrom(acts, now, q)
    {
      SilentIffEvicted(acts, s, now, q);
    }
  }

  // ---- every run is one of numbered steps ----

  /** The states that the numbered steps lead to are the reachable ones. */
  lemma RanIffReachable(s: State)
    ensures (exists acts :: Ran(acts, s)) <==> Reachable(s)
  {
    if Reachable(s) {
      var steps :| Leads(INITIAL, steps, s);
      assert Ran([], INITIAL);
      var acts := Numbered([], INITIAL, steps, s);
      assert Ran(acts, s);
    }
    forall acts | Ran(acts, s)
      ensures Reachable(s)
    {
      RanReachable(acts, s);
    }
  }

  lemma {:induction false} Numbered(prior: seq<Act>, p: State, steps: seq<Step>, s: State) returns (acts: seq<Act>)
    requires Ran(prior, p) && Leads(p, steps, s)
    ensures Ran(acts, s)
    decreases |steps|
  {
    if steps == [] {
      acts := prior;
    } else {
      var step := steps[0];
      var id :=
        match step
        case Accept(_) => Accepts(prior)
        case Register(k, _, _, _) => p.members[k].id
        case Update(k, _, _) => p.members[k].id
        case KeepAlive(k, _) => p.members[k].id
        case HangUp(k) => p.members[k].id
        case Sweep(_) => 0;
      RanThen(prior, p, Act(id, step));
      acts := Numbered(prior + [Act(id, step)], Next(p, step), steps[1..], s);
    }
  }

  lemma {:induction false} RanReachable(acts: seq<Act>, s: State)
    requires Ran(acts, s)
    ensures Reachable(s)
    decreases |acts|
  {
    if acts == [] {
      assert Leads(INITIAL, [], s);
    } else {
      var m := |acts| - 1;
      var p :| Ran(acts[..m], p) && Enabled(p, acts[m].step) && s == Next(p, acts[m].step);
      RanReachable(acts[..m], p);
      var steps :| Leads(INITIAL, steps, p);
      LeadsThen(INITIAL, steps, p, acts[m].step);
    }
  }

  lemma {:induction false} LeadsThen(s: State, steps: seq<Step>, p: State, step: Step)
    requires Leads(s, steps, p) && Enabled(p, step)
    ensures Leads(s, steps + [step], Next(p, step))
    decreases |steps|
  {
    if steps == [] {
      assert ([] + [step])[1..] == [];
    } else {
      assert (steps + [step])[1..] == steps[1..] + [step];
      LeadsThen(Next(s, steps[0]), steps[1..], p, step);
    }
  }
}
