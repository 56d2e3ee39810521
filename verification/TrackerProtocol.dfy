/** The tracker (tracker/tracker.c) as a state machine over its peer table and its file table. */
module TrackerProtocol {
  import opened Table
  import opened TableLaws
  import opened MergeLaws
  import opened History

  /** Seconds after its last message at which a peer is considered gone. */
  const INTERVAL: int := 5

  /** What the peer and its handshake thread are up to. */
  datatype Phase = Accepted | Registered | HungUp

  datatype Member = Member(id: nat, ip: string, port: int, stamp: int, phase: Phase) {
    function Address(): Addr { Addr(ip, port) }
  }

  /** log records what the file table was told since it was last emptied. */
  datatype State = State(members: seq<Member>, table: seq<Entry>, accepted: nat, log: seq<Op>)

  datatype Step =
    | Accept(ip: string)
    | Register(k: nat, port: int, files: seq<FileInfo>, now: int)
    | Update(k: nat, events: seq<Event>, now: int)
    | KeepAlive(k: nat, now: int)
    | HangUp(k: nat)
    | Sweep(now: int)

  const INITIAL: State := State([], [], 0, [])

  /** A peer registers once, before it sends anything else, as peer.c does; addresses are IPv4. */
  predicate Enabled(s: State, step: Step) {
    match step
    case Accept(ip) => |ip| < 16
    case Register(k, _, _, _) => k < |s.members| && s.members[k].phase.Accepted?
    case Update(k, _, _) => k < |s.members| && s.members[k].phase.Registered?
    case KeepAlive(k, _) => k < |s.members| && s.members[k].phase.Registered?
    case HangUp(k) => k < |s.members| && !s.members[k].phase.HungUp?
    case Sweep(_) => true
  }

  predicate Expired(m: Member, now: int) {
    now - m.stamp > INTERVAL
  }

  /** The unexpired members, in their order. */
  function Kept(members: seq<Member>, now: int): seq<Member> {
    if members == [] then []
    else (if Expired(members[0], now) then [] else [members[0]]) + Kept(members[1..], now)
  }

  function Evicted(members: seq<Member>, now: int): seq<Op> {
    if members == [] then []
    else (if Expired(members[0], now) then [Leave(members[0].Address())] else []) + Evicted(members[1..], now)
  }

  function RunOps(c: seq<Entry>, ops: seq<Op>): seq<Entry>
    decreases |ops|
  {
    if ops == [] then c else RunOps(ApplyOp(c, ops[0]), ops[1..])
  }

  function Reports(events: seq<Event>, who: Addr): (ops: seq<Op>)
    ensures |ops| == |events| && forall i :: 0 <= i < |ops| ==> ops[i] == Report(events[i], who)
  {
    seq(|events|, i requires 0 <= i < |events| => Report(events[i], who))
  }

  function Next(s: State, step: Step): State
    requires Enabled(s, step)
  {
    match step
    case Accept(ip) =>
      s.(members := [Member(s.accepted, ip, 0, 0, Accepted)] + s.members, accepted := s.accepted + 1)
    case Register(k, port, files, now) =>
      var m := s.members[k].(port := port, stamp := now, phase := Registered);
      s.(members := s.members[k := m], table := Merge(s.table, files, m.Address()),
         log := s.log + Reports(FileDiff(s.table, files), m.Address()))
    case Update(k, events, now) =>
      var m := s.members[k].(stamp := now);
      s.(members := s.members[k := m], table := EventMerge(s.table, events, m.Address()),
         log := s.log + Reports(events, m.Address()))
    case KeepAlive(k, now) => s.(members := s.members[k := s.members[k].(stamp := now)])
    case HangUp(k) =>
      s.(members := s.members[k := s.members[k].(phase := HungUp)],
         table := RemovePeerAll(s.table, s.members[k].Address()),
         log := s.log + [Leave(s.members[k].Address())])
    case Sweep(now) =>
      var kept, ops := Kept(s.members, now), Evicted(s.members, now);
      if kept == [] then s.(members := [], table := [], log := [])
      else s.(members := kept, table := RunOps(s.table, ops), log := s.log + ops)
  }

  ghost predicate Leads(s: State, steps: seq<Step>, r: State)
    decreases |steps|
  {
    if steps == [] then r == s else Enabled(s, steps[0]) && Leads(Next(s, steps[0]), steps[1..], r)
  }

  ghost predicate Reachable(s: State) {
    exists steps :: Leads(INITIAL, steps, s)
  }

  // ---- whom the table lists ----

  /** a holds some file according to the table. */
  ghost predicate Listed(c: seq<Entry>, a: Addr) {
    exists i :: 0 <= i < |c| && a in c[i].peers
  }

  /** a is the address of a peer that has registered and not hung up. */
  ghost predicate Present(members: seq<Member>, a: Addr) {
    exists k :: 0 <= k < |members| && members[k].phase.Registered? && members[k].Address() == a
  }

  ghost predicate DistinctIds(members: seq<Member>) {
    forall j, k :: 0 <= j < k < |members| ==> members[j].id != members[k].id
  }

  ghost predicate Inv(s: State) {
    && WellFormed(s.table)
    && (forall a :: Listed(s.table, a) ==> Present(s.members, a))
    && (forall k :: 0 <= k < |s.members| ==> |s.members[k].ip| < 16 && s.members[k].id < s.accepted)
    && DistinctIds(s.members)
    && s.table == Run(s.log)
  }

  lemma ListedAt(c: seq<Entry>, path: string, a: Addr)
    requires Lookup(c, path).Some? && a in Lookup(c, path).value.peers
    ensures Listed(c, a)
  {
    assert c[Find(c, path)] == Lookup(c, path).value;
  }

  /** An event lists nobody new but its reporter. */
  lemma ApplyLists(c: seq<Entry>, e: Event, who: Addr, a: Addr)
    requires WellFormed(c) && Listed(Apply(c, e, who), a)
    ensures Listed(c, a) || a == who
  {
    var d := Apply(c, e, who);
    var i :| 0 <= i < |d| && a in d[i].peers;
    var path := d[i].file.path;
    ApplyKeeps(c, e, who);
    FindAt(d, i);
    assert Lookup(d, path) == Some(d[i]);
    if e.action.Deleted? {
      RemoveLaw(c, e.file.path, path);
    } else {
      ApplyLookup(c, e, who, path);
    }
    if a != who {
      assert Lookup(c, path).Some? && a in Lookup(c, path).value.peers;
      ListedAt(c, path, a);
    }
  }

  lemma {:induction false} EventMergeLists(c: seq<Entry>, events: seq<Event>, who: Addr, a: Addr)
    requires WellFormed(c) && Listed(EventMerge(c, events, who), a)
    ensures Listed(c, a) || a == who
    decreases |events|
  {
    if events == [] {
    } else {
      ApplyKeeps(c, events[0], who);
      EventMergeLists(Apply(c, events[0], who), events[1..], who, a);
      if Listed(Apply(c, events[0], who), a) {
        ApplyLists(c, events[0], who, a);
      }
    }
  }

  lemma RemovePeerAllLists(c: seq<Entry>, who: Addr, a: Addr)
    requires WellFormed(c)
    ensures WellFormed(RemovePeerAll(c, who))
    ensures Listed(RemovePeerAll(c, who), a) <==> Listed(c, a) && a != who
  {
    RemovePeerAllLaw(c, who, "");
    var d := RemovePeerAll(c, who);
    forall i | 0 <= i < |c|
      ensures a in d[i].peers <==> a in c[i].peers && a != who
    {
      DropPeerLaw(c[i].peers, who);
    }
    if Listed(c, a) && a != who {
      var i :| 0 <= i < |c| && a in c[i].peers;
      assert a in d[i].peers;
    }
  }

  // ---- the sweep ----

  ghost predicate IsEvicted(members: seq<Member>, now: int, a: Addr) {
    exists k :: 0 <= k < |members| && now - members[k].stamp > 5 && members[k].Address() == a
  }

  lemma {:induction false} EvictionLists(c: seq<Entry>, members: seq<Member>, now: int, a: Addr)
    requires WellFormed(c)
    ensures WellFormed(RunOps(c, Evicted(members, now)))
    ensures Listed(RunOps(c, Evicted(members, now)), a) <==> Listed(c, a) && !IsEvicted(members, now, a)
    decreases |members|
  {
    if members == [] {
    } else {
      var rest := members[1..];
      EvictedFirst(members, now, a);
      var ops := Evicted(members, now);
      if Expired(members[0], now) {
        RemovePeerAllLists(c, members[0].Address(), a);
        assert ops[0] == Leave(members[0].Address()) && ops[1..] == Evicted(rest, now);
        EvictionLists(RemovePeerAll(c, members[0].Address()), rest, now, a);
      } else {
        assert ops == Evicted(rest, now);
        EvictionLists(c, rest, now, a);
      }
    }
  }

  lemma EvictedFirst(members: seq<Member>, now: int, a: Addr)
    requires members != []
    ensures IsEvicted(members, now, a) <==>
            (Expired(members[0], now) && members[0].Address() == a) || IsEvicted(members[1..], now, a)
  {
    var rest := members[1..];
    assert forall k :: 0 <= k < |rest| ==> rest[k] == members[k + 1];
    if IsEvicted(rest, now, a) {
      var k :| 0 <= k < |rest| && Expired(rest[k], now) && rest[k].Address() == a;
      assert members[k + 1].Address() == a;
    }
  }

  /** after is before without the evicted peers. */
  ghost predicate EvictedFrom(before: Option<Entry>, after: Option<Entry>, members: seq<Member>, now: int) {
    match (before, after)
    case (None, None) => true
    case (Some(e), Some(x)) =>
      && x.file == e.file
      && forall a :: a in x.peers <==> a in e.peers && !IsEvicted(members, now, a)
    case _ => false
  }

  /** What an eviction does to each entry. */
  lemma {:induction false} EvictionAt(c: seq<Entry>, members: seq<Member>, now: int, path: string)
    requires WellFormed(c)
    ensures EvictedFrom(Lookup(c, path), Lookup(RunOps(c, Evicted(members, now)), path), members, now)
    decreases |members|
  {
    if members == [] {
    } else {
      var rest, ops := members[1..], Evicted(members, now);
      forall a
        ensures IsEvicted(members, now, a) <==>
                (Expired(members[0], now) && members[0].Address() == a) || IsEvicted(rest, now, a)
      {
        EvictedFirst(members, now, a);
      }
      if Expired(members[0], now) {
        var who := members[0].Address();
        RemovePeerAllLaw(c, who, path);
        if Lookup(c, path).Some? {
          DropPeerLaw(Lookup(c, path).value.peers, who);
        }
        assert ops[0] == Leave(who) && ops[1..] == Evicted(rest, now);
        EvictionAt(RemovePeerAll(c, who), rest, now, path);
      } else {
        assert ops == Evicted(rest, now);
        EvictionAt(c, rest, now, path);
      }
    }
  }

  /** The sweep keeps exactly the unexpired members, in their order. */
  lemma {:induction false} KeptMembers(members: seq<Member>, now: int)
    ensures forall m :: m in Kept(members, now) <==> m in members && !Expired(m, now)
    ensures |Kept(members, now)| <= |members|
  {
    if members == [] {
    } else {
      KeptMembers(members[1..], now);
      assert members == [members[0]] + members[1..];
    }
  }

  /** Order is kept: each kept member is at the position given by how many were kept before it. */
  lemma {:induction false} KeptInOrder(members: seq<Member>, now: int, i: nat, j: nat) returns (p: nat, q: nat)
    requires i < j < |members| && !Expired(members[i], now) && !Expired(members[j], now)
    ensures p < q < |Kept(members, now)| && Kept(members, now)[p] == members[i] && Kept(members, now)[q] == members[j]
  {
    var rest := members[1..];
    if i == 0 {
      KeptMembers(rest, now);
      assert rest[j - 1] in rest;
      var r :| 0 <= r < |Kept(rest, now)| && Kept(rest, now)[r] == rest[j - 1];
      p, q := 0, r + 1;
    } else {
      p, q := KeptInOrder(rest, now, i - 1, j - 1);
      if !Expired(members[0], now) {
        p, q := p + 1, q + 1;
      }
    }
  }

  // ---- the invariant ----

  lemma {:induction false} RunAppend(log: seq<Op>, ops: seq<Op>)
    ensures Run(log + ops) == RunOps(Run(log), ops)
    decreases |ops|
  {
    if ops == [] {
      assert log + ops == log;
    } else {
      var more := log + [ops[0]];
      assert more[..|more| - 1] == log && more + ops[1..] == log + ops;
      RunAppend(more, ops[1..]);
    }
  }

  lemma {:induction false} RunReports(c: seq<Entry>, events: seq<Event>, who: Addr)
    ensures RunOps(c, Reports(events, who)) == EventMerge(c, events, who)
    decreases |events|
  {
    if events == [] {
    } else {
      assert Reports(events, who)[1..] == Reports(events[1..], who);
      RunReports(Apply(c, events[0], who), events[1..], who);
    }
  }

  /** A member that reports events is present afterwards, and so is everyone who was. */
  lemma ReportKeeps(s: State, k: nat, m: Member, events: seq<Event>)
    requires Inv(s) && k < |s.members| && m.phase.Registered? && m.ip == s.members[k].ip && m.id == s.members[k].id
    requires s.members[k].phase.Registered? ==> m.port == s.members[k].port
    ensures Inv(s.(members := s.members[k := m], table := EventMerge(s.table, events, m.Address()),
                   log := s.log + Reports(events, m.Address())))
  {
    var who := m.Address();
    var after := s.members[k := m];
    EventMergeKeeps(s.table, events, who);
    forall a | Listed(EventMerge(s.table, events, who), a)
      ensures Present(after, a)
    {
      EventMergeLists(s.table, events, who, a);
      if a == who {
        assert after[k].Address() == a;
      } else {
        var j :| 0 <= j < |s.members| && s.members[j].phase.Registered? && s.members[j].Address() == a;
        assert after[j].Address() == a;
      }
    }
    RunAppend(s.log, Reports(events, who));
    RunReports(s.table, events, who);
  }

  lemma HangUpKeeps(s: State, k: nat)
    requires Inv(s) && Enabled(s, HangUp(k))
    ensures Inv(Next(s, HangUp(k)))
  {
    var s' := Next(s, HangUp(k));
    var who := s.members[k].Address();
    forall a | Listed(s'.table, a)
      ensures Present(s'.members, a)
    {
      RemovePeerAllLists(s.table, who, a);
      var j :| 0 <= j < |s.members| && s.members[j].phase.Registered? && s.members[j].Address() == a;
      assert s'.members[j].Address() == a;
    }
    RemovePeerAllLists(s.table, who, who);
    RunAppend(s.log, [Leave(who)]);
    assert RunOps(s.table, [Leave(who)]) == RunOps(RemovePeerAll(s.table, who), []);
  }

  lemma {:induction false} KeptDistinct(members: seq<Member>, now: int)
    requires DistinctIds(members)
    ensures DistinctIds(Kept(members, now))
  {
    if members == [] {
    } else {
      var rest := members[1..];
      assert forall k :: 0 <= k < |rest| ==> rest[k] == members[k + 1];
      KeptDistinct(rest, now);
      KeptMembers(rest, now);
      forall k | 0 <= k < |Kept(rest, now)|
        ensures Kept(rest, now)[k].id != members[0].id
      {
        assert Kept(rest, now)[k] in rest;
      }
    }
  }

  lemma KeptPresent(s: State, now: int, a: Addr)
    requires Inv(s) && Listed(RunOps(s.table, Evicted(s.members, now)), a)
    ensures Present(Kept(s.members, now), a)
  {
    EvictionLists(s.table, s.members, now, a);
    KeptMembers(s.members, now);
    var j :| 0 <= j < |s.members| && s.members[j].phase.Registered? && s.members[j].Address() == a;
    assert s.members[j] in Kept(s.members, now);
  }

  lemma SweepKeeps(s: State, now: int)
    requires Inv(s)
    ensures Inv(Next(s, Sweep(now)))
  {
    var kept, ops := Kept(s.members, now), Evicted(s.members, now);
    if kept != [] {
      KeptDistinct(s.members, now);
      forall k | 0 <= k < |kept|
        ensures |kept[k].ip| < 16 && kept[k].id < s.accepted
      {
        KeptMembers(s.members, now);
        assert kept[k] in s.members;
      }
      forall a | Listed(RunOps(s.table, ops), a)
        ensures Present(kept, a)
      {
        KeptPresent(s, now, a);
      }
      EvictionLists(s.table, s.members, now, Addr("", 0));
      RunAppend(s.log, ops);
    }
  }

  lemma NextKeeps(s: State, step: Step)
    requires Inv(s) && Enabled(s, step)
    ensures Inv(Next(s, step))
  {
    match step
    case Accept(ip) =>
      forall a | Listed(s.table, a)
        ensures Present(Next(s, step).members, a)
      {
        var j :| 0 <= j < |s.members| && s.members[j].phase.Registered? && s.members[j].Address() == a;
        assert Next(s, step).members[j + 1].Address() == a;
      }
    case Register(k, port, files, now) =>
      ReportKeeps(s, k, s.members[k].(port := port, stamp := now, phase := Registered), FileDiff(s.table, files));
    case Update(k, events, now) => ReportKeeps(s, k, s.members[k].(stamp := now), events);
    case KeepAlive(k, now) =>
      forall a | Listed(s.table, a)
        ensures Present(Next(s, step).members, a)
      {
        var j :| 0 <= j < |s.members| && s.members[j].phase.Registered? && s.members[j].Address() == a;
        assert Next(s, step).members[j].Address() == a;
      }
    case HangUp(k) => HangUpKeeps(s, k);
    case Sweep(now) => SweepKeeps(s, now);
  }

  lemma {:induction false} LeadsKeeps(s: State, steps: seq<Step>, r: State)
    requires Inv(s) && Leads(s, steps, r)
    ensures Inv(r)
    decreases |steps|
  {
    if steps == [] {
    } else {
      NextKeeps(s, steps[0]);
      LeadsKeeps(Next(s, steps[0]), steps[1..], r);
    }
  }

  // ---- what holds in every reachable state ----

  lemma ReachableInv(s: State)
    requires Reachable(s)
    ensures Inv(s)
  {
    var steps :| Leads(INITIAL, steps, s);
    LeadsKeeps(INITIAL, steps, s);
  }

  /** In every reachable state the table is well formed and lists only addresses of peers that
      are in the peer table, registered and connected. */
  lemma ListedArePresent(s: State, a: Addr)
    requires Reachable(s) && Listed(s.table, a)
    ensures WellFormed(s.table)
    ensures exists k :: 0 <= k < |s.members| && s.members[k].phase.Registered? && s.members[k].Address() == a
  {
    ReachableInv(s);
    assert Present(s.members, a);
  }

  /** A sweep keeps exactly the unexpired members. While some remain, every entry keeps its file
      and exactly those of its peers that are not evicted; otherwise the file table is emptied. */
  lemma SweepEffect(s: State, now: int, path: string)
    requires Reachable(s)
    ensures var s' := Next(s, Sweep(now));
      && (forall m :: m in s'.members <==> m in s.members && now - m.stamp <= 5)
      && (s'.members != [] ==> EvictedFrom(Lookup(s.table, path), Lookup(s'.table, path), s.members, now))
      && (s'.members == [] ==> s'.table == [])
  {
    ReachableInv(s);
    KeptMembers(s.members, now);
    EvictionAt(s.table, s.members, now, path);
  }

  /** Emptying the table loses nobody: when no member remains, everyone listed was evicted. */
  lemma EmptyingLosesNobody(s: State, now: int, a: Addr)
    requires Reachable(s) && Next(s, Sweep(now)).members == [] && Listed(s.table, a)
    ensures IsEvicted(s.members, now, a)
  {
    ReachableInv(s);
    KeptMembers(s.members, now);
    var j :| 0 <= j < |s.members| && s.members[j].phase.Registered? && s.members[j].Address() == a;
    assert s.members[j] in s.members && Expired(s.members[j], now);
  }

  // ---- who is refused ----

  /** Members that are registered and connected at the same time from one ip use one port. */
  ghost predicate OnePortEach(members: seq<Member>) {
    forall j, k :: 0 <= j < |members| && 0 <= k < |members| &&
                   members[j].phase.Registered? && members[k].phase.Registered? && members[j].ip == members[k].ip ==>
                     members[j].port == members[k].port
  }

  lemma RefusedPrefix(log: seq<Op>, ops: seq<Op>, i: nat)
    requires i < |log|
    ensures Refused(log + ops, i) == Refused(log, i)
  {
    assert (log + ops)[..i] == log[..i];
  }

  lemma LeavesRefuseNobody(log: seq<Op>, ops: seq<Op>)
    requires NobodyRefused(log) && forall op :: op in ops ==> op.Leave?
    ensures NobodyRefused(log + ops)
  {
    forall i | 0 <= i < |log + ops|
      ensures !Refused(log + ops, i)
    {
      if i < |log| {
        RefusedPrefix(log, ops, i);
      } else {
        assert (log + ops)[i] in ops;
      }
    }
  }

  lemma ReportRefusesNobody(log: seq<Op>, e: Event, who: Addr)
    requires NobodyRefused(log) && forall a :: Listed(Run(log), a) && a.ip == who.ip ==> a == who
    ensures NobodyRefused(log + [Report(e, who)])
  {
    var more := log + [Report(e, who)];
    forall i | 0 <= i < |more|
      ensures !Refused(more, i)
    {
      if i < |log| {
        RefusedPrefix(log, [Report(e, who)], i);
      } else {
        assert more[..i] == log;
        var o := Lookup(Run(log), e.file.path);
        if o.Some? && Lists(o.value.peers, who.ip) {
          var k :| 0 <= k < |o.value.peers| && o.value.peers[k].ip == who.ip;
          ListedAt(Run(log), e.file.path, o.value.peers[k]);
        }
      }
    }
  }

  lemma {:induction false} ReportsRefuseNobody(log: seq<Op>, events: seq<Event>, who: Addr)
    requires NobodyRefused(log) && forall a :: Listed(Run(log), a) && a.ip == who.ip ==> a == who
    ensures NobodyRefused(log + Reports(events, who))
    decreases |events|
  {
    if events == [] {
      assert log + Reports(events, who) == log;
    } else {
      var more := log + [Report(events[0], who)];
      ReportRefusesNobody(log, events[0], who);
      assert more[..|more| - 1] == log;
      forall a | Listed(Run(more), a) && a.ip == who.ip
        ensures a == who
      {
        RunWellFormed(log);
        ApplyLists(Run(log), events[0], who, a);
      }
      ReportsRefuseNobody(more, events[1..], who);
      assert log + Reports(events, who) == more + Reports(events[1..], who);
    }
  }

  /** Member k reports under an address that nobody else of its ip is listed with. */
  lemma ReporterIsAlone(s: State, k: nat, m: Member, events: seq<Event>)
    requires Inv(s) && NobodyRefused(s.log) && k < |s.members| && m.phase.Registered? && m.ip == s.members[k].ip
    requires OnePortEach(s.members[k := m])
    requires s.members[k].phase.Registered? ==> m.port == s.members[k].port
    ensures NobodyRefused(s.log + Reports(events, m.Address()))
  {
    var after := s.members[k := m];
    forall a | Listed(Run(s.log), a) && a.ip == m.ip
      ensures a == m.Address()
    {
      var j :| 0 <= j < |s.members| && s.members[j].phase.Registered? && s.members[j].Address() == a;
      assert after[k] == m && after[j].Address() == a;
    }
    ReportsRefuseNobody(s.log, events, m.Address());
  }

  lemma {:induction false} EvictedLeave(members: seq<Member>, now: int)
    ensures forall op :: op in Evicted(members, now) ==> op.Leave?
  {
    if members == [] {
    } else {
      EvictedLeave(members[1..], now);
    }
  }

  lemma StepRefusesNobody(s: State, step: Step)
    requires Inv(s) && NobodyRefused(s.log) && Enabled(s, step) && OnePortEach(Next(s, step).members)
    ensures NobodyRefused(Next(s, step).log)
  {
    match step
    case Register(k, port, files, now) =>
      ReporterIsAlone(s, k, s.members[k].(port := port, stamp := now, phase := Registered), FileDiff(s.table, files));
    case Update(k, events, now) => ReporterIsAlone(s, k, s.members[k].(stamp := now), events);
    case HangUp(k) => LeavesRefuseNobody(s.log, [Leave(s.members[k].Address())]);
    case Sweep(now) =>
      EvictedLeave(s.members, now);
      LeavesRefuseNobody(s.log, Evicted(s.members, now));
    case _ =>
  }
}
