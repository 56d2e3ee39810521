/** The handlers of tracker/tracker.c on the linked tables, proved to take the steps of
    TrackerProtocol. */
module TrackerServers {
  import opened Table
  import opened TableLaws
  import opened FileTables
  import opened History
  import opened Messaging
  import opened Wire
  import opened TrackerProtocol
  import opened PeerTables

  /** PIECE_LENGTH */
  const PIECE_LENGTH := 2048

  /** Every peer has a connection of its own. */
  ghost predicate Connections(nodes: seq<Peer>) {
    forall i, j :: 0 <= i < j < |nodes| ==> nodes[i].conn != nodes[j].conn
  }

  lemma ConnectionsCut(nodes: seq<Peer>, at: nat)
    requires at < |nodes| && Connections(nodes)
    ensures Connections(nodes[..at] + nodes[at + 1..])
    ensures forall p :: p in nodes[..at] + nodes[at + 1..] ==> p in nodes
  {
  }

  lemma ConnectionsAdd(nodes: seq<Peer>, peer: Peer)
    requires Connections(nodes) && forall p :: p in nodes ==> p.conn != peer.conn
    ensures Connections([peer] + nodes)
  {
    forall i | 0 <= i < |nodes|
      ensures nodes[i].conn != peer.conn
    {
      assert nodes[i] in nodes;
    }
  }

  class Tracker {
    var fileTable: FileTable
    const peerTable: PeerTable
    ghost var accepted: nat
    ghost var log: seq<Op>

    ghost predicate Valid()
      reads this, fileTable, fileTable.Repr, peerTable, peerTable.Repr
    {
      && this !in fileTable.Repr && peerTable !in fileTable.Repr
      && (forall p :: p in peerTable.Repr ==> p !in fileTable.Repr)
      && fileTable.Valid() && WellFormed(fileTable.contents)
      && peerTable.Valid()
      && Connections(peerTable.nodes)
      && (forall p :: p in peerTable.nodes ==> p.conn !in fileTable.Repr)
    }

    ghost function View(): State
      reads this, fileTable, peerTable
    {
      State(peerTable.members, fileTable.contents, accepted, log)
    }

    constructor ()
      ensures Valid() && View() == INITIAL && fresh(fileTable.Repr) && fresh(peerTable)
    {
      fileTable := new FileTable();
      peerTable := new PeerTable();
      accepted, log := 0, [];
    }

    /** start_peer() */
    method StartPeer(ip: string, conn: Stream)
      requires Valid() && Enabled(View(), Accept(ip))
      requires conn !in fileTable.Repr && forall p :: p in peerTable.nodes ==> p.conn != conn
      modifies this, peerTable
      ensures Valid() && View() == Next(old(View()), Accept(ip))
    {
      var peer := new Peer(ip, conn, accepted);
      ConnectionsAdd(peerTable.nodes, peer);
      peerTable.Add(peer);
      accepted := accepted + 1;
    }

    /** handshake_thread(), case KEEP_ALIVE */
    method OnKeepAlive(peer: Peer, ghost k: nat, now: int)
      requires Valid() && k < |peerTable.nodes| && peerTable.nodes[k] == peer
      requires Enabled(View(), TrackerProtocol.KeepAlive(k, now))
      modifies peerTable, peer
      ensures Valid() && View() == Next(old(View()), TrackerProtocol.KeepAlive(k, now))
    {
      assert peer.Value() == peerTable.members[k];
      peerTable.Touch(peer, k, peer.listenPort, now, peer.phase);
    }

    /** One turn of the loop of broadcast_table(). */
    method SendTableTo(cur: Peer, exclude: Peer?)
      requires fileTable.Valid() && cur.conn !in fileTable.Repr
      modifies cur.conn
      ensures cur.conn.records ==
              old(cur.conn.records) + (if cur == exclude then [] else Encode(TableUpdate(fileTable.contents)))
    {
      if cur != exclude {
        cur.conn.SendTableUpdate(fileTable);
      }
    }

    /** broadcast_table() */
    method Broadcast(exclude: Peer?)
      requires Valid()
      modifies set p | p in peerTable.nodes :: p.conn
      ensures Valid()
      ensures forall p :: p in peerTable.nodes ==>
                p.conn.records == old(p.conn.records) +
                (if p == exclude then [] else Encode(TableUpdate(fileTable.contents)))
    {
      ghost var nodes := peerTable.nodes;
      var cur := peerTable.head;
      ghost var k := 0;
      while cur != null
        invariant fileTable.Valid() && 0 <= k <= |nodes| && cur == PeerTables.PeerAt(nodes, k)
        invariant forall i :: 0 <= i < k ==>
                    nodes[i].conn.records ==
                    old(nodes[i].conn.records) +
                    (if nodes[i] == exclude then [] else Encode(TableUpdate(fileTable.contents)))
        invariant forall i :: k <= i < |nodes| ==> nodes[i].conn.records == old(nodes[i].conn.records)
        decreases |nodes| - k
      {
        assert cur == nodes[k] && cur in nodes;
        SendTableTo(cur, exclude);
        assert forall i :: 0 <= i < |nodes| && i != k ==> nodes[i].conn != cur.conn;
        cur := cur.next;
        k := k + 1;
      }
    }

    /** The part of the REGISTER case that changes the tables. */
    method Register(peer: Peer, ghost k: nat, port: int, files: seq<FileInfo>, now: int)
      requires Valid() && k < |peerTable.nodes| && peerTable.nodes[k] == peer
      requires Enabled(View(), TrackerProtocol.Register(k, port, files, now))
      modifies this, peerTable, peer, fileTable.Repr
      ensures Valid() && View() == Next(old(View()), TrackerProtocol.Register(k, port, files, now))
      ensures peerTable.nodes == old(peerTable.nodes)
    {
      assert peer.Value() == peerTable.members[k];
      peerTable.Touch(peer, k, port, now, Registered);
      log := log + TrackerProtocol.Reports(Table.FileDiff(fileTable.contents, files), Addr(peer.ip, port));
      var events := fileTable.Merge(files, Addr(peer.ip, port));
    }

    /** handshake_thread(), case REGISTER: the peer is acknowledged, and everyone is sent the
        table. */
    method OnRegister(peer: Peer, ghost k: nat, port: int, files: seq<FileInfo>, now: int)
      requires Valid() && k < |peerTable.nodes| && peerTable.nodes[k] == peer
      requires Enabled(View(), TrackerProtocol.Register(k, port, files, now))
      modifies this, peerTable, peer, fileTable.Repr, set p | p in peerTable.nodes :: p.conn
      ensures Valid() && View() == Next(old(View()), TrackerProtocol.Register(k, port, files, now))
      ensures peerTable.nodes == old(peerTable.nodes)
      ensures forall p :: p in peerTable.nodes ==>
                p.conn.records ==
                old(p.conn.records) + (if p == peer then Encode(RegisterAck(INTERVAL, PIECE_LENGTH)) else []) +
                Encode(TableUpdate(fileTable.contents))
    {
      Register(peer, k, port, files, now);
      Welcome(peer);
    }

    /** The acknowledgement, and the table for everyone. */
    method Welcome(peer: Peer)
      requires Valid() && peer in peerTable.nodes
      modifies set p | p in peerTable.nodes :: p.conn
      ensures Valid()
      ensures forall p :: p in peerTable.nodes ==>
                p.conn.records ==
                old(p.conn.records) + (if p == peer then Encode(RegisterAck(INTERVAL, PIECE_LENGTH)) else []) +
                Encode(TableUpdate(fileTable.contents))
    {
      peer.conn.SendRegisterAck(INTERVAL, PIECE_LENGTH);
      Broadcast(null);
    }

    /** The part of the FILE_UPDATE case that changes the tables. */
    method Update(peer: Peer, ghost k: nat, events: seq<Event>, now: int)
      requires Valid() && k < |peerTable.nodes| && peerTable.nodes[k] == peer
      requires Enabled(View(), TrackerProtocol.Update(k, events, now))
      modifies this, peerTable, peer, fileTable.Repr
      ensures Valid() && View() == Next(old(View()), TrackerProtocol.Update(k, events, now))
      ensures peerTable.nodes == old(peerTable.nodes)
    {
      assert peer.Value() == peerTable.members[k];
      peerTable.Touch(peer, k, peer.listenPort, now, peer.phase);
      log := log + TrackerProtocol.Reports(events, Addr(peer.ip, peer.listenPort));
      fileTable.EventMerge(events, Addr(peer.ip, peer.listenPort));
    }

    /** handshake_thread(), case FILE_UPDATE: everyone else is sent the table. */
    method OnFileUpdate(peer: Peer, ghost k: nat, events: seq<Event>, now: int)
      requires Valid() && k < |peerTable.nodes| && peerTable.nodes[k] == peer
      requires Enabled(View(), TrackerProtocol.Update(k, events, now))
      modifies this, peerTable, peer, fileTable.Repr, set p | p in peerTable.nodes :: p.conn
      ensures Valid() && View() == Next(old(View()), TrackerProtocol.Update(k, events, now))
      ensures peerTable.nodes == old(peerTable.nodes)
      ensures forall p :: p in peerTable.nodes ==>
                p.conn.records == old(p.conn.records) +
                (if p == peer then [] else Encode(TableUpdate(fileTable.contents)))
    {
      Update(peer, k, events, now);
      Broadcast(peer);
    }

    /** The end of handshake_thread(), after the peer hung up. */
    method OnHangUp(peer: Peer, ghost k: nat)
      requires Valid() && k < |peerTable.nodes| && peerTable.nodes[k] == peer && Enabled(View(), HangUp(k))
      modifies this, peerTable, peer, fileTable.Repr
      ensures Valid() && View() == Next(old(View()), HangUp(k))
    {
      assert peer.Value() == peerTable.members[k];
      peerTable.Touch(peer, k, peer.listenPort, peer.lastTimestamp, HungUp);
      log := log + [Leave(Addr(peer.ip, peer.listenPort))];
      RemovePeerAllLaw(fileTable.contents, Addr(peer.ip, peer.listenPort), "");
      fileTable.RemovePeerAll(Addr(peer.ip, peer.listenPort));
    }

    /** What monitor_thread() does about a peer that has timed out. */
    method Evict(peer: Peer, ghost at: nat)
      requires Valid() && at < |peerTable.nodes| && peerTable.nodes[at] == peer
      modifies peerTable, peerTable.Repr, fileTable.Repr
      ensures Valid() && fileTable == old(fileTable) && fileTable.Repr == old(fileTable.Repr)
      ensures peerTable.Repr == old(peerTable.Repr)
      ensures peerTable.nodes == old(peerTable.nodes)[..at] + old(peerTable.nodes)[at + 1..]
      ensures peerTable.members == old(peerTable.members)[..at] + old(peerTable.members)[at + 1..]
      ensures fileTable.contents == RemovePeerAll(old(fileTable.contents), old(peerTable.members)[at].Address())
    {
      assert peer.Value() == peerTable.members[at];
      var who := Addr(peer.ip, peer.listenPort);
      RemovePeerAllLaw(fileTable.contents, who, "");
      ConnectionsCut(peerTable.nodes, at);
      fileTable.RemovePeerAll(who);
      peerTable.Remove(peer, at);
    }

    /** One turn of the loop in monitor_thread() over the peer table. */
    method VisitPeer(peer: Peer, ghost at: nat, now: int) returns (tmp: Peer?)
      requires Valid() && at < |peerTable.nodes| && peerTable.nodes[at] == peer
      modifies peerTable, peerTable.Repr, fileTable.Repr
      ensures Valid() && fileTable == old(fileTable) && fileTable.Repr == old(fileTable.Repr)
      ensures peerTable.Repr == old(peerTable.Repr)
      ensures tmp == PeerTables.PeerAt(old(peerTable.nodes), at + 1)
      ensures var m := old(peerTable.members)[at];
        if Expired(m, now) then
          && peerTable.nodes == old(peerTable.nodes)[..at] + old(peerTable.nodes)[at + 1..]
          && peerTable.members == old(peerTable.members)[..at] + old(peerTable.members)[at + 1..]
          && fileTable.contents == RemovePeerAll(old(fileTable.contents), m.Address())
        else
          && peerTable.nodes == old(peerTable.nodes) && peerTable.members == old(peerTable.members)
          && fileTable.contents == old(fileTable.contents)
    {
      tmp := peer.next;
      assert peer.Value() == peerTable.members[at];
      if now - peer.lastTimestamp > INTERVAL {
        Evict(peer, at);
      }
    }

    /** The same, seen from the list n0 that the loop began with. */
    method SweepOne(peer: Peer, ghost n0: seq<Peer>, ghost m0: seq<Member>, ghost c0: seq<Entry>,
                    ghost i: nat, ghost done: nat, now: int)
      returns (tmp: Peer?, ghost done': nat)
      requires Valid() && i < |n0| && peer == n0[i]
      requires SweptTo(peerTable.nodes, peerTable.members, fileTable.contents, n0, m0, c0, i, done, now)
      modifies peerTable, peerTable.Repr, fileTable.Repr
      ensures Valid() && fileTable == old(fileTable) && fileTable.Repr == old(fileTable.Repr)
      ensures peerTable.Repr == old(peerTable.Repr)
      ensures tmp == PeerTables.PeerAt(n0, i + 1)
      ensures SweptTo(peerTable.nodes, peerTable.members, fileTable.contents, n0, m0, c0, i + 1, done', now)
    {
      ghost var n1, m1, c1 := peerTable.nodes, peerTable.members, fileTable.contents;
      SweptStep(n1, m1, c1, n0, m0, c0, i, done, now);
      tmp := VisitPeer(peer, done, now);
      done' := if Expired(m0[i], now) then done else done + 1;
    }

    /** That loop: each peer's successor is read before the peer is taken out. */
    method EvictExpired(now: int)
      requires Valid()
      modifies peerTable, peerTable.Repr, fileTable.Repr
      ensures Valid() && fileTable == old(fileTable) && fileTable.Repr == old(fileTable.Repr)
      ensures peerTable.Repr == old(peerTable.Repr)
      ensures peerTable.members == Kept(old(peerTable.members), now)
      ensures fileTable.contents == RunOps(old(fileTable.contents), Evicted(old(peerTable.members), now))
    {
      ghost var n0, m0, c0 := peerTable.nodes, peerTable.members, fileTable.contents;
      var p := peerTable.head;
      ghost var i: nat, done: nat := 0, 0;
      while p != null
        invariant Valid() && fileTable == old(fileTable) && fileTable.Repr == old(fileTable.Repr)
        invariant peerTable.Repr == old(peerTable.Repr)
        invariant 0 <= i <= |n0| && p == PeerTables.PeerAt(n0, i)
        invariant SweptTo(peerTable.nodes, peerTable.members, fileTable.contents, n0, m0, c0, i, done, now)
        decreases |n0| - i
      {
        p, done := SweepOne(p, n0, m0, c0, i, done, now);
        i := i + 1;
      }
      SweptAll(peerTable.nodes, peerTable.members, fileTable.contents, n0, m0, c0, done, now);
    }

    /** When nobody is left, the file table starts again from nothing. */
    method ForgetIfAlone()
      requires Valid()
      modifies this
      ensures Valid() && View() == if View().members == [] then old(View()).(table := [], log := []) else old(View())
    {
      if peerTable.head == null {
        fileTable := new FileTable();
        log := [];
      }
    }

    /** One round of monitor_thread() */
    method DoSweep(now: int)
      requires Valid()
      modifies this, peerTable, peerTable.Repr, fileTable.Repr
      ensures Valid() && View() == Next(old(View()), Sweep(now))
    {
      log := log + Evicted(peerTable.members, now);
      EvictExpired(now);
      ForgetIfAlone();
    }
  }

  /** The first i entries of the list n0 have been visited; done of them are left. */
  ghost predicate SweptTo(nodes: seq<Peer>, members: seq<Member>, c: seq<Entry>,
                        n0: seq<Peer>, m0: seq<Member>, c0: seq<Entry>, i: nat, done: nat, now: int)
  {
    && |n0| == |m0| && i <= |n0| && |nodes| == |members| && done <= |nodes|
    && nodes[done..] == n0[i..] && members[done..] == m0[i..]
    && members[..done] + Kept(m0[i..], now) == Kept(m0, now)
    && RunOps(c, Evicted(m0[i..], now)) == RunOps(c0, Evicted(m0, now))
  }

  lemma SweptAll(nodes: seq<Peer>, members: seq<Member>, c: seq<Entry>,
                 n0: seq<Peer>, m0: seq<Member>, c0: seq<Entry>, done: nat, now: int)
    requires SweptTo(nodes, members, c, n0, m0, c0, |n0|, done, now)
    ensures members == Kept(m0, now) && c == RunOps(c0, Evicted(m0, now))
  {
    assert m0[|m0|..] == [] && members[done..] == [];
    assert members[..done] + [] == members;
  }

  lemma SweptStep(nodes: seq<Peer>, members: seq<Member>, c: seq<Entry>,
                  n0: seq<Peer>, m0: seq<Member>, c0: seq<Entry>, i: nat, done: nat, now: int)
    requires i < |n0| && SweptTo(nodes, members, c, n0, m0, c0, i, done, now)
    ensures done < |nodes| && nodes[done] == n0[i] && members[done] == m0[i]
    ensures PeerTables.PeerAt(nodes, done + 1) == PeerTables.PeerAt(n0, i + 1)
    ensures if Expired(m0[i], now) then
              SweptTo(nodes[..done] + nodes[done + 1..], members[..done] + members[done + 1..],
                    RemovePeerAll(c, m0[i].Address()), n0, m0, c0, i + 1, done, now)
            else SweptTo(nodes, members, c, n0, m0, c0, i + 1, done + 1, now)
  {
    RestStep(nodes, n0, done, i);
    RestStep(members, m0, done, i);
    EvictStep(c, m0, i, now);
    var rest := Kept(m0[i + 1..], now);
    if Expired(m0[i], now) {
      CutAt(nodes, done);
      CutAt(members, done);
      assert [] + rest == rest;
    } else {
      assert members[..done + 1] + rest == members[..done] + ([m0[i]] + rest);
    }
  }

  lemma RestStep<T>(s: seq<T>, t: seq<T>, d: nat, i: nat)
    requires d <= |s| && i < |t| && s[d..] == t[i..]
    ensures d < |s| && s[d] == t[i] && s[d + 1..] == t[i + 1..] && |s| - d == |t| - i
    ensures d + 1 < |s| ==> s[d + 1] == t[i + 1]
  {
    assert |s[d..]| == |t[i..]|;
    assert s[d] == s[d..][0] && t[i] == t[i..][0];
    assert s[d + 1..] == s[d..][1..] && t[i + 1..] == t[i..][1..];
    if d + 1 < |s| {
      assert s[d + 1] == s[d..][1] && t[i + 1] == t[i..][1];
    }
  }

  lemma CutAt<T>(s: seq<T>, d: nat)
    requires d < |s|
    ensures (s[..d] + s[d + 1..])[d..] == s[d + 1..] && (s[..d] + s[d + 1..])[..d] == s[..d]
  {
  }

  lemma EvictStep(c: seq<Entry>, m0: seq<Member>, i: nat, now: int)
    requires i < |m0|
    ensures Kept(m0[i..], now) == (if Expired(m0[i], now) then [] else [m0[i]]) + Kept(m0[i + 1..], now)
    ensures RunOps(c, Evicted(m0[i..], now)) ==
            RunOps(if Expired(m0[i], now) then RemovePeerAll(c, m0[i].Address()) else c, Evicted(m0[i + 1..], now))
  {
    assert m0[i..][0] == m0[i] && m0[i..][1..] == m0[i + 1..];
    if Expired(m0[i], now) {
      var ops := Evicted(m0[i..], now);
      assert ops[0] == Leave(m0[i].Address()) && ops[1..] == Evicted(m0[i + 1..], now);
    } else {
      assert Evicted(m0[i..], now) == Evicted(m0[i + 1..], now);
    }
  }
}
