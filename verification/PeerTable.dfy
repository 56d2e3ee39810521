/** The linked list of connected peers (tracker/peertable.c). */
module PeerTables {
  import opened Messaging
  import opened TrackerProtocol

  class Peer {
    ghost const id: nat
    const ip: string
    const conn: Stream
    var listenPort: int
    var lastTimestamp: int
    ghost var phase: Phase
    var next: Peer?

    constructor (ip: string, conn: Stream, ghost id: nat)
      ensures this.ip == ip && this.conn == conn && this.id == id && Value() == Member(id, ip, 0, 0, Accepted)
    {
      this.ip, this.conn, this.id := ip, conn, id;
      listenPort, lastTimestamp, phase, next := 0, 0, Accepted, null;
    }

    ghost function Value(): Member
      reads this
    {
      Member(id, ip, listenPort, lastTimestamp, phase)
    }
  }

  ghost function PeerAt(nodes: seq<Peer>, i: nat): Peer? {
    if i < |nodes| then nodes[i] else null
  }

  /** nodes and members are the list as nodes and as values. */
  class PeerTable {
    var head: Peer?
    ghost var nodes: seq<Peer>
    ghost var members: seq<Member>
    ghost var Repr: set<Peer>

    ghost predicate Valid()
      reads this, Repr
    {
      && (forall i :: 0 <= i < |nodes| ==> nodes[i] in Repr)
      && head == PeerAt(nodes, 0)
      && |members| == |nodes|
      && (forall i, j :: 0 <= i < j < |nodes| ==> nodes[i] != nodes[j])
      && (forall i {:trigger nodes[i].next} :: 0 <= i < |nodes| ==> nodes[i].next == PeerAt(nodes, i + 1))
      && (forall i :: 0 <= i < |nodes| ==> nodes[i].Value() == members[i])
    }

    /** peertable_init() */
    constructor ()
      ensures Valid() && nodes == [] && members == [] && Repr == {}
    {
      head, nodes, members, Repr := null, [], [], {};
    }

    /** peertable_add() */
    method Add(peer: Peer)
      requires Valid() && peer !in nodes
      modifies this, peer`next
      ensures Valid() && nodes == [peer] + old(nodes) && members == [peer.Value()] + old(members)
      ensures Repr == old(Repr) + {peer}
    {
      peer.next := head;
      head := peer;
      nodes, members, Repr := [peer] + nodes, [peer.Value()] + members, Repr + {peer};
    }

    /** What a message from the peer at k does to its record. */
    method Touch(peer: Peer, ghost k: nat, port: int, now: int, ghost phase: Phase)
      requires Valid() && k < |nodes| && nodes[k] == peer
      modifies this`members, peer`listenPort, peer`lastTimestamp, peer`phase
      ensures Valid()
      ensures members == old(members)[k := old(members)[k].(port := port, stamp := now, phase := phase)]
    {
      assert peer.Value() == members[k];
      peer.listenPort := port;
      peer.lastTimestamp := now;
      peer.phase := phase;
      members := members[k := peer.Value()];
    }

    /** The search loop of peertable_remove(). */
    method FindPeer(peer: Peer) returns (prev: Peer?, cur: Peer?, ghost k: nat)
      requires Valid()
      ensures k <= |nodes| && cur == PeerAt(nodes, k) && prev == if k == 0 then null else PeerAt(nodes, k - 1)
      ensures if k < |nodes| then nodes[k] == peer else peer !in nodes
    {
      prev, cur, k := null, head, 0;
      while cur != null && cur != peer
        invariant 0 <= k <= |nodes| && cur == PeerAt(nodes, k)
        invariant prev == if k == 0 then null else PeerAt(nodes, k - 1)
        invariant peer !in nodes[..k]
        decreases |nodes| - k
      {
        prev := cur;
        cur := cur.next;
        k := k + 1;
      }
    }

    /** peertable_remove() */
    method Remove(peer: Peer, ghost at: nat)
      requires Valid() && at <= |nodes| && (if at < |nodes| then nodes[at] == peer else peer !in nodes)
      modifies this, Repr
      ensures Valid() && Repr == old(Repr)
      ensures at == |old(nodes)| ==> nodes == old(nodes) && members == old(members)
      ensures at < |old(nodes)| ==>
                && nodes == old(nodes)[..at] + old(nodes)[at + 1..]
                && members == old(members)[..at] + old(members)[at + 1..]
    {
      var prev, cur, k := FindPeer(peer);
      if cur != null {
        assert k == at;
        Unlink(prev, cur, at);
      }
    }

    /** The part of peertable_remove() that takes the peer out of the list. */
    method Unlink(prev: Peer?, cur: Peer, ghost k: nat)
      requires Valid() && k < |nodes| && nodes[k] == cur && prev == if k == 0 then null else PeerAt(nodes, k - 1)
      modifies this, Repr
      ensures Valid() && Repr == old(Repr)
      ensures nodes == old(nodes)[..k] + old(nodes)[k + 1..] && members == old(members)[..k] + old(members)[k + 1..]
    {
      if prev == null {
        head := head.next;
      } else {
        prev.next := cur.next;
      }
      nodes, members := nodes[..k] + nodes[k + 1..], members[..k] + members[k + 1..];
      forall i | 0 <= i < |nodes|
        ensures nodes[i].Value() == members[i]
      {
        assert nodes[i] == old(nodes)[if i < k then i else i + 1];
        assert members[i] == old(members)[if i < k then i else i + 1];
      }
    }
  }
}
