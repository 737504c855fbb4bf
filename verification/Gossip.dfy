/** The peer table: records that change in place, one per peer. */
module Gossip {
  import opened Tasks
  import opened FailureDetector
  import opened PrioritySort
  import opened Redistribution
  import opened Routing

  class GossipNode {
    const id: string
    var lastSeen: int
    var status: PeerStatus
    var load: real
    var latency: int

    function View(): Peer
      reads this
    {
      Peer(lastSeen, status, load, latency)
    }

    constructor (id: string, now: int)
      ensures this.id == id && View() == Peer(now, Alive, 0.0, 0)
    {
      this.id := id;
      lastSeen, status, load, latency := now, Alive, 0.0, 0;
    }
  }

  class GossipManager {
    const timeouts: Timeouts
    var peers: map<string, GossipNode>

    /** Every record is filed under its own ID, so no two entries share one. */
    ghost predicate Valid()
      reads this
    {
      forall id :: id in peers ==> peers[id].id == id
    }

    ghost function Look(id: string): Option<Peer>
      reads this, peers.Values
    {
      if id in peers then Some(peers[id].View()) else None
    }

    constructor (timeouts: Timeouts)
      ensures Valid() && peers == map[] && this.timeouts == timeouts
    {
      this.timeouts := timeouts;
      peers := map[];
    }

    method AddPeer(id: string, now: int)
      requires Valid()
      modifies this
      ensures Valid() && fresh(peers.Values - old(peers.Values))
      ensures Look(id) == After(timeouts, old(Look(id)), Added(now))
      ensures Look(id) == Some(Peer(now, Alive, 0.0, 0))
      ensures forall x :: x != id ==> Look(x) == old(Look(x))
    {
      var peer := new GossipNode(id, now);
      peers := peers[id := peer];
    }

    method RemovePeer(id: string)
      requires Valid()
      modifies this
      ensures Valid() && peers.Values <= old(peers.Values)
      ensures Look(id) == After(timeouts, old(Look(id)), Removed)
      ensures id !in peers
      ensures forall x :: x != id ==> Look(x) == old(Look(x))
    {
      peers := peers - {id};
    }

    method MarkPeerAlive(id: string, now: int)
      requires Valid()
      modifies peers.Values
      ensures Look(id) == After(timeouts, old(Look(id)), Answered(now))
      ensures id in peers ==> peers[id].status == Alive && peers[id].lastSeen == now
      ensures id in peers ==> peers[id].load == old(peers[id].load) && peers[id].latency == old(peers[id].latency)
      ensures forall x :: x != id ==> Look(x) == old(Look(x))
    {
      if id in peers {
        peers[id].lastSeen := now;
        peers[id].status := Alive;
      }
    }

    method MarkPeerSuspicious(id: string)
      requires Valid()
      modifies peers.Values
      ensures Look(id) == After(timeouts, old(Look(id)), Doubted)
      ensures id in peers ==> peers[id].status == Suspected && peers[id].lastSeen == old(peers[id].lastSeen)
      ensures id in peers ==> peers[id].load == old(peers[id].load) && peers[id].latency == old(peers[id].latency)
      ensures forall x :: x != id ==> Look(x) == old(Look(x))
    {
      if id in peers {
        peers[id].status := Suspected;
      }
    }

    /** The sender's own entry; what it says about other peers is left out. */
    method HandleGossipMessage(sender: string, now: int, load: Option<real>, latency: Option<int>)
      requires Valid()
      modifies this, peers.Values
      ensures Valid() && fresh(peers.Values - old(peers.Values))
      ensures Look(sender) == After(timeouts, old(Look(sender)), Gossiped(now, load, latency))
      ensures sender in peers && peers[sender].status == Alive && peers[sender].lastSeen == now
      ensures sender !in old(peers) ==> peers[sender].load == 0.0 && peers[sender].latency == 0
      ensures sender in old(peers) ==>
                && peers[sender].load == (if load.Some? then load.value else old(peers[sender].load))
                && peers[sender].latency == (if latency.Some? then latency.value else old(peers[sender].latency))
      ensures forall x :: x != sender ==> Look(x) == old(Look(x))
    {
      if sender in peers {
        var peer := peers[sender];
        peer.lastSeen := now;
        peer.status := Alive;
        if load.Some? {
          peer.load := load.value;
        }
        if latency.Some? {
          peer.latency := latency.value;
        }
      } else {
        var peer := new GossipNode(sender, now);
        peers := peers[sender := peer];
      }
    }

    /** The detector's look at one listed peer. */
    method Examine(id: string, now: int) returns (died: bool)
      requires Valid() && id in peers
      modifies `peers, peers.Values
      ensures Valid() && peers.Values <= old(peers.Values)
      ensures forall x :: x != id ==> (x in peers <==> x in old(peers)) && Look(x) == old(Look(x))
      ensures Look(id) == After(timeouts, old(Look(id)), Tick(now))
      ensures died == DeclaredDead(timeouts, old(Look(id)), Tick(now))
    {
      died := false;
      var peer := peers[id];
      var silence := now - peer.lastSeen;
      match peer.status
      case Alive =>
        if silence > timeouts.suspicion {
          peer.status := Suspected;
        }
      case Suspected =>
        if silence > timeouts.failure {
          peer.status := Dead;
          died := true;
        }
      case Dead =>
        if silence > GRACE {
          peers := peers - {id};
        }
    }

    /** One run of the detector over all peers, in the order the table is ranged
        over. `failed` lists the peers whose failure is then handled, each once. */
    method DetectFailures(order: seq<string>, now: int) returns (failed: seq<string>)
      requires Valid()
      requires Distinct(order) && forall id :: id in order <==> id in peers
      modifies this, peers.Values
      ensures Valid() && peers.Values <= old(peers.Values)
      ensures forall id :: Look(id) == After(timeouts, old(Look(id)), Tick(now))
      ensures Distinct(failed)
      ensures forall id :: id in failed <==> DeclaredDead(timeouts, old(Look(id)), Tick(now))
    {
      failed := [];
      for i := 0 to |order|
        invariant Valid() && peers.Values <= old(peers.Values)
        invariant forall id :: id in order[i..] ==> id in peers
        invariant forall id ::
          Look(id) == if id in order[..i] then After(timeouts, old(Look(id)), Tick(now)) else old(Look(id))
        invariant Distinct(failed)
        invariant forall id :: id in failed <==> id in order[..i] && DeclaredDead(timeouts, old(Look(id)), Tick(now))
      {
        var id := order[i];
        assert id !in order[..i];
        var died := Examine(id, now);
        if died {
          failed := failed + [id];
        }
      }
    }
 
    // ---------- Redistribution ----------

    /** The alive peers, in the order the table is ranged over. */
    method GetAvailablePeers(order: seq<string>) returns (available: seq<GossipNode>)
      requires Valid()
      requires Distinct(order) && forall id :: id in order <==> id in peers
      ensures Listed(available)
      ensures forall id :: id in peers ==> (peers[id] in available <==> peers[id].status == Alive)
    {
      available := [];
      for i := 0 to |order|
        invariant Listed(available)
        invariant forall p :: p in available ==> p.id in order[..i]
        invariant forall id :: id in order[..i] ==> (peers[id] in available <==> peers[id].status == Alive)
      {
        var peer := peers[order[i]];
        assert order[i] !in order[..i];
        if peer.status == Alive {
          available := available + [peer];
        }
      }
      assert order[..|order|] == order;
    }

    /** Different records of the table. */
    ghost predicate Listed(available: seq<GossipNode>)
      reads this
    {
      (forall i :: 0 <= i < |available| ==> available[i].id in peers && peers[available[i].id] == available[i]) &&
      (forall i, j :: 0 <= i < j < |available| ==> available[i] != available[j])
    }

    method UpdatePeerLoad(id: string, t: Task)
      requires Valid()
      modifies peers.Values`load
      ensures id in peers ==> peers[id].load == old(peers[id].load) + t.estimatedTokens as real / 1000.0
      ensures forall x :: x in peers && x != id ==> peers[x].load == old(peers[x].load)
    {
      if id in peers {
        peers[id].load := peers[id].load + t.estimatedTokens as real / 1000.0;
      }
    }

    /** Offers one task to the best available peer. */
    method RedistributeOne(available: seq<GossipNode>, t: Task, sent: bool)
      requires Valid() && Listed(available)
      modifies peers.Values`load
      ensures LoadsOf(available) == AfterTask(old(LoadsOf(available)), old(LatenciesOf(available)), t, sent)
      ensures LatenciesOf(available) == old(LatenciesOf(available))
      ensures forall id :: id in peers && peers[id] !in available ==> peers[id].load == old(peers[id].load)
    {
      var best := SelectWeightedPeer(available);
      if best.Some? && sent {
        var chosen := available[best.value];
        UpdatePeerLoad(chosen.id, t);
        assert forall i :: 0 <= i < |available| && i != best.value ==> available[i].id != chosen.id;
      }
    }

    method RedistributeAll(available: seq<GossipNode>, tasks: array<Task>, sends: seq<bool>)
      requires Valid() && Listed(available) && |sends| == tasks.Length
      modifies peers.Values`load
      ensures LoadsOf(available) == AfterTasks(old(LoadsOf(available)), old(LatenciesOf(available)), tasks[..], sends)
      ensures LatenciesOf(available) == old(LatenciesOf(available))
      ensures forall id :: id in peers && peers[id] !in available ==> peers[id].load == old(peers[id].load)
    {
      ghost var loads := LoadsOf(available);
      ghost var latencies := LatenciesOf(available);
      ghost var ts := tasks[..];
      for i := 0 to tasks.Length
        invariant LatenciesOf(available) == latencies
        invariant LoadsOf(available) == AfterTasks(loads, latencies, ts[..i], sends[..i])
        invariant forall id :: id in peers && peers[id] !in available ==> peers[id].load == old(peers[id].load)
      {
        RedistributeOne(available, tasks[i], sends[i]);
        assert ts[..i + 1][..i] == ts[..i] && sends[..i + 1][..i] == sends[..i];
      }
      assert ts[..tasks.Length] == ts && sends[..tasks.Length] == sends;
    }

    /** Nobody else changes the peers meanwhile. sends stands for the outcomes of
        sending the tasks, in the order in which they are looked at. */
    method RedistributeTasks(tasks: array<Task>, order: seq<string>, sends: seq<bool>)
      returns (available: seq<GossipNode>)
      requires Valid() && |sends| == tasks.Length
      requires Distinct(order) && forall id :: id in order <==> id in peers
      modifies tasks, peers.Values`load
      ensures Listed(available)
      ensures forall id :: id in peers ==> (peers[id] in available <==> peers[id].status == Alive)
      ensures available != [] ==>
                NonIncreasing(tasks[..]) && KeepsOrderWithin(tasks[..], old(tasks[..])) &&
                LoadsOf(available) == AfterTasks(old(LoadsOf(available)), LatenciesOf(available), tasks[..], sends)
      ensures forall id :: id in peers && peers[id] !in available ==> peers[id].load == old(peers[id].load)
      ensures available == [] ==> tasks[..] == old(tasks[..])
    {
      available := GetAvailablePeers(order);
      if |available| == 0 {
        return;
      }
      SortTasksByPriority(tasks);
      RedistributeAll(available, tasks, sends);
    }
  }

  ghost function LoadsOf(peers: seq<GossipNode>): (loads: Loads)
    reads peers
    ensures |loads| == |peers|
  {
    seq(|peers|, i requires 0 <= i < |peers| reads peers => peers[i].load)
  }

  ghost function LatenciesOf(peers: seq<GossipNode>): (latencies: seq<int>)
    reads peers
    ensures |latencies| == |peers|
  {
    seq(|peers|, i requires 0 <= i < |peers| reads peers => peers[i].latency)
  }

  method SelectWeightedPeer(peers: seq<GossipNode>) returns (best: Option<nat>)
    ensures best == var k := BestPeer(LoadsOf(peers), LatenciesOf(peers)); if k < 0 then None else Some(k)
  {
    var bestScore := -1.0;
    best := None;
    ghost var keys := PeerKeys(LoadsOf(peers), LatenciesOf(peers));
    for i := 0 to |peers|
      invariant best.Some? ==> best.value < i && bestScore == keys[best.value].value
      invariant best == None ==> bestScore == -1.0
      invariant if best == None then NoneBeats(keys[..i], -1.0, true)
                else FirstBest(keys[..i], -1.0, true, best.value)
    {
      var score := PeerScore(peers[i].load, peers[i].latency);
      OneMoreKey(keys[..i], -1.0, true, if best == None then -1 else best.value, keys[i]);
      assert keys[..i + 1] == keys[..i] + [keys[i]];
      if score > bestScore {
        bestScore := score;
        best := Some(i);
      }
    }
    assert keys[..|peers|] == keys;
    ghost var k := BestPeer(LoadsOf(peers), LatenciesOf(peers));
    if best.Some? {
      BestIsUnique(keys, -1.0, true, best.value);
    }
  }
}
