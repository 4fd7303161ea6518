/**
 * server.py: the replicated game-state servers. Each server pings its peers to
 * decide who leads (the lowest id alive), the leader counts acknowledgements
 * when it replicates a saved game, and clients check the protocol version.
 * Ping and replication outcomes are inputs: `alive[k]` and `acks[k]` are the
 * answers of the k-th peer of the list.
 */
module Server {

  import opened Util

  const SERVER_VERSION: string := "1.0.0"

  /** A peer (peer_id, address) of the peers list. */
  datatype Peer = Peer(id: int, address: string)

  function PeerIds(peers: seq<Peer>): set<int> {
    set k | 0 <= k < |peers| :: peers[k].id
  }

  // ---------------------------------------------------------------------------
  // One ping of one peer
  // ---------------------------------------------------------------------------

  /**
   * The update of (peer_status[pid], peer_ever_alive[pid]) for one ping result:
   * a peer never seen alive takes the ping's result and is marked seen when it
   * answers; a peer seen alive before is marked dead by a failed ping and is
   * otherwise left as it was.
   */
  function PeerStep(status: bool, everAlive: bool, isAlive: bool): (r: (bool, bool))
    ensures r.1 == (everAlive || isAlive)
    ensures r.0 ==> isAlive
    ensures r.0 ==> status || !everAlive
  {
    if !everAlive then
      if isAlive then (true, true) else (false, false)
    else if !isAlive then (false, everAlive)
    else (status, everAlive)
  }

  /** The rules of one ping, case by case. */
  lemma PeerStepRules(status: bool, everAlive: bool, isAlive: bool)
    ensures !everAlive ==> PeerStep(status, everAlive, isAlive) == (isAlive, isAlive)
    ensures everAlive ==> PeerStep(status, everAlive, isAlive).1
    ensures everAlive && !isAlive ==> !PeerStep(status, everAlive, isAlive).0
    ensures everAlive && !status ==> !PeerStep(status, everAlive, isAlive).0
    ensures everAlive && isAlive ==> PeerStep(status, everAlive, isAlive) == (status, true)
  {
  }

  /** The status and seen flags of one peer after a series of pings. */
  function Track(status: bool, everAlive: bool, pings: seq<bool>): (r: (bool, bool))
    ensures r.1 == (everAlive || true in pings)
    ensures |pings| > 0 && r.0 ==> pings[|pings| - 1]
    decreases |pings|
  {
    if |pings| == 0 then (status, everAlive)
    else
      var (s, e) := PeerStep(status, everAlive, pings[0]);
      Track(s, e, pings[1..])
  }

  /** A peer that was seen alive and then failed a ping stays dead, whatever later pings say. */
  lemma {:induction false} DeadStaysDead(status: bool, everAlive: bool, pings: seq<bool>)
    requires everAlive && !status
    ensures Track(status, everAlive, pings) == (false, true)
    decreases |pings|
  {
    if |pings| > 0 {
      PeerStepRules(status, everAlive, pings[0]);
      DeadStaysDead(false, true, pings[1..]);
    }
  }

  /** Once a peer has been seen alive it stays seen. */
  lemma {:induction false} SeenStaysSeen(status: bool, everAlive: bool, pings: seq<bool>)
    requires everAlive
    ensures Track(status, everAlive, pings).1
    decreases |pings|
  {
    if |pings| > 0 {
      var (s, e) := PeerStep(status, everAlive, pings[0]);
      SeenStaysSeen(s, e, pings[1..]);
    }
  }

  // ---------------------------------------------------------------------------
  // One round of pings and the leader rule
  // ---------------------------------------------------------------------------

  /** The two dictionaries after pinging the listed peers in order. */
  function Observed(status: map<int, bool>, ever: map<int, bool>, peers: seq<Peer>, alive: seq<bool>)
    : (r: (map<int, bool>, map<int, bool>))
    requires |alive| == |peers| && PeerIds(peers) <= status.Keys && PeerIds(peers) <= ever.Keys
    ensures r.0.Keys == status.Keys && r.1.Keys == ever.Keys
    decreases |peers|
  {
    if |peers| == 0 then (status, ever)
    else
      var pid := peers[0].id;
      var step := PeerStep(status[pid], ever[pid], alive[0]);
      assert PeerIds(peers[1..]) <= PeerIds(peers);
      Observed(status[pid := step.0], ever[pid := step.1], peers[1..], alive[1..])
  }

  /** With distinct peer ids, each peer's entry after the round is the result of its own ping. */
  lemma {:induction false} ObservedPeer(status: map<int, bool>, ever: map<int, bool>, peers: seq<Peer>, alive: seq<bool>, k: int)
    requires |alive| == |peers| && PeerIds(peers) <= status.Keys && PeerIds(peers) <= ever.Keys
    requires forall i, j :: 0 <= i < j < |peers| ==> peers[i].id != peers[j].id
    requires 0 <= k < |peers|
    ensures var pid := peers[k].id;
      Observed(status, ever, peers, alive).0[pid] == PeerStep(status[pid], ever[pid], alive[k]).0 &&
      Observed(status, ever, peers, alive).1[pid] == PeerStep(status[pid], ever[pid], alive[k]).1
    decreases |peers|
  {
    var pid := peers[0].id;
    var step := PeerStep(status[pid], ever[pid], alive[0]);
    assert PeerIds(peers[1..]) <= PeerIds(peers);
    if k == 0 {
      ObservedUntouched(status[pid := step.0], ever[pid := step.1], peers[1..], alive[1..], pid);
    } else {
      ObservedPeer(status[pid := step.0], ever[pid := step.1], peers[1..], alive[1..], k - 1);
    }
  }

  /** A peer id not in the list is not touched by the round. */
  lemma {:induction false} ObservedUntouched(status: map<int, bool>, ever: map<int, bool>, peers: seq<Peer>, alive: seq<bool>, q: int)
    requires |alive| == |peers| && PeerIds(peers) <= status.Keys && PeerIds(peers) <= ever.Keys
    requires q in status && q in ever && forall i :: 0 <= i < |peers| ==> peers[i].id != q
    ensures Observed(status, ever, peers, alive).0[q] == status[q]
    ensures Observed(status, ever, peers, alive).1[q] == ever[q]
    decreases |peers|
  {
    if |peers| > 0 {
      var pid := peers[0].id;
      var step := PeerStep(status[pid], ever[pid], alive[0]);
      assert PeerIds(peers[1..]) <= PeerIds(peers);
      ObservedUntouched(status[pid := step.0], ever[pid := step.1], peers[1..], alive[1..], q);
    }
  }

  /** any(peer_status[pid] for pid in peer_status if pid < server_id) */
  predicate LowerAlive(status: map<int, bool>, serverId: int) {
    exists pid :: pid in status && pid < serverId && status[pid]
  }

  /** min(server_id, every listed peer id whose status is True), the second loop of elect. */
  function Candidate(serverId: int, peers: seq<Peer>, status: map<int, bool>): (r: int)
    ensures r <= serverId
    ensures r == serverId || exists k :: 0 <= k < |peers| && peers[k].id == r && peers[k].id in status && status[peers[k].id]
    decreases |peers|
  {
    if |peers| == 0 then serverId
    else
      var c := Candidate(serverId, peers[..|peers| - 1], status);
      var p := peers[|peers| - 1];
      if p.id in status && status[p.id] && p.id < c then p.id else c
  }

  /** The candidate is the least of the server's own id and the ids of the live listed peers. */
  lemma {:induction false} CandidateIsLeastAlive(serverId: int, peers: seq<Peer>, status: map<int, bool>)
    ensures Candidate(serverId, peers, status) <= serverId
    ensures forall k :: 0 <= k < |peers| && peers[k].id in status && status[peers[k].id] ==>
      Candidate(serverId, peers, status) <= peers[k].id
    ensures Candidate(serverId, peers, status) == serverId ||
      exists k :: 0 <= k < |peers| && peers[k].id in status && status[peers[k].id] &&
                  Candidate(serverId, peers, status) == peers[k].id
    decreases |peers|
  {
    if |peers| > 0 {
      var init := peers[..|peers| - 1];
      CandidateIsLeastAlive(serverId, init, status);
      var c := Candidate(serverId, init, status);
      if c != serverId {
        var k :| 0 <= k < |init| && init[k].id in status && status[init[k].id] && c == init[k].id;
        assert peers[k] == init[k];
      }
      forall k | 0 <= k < |peers| - 1
        ensures peers[k] == init[k]
      {
      }
    }
  }

  /** With a live lower peer among those listed, the leader is that peer or a lower live one. */
  lemma BackupFollowsLowerPeer(serverId: int, peers: seq<Peer>, status: map<int, bool>, k: int)
    requires 0 <= k < |peers| && peers[k].id in status && status[peers[k].id] && peers[k].id < serverId
    ensures Candidate(serverId, peers, status) < serverId
  {
    CandidateIsLeastAlive(serverId, peers, status);
  }

  /** all_host_port_pairs[i] with Python's negative indices; None stands for the IndexError. */
  function PyIndex(s: seq<string>, i: int): (r: Option<string>)
    ensures r != None <==> -|s| <= i < |s|
    ensures 0 <= i < |s| ==> r == Some(s[i])
    ensures -|s| <= i < 0 ==> r == Some(s[|s| + i])
  {
    if 0 <= i < |s| then Some(s[i])
    else if -|s| <= i < 0 then Some(s[|s| + i])
    else None
  }

  /** LeaderElection: the peers' liveness as last seen and the outcome of the last election. */
  class LeaderElection {
    const serverId: int
    const peers: seq<Peer>
    var state: string
    var leaderId: Option<int>
    var peerStatus: map<int, bool>
    var peerEverAlive: map<int, bool>

    /** Both dictionaries have exactly the listed peers as keys. */
    predicate Valid()
      reads this
    {
      peerStatus.Keys == PeerIds(peers) && peerEverAlive.Keys == PeerIds(peers)
    }

    /** Every peer starts down and never seen; the server starts as a backup with no leader. */
    constructor(serverId: int, peers: seq<Peer>)
      ensures this.serverId == serverId && this.peers == peers && Valid()
      ensures state == "backup" && leaderId == None
      ensures forall pid :: pid in peerStatus ==> !peerStatus[pid] && !peerEverAlive[pid]
    {
      this.serverId := serverId;
      this.peers := peers;
      state := "backup";
      leaderId := None;
      peerStatus := map pid | pid in PeerIds(peers) :: false;
      peerEverAlive := map pid | pid in PeerIds(peers) :: false;
    }

    /**
     * elect: ping every peer, update the two dictionaries, then lead when no
     * lower-id peer is alive and otherwise follow the least live id; the answer
     * is the leader's entry of allHostPortPairs.
     */
    method Elect(alive: seq<bool>, allHostPortPairs: seq<string>) returns (r: Option<string>)
      requires Valid() && |alive| == |peers|
      modifies this
      ensures Valid()
      ensures (peerStatus, peerEverAlive) == Observed(old(peerStatus), old(peerEverAlive), peers, alive)
      ensures !LowerAlive(peerStatus, serverId) ==> state == "leader" && leaderId == Some(serverId)
      ensures LowerAlive(peerStatus, serverId) ==>
        state == "backup" && leaderId == Some(Candidate(serverId, peers, peerStatus))
      ensures leaderId.Some? && r == PyIndex(allHostPortPairs, leaderId.value - 1)
    {
      PingPeers(alive);
      var lowerAlive := LowerAlive(peerStatus, serverId);
      if !lowerAlive {
        state := "leader";
        leaderId := Some(serverId);
      } else {
        state := "backup";
        var candidate := LeastLivePeer();
        leaderId := Some(candidate);
      }
      r := PyIndex(allHostPortPairs, leaderId.value - 1);
    }

    /** The first loop of elect: one ping per listed peer, in order. */
    method PingPeers(alive: seq<bool>)
      requires Valid() && |alive| == |peers|
      modifies this
      ensures Valid() && state == old(state) && leaderId == old(leaderId)
      ensures (peerStatus, peerEverAlive) == Observed(old(peerStatus), old(peerEverAlive), peers, alive)
    {
      var status, ever := peerStatus, peerEverAlive;
      var k := 0;
      while k < |peers|
        invariant 0 <= k <= |peers|
        invariant status.Keys == PeerIds(peers) && ever.Keys == PeerIds(peers)
        invariant PeerIds(peers[k..]) <= PeerIds(peers)
        invariant Observed(status, ever, peers[k..], alive[k..]) ==
                  Observed(peerStatus, peerEverAlive, peers, alive)
      {
        var pid := peers[k].id;
        assert peers[k..][1..] == peers[k + 1..] && alive[k..][1..] == alive[k + 1..];
        var step := PeerStep(status[pid], ever[pid], alive[k]);
        status := status[pid := step.0];
        ever := ever[pid := step.1];
        k := k + 1;
      }
      assert peers[k..] == [] && alive[k..] == [];
      peerStatus, peerEverAlive := status, ever;
    }

    /** The second loop of elect: the least id among the server and its live peers. */
    method LeastLivePeer() returns (candidate: int)
      ensures candidate == Candidate(serverId, peers, peerStatus)
    {
      candidate := serverId;
      for j := 0 to |peers|
        invariant candidate == Candidate(serverId, peers[..j], peerStatus)
      {
        assert peers[..j + 1][..j] == peers[..j];
        var pid := peers[j].id;
        if pid in peerStatus && peerStatus[pid] && pid < candidate {
          candidate := pid;
        }
      }
      assert peers[..|peers|] == peers;
    }
  }

  /** The leader an election settles on is never above the server itself, and is below it when it follows. */
  lemma LeaderNotAbove(serverId: int, peers: seq<Peer>, status: map<int, bool>)
    requires status.Keys == PeerIds(peers) && LowerAlive(status, serverId)
    ensures Candidate(serverId, peers, status) < serverId
  {
    var pid :| pid in status && pid < serverId && status[pid];
    var k :| 0 <= k < |peers| && peers[k].id == pid;
    BackupFollowsLowerPeer(serverId, peers, status, k);
  }

  // ---------------------------------------------------------------------------
  // Replication and version check
  // ---------------------------------------------------------------------------

  /** The acknowledgements counted by replicate_to_peers: one for the leader, one per live peer that answers. */
  function AckCount(peers: seq<Peer>, status: map<int, bool>, acks: seq<bool>): (r: int)
    requires |acks| == |peers|
    ensures 1 <= r <= 1 + |peers|
    ensures (forall k :: 0 <= k < |acks| ==> !acks[k]) ==> r == 1
    decreases |peers|
  {
    if |peers| == 0 then 1
    else
      var n := |peers| - 1;
      var skipped := peers[n].id in status && !status[peers[n].id];
      AckCount(peers[..n], status, acks[..n]) + (if !skipped && acks[n] then 1 else 0)
  }

  /** The count lies between 1 (only the leader) and 1 + the number of peers. */
  lemma {:induction false} AckCountBounds(peers: seq<Peer>, status: map<int, bool>, acks: seq<bool>)
    requires |acks| == |peers|
    ensures 1 <= AckCount(peers, status, acks) <= 1 + |peers|
    decreases |peers|
  {
    if |peers| > 0 {
      AckCountBounds(peers[..|peers| - 1], status, acks[..|peers| - 1]);
    }
  }

  /** A peer marked down never adds to the count, whatever it would have answered. */
  lemma {:induction false} AckCountSkipsDown(peers: seq<Peer>, status: map<int, bool>, acks: seq<bool>, k: int)
    requires |acks| == |peers| && 0 <= k < |peers| && peers[k].id in status && !status[peers[k].id]
    ensures AckCount(peers, status, acks) == AckCount(peers, status, acks[k := false])
    decreases |peers|
  {
    var n := |peers| - 1;
    assert acks[k := false][..n] == if k == n then acks[..n] else acks[..n][k := false];
    if k < n {
      AckCountSkipsDown(peers[..n], status, acks[..n], k);
    }
  }

  /** Peer k is not marked down (`peer_status.get(pid, True)`) and acknowledged the write. */
  predicate LiveAck(peers: seq<Peer>, status: map<int, bool>, acks: seq<bool>, k: int)
    requires |acks| == |peers| && 0 <= k < |peers|
  {
    acks[k] && !(peers[k].id in status && !status[peers[k].id])
  }

  /** Each peer that is not marked down adds exactly one to the count when it acknowledges. */
  lemma {:induction false} AckCountAddsOne(peers: seq<Peer>, status: map<int, bool>, acks: seq<bool>, k: int)
    requires |acks| == |peers| && 0 <= k < |peers| && !(peers[k].id in status && !status[peers[k].id])
    ensures AckCount(peers, status, acks[k := true]) == AckCount(peers, status, acks[k := false]) + 1
    decreases |peers|
  {
    var n := |peers| - 1;
    assert acks[k := true][..n] == if k == n then acks[..n] else acks[..n][k := true];
    assert acks[k := false][..n] == if k == n then acks[..n] else acks[..n][k := false];
    if k < n {
      AckCountAddsOne(peers[..n], status, acks[..n], k);
    }
  }

  /** At least two copies are written exactly when some live peer acknowledged. */
  lemma {:induction false} ReplicatedIffLiveAck(peers: seq<Peer>, status: map<int, bool>, acks: seq<bool>)
    requires |acks| == |peers|
    ensures AckCount(peers, status, acks) >= 2 <==> exists k :: 0 <= k < |peers| && LiveAck(peers, status, acks, k)
    decreases |peers|
  {
    if |peers| > 0 {
      var n := |peers| - 1;
      ReplicatedIffLiveAck(peers[..n], status, acks[..n]);
      AckCountBounds(peers[..n], status, acks[..n]);
      forall k | 0 <= k < n
        ensures LiveAck(peers[..n], status, acks[..n], k) == LiveAck(peers, status, acks, k)
      {
        assert peers[..n][k] == peers[k] && acks[..n][k] == acks[k];
      }
      if LiveAck(peers, status, acks, n) {
        assert 0 <= n < |peers| && LiveAck(peers, status, acks, n);
      } else if exists k :: 0 <= k < |peers| && LiveAck(peers, status, acks, k) {
        var k :| 0 <= k < |peers| && LiveAck(peers, status, acks, k);
        assert k < n && LiveAck(peers[..n], status, acks[..n], k);
      }
    }
  }

  datatype VersionResponse = VersionResponse(success: bool, message: string)

  /** ChatService: the election whose peer view steers replication, and the peer list. */
  class ChatService {
    const election: LeaderElection
    const peers: seq<Peer>

    constructor(election: LeaderElection, peers: seq<Peer>)
      ensures this.election == election && this.peers == peers
    {
      this.election := election;
      this.peers := peers;
    }

    /**
     * replicate_to_peers: start at 1 for the leader's own write, skip every peer
     * whose status is False, and count each peer whose `acks` entry is true
     * (an answer with success, as opposed to a refusal or an RPC error).
     */
    method ReplicateToPeers(acks: seq<bool>) returns (ackCount: int)
      requires |acks| == |peers|
      ensures ackCount == AckCount(peers, election.peerStatus, acks)
      ensures 1 <= ackCount <= 1 + |peers|
    {
      ackCount := 1;
      for k := 0 to |peers|
        invariant ackCount == AckCount(peers[..k], election.peerStatus, acks[..k])
      {
        assert peers[..k + 1][..k] == peers[..k] && acks[..k + 1][..k] == acks[..k];
        var pid := peers[k].id;
        if pid in election.peerStatus && !election.peerStatus[pid] {
          continue;
        }
        if acks[k] {
          ackCount := ackCount + 1;
        }
      }
      assert peers[..|peers|] == peers && acks[..|acks|] == acks;
      AckCountBounds(peers, election.peerStatus, acks);
    }

    /**
     * SaveGameState: replicate and answer success. `replicated` is the logged
     * verdict (at least two copies written); it does not affect the answer.
     */
    method SaveGameState(acks: seq<bool>) returns (success: bool, replicated: bool)
      requires |acks| == |peers|
      ensures success
      ensures replicated <==> AckCount(peers, election.peerStatus, acks) >= 2
      ensures replicated <==> exists k :: 0 <= k < |peers| && LiveAck(peers, election.peerStatus, acks, k)
    {
      var ackCount := ReplicateToPeers(acks);
      ReplicatedIffLiveAck(peers, election.peerStatus, acks);
      replicated := ackCount >= 2;
      success := true;
    }
  }

  /** CheckVersion: success exactly for the server's own version, a mismatch message otherwise. */
  function CheckVersion(version: string): (r: VersionResponse)
    ensures r.success <==> version == SERVER_VERSION
  {
    if version != SERVER_VERSION then
      VersionResponse(false, "Version" + " " + "mismatch" + ". Server: " + SERVER_VERSION + ", Client: " + version)
    else VersionResponse(true, "success: " + "Version" + " matched")
  }

  /** Both answers mention the version; a refused one says it is a mismatch and names both versions. */
  lemma CheckVersionMessages(version: string)
    ensures Contains(CheckVersion(version).message, "Version")
    ensures version != SERVER_VERSION ==>
      Contains(CheckVersion(version).message, "mismatch") &&
      Contains(CheckVersion(version).message, SERVER_VERSION) &&
      Contains(CheckVersion(version).message, version)
  {
    if version != SERVER_VERSION {
      var a := "Version" + " ";
      var b := a + "mismatch" + ". Server: ";
      var c := b + SERVER_VERSION + ", Client: ";
      ContainsSuffix("", "Version");
      assert "" + "Version" == "Version";
      ContainsPrefix("Version", "Version", " ");
      ContainsPrefix(a, "Version", "mismatch");
      ContainsPrefix(a + "mismatch", "Version", ". Server: ");
      ContainsPrefix(b, "Version", SERVER_VERSION);
      ContainsPrefix(b + SERVER_VERSION, "Version", ", Client: ");
      ContainsPrefix(c, "Version", version);
      ContainsSuffix(a, "mismatch");
      ContainsPrefix(a + "mismatch", "mismatch", ". Server: ");
      ContainsPrefix(b, "mismatch", SERVER_VERSION);
      ContainsPrefix(b + SERVER_VERSION, "mismatch", ", Client: ");
      ContainsPrefix(c, "mismatch", version);
      ContainsSuffix(b, SERVER_VERSION);
      ContainsPrefix(b + SERVER_VERSION, SERVER_VERSION, ", Client: ");
      ContainsPrefix(c, SERVER_VERSION, version);
      ContainsSuffix(c, version);
    } else {
      ContainsSuffix("success: ", "Version");
      ContainsPrefix("success: " + "Version", "Version", " matched");
    }
  }
}
