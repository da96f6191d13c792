/** The handlers of a Raft server as far as they concern elections (raft/raft_server.ipp).

    Terms, votes, roles and the per-peer flags are modelled in full.  Of the log only the
    index of the last entry matters here; the log part of a handler is a verdict, and
    whatever a leader does for its log is a step that leaves roles, terms and votes alone.  */
module Elections {
  import opened Basics

  datatype Role = Candidate | Follower | Leader

  datatype Peer = Peer(id: string, lastMessage: nat, votedForMe: bool, waiting: bool)

  /** `ready` is `minimum_timeout_reached`, `uncommit` the index of the last entry. */
  datatype Server = Server(id: string, role: Role, term: nat, votedFor: string, leader: string,
                           peers: seq<Peer>, ready: bool, uncommit: nat)

  datatype Message =
    | VoteRequest(from: string, to: string, id: nat, term: nat, uncommit: nat)
    | VoteResponse(from: string, to: string, id: nat, term: nat, granted: bool)
    | AppendRequest(from: string, to: string, id: nat, term: nat)
    | AppendResponse(from: string, to: string, id: nat, term: nat)

  /** What the log says to an append request. */
  datatype Verdict = Dropped | Refused | Accepted(uncommit: nat)

  datatype Reaction = Reaction(server: Server, sent: seq<Message>)

  // ---------------------------------------------------------------- peers

  /** `find_peer`: the first peer of that name, or the end. */
  function Find(peers: seq<Peer>, id: string): (k: nat)
    ensures k <= |peers| && (k < |peers| ==> peers[k].id == id)
    ensures k == |peers| ==> forall j :: 0 <= j < |peers| ==> peers[j].id != id
  {
    if peers == [] || peers[0].id == id then 0 else 1 + Find(peers[1..], id)
  }

  function Votes(peers: seq<Peer>): nat {
    if peers == [] then 0 else (if peers[0].votedForMe then 1 else 0) + Votes(peers[1..])
  }

  function Majority(n: nat): nat { 1 + n / 2 }

  function Reset(p: Peer): Peer { Peer(p.id, p.lastMessage + 1, false, false) }

  function ResetAll(peers: seq<Peer>): seq<Peer> {
    seq(|peers|, k requires 0 <= k < |peers| => Reset(peers[k]))
  }

  /** A peer after its vote was asked for; the server itself votes for itself. */
  function Asked(p: Peer, self: string): Peer {
    if p.id == self then p.(votedForMe := true) else Peer(p.id, p.lastMessage + 1, false, true)
  }

  function AskAll(peers: seq<Peer>, self: string): seq<Peer> {
    seq(|peers|, k requires 0 <= k < |peers| => Asked(peers[k], self))
  }

  function Hailed(p: Peer, self: string): Peer {
    if p.id == self then p.(waiting := true) else p.(waiting := true, lastMessage := p.lastMessage + 1)
  }

  function HailAll(peers: seq<Peer>, self: string): seq<Peer> {
    seq(|peers|, k requires 0 <= k < |peers| => Hailed(peers[k], self))
  }

  function WaitAll(peers: seq<Peer>, self: string): seq<Peer> {
    seq(|peers|, k requires 0 <= k < |peers| => if peers[k].id == self then peers[k] else peers[k].(waiting := true))
  }

  /** A vote request to every other peer, numbered by the peer's counter. */
  function Requests(peers: seq<Peer>, self: string, term: nat, uncommit: nat): seq<Message> {
    if peers == [] then []
    else
      var p := peers[0];
      (if p.id == self then [] else [VoteRequest(self, p.id, p.lastMessage + 1, term, uncommit)]) +
      Requests(peers[1..], self, term, uncommit)
  }

  function Heartbeats(peers: seq<Peer>, self: string, term: nat, bump: nat): seq<Message> {
    if peers == [] then []
    else
      var p := peers[0];
      (if p.id == self then [] else [AppendRequest(self, p.id, p.lastMessage + bump, term)]) +
      Heartbeats(peers[1..], self, term, bump)
  }

  // ---------------------------------------------------------------- the handlers

  function StepDown(s: Server, term: nat): Server {
    var s1 := s.(term := term, votedFor := "");
    if s.role == Follower then s1 else s1.(role := Follower, peers := ResetAll(s.peers))
  }

  function OnTimeoutRequest(s: Server): Reaction {
    Reaction(s.(role := Candidate, term := s.term + 1, votedFor := s.id, peers := AskAll(s.peers, s.id)),
             Requests(s.peers, s.id, s.term + 1, s.uncommit))
  }

  function OnHeartbeatRequest(s: Server): Reaction {
    Reaction(s.(peers := WaitAll(s.peers, s.id)), Heartbeats(s.peers, s.id, s.term, 0))
  }

  function OnTimeout(s: Server): Reaction {
    if s.role == Leader then OnHeartbeatRequest(s) else OnTimeoutRequest(s)
  }

  /** A vote is granted only in a term that is new to the server. */
  function OnVoteRequest(s: Server, m: Message): Reaction
    requires m.VoteRequest?
  {
    var k := Find(s.peers, m.from);
    if m.to != s.id || k == |s.peers| then Reaction(s, [])
    else
      var s1 := if s.role == Leader then s.(peers := s.peers[k := s.peers[k].(waiting := false)]) else s;
      if !s.ready then Reaction(s1, [])
      else if m.term <= s.term then Reaction(s1, [VoteResponse(s.id, m.from, m.id, s.term, false)])
      else
        var s2 := StepDown(s1, m.term).(leader := "");
        if m.uncommit >= s.uncommit
        then Reaction(s2.(votedFor := m.from), [VoteResponse(s.id, m.from, m.id, m.term, true)])
        else Reaction(s2, [VoteResponse(s.id, m.from, m.id, m.term, false)])
  }

  function Elect(s: Server): Reaction {
    Reaction(s.(role := Leader, leader := s.id, peers := HailAll(s.peers, s.id), ready := false),
             Heartbeats(s.peers, s.id, s.term, 1))
  }

  /** The response is counted as a vote.  Its term may be an earlier one than the server's. */
  predicate Counts(s: Server, m: Message)
    requires m.VoteResponse?
  {
    var k := Find(s.peers, m.from);
    && m.to == s.id && k < |s.peers| && s.peers[k].waiting
    && m.term <= s.term && s.role == Candidate && m.granted
  }

  function CountVote(s: Server, k: nat): Server
    requires k < |s.peers|
  {
    s.(peers := s.peers[k := s.peers[k].(waiting := false, votedForMe := true)])
  }

  /** A response from an unknown peer dereferences a null pointer in the original; here it is
      ignored. */
  function OnVoteResponse(s: Server, m: Message): Reaction
    requires m.VoteResponse?
  {
    var k := Find(s.peers, m.from);
    if m.to != s.id || k == |s.peers| || !s.peers[k].waiting then Reaction(s, [])
    else if m.term > s.term then Reaction(StepDown(s, m.term), [])
    else if s.role != Candidate || !m.granted then Reaction(s, [])
    else
      var s' := CountVote(s, k);
      if Votes(s'.peers) >= Majority(|s'.peers|) then Elect(s') else Reaction(s', [])
  }

  function OnAppendRequest(s: Server, m: Message, verdict: Verdict): Reaction
    requires m.AppendRequest?
  {
    var response := AppendResponse(s.id, m.from, m.id, Max(s.term, m.term));
    if m.to != s.id || Find(s.peers, m.from) == |s.peers| then Reaction(s, [])
    else if m.term < s.term then Reaction(s, [response])
    else if m.term == s.term && s.leader != m.from && s.leader != "" then Reaction(s, [])
    else
      var s1 := (if m.term > s.term then StepDown(s, m.term) else s).(leader := m.from);
      match verdict
      case Dropped => Reaction(s1, [])
      case Refused => Reaction(s1, [response])
      case Accepted(uncommit) => Reaction(s1.(uncommit := uncommit, ready := false), [response])
  }

  /** The log part, for a leader in the current term, is left to a step of its own. */
  function OnAppendResponse(s: Server, m: Message): Reaction
    requires m.AppendResponse?
  {
    var k := Find(s.peers, m.from);
    if m.to != s.id || k == |s.peers| then Reaction(s, [])
    else if !s.peers[k].waiting || s.peers[k].lastMessage != m.id || m.term < s.term then Reaction(s, [])
    else
      var s1 := s.(peers := s.peers[k := s.peers[k].(waiting := false)]);
      if m.term > s.term then Reaction(StepDown(s1, m.term), []) else Reaction(s1, [])
  }

  function OnMessage(s: Server, m: Message, verdict: Verdict): Reaction {
    match m
    case VoteRequest(_, _, _, _, _) => OnVoteRequest(s, m)
    case VoteResponse(_, _, _, _, _) => OnVoteResponse(s, m)
    case AppendRequest(_, _, _, _) => OnAppendRequest(s, m, verdict)
    case AppendResponse(_, _, _, _) => OnAppendResponse(s, m)
  }

  /** Work on the log: counters, waiting flags and the last index may change, and append
      requests may be sent. */
  predicate OnlyLogWork(s: Server, s': Server) {
    && s' == s.(peers := s'.peers, uncommit := s'.uncommit)
    && |s'.peers| == |s.peers|
    && forall k :: 0 <= k < |s.peers| ==>
         s'.peers[k].id == s.peers[k].id && s'.peers[k].votedForMe == s.peers[k].votedForMe
  }

  // ---------------------------------------------------------------- the program

  class RaftServer {
    const id: string
    var role: Role
    var term: nat
    var votedFor: string
    var leader: string
    var peers: seq<Peer>
    var ready: bool
    var uncommit: nat
    var sent: seq<Message>

    ghost function State(): Server
      reads this
    {
      Server(id, role, term, votedFor, leader, peers, ready, uncommit)
    }

    constructor (id: string, peers: seq<Peer>)
      ensures State() == Server(id, Follower, 0, "", id, peers, true, 0) && sent == []
    {
      this.id, this.peers := id, peers;
      role, term, votedFor, leader, ready, uncommit, sent := Follower, 0, "", id, true, 0, [];
    }

    /** The state and the messages are those of the reaction. */
    twostate predicate Did(r: Reaction)
      reads this
    {
      State() == r.server && sent == old(sent) + r.sent
    }

    method FindPeer(name: string) returns (k: nat)
      ensures k == Find(peers, name)
    {
      k := 0;
      while k < |peers| && peers[k].id != name
        invariant k <= |peers| && Find(peers, name) == k + Find(peers[k..], name)
      {
        assert peers[k..][1..] == peers[k + 1..];
        k := k + 1;
      }
    }

    method FallBack(newTerm: nat)
      modifies this
      ensures State() == StepDown(old(State()), newTerm) && sent == old(sent)
    {
      term, votedFor := newTerm, "";
      if role != Follower {
        role := Follower;
        for k := 0 to |peers|
          invariant |peers| == |old(peers)| && forall i :: 0 <= i < |peers| ==>
                      peers[i] == if i < k then Reset(old(peers)[i]) else old(peers)[i]
          invariant State() == StepDown(old(State()), newTerm).(peers := peers) && sent == old(sent)
        {
          peers := peers[k := Reset(peers[k])];
        }
      }
    }

    method HandleTimeoutRequest()
      modifies this
      ensures Did(OnTimeoutRequest(old(State())))
    {
      role, term, votedFor := Candidate, term + 1, id;
      AskPeers();
    }

    method AskPeers()
      modifies this`peers, this`sent
      ensures peers == AskAll(old(peers), id) && sent == old(sent) + Requests(old(peers), id, term, uncommit)
    {
      assert old(peers)[0..] == old(peers);
      for k := 0 to |peers|
        invariant |peers| == |old(peers)| && forall i :: 0 <= i < |peers| ==>
                    peers[i] == if i < k then Asked(old(peers)[i], id) else old(peers)[i]
        invariant old(sent) + Requests(old(peers), id, term, uncommit) == sent + Requests(old(peers)[k..], id, term, uncommit)
      {
        RequestsFrom(sent, old(peers), k, id, term, uncommit);
        AskPeer(k);
      }
      assert sent + [] == sent;
    }

    method AskPeer(k: nat)
      requires k < |peers|
      modifies this`peers, this`sent
      ensures peers == old(peers)[k := Asked(old(peers)[k], id)]
      ensures sent == if old(peers)[k].id == id then old(sent)
                      else old(sent) + [VoteRequest(id, old(peers)[k].id, old(peers)[k].lastMessage + 1, term, uncommit)]
    {
      if peers[k].id == id {
        peers := peers[k := peers[k].(votedForMe := true)];
      } else {
        peers := peers[k := peers[k].(votedForMe := false, lastMessage := peers[k].lastMessage + 1, waiting := true)];
        sent := sent + [VoteRequest(id, peers[k].id, peers[k].lastMessage, term, uncommit)];
      }
    }

    method HandleVoteRequest(m: Message)
      requires m.VoteRequest?
      modifies this
      ensures Did(OnVoteRequest(old(State()), m))
    {
      var k := FindPeer(m.from);
      if m.to != id || k == |peers| {
        return;
      }
      if role == Leader {
        peers := peers[k := peers[k].(waiting := false)];
      }
      if !ready {
        return;
      }
      if m.term <= term {
        sent := sent + [VoteResponse(id, m.from, m.id, term, false)];
        return;
      }
      FallBack(m.term);
      leader := "";
      if m.uncommit >= uncommit {
        votedFor := m.from;
        sent := sent + [VoteResponse(id, m.from, m.id, m.term, true)];
      } else {
        sent := sent + [VoteResponse(id, m.from, m.id, m.term, false)];
      }
    }

    method HandleVoteResponse(m: Message)
      requires m.VoteResponse?
      modifies this
      ensures Did(OnVoteResponse(old(State()), m))
    {
      var k := FindPeer(m.from);
      if m.to != id || k == |peers| || !peers[k].waiting {
        return;
      }
      if m.term > term {
        FallBack(m.term);
        return;
      }
      if role != Candidate || !m.granted {
        return;
      }
      peers := peers[k := peers[k].(waiting := false, votedForMe := true)];
      var votes := CountVotes();
      if votes >= 1 + |peers| / 2 {
        TakeOver();
      }
    }

    method CountVotes() returns (n: nat)
      ensures n == Votes(peers)
    {
      n := 0;
      assert peers[0..] == peers;
      for k := 0 to |peers|
        invariant n + Votes(peers[k..]) == Votes(peers)
      {
        assert peers[k..][1..] == peers[k + 1..];
        if peers[k].votedForMe {
          n := n + 1;
        }
      }
    }

    method HailPeer(k: nat)
      requires k < |peers|
      modifies this`peers, this`sent
      ensures peers == old(peers)[k := Hailed(old(peers)[k], id)]
      ensures sent == if old(peers)[k].id == id then old(sent)
                      else old(sent) + [AppendRequest(id, old(peers)[k].id, old(peers)[k].lastMessage + 1, term)]
    {
      peers := peers[k := peers[k].(waiting := true)];
      if peers[k].id != id {
        peers := peers[k := peers[k].(lastMessage := peers[k].lastMessage + 1)];
        sent := sent + [AppendRequest(id, peers[k].id, peers[k].lastMessage, term)];
      }
    }

    method TakeOver()
      modifies this
      ensures Did(Elect(old(State())))
    {
      role, leader, ready := Leader, id, false;
      HailPeers();
    }

    method HailPeers()
      modifies this`peers, this`sent
      ensures peers == HailAll(old(peers), id) && sent == old(sent) + Heartbeats(old(peers), id, term, 1)
    {
      assert old(peers)[0..] == old(peers);
      for k := 0 to |peers|
        invariant |peers| == |old(peers)| && forall i :: 0 <= i < |peers| ==>
                    peers[i] == if i < k then Hailed(old(peers)[i], id) else old(peers)[i]
        invariant old(sent) + Heartbeats(old(peers), id, term, 1) == sent + Heartbeats(old(peers)[k..], id, term, 1)
      {
        HeartbeatsFrom(sent, old(peers), k, id, term);
        HailPeer(k);
      }
      assert sent + [] == sent;
    }
  }

  lemma RequestsFrom(sent: seq<Message>, peers: seq<Peer>, k: nat, self: string, term: nat, uncommit: nat)
    requires k < |peers|
    ensures sent + Requests(peers[k..], self, term, uncommit) ==
            (if peers[k].id == self then sent
             else sent + [VoteRequest(self, peers[k].id, peers[k].lastMessage + 1, term, uncommit)]) +
            Requests(peers[k + 1..], self, term, uncommit)
  {
    assert peers[k..][1..] == peers[k + 1..];
  }

  lemma HeartbeatsFrom(sent: seq<Message>, peers: seq<Peer>, k: nat, self: string, term: nat)
    requires k < |peers|
    ensures sent + Heartbeats(peers[k..], self, term, 1) ==
            (if peers[k].id == self then sent
             else sent + [AppendRequest(self, peers[k].id, peers[k].lastMessage + 1, term)]) +
            Heartbeats(peers[k + 1..], self, term, 1)
  {
    assert peers[k..][1..] == peers[k + 1..];
  }

  // ---------------------------------------------------------------- the cluster

  /** The servers, every message ever sent, and two records that no handler reads: which vote
      each server held in which term, and who became leader in which term.  A message may be
      delivered at any time, any number of times, or never. */
  datatype World = World(
    servers: map<string, Server>, sent: set<Message>,
    ballots: map<(string, nat), string>, elected: set<(nat, string)>)

  datatype Step =
    | Timeout(at: string)
    | MinimumTimeout(at: string)
    | Deliver(m: Message, verdict: Verdict)
    | LogWork(at: string, server: Server, sent: seq<Message>)

  predicate Enabled(w: World, step: Step) {
    match step
    case Timeout(at) => at in w.servers
    case MinimumTimeout(at) => at in w.servers
    case Deliver(m, _) => m in w.sent && m.to in w.servers
    case LogWork(at, s, sent) =>
      && at in w.servers && OnlyLogWork(w.servers[at], s)
      && forall m :: m in sent ==> m.AppendRequest? && m.from == at && m.term == s.term
  }

  function After(w: World, at: string, r: Reaction): World {
    var s := r.server;
    World(w.servers[at := s],
          w.sent + set m | m in r.sent,
          if s.votedFor != "" then w.ballots[(at, s.term) := s.votedFor] else w.ballots,
          if s.role == Leader then w.elected + {(s.term, at)} else w.elected)
  }

  function Place(step: Step): string { if step.Deliver? then step.m.to else step.at }

  function ReactionTo(w: World, step: Step): Reaction
    requires Enabled(w, step)
  {
    var s := w.servers[Place(step)];
    match step
    case Timeout(at) => OnTimeout(s)
    case MinimumTimeout(at) => Reaction(s.(ready := true), [])
    case Deliver(m, verdict) => OnMessage(s, m, verdict)
    case LogWork(at, s', sent) => Reaction(s', sent)
  }

  function Next(w: World, step: Step): World
    requires Enabled(w, step)
  {
    After(w, Place(step), ReactionTo(w, step))
  }

  ghost predicate Runs(w: World, steps: seq<Step>, w': World)
    decreases |steps|
  {
    if steps == [] then w == w'
    else Enabled(w, steps[0]) && Runs(Next(w, steps[0]), steps[1..], w')
  }

  function FreshPeers(cluster: seq<string>): seq<Peer> {
    seq(|cluster|, k requires 0 <= k < |cluster| => Peer(cluster[k], 0, false, false))
  }

  function Start(cluster: seq<string>): World {
    World(map id | id in cluster :: Server(id, Follower, 0, "", id, FreshPeers(cluster), true, 0), {}, map[], {})
  }

  /** Names are distinct and not empty; the empty name stands for no vote. */
  predicate Proper(cluster: seq<string>) {
    && "" !in cluster
    && forall j, k :: 0 <= j < k < |cluster| ==> cluster[j] != cluster[k]
  }

  ghost predicate OneLeaderPerTerm(w: World) {
    forall t, a, b :: (t, a) in w.elected && (t, b) in w.elected ==> a == b
  }
}
