/** What each handler of a Raft server answers, and when (raft/raft_server.ipp): stated by the
    messages and fields a peer can see, independently of how the handler goes about it. */
module ElectionHandlers {
  import opened Basics
  import opened Elections
  import opened ElectionSafety

  predicate Knows(s: Server, name: string) {
    exists k :: 0 <= k < |s.peers| && s.peers[k].id == name
  }

  lemma KnowsIffFound(s: Server, name: string)
    ensures Knows(s, name) <==> Find(s.peers, name) < |s.peers|
  {
  }

  // ---------------------------------------------------------------- vote requests

  /** The request reaches a server that knows the sender and has waited long enough. */
  predicate Heard(s: Server, m: Message) { m.to == s.id && Knows(s, m.from) && s.ready }

  /** A vote is granted if and only if the request is heard, its term is new and the log of the
      candidate is at least as long; every heard request is answered, no other one is. */
  lemma VoteGrantedIff(s: Server, m: Message)
    requires m.VoteRequest?
    ensures var r := OnVoteRequest(s, m);
            var grant := Heard(s, m) && m.term > s.term && m.uncommit >= s.uncommit;
            && (grant <==> exists a :: a in r.sent && a.VoteResponse? && a.granted)
            && (grant ==> r.server.votedFor == m.from)
            && (!grant ==> r.server.votedFor == if Heard(s, m) && m.term > s.term then "" else s.votedFor)
            && r.sent == if Heard(s, m) then [VoteResponse(s.id, m.from, m.id, Max(s.term, m.term), grant)] else []
  {
    KnowsIffFound(s, m.from);
    var r := OnVoteRequest(s, m);
    if Heard(s, m) { assert r.sent[0] in r.sent; }
  }

  /** A heard request of a new term makes the server a follower of that term without a leader;
      otherwise term, role and leader stay, and a leader only stops waiting for the sender. */
  lemma VoteRequestMoves(s: Server, m: Message)
    requires m.VoteRequest?
    ensures var s' := OnVoteRequest(s, m).server; var newer := Heard(s, m) && m.term > s.term;
            && s'.id == s.id && s'.ready == s.ready && s'.uncommit == s.uncommit
            && (newer ==> s'.term == m.term && s'.role == Follower && s'.leader == "")
            && (!newer ==> s'.term == s.term && s'.role == s.role && s'.leader == s.leader)
            && (s.role == Follower ==> s'.peers == s.peers)
            && (!newer && s.role == Candidate ==> s'.peers == s.peers)
            && (newer && s.role != Follower ==>
                  |s'.peers| == |s.peers| && forall k :: 0 <= k < |s.peers| ==>
                    s'.peers[k] == Peer(s.peers[k].id, s.peers[k].lastMessage + 1, false, false))
            && (!newer && s.role == Leader && m.to == s.id && Knows(s, m.from) ==>
                  var k := Find(s.peers, m.from); s'.peers == s.peers[k := s.peers[k].(waiting := false)])
  {
    KnowsIffFound(s, m.from);
  }

  /** Stepping down forgets the vote, and a server that was no follower starts afresh with
      every peer. */
  lemma StepDownResets(s: Server, term: nat)
    ensures var s' := StepDown(s, term);
            && s'.term == term && s'.votedFor == "" && s'.role == Follower
            && s'.id == s.id && s'.leader == s.leader && s'.ready == s.ready && s'.uncommit == s.uncommit
            && |s'.peers| == |s.peers|
            && (forall k :: 0 <= k < |s.peers| && s.role == Follower ==> s'.peers[k] == s.peers[k])
            && (forall k :: 0 <= k < |s.peers| && s.role != Follower ==>
                  && s'.peers[k].id == s.peers[k].id && s'.peers[k].lastMessage == s.peers[k].lastMessage + 1
                  && !s'.peers[k].votedForMe && !s'.peers[k].waiting)
  {
  }

  // ---------------------------------------------------------------- asking for votes

  predicate IsRequest(m: Message, p: Peer, self: string, term: nat, uncommit: nat) {
    p.id != self && m == VoteRequest(self, p.id, p.lastMessage + 1, term, uncommit)
  }

  lemma {:induction false} RequestsExactly(peers: seq<Peer>, self: string, term: nat, uncommit: nat, m: Message)
    ensures m in Requests(peers, self, term, uncommit) <==>
            exists k :: 0 <= k < |peers| && IsRequest(m, peers[k], self, term, uncommit)
    decreases |peers|
  {
    if peers != [] {
      RequestsExactly(peers[1..], self, term, uncommit, m);
      if m in Requests(peers[1..], self, term, uncommit) {
        var k :| 0 <= k < |peers[1..]| && IsRequest(m, peers[1..][k], self, term, uncommit);
        assert IsRequest(m, peers[k + 1], self, term, uncommit);
      }
      if k :| 0 <= k < |peers| && IsRequest(m, peers[k], self, term, uncommit) {
        if k > 0 { assert IsRequest(m, peers[1..][k - 1], self, term, uncommit); }
      }
    }
  }

  function Others(peers: seq<Peer>, self: string): nat {
    if peers == [] then 0 else (if peers[0].id == self then 0 else 1) + Others(peers[1..], self)
  }

  lemma {:induction false} OneMessageEach(peers: seq<Peer>, self: string, term: nat, uncommit: nat, bump: nat)
    ensures |Requests(peers, self, term, uncommit)| == |Heartbeats(peers, self, term, bump)| == Others(peers, self)
  {
    if peers != [] { OneMessageEach(peers[1..], self, term, uncommit, bump); }
  }

  /** A timeout makes a server that is not the leader a candidate of the next term that votes
      for itself, counts no other vote, waits for every other peer and asks each of them once,
      with the peer's next number and its own last index. */
  lemma TimeoutAsksAll(s: Server, m: Message)
    requires s.role != Leader
    ensures var r := OnTimeout(s);
            && r.server.role == Candidate && r.server.term == s.term + 1 && r.server.votedFor == s.id
            && r.server.leader == s.leader && r.server.ready == s.ready && r.server.uncommit == s.uncommit
            && |r.server.peers| == |s.peers|
            && (forall k :: 0 <= k < |s.peers| ==> var p, p' := s.peers[k], r.server.peers[k];
                  p'.id == p.id && (p'.votedForMe <==> p.id == s.id) &&
                  (p.id != s.id ==> p'.waiting && p'.lastMessage == p.lastMessage + 1))
            && (m in r.sent <==>
                  exists k :: 0 <= k < |s.peers| && IsRequest(m, s.peers[k], s.id, s.term + 1, s.uncommit))
            && |r.sent| == Others(s.peers, s.id)
  {
    OneMessageEach(s.peers, s.id, s.term + 1, s.uncommit, 0);
    RequestsExactly(s.peers, s.id, s.term + 1, s.uncommit, m);
  }

  predicate IsBeat(m: Message, p: Peer, self: string, term: nat, number: nat) {
    p.id != self && m == AppendRequest(self, p.id, number, term)
  }

  lemma {:induction false} HeartbeatsExactly(peers: seq<Peer>, self: string, term: nat, bump: nat, m: Message)
    ensures m in Heartbeats(peers, self, term, bump) <==>
            exists k :: 0 <= k < |peers| && IsBeat(m, peers[k], self, term, peers[k].lastMessage + bump)
    decreases |peers|
  {
    if peers != [] {
      HeartbeatsExactly(peers[1..], self, term, bump, m);
      if m in Heartbeats(peers[1..], self, term, bump) {
        var k :| 0 <= k < |peers[1..]| && IsBeat(m, peers[1..][k], self, term, peers[1..][k].lastMessage + bump);
        assert IsBeat(m, peers[k + 1], self, term, peers[k + 1].lastMessage + bump);
      }
      if k :| 0 <= k < |peers| && IsBeat(m, peers[k], self, term, peers[k].lastMessage + bump) {
        if k > 0 { assert IsBeat(m, peers[1..][k - 1], self, term, peers[1..][k - 1].lastMessage + bump); }
      }
    }
  }

  /** A leader that times out stays leader and sends each other peer a heartbeat of its term. */
  lemma LeaderBeats(s: Server, m: Message)
    requires s.role == Leader
    ensures var r := OnTimeout(s);
            && r.server == s.(peers := r.server.peers) && |r.server.peers| == |s.peers|
            && (forall k :: 0 <= k < |s.peers| ==>
                  r.server.peers[k] == if s.peers[k].id == s.id then s.peers[k] else s.peers[k].(waiting := true))
            && (m in r.sent <==>
                  exists k :: 0 <= k < |s.peers| && IsBeat(m, s.peers[k], s.id, s.term, s.peers[k].lastMessage))
            && |r.sent| == Others(s.peers, s.id)
  {
    OneMessageEach(s.peers, s.id, s.term, s.uncommit, 0);
    HeartbeatsExactly(s.peers, s.id, s.term, 0, m);
  }

  // ---------------------------------------------------------------- votes received

  lemma {:induction false} OneMoreVote(peers: seq<Peer>, k: nat)
    requires k < |peers|
    ensures var peers' := peers[k := peers[k].(waiting := false, votedForMe := true)];
            Votes(peers') == Votes(peers) + if peers[k].votedForMe then 0 else 1
    decreases |peers|
  {
    var p' := peers[k].(waiting := false, votedForMe := true);
    if k == 0 {
      assert peers[k := p'][1..] == peers[1..];
    } else {
      OneMoreVote(peers[1..], k - 1);
      assert peers[k := p'][1..] == peers[1..][k - 1 := p'];
    }
  }

  /** The response is one the server waits for. */
  predicate Awaited(s: Server, m: Message) {
    m.to == s.id && Find(s.peers, m.from) < |s.peers| && s.peers[Find(s.peers, m.from)].waiting
  }

  /** A candidate becomes leader if and only if it counts the response and more than half of all
      peers have then voted for it; a new term in an awaited response makes it step down; and
      every other response leaves the server as it was. */
  lemma ElectedIffMajority(s: Server, m: Message)
    requires m.VoteResponse?
    ensures var r := OnVoteResponse(s, m);
            var counted := Awaited(s, m) && m.term <= s.term && s.role == Candidate && m.granted;
            var votes := Votes(s.peers) + if Awaited(s, m) && s.peers[Find(s.peers, m.from)].votedForMe then 0 else 1;
            && (s.role != Leader ==> (r.server.role == Leader <==> counted && 2 * votes > |s.peers|))
            && (Awaited(s, m) && m.term > s.term ==> r.server == StepDown(s, m.term) && r.sent == [])
            && (!counted && !(Awaited(s, m) && m.term > s.term) ==> r.server == s && r.sent == [])
            && (counted ==> Votes(r.server.peers) == votes && r.server.term == s.term && r.server.votedFor == s.votedFor)
  {
    if Awaited(s, m) {
      var k := Find(s.peers, m.from);
      OneMoreVote(s.peers, k);
      HailKeepsVotes(CountVote(s, k).peers, s.id);
    }
  }

  /** A new leader names itself, does not take vote requests for a while, waits for everyone and
      sends each other peer an append request with the peer's next number. */
  lemma NewLeaderHails(s: Server, m: Message)
    ensures var r := Elect(s);
            && r.server.role == Leader && r.server.leader == s.id && !r.server.ready
            && r.server.term == s.term && r.server.votedFor == s.votedFor && r.server.uncommit == s.uncommit
            && |r.server.peers| == |s.peers|
            && (forall k :: 0 <= k < |s.peers| ==> var p, p' := s.peers[k], r.server.peers[k];
                  p'.id == p.id && p'.votedForMe == p.votedForMe && p'.waiting &&
                  p'.lastMessage == p.lastMessage + if p.id == s.id then 0 else 1)
            && (m in r.sent <==>
                  exists k :: 0 <= k < |s.peers| && IsBeat(m, s.peers[k], s.id, s.term, s.peers[k].lastMessage + 1))
            && |r.sent| == Others(s.peers, s.id)
  {
    OneMessageEach(s.peers, s.id, s.term, s.uncommit, 1);
    HeartbeatsExactly(s.peers, s.id, s.term, 1, m);
  }

  // ---------------------------------------------------------------- append messages

  /** The request is of the current term but not from the leader the server knows of. */
  predicate Foreign(s: Server, m: Message) { m.term == s.term && s.leader != "" && s.leader != m.from }

  /** Append requests of earlier terms are refused, those of a second leader in one term ignored;
      all others make their sender the leader, in a new term of a follower without a vote. */
  lemma AppendFollowsLeader(s: Server, m: Message, verdict: Verdict)
    requires m.AppendRequest?
    ensures var r := OnAppendRequest(s, m, verdict); var known := m.to == s.id && Knows(s, m.from);
            && (!known || Foreign(s, m) ==> r == Reaction(s, []))
            && (known && m.term < s.term ==> r == Reaction(s, [AppendResponse(s.id, m.from, m.id, s.term)]))
            && (known && m.term >= s.term && !Foreign(s, m) ==>
                  && r.server.leader == m.from && r.server.term == m.term
                  && (m.term > s.term ==> r.server.role == Follower && r.server.votedFor == "")
                  && (m.term == s.term ==> r.server.role == s.role && r.server.votedFor == s.votedFor && r.server.peers == s.peers)
                  && r.server.ready == (s.ready && !verdict.Accepted?)
                  && r.server.uncommit == (if verdict.Accepted? then verdict.uncommit else s.uncommit)
                  && r.sent == (if verdict.Dropped? then [] else [AppendResponse(s.id, m.from, m.id, m.term)]))
  {
    KnowsIffFound(s, m.from);
  }

  /** Only the awaited answer to the latest message, of a term not yet past, is taken. */
  lemma AppendResponseTaken(s: Server, m: Message)
    requires m.AppendResponse?
    ensures var r := OnAppendResponse(s, m);
            var taken := Awaited(s, m) && s.peers[Find(s.peers, m.from)].lastMessage == m.id && m.term >= s.term;
            && r.sent == []
            && (!taken ==> r.server == s)
            && (taken && m.term > s.term ==> r.server.term == m.term && r.server.role == Follower && r.server.votedFor == "")
            && (taken && m.term == s.term ==>
                  r.server == s.(peers := r.server.peers) && !Awaited(r.server, m) &&
                  forall k :: 0 <= k < |s.peers| && k != Find(s.peers, m.from) ==> r.server.peers[k] == s.peers[k])
  {
    if Awaited(s, m) {
      var k := Find(s.peers, m.from);
      FindKept(s.peers, k, s.peers[k].(waiting := false), m.from);
    }
  }

  lemma {:induction false} FindKept(peers: seq<Peer>, k: nat, p: Peer, name: string)
    requires k < |peers| && p.id == peers[k].id && |peers[k := p]| == |peers|
    ensures Find(peers[k := p], name) == Find(peers, name)
    decreases |peers|
  {
    if peers[0].id != name {
      if k == 0 {
        assert peers[k := p][1..] == peers[1..];
      } else {
        FindKept(peers[1..], k - 1, p, name);
        assert peers[k := p][1..] == peers[1..][k - 1 := p];
      }
    }
  }

  // ---------------------------------------------------------------- votes over whole runs

  /** The step delivered a request to the voter, who answered it with this vote; the candidate's
      term was new to the voter and its log at least as long as the voter's at that time. */
  ghost predicate CastAt(w: World, step: Step, vote: Message)
    requires Enabled(w, step)
  {
    && vote.VoteResponse? && step.Deliver? && step.m.VoteRequest?
    && var request, voter := step.m, w.servers[step.m.to];
    && vote == VoteResponse(request.to, request.from, request.id, request.term, true)
    && voter.ready && voter.term < request.term && voter.uncommit <= request.uncommit
  }

  ghost predicate CastIn(w: World, steps: seq<Step>, vote: Message)
    decreases |steps|
  {
    steps != [] && Enabled(w, steps[0]) &&
    (CastAt(w, steps[0], vote) || CastIn(Next(w, steps[0]), steps[1..], vote))
  }

  ghost predicate WellNamed(w: World) { forall id :: id in w.servers ==> w.servers[id].id == id }

  lemma VoteIsCast(w: World, step: Step, vote: Message)
    requires WellNamed(w) && Enabled(w, step)
    requires vote in ReactionTo(w, step).sent && vote.VoteResponse? && vote.granted
    ensures CastAt(w, step, vote)
  {
    var s := w.servers[Place(step)];
    match step
    case Timeout(at) =>
      RequestsAreNoVotes(s.peers, s.id, s.term + 1, s.uncommit);
      HeartbeatsAreNoVotes(s.peers, s.id, s.term, 0);
    case MinimumTimeout(at) =>
    case LogWork(at, _, _) =>
    case Deliver(m, verdict) =>
      match m {
        case VoteRequest(_, _, _, _, _) => VoteGrantedIff(s, m);
        case VoteResponse(_, _, _, _, _) => ElectSendsNoVotes(s, m);
        case AppendRequest(_, _, _, _) => AppendFollowsLeader(s, m, verdict);
        case AppendResponse(_, _, _, _) => AppendResponseTaken(s, m);
      }
  }

  lemma ElectSendsNoVotes(s: Server, m: Message)
    requires m.VoteResponse?
    ensures forall a :: a in OnVoteResponse(s, m).sent ==> a.AppendRequest?
  {
    if Counts(s, m) {
      HeartbeatsAreNoVotes(CountVote(s, Find(s.peers, m.from)).peers, s.id, s.term, 1);
    }
  }

  /** A server that has been told of its minimum timeout takes the requests of its peers again, and
      nothing else changes. */
  lemma ReadyAgain(w: World, at: string, m: Message)
    requires at in w.servers && w.servers[at].id == at
    requires m.VoteRequest? && m.to == at && Knows(w.servers[at], m.from)
    ensures var s, w' := w.servers[at], Next(w, MinimumTimeout(at));
            && w'.sent == w.sent && w'.servers.Keys == w.servers.Keys
            && (forall id :: id in w.servers && id != at ==> w'.servers[id] == w.servers[id])
            && w'.servers[at].(ready := false) == s.(ready := false)
            && ((exists a :: a in OnVoteRequest(w'.servers[at], m).sent && a.VoteResponse? && a.granted) <==>
                m.term > s.term && m.uncommit >= s.uncommit)
  {
    var w' := Next(w, MinimumTimeout(at));
    assert Knows(w'.servers[at], m.from);
    VoteGrantedIff(w'.servers[at], m);
  }

  lemma MessageKeepsName(s: Server, m: Message, verdict: Verdict)
    ensures OnMessage(s, m, verdict).server.id == s.id
  {
  }

  lemma ReactionKeepsName(w: World, step: Step)
    requires Enabled(w, step)
    ensures ReactionTo(w, step).server.id == w.servers[Place(step)].id
  {
    if step.Deliver? { MessageKeepsName(w.servers[step.m.to], step.m, step.verdict); }
  }

  lemma NamesStay(w: World, at: string, r: Reaction)
    requires WellNamed(w) && at in w.servers && r.server.id == w.servers[at].id
    ensures WellNamed(After(w, at, r))
  {
  }

  /** Every granted vote that was ever sent was cast by some step of the run on a request whose
      log was at least as long as the voter's when it voted. */
  lemma {:induction false} VotesWereCast(w: World, steps: seq<Step>, w': World, vote: Message)
    requires WellNamed(w) && Runs(w, steps, w')
    requires vote in w'.sent && vote !in w.sent && vote.VoteResponse? && vote.granted
    ensures CastIn(w, steps, vote)
    decreases |steps|
  {
    if steps != [] {
      ReactionKeepsName(w, steps[0]);
      NamesStay(w, Place(steps[0]), ReactionTo(w, steps[0]));
      if vote in Next(w, steps[0]).sent {
        VoteIsCast(w, steps[0], vote);
      } else {
        VotesWereCast(Next(w, steps[0]), steps[1..], w', vote);
      }
    }
  }

  lemma EveryVoteWasCast(cluster: seq<string>, steps: seq<Step>, w: World, vote: Message)
    requires Runs(Start(cluster), steps, w) && vote in w.sent && vote.VoteResponse? && vote.granted
    ensures CastIn(Start(cluster), steps, vote)
  {
    VotesWereCast(Start(cluster), steps, w, vote);
  }
}
