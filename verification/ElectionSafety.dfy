/** At most one leader per term (raft/raft_server.ipp): when it holds, and when it does not. */
module ElectionSafety {
  import opened Elections

  // ---------------------------------------------------------------- what every step keeps

  /** The peers are those of the cluster, in its order. */
  predicate Lists(peers: seq<Peer>, cluster: seq<string>) {
    |peers| == |cluster| && forall k :: 0 <= k < |peers| ==> peers[k].id == cluster[k]
  }

  predicate Member(s: Server, id: string, cluster: seq<string>) { s.id == id && Lists(s.peers, cluster) }

  ghost predicate Shape(w: World, cluster: seq<string>) {
    && (forall id :: id in w.servers <==> id in cluster)
    && (forall id :: id in w.servers ==> Member(w.servers[id], id, cluster))
  }

  /** A recorded vote is of a past term, or is the vote the server still holds. */
  ghost predicate BallotHolds(w: World, k: string, t: nat)
    requires (k, t) in w.ballots
  {
    && k in w.servers && t <= w.servers[k].term
    && (t == w.servers[k].term ==> w.servers[k].votedFor == w.ballots[(k, t)])
  }

  ghost predicate VotedFor(ballots: map<(string, nat), string>, k: string, t: nat, candidate: string) {
    (k, t) in ballots && ballots[(k, t)] == candidate
  }

  /** A granted vote that was sent was cast. */
  ghost predicate GrantHolds(w: World, m: Message) {
    m.VoteResponse? && m.granted ==> VotedFor(w.ballots, m.from, m.term, m.to)
  }

  /** Every peer that is flagged has voted for the server in its current term. */
  ghost predicate Vouched(ballots: map<(string, nat), string>, s: Server) {
    forall k :: 0 <= k < |s.peers| && s.peers[k].votedForMe ==> VotedFor(ballots, s.peers[k].id, s.term, s.id)
  }

  function Ballots(ballots: map<(string, nat), string>, cluster: seq<string>, t: nat, candidate: string): nat {
    if cluster == [] then 0
    else
      (if (cluster[0], t) in ballots && ballots[(cluster[0], t)] == candidate then 1 else 0) +
      Ballots(ballots, cluster[1..], t, candidate)
  }

  ghost predicate Backed(w: World, cluster: seq<string>, t: nat, leader: string) {
    Ballots(w.ballots, cluster, t, leader) >= Majority(|cluster|)
  }

  ghost predicate Inv(w: World, cluster: seq<string>) {
    && Shape(w, cluster)
    && (forall k, t :: (k, t) in w.ballots ==> BallotHolds(w, k, t))
    && (forall m :: m in w.sent ==> GrantHolds(w, m))
    && (forall id :: id in w.servers && w.servers[id].role == Candidate ==> Vouched(w.ballots, w.servers[id]))
    && (forall t, id :: (t, id) in w.elected ==> Backed(w, cluster, t, id))
    && (forall id :: id in w.servers && w.servers[id].role == Leader ==> (w.servers[id].term, id) in w.elected)
  }

  // ---------------------------------------------------------------- two majorities meet

  lemma {:induction false} BallotsSplit(
    ballots: map<(string, nat), string>, cluster: seq<string>, t: nat, a: string, b: string)
    requires a != b
    ensures Ballots(ballots, cluster, t, a) + Ballots(ballots, cluster, t, b) <= |cluster|
  {
    if cluster != [] { BallotsSplit(ballots, cluster[1..], t, a, b); }
  }

  lemma {:induction false} BallotsGrow(
    ballots: map<(string, nat), string>, ballots': map<(string, nat), string>, cluster: seq<string>, t: nat, c: string)
    requires forall k: string :: VotedFor(ballots, k, t, c) ==> VotedFor(ballots', k, t, c)
    ensures Ballots(ballots, cluster, t, c) <= Ballots(ballots', cluster, t, c)
  {
    if cluster != [] {
      assert VotedFor(ballots, cluster[0], t, c) ==> VotedFor(ballots', cluster[0], t, c);
      BallotsGrow(ballots, ballots', cluster[1..], t, c);
    }
  }

  /** Flags that are vouched for are ballots. */
  lemma {:induction false} VotesAreBallots(
    ballots: map<(string, nat), string>, peers: seq<Peer>, cluster: seq<string>, t: nat, c: string)
    requires Lists(peers, cluster)
    requires forall k :: 0 <= k < |peers| && peers[k].votedForMe ==> VotedFor(ballots, peers[k].id, t, c)
    ensures Votes(peers) <= Ballots(ballots, cluster, t, c)
    decreases |peers|
  {
    if peers != [] {
      assert peers[0].id == cluster[0];
      VotesAreBallots(ballots, peers[1..], cluster[1..], t, c);
    }
  }

  lemma InvIsSafe(w: World, cluster: seq<string>)
    requires Inv(w, cluster)
    ensures OneLeaderPerTerm(w)
  {
    forall t, a, b | (t, a) in w.elected && (t, b) in w.elected
      ensures a == b
    {
      assert Backed(w, cluster, t, a) && Backed(w, cluster, t, b);
      if a != b { BallotsSplit(w.ballots, cluster, t, a, b); }
    }
  }

  // ---------------------------------------------------------------- what a handler may do

  /** The server keeps its name and peers; its term does not go back, and within a term its
      vote stays; every vote it grants is the one it holds. */
  ghost predicate Honest(s: Server, r: Reaction) {
    && r.server.id == s.id
    && |r.server.peers| == |s.peers| && (forall k :: 0 <= k < |s.peers| ==> r.server.peers[k].id == s.peers[k].id)
    && r.server.term >= s.term
    && (r.server.term == s.term ==> r.server.votedFor == s.votedFor)
    && (forall m :: m in r.sent && m.VoteResponse? && m.granted ==>
          m.from == s.id && m.term == r.server.term && m.to == r.server.votedFor && m.to != "")
  }

  /** Flags are set only for the server's own vote, for a granted vote of the current term
      that was sent to it, or if they were set before as a candidate of the same term. */
  ghost predicate FlagJustified(w: World, s: Server, s': Server, k: nat)
    requires |s'.peers| == |s.peers| && k < |s.peers|
  {
    || (s.role == Candidate && s'.term == s.term && s.peers[k].votedForMe)
    || (s'.peers[k].id == s'.id && s'.votedFor == s'.id && s'.id != "")
    || exists id :: VoteResponse(s'.peers[k].id, s'.id, id, s'.term, true) in w.sent
  }

  ghost predicate Justified(w: World, s: Server, s': Server)
    requires |s'.peers| == |s.peers|
  {
    && (s'.role != Follower && !(s'.role == Leader && s.role == Leader) ==>
          forall k :: 0 <= k < |s.peers| && s'.peers[k].votedForMe ==> FlagJustified(w, s, s', k))
    && (s'.role == Leader ==>
          (s.role == Leader && s'.term == s.term) || (s.role != Leader && Votes(s'.peers) >= Majority(|s'.peers|)))
  }

  /** A new entry in the record of votes replaces none. */
  lemma RecordGrows(w: World, cluster: seq<string>, at: string, r: Reaction)
    requires Inv(w, cluster) && at in w.servers && Honest(w.servers[at], r)
    ensures var w' := After(w, at, r);
            && (forall k, t, c :: VotedFor(w.ballots, k, t, c) ==> VotedFor(w'.ballots, k, t, c))
            && (forall k, t :: (k, t) in w'.ballots ==> BallotHolds(w', k, t))
            && (forall m :: m in w'.sent ==> GrantHolds(w', m))
  {
    var w', s := After(w, at, r), w.servers[at];
    assert Member(s, at, cluster);
    forall k, t | (k, t) in w.ballots
      ensures (k, t) in w'.ballots && w'.ballots[(k, t)] == w.ballots[(k, t)]
      ensures BallotHolds(w', k, t)
    {
      assert BallotHolds(w, k, t);
    }
    forall m | m in w'.sent
      ensures GrantHolds(w', m)
    {
      if m in w.sent { assert GrantHolds(w, m); }
    }
  }

  lemma FlagIsVouched(w: World, cluster: seq<string>, at: string, r: Reaction, k: nat)
    requires Inv(w, cluster) && at in w.servers && Honest(w.servers[at], r)
    requires k < |w.servers[at].peers| && FlagJustified(w, w.servers[at], r.server, k)
    ensures VotedFor(After(w, at, r).ballots, r.server.peers[k].id, r.server.term, r.server.id)
  {
    var s, s' := w.servers[at], r.server;
    assert Member(s, at, cluster);
    RecordGrows(w, cluster, at, r);
    if s.role == Candidate && s'.term == s.term && s.peers[k].votedForMe {
      assert Vouched(w.ballots, s);
    } else if !(s'.peers[k].id == s'.id && s'.votedFor == s'.id && s'.id != "") {
      var id :| VoteResponse(s'.peers[k].id, s'.id, id, s'.term, true) in w.sent;
      assert GrantHolds(w, VoteResponse(s'.peers[k].id, s'.id, id, s'.term, true));
    }
  }

  /** The flags of the server that moved. */
  lemma MovedIsVouched(w: World, cluster: seq<string>, at: string, r: Reaction)
    requires Inv(w, cluster) && at in w.servers && Honest(w.servers[at], r) && Justified(w, w.servers[at], r.server)
    ensures r.server.role == Candidate || (r.server.role == Leader && w.servers[at].role != Leader) ==>
              Vouched(After(w, at, r).ballots, r.server)
  {
    if r.server.role == Candidate || (r.server.role == Leader && w.servers[at].role != Leader) {
      forall k | 0 <= k < |r.server.peers| && r.server.peers[k].votedForMe
        ensures VotedFor(After(w, at, r).ballots, r.server.peers[k].id, r.server.term, r.server.id)
      {
        FlagIsVouched(w, cluster, at, r, k);
      }
    }
  }

  lemma OthersStayVouched(w: World, cluster: seq<string>, at: string, r: Reaction, id: string)
    requires Inv(w, cluster) && at in w.servers && Honest(w.servers[at], r)
    requires id in w.servers && w.servers[id].role == Candidate
    ensures Vouched(After(w, at, r).ballots, w.servers[id])
  {
    RecordGrows(w, cluster, at, r);
    assert Vouched(w.ballots, w.servers[id]);
  }

  /** Leaders keep their backing, and a new one has it. */
  lemma ElectedAreBacked(w: World, cluster: seq<string>, at: string, r: Reaction)
    requires Inv(w, cluster) && at in w.servers && Honest(w.servers[at], r) && Justified(w, w.servers[at], r.server)
    ensures var w' := After(w, at, r); forall t, id :: (t, id) in w'.elected ==> Backed(w', cluster, t, id)
  {
    var w', s' := After(w, at, r), r.server;
    RecordGrows(w, cluster, at, r);
    MovedIsVouched(w, cluster, at, r);
    assert Member(w.servers[at], at, cluster);
    forall t, id | (t, id) in w'.elected
      ensures Backed(w', cluster, t, id)
    {
      if (t, id) in w.elected {
        assert Backed(w, cluster, t, id);
        BallotsGrow(w.ballots, w'.ballots, cluster, t, id);
      } else {
        VotesAreBallots(w'.ballots, s'.peers, cluster, t, id);
      }
    }
  }

  lemma AfterKeepsInv(w: World, cluster: seq<string>, at: string, r: Reaction)
    requires Inv(w, cluster) && at in w.servers && Honest(w.servers[at], r) && Justified(w, w.servers[at], r.server)
    ensures Inv(After(w, at, r), cluster)
  {
    var w' := After(w, at, r);
    RecordGrows(w, cluster, at, r);
    MovedIsVouched(w, cluster, at, r);
    ElectedAreBacked(w, cluster, at, r);
    assert Member(w.servers[at], at, cluster);
    forall id | id in w'.servers
      ensures Member(w'.servers[id], id, cluster)
      ensures w'.servers[id].role == Candidate ==> Vouched(w'.ballots, w'.servers[id])
      ensures w'.servers[id].role == Leader ==> (w'.servers[id].term, id) in w'.elected
    {
      if id != at {
        assert Member(w.servers[id], id, cluster);
        if w.servers[id].role == Candidate { OthersStayVouched(w, cluster, at, r, id); }
      }
    }
  }

  // ---------------------------------------------------------------- the handlers are honest

  lemma {:induction false} RequestsAreNoVotes(peers: seq<Peer>, self: string, term: nat, uncommit: nat)
    ensures forall m :: m in Requests(peers, self, term, uncommit) ==> m.VoteRequest?
  {
    if peers != [] { RequestsAreNoVotes(peers[1..], self, term, uncommit); }
  }

  lemma {:induction false} HeartbeatsAreNoVotes(peers: seq<Peer>, self: string, term: nat, bump: nat)
    ensures forall m :: m in Heartbeats(peers, self, term, bump) ==> m.AppendRequest?
  {
    if peers != [] { HeartbeatsAreNoVotes(peers[1..], self, term, bump); }
  }

  lemma {:induction false} HailKeepsVotes(peers: seq<Peer>, self: string)
    ensures Votes(HailAll(peers, self)) == Votes(peers)
  {
    if peers != [] {
      HailKeepsVotes(peers[1..], self);
      assert HailAll(peers, self)[1..] == HailAll(peers[1..], self);
    }
  }

  /** The votes that are counted were cast in the term in which they are counted. */
  ghost predicate Timely(w: World, step: Step)
    requires Enabled(w, step)
  {
    step.Deliver? && step.m.VoteResponse? && Counts(w.servers[step.m.to], step.m) ==>
      step.m.term == w.servers[step.m.to].term
  }

  ghost predicate Fine(w: World, s: Server, r: Reaction) {
    Honest(s, r) && Justified(w, s, r.server)
  }

  lemma TimeoutIsFine(w: World, s: Server)
    requires s.id != ""
    ensures Fine(w, s, OnTimeout(s))
  {
    RequestsAreNoVotes(s.peers, s.id, s.term + 1, s.uncommit);
    HeartbeatsAreNoVotes(s.peers, s.id, s.term, 0);
  }

  lemma VoteRequestIsFine(w: World, s: Server, m: Message)
    requires m.VoteRequest? && (m.from == "" ==> Find(s.peers, "") == |s.peers|)
    ensures Fine(w, s, OnVoteRequest(s, m))
  {
  }

  lemma AppendRequestIsFine(w: World, s: Server, m: Message, verdict: Verdict)
    requires m.AppendRequest?
    ensures Fine(w, s, OnAppendRequest(s, m, verdict))
  {
  }

  lemma AppendResponseIsFine(w: World, s: Server, m: Message)
    requires m.AppendResponse?
    ensures Fine(w, s, OnAppendResponse(s, m))
  {
  }

  lemma VoteResponseIsFine(w: World, s: Server, m: Message)
    requires m.VoteResponse? && m in w.sent && (Counts(s, m) ==> m.term == s.term)
    ensures Fine(w, s, OnVoteResponse(s, m))
  {
    if Counts(s, m) { CountIsFine(w, s, m); }
  }

  lemma CountIsFine(w: World, s: Server, m: Message)
    requires m.VoteResponse? && m in w.sent && Counts(s, m) && m.term == s.term
    ensures Fine(w, s, OnVoteResponse(s, m))
  {
    var k := Find(s.peers, m.from);
    var s' := CountVote(s, k);
    HeartbeatsAreNoVotes(s'.peers, s.id, s.term, 1);
    HailKeepsVotes(s'.peers, s.id);
    forall j | 0 <= j < |s.peers| && s'.peers[j].votedForMe
      ensures FlagJustified(w, s, OnVoteResponse(s, m).server, j)
    {
      if j == k { assert VoteResponse(m.from, m.to, m.id, m.term, true) in w.sent; }
    }
  }

  // ---------------------------------------------------------------- runs

  lemma MessageIsFine(w: World, cluster: seq<string>, m: Message, verdict: Verdict)
    requires Inv(w, cluster) && Proper(cluster) && Enabled(w, Deliver(m, verdict)) && Timely(w, Deliver(m, verdict))
    ensures Fine(w, w.servers[m.to], OnMessage(w.servers[m.to], m, verdict))
  {
    var s := w.servers[m.to];
    assert Member(s, m.to, cluster);
    match m
    case VoteRequest(_, _, _, _, _) => VoteRequestIsFine(w, s, m);
    case VoteResponse(_, _, _, _, _) => VoteResponseIsFine(w, s, m);
    case AppendRequest(_, _, _, _) => AppendRequestIsFine(w, s, m, verdict);
    case AppendResponse(_, _, _, _) => AppendResponseIsFine(w, s, m);
  }

  lemma StepIsFine(w: World, cluster: seq<string>, step: Step)
    requires Inv(w, cluster) && Proper(cluster) && Enabled(w, step) && Timely(w, step)
    ensures Fine(w, w.servers[Place(step)], ReactionTo(w, step))
  {
    match step
    case Timeout(at) =>
      assert Member(w.servers[at], at, cluster);
      TimeoutIsFine(w, w.servers[at]);
    case MinimumTimeout(at) =>
    case Deliver(m, verdict) => MessageIsFine(w, cluster, m, verdict);
    case LogWork(at, s, sent) =>
  }

  ghost predicate TimelyRun(w: World, steps: seq<Step>)
    decreases |steps|
  {
    steps == [] || (Enabled(w, steps[0]) ==> Timely(w, steps[0]) && TimelyRun(Next(w, steps[0]), steps[1..]))
  }

  lemma {:induction false} RunKeepsInv(w: World, cluster: seq<string>, steps: seq<Step>, w': World)
    requires Inv(w, cluster) && Proper(cluster) && Runs(w, steps, w') && TimelyRun(w, steps)
    ensures Inv(w', cluster)
    decreases |steps|
  {
    if steps != [] {
      StepIsFine(w, cluster, steps[0]);
      AfterKeepsInv(w, cluster, Place(steps[0]), ReactionTo(w, steps[0]));
      RunKeepsInv(Next(w, steps[0]), cluster, steps[1..], w');
    }
  }

  lemma StartIsInv(cluster: seq<string>)
    ensures Inv(Start(cluster), cluster)
  {
  }

  /** Election safety: over every interleaving of timeouts, deliveries (late, repeated or lost)
      and log work in which votes are counted in the term they were cast in, no term ever has
      two leaders. */
  lemma TimelyRunsAreSafe(cluster: seq<string>, steps: seq<Step>, w: World)
    requires Proper(cluster) && Runs(Start(cluster), steps, w) && TimelyRun(Start(cluster), steps)
    ensures OneLeaderPerTerm(w)
  {
    StartIsInv(cluster);
    RunKeepsInv(Start(cluster), cluster, steps, w);
    InvIsSafe(w, cluster);
  }
}
