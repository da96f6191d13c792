/** Two leaders in one term: the handler of vote responses does not compare the term of a vote
    with the current one (raft/raft_server.ipp:235-262), so in every cluster of at least two
    servers late votes can elect two leaders.

    The run: b asks for votes in term 1 and everyone grants; a asks in term 2 and everyone
    grants; none of the answers arrives.  Then a and b time out into term 3, and each counts
    the old answers to its earlier request.  */
module ElectionFailure {
  import opened Elections
  import opened ElectionSafety

  ghost predicate Reaches(w: World, w': World) {
    exists steps :: Runs(w, steps, w')
  }

  lemma {:induction false} RunsConcat(w: World, a: seq<Step>, w1: World, b: seq<Step>, w2: World)
    requires Runs(w, a, w1) && Runs(w1, b, w2)
    ensures Runs(w, a + b, w2)
    decreases |a|
  {
    if a == [] {
      assert a + b == b;
    } else {
      assert (a + b)[1..] == a[1..] + b;
      RunsConcat(Next(w, a[0]), a[1..], w1, b, w2);
    }
  }

  lemma ReachesOn(w: World, w1: World, w2: World)
    requires Reaches(w, w1) && Reaches(w1, w2)
    ensures Reaches(w, w2)
  {
    var a :| Runs(w, a, w1);
    var b :| Runs(w1, b, w2);
    RunsConcat(w, a, w1, b, w2);
  }

  lemma OneStep(w: World, step: Step)
    requires Enabled(w, step)
    ensures Reaches(w, Next(w, step))
  {
    assert [step][1..] == [];
    assert Runs(w, [step], Next(w, step));
  }

  /** Nothing sent or decided is lost. */
  ghost predicate Grows(w: World, w': World) { w.sent <= w'.sent && w.elected <= w'.elected }

  /** Only the server at j may have changed. */
  ghost predicate OnlyAt(w: World, w': World, c: seq<string>, j: nat)
    requires j < |c|
  {
    && w'.servers.Keys == w.servers.Keys
    && forall id :: id in w.servers && id != c[j] ==> w'.servers[id] == w.servers[id]
  }

  lemma ShapeAfter(w: World, c: seq<string>, j: nat, r: Reaction)
    requires Shape(w, c) && j < |c| && c[j] in w.servers && Member(r.server, c[j], c)
    ensures Shape(After(w, c[j], r), c)
  {
    var w' := After(w, c[j], r);
    forall id | id in w'.servers
      ensures Member(w'.servers[id], id, c)
    {
      if id != c[j] { assert Member(w.servers[id], id, c); }
    }
  }

  lemma AfterAdds(w: World, c: seq<string>, j: nat, r: Reaction)
    requires j < |c| && c[j] in w.servers
    ensures var w' := After(w, c[j], r);
            && Grows(w, w') && OnlyAt(w, w', c, j) && w'.servers[c[j]] == r.server
            && (forall m :: m in r.sent ==> m in w'.sent)
            && (r.server.role == Leader ==> (r.server.term, c[j]) in w'.elected)
  {
  }

  /** One step of the server at j, by what it does. */
  lemma Moves(w: World, c: seq<string>, j: nat, step: Step, r: Reaction) returns (w': World)
    requires Shape(w, c) && j < |c| && Enabled(w, step) && Place(step) == c[j]
    requires r == ReactionTo(w, step) && Member(r.server, c[j], c)
    ensures Reaches(w, w') && Shape(w', c) && Grows(w, w') && OnlyAt(w, w', c, j)
    ensures c[j] in w'.servers && w'.servers[c[j]] == r.server
    ensures forall m :: m in r.sent ==> m in w'.sent
    ensures r.server.role == Leader ==> (r.server.term, c[j]) in w'.elected
  {
    OneStep(w, step);
    w' := After(w, c[j], r);
    ServerAt(w, c, j);
    ShapeAfter(w, c, j, r);
    AfterAdds(w, c, j, r);
  }

  lemma ServerAt(w: World, c: seq<string>, j: nat)
    requires Shape(w, c) && j < |c|
    ensures c[j] in w.servers && Member(w.servers[c[j]], c[j], c)
  {
    assert c[j] in c;
  }

  // ---------------------------------------------------------------- asking for votes

  ghost predicate Requested(w: World, from: string, to: string, term: nat) {
    exists id :: VoteRequest(from, to, id, term, 0) in w.sent
  }

  ghost predicate Granted(w: World, from: string, to: string, term: nat) {
    exists id :: VoteResponse(from, to, id, term, true) in w.sent
  }

  lemma {:induction false} RequestSent(peers: seq<Peer>, self: string, term: nat, uncommit: nat, k: nat)
    requires k < |peers| && peers[k].id != self
    ensures VoteRequest(self, peers[k].id, peers[k].lastMessage + 1, term, uncommit) in Requests(peers, self, term, uncommit)
    decreases |peers|
  {
    if k > 0 { RequestSent(peers[1..], self, term, uncommit, k - 1); }
  }

  lemma {:induction false} OneVote(peers: seq<Peer>, j: int)
    requires forall k :: 0 <= k < |peers| ==> (peers[k].votedForMe <==> k == j)
    ensures Votes(peers) == if 0 <= j < |peers| then 1 else 0
    decreases |peers|
  {
    if peers != [] { OneVote(peers[1..], j - 1); }
  }

  lemma {:induction false} AllVotes(peers: seq<Peer>)
    requires forall k :: 0 <= k < |peers| ==> peers[k].votedForMe
    ensures Votes(peers) == |peers|
  {
    if peers != [] { AllVotes(peers[1..]); }
  }

  /** A candidate with its own vote, waiting for all the others. */
  ghost predicate Asking(s: Server, j: nat, term: nat) {
    && s.role == Candidate && s.term == term && Votes(s.peers) == 1 && j < |s.peers| && s.peers[j].votedForMe
    && forall k :: 0 <= k < |s.peers| && k != j ==> s.peers[k].waiting
  }

  lemma TimeoutAsks(s: Server, c: seq<string>, j: nat)
    requires Proper(c) && j < |c| && Member(s, c[j], c) && s.role != Leader
    ensures Member(OnTimeout(s).server, c[j], c) && Asking(OnTimeout(s).server, j, s.term + 1)
    ensures forall i :: 0 <= i < |c| && i != j ==>
              VoteRequest(c[j], c[i], s.peers[i].lastMessage + 1, s.term + 1, s.uncommit) in OnTimeout(s).sent
  {
    OneVote(OnTimeout(s).server.peers, j);
    forall i | 0 <= i < |c| && i != j
      ensures VoteRequest(c[j], c[i], s.peers[i].lastMessage + 1, s.term + 1, s.uncommit) in OnTimeout(s).sent
    {
      RequestSent(s.peers, s.id, s.term + 1, s.uncommit, i);
    }
  }

  lemma TimesOut(w: World, c: seq<string>, j: nat) returns (w': World)
    requires Proper(c) && Shape(w, c) && j < |c|
    requires c[j] in w.servers && w.servers[c[j]].role != Leader && w.servers[c[j]].uncommit == 0
    ensures Reaches(w, w') && Shape(w', c) && Grows(w, w') && OnlyAt(w, w', c, j)
    ensures c[j] in w'.servers && Asking(w'.servers[c[j]], j, w.servers[c[j]].term + 1)
    ensures w'.servers[c[j]].ready == w.servers[c[j]].ready && w'.servers[c[j]].uncommit == 0
    ensures forall i :: 0 <= i < |c| && i != j ==> Requested(w', c[j], c[i], w.servers[c[j]].term + 1)
  {
    ServerAt(w, c, j);
    var s := w.servers[c[j]];
    TimeoutAsks(s, c, j);
    w' := Moves(w, c, j, Timeout(c[j]), OnTimeout(s));
  }

  // ---------------------------------------------------------------- granting them

  /** The server will grant a vote of that term. */
  predicate Willing(s: Server, term: nat) { s.ready && s.uncommit == 0 && s.role != Leader && s.term < term }

  /** The server has granted one. */
  predicate Bound(s: Server, term: nat) { s.ready && s.uncommit == 0 && s.role == Follower && s.term == term }

  lemma WillingGrants(s: Server, c: seq<string>, i: nat, m: Message)
    requires i < |c| && Member(s, c[i], c) && m.VoteRequest? && m.to == c[i] && m.from in c && m.uncommit == 0
    requires Willing(s, m.term)
    ensures var r := OnVoteRequest(s, m);
            && Member(r.server, c[i], c) && Bound(r.server, m.term)
            && VoteResponse(c[i], m.from, m.id, m.term, true) in r.sent
  {
    var j :| 0 <= j < |c| && c[j] == m.from;
    assert s.peers[j].id == m.from;
  }

  lemma Grants(w: World, c: seq<string>, i: nat, j: nat, term: nat) returns (w': World)
    requires Proper(c) && Shape(w, c) && i < |c| && j < |c| && i != j
    requires c[i] in w.servers && Willing(w.servers[c[i]], term) && Requested(w, c[j], c[i], term)
    ensures Reaches(w, w') && Shape(w', c) && Grows(w, w') && OnlyAt(w, w', c, i)
    ensures c[i] in w'.servers && Bound(w'.servers[c[i]], term) && Granted(w', c[i], c[j], term)
  {
    ServerAt(w, c, i);
    var id :| VoteRequest(c[j], c[i], id, term, 0) in w.sent;
    var m := VoteRequest(c[j], c[i], id, term, 0);
    WillingGrants(w.servers[c[i]], c, i, m);
    w' := Moves(w, c, i, Deliver(m, Dropped), OnVoteRequest(w.servers[c[i]], m));
  }

  ghost predicate GrantedBy(w: World, c: seq<string>, i: nat, j: nat, term: nat)
    requires i < |c| && j < |c|
  {
    c[i] in w.servers && Bound(w.servers[c[i]], term) && Granted(w, c[i], c[j], term)
  }

  ghost predicate AskedOf(w: World, c: seq<string>, i: nat, j: nat, term: nat)
    requires i < |c| && j < |c|
  {
    c[i] in w.servers && Willing(w.servers[c[i]], term) && Requested(w, c[j], c[i], term)
  }

  /** Everyone from k on grants the request of j. */
  lemma {:induction false} EveryoneGrants(w: World, c: seq<string>, j: nat, term: nat, k: nat) returns (w': World)
    requires Proper(c) && Shape(w, c) && j < |c| && k <= |c|
    requires forall i :: 0 <= i < k && i != j ==> GrantedBy(w, c, i, j, term)
    requires forall i :: k <= i < |c| && i != j ==> AskedOf(w, c, i, j, term)
    ensures Reaches(w, w') && Shape(w', c) && Grows(w, w')
    ensures w'.servers.Keys == w.servers.Keys && (c[j] in w.servers ==> w'.servers[c[j]] == w.servers[c[j]])
    ensures forall i :: 0 <= i < |c| && i != j ==> GrantedBy(w', c, i, j, term)
    decreases |c| - k
  {
    if k == |c| {
      assert Runs(w, [], w);
      w' := w;
    } else if k == j {
      w' := EveryoneGrants(w, c, j, term, k + 1);
    } else {
      assert AskedOf(w, c, k, j, term);
      var w1 := Grants(w, c, k, j, term);
      OthersKeep(w, w1, c, k, j, term);
      w' := EveryoneGrants(w1, c, j, term, k + 1);
      ReachesOn(w, w1, w');
    }
  }

  lemma OthersKeep(w: World, w1: World, c: seq<string>, k: nat, j: nat, term: nat)
    requires Proper(c) && k < |c| && j < |c| && k != j && OnlyAt(w, w1, c, k) && Grows(w, w1)
    requires forall i :: 0 <= i < k && i != j ==> GrantedBy(w, c, i, j, term)
    requires forall i :: k <= i < |c| && i != j ==> AskedOf(w, c, i, j, term)
    requires GrantedBy(w1, c, k, j, term)
    ensures forall i :: 0 <= i < k + 1 && i != j ==> GrantedBy(w1, c, i, j, term)
    ensures forall i :: k + 1 <= i < |c| && i != j ==> AskedOf(w1, c, i, j, term)
  {
    forall i | 0 <= i < k + 1 && i != j
      ensures GrantedBy(w1, c, i, j, term)
    {
      if i < k {
        assert GrantedBy(w, c, i, j, term) && c[i] != c[k];
        var id :| VoteResponse(c[i], c[j], id, term, true) in w.sent;
        assert VoteResponse(c[i], c[j], id, term, true) in w1.sent;
      }
    }
    forall i | k + 1 <= i < |c| && i != j
      ensures AskedOf(w1, c, i, j, term)
    {
      assert AskedOf(w, c, i, j, term) && c[i] != c[k];
      var id :| VoteRequest(c[j], c[i], id, term, 0) in w.sent;
      assert VoteRequest(c[j], c[i], id, term, 0) in w1.sent;
    }
  }

  // ---------------------------------------------------------------- counting late votes

  /** A candidate that is not elected yet, flagged up to k and waiting from k on. */
  ghost predicate Collecting(s: Server, j: nat, k: nat, term: nat) {
    && s.role == Candidate && s.term == term && j < |s.peers| && Votes(s.peers) < Majority(|s.peers|)
    && (forall i :: 0 <= i < |s.peers| && (i < k || i == j) ==> s.peers[i].votedForMe)
    && (forall i :: k <= i < |s.peers| && i != j ==> s.peers[i].waiting)
  }

  ghost predicate LateVote(w: World, from: string, to: string, term: nat) {
    exists t: nat :: t <= term && Granted(w, from, to, t)
  }

  /** One late vote elects the candidate or brings it one vote further. */
  lemma LateVoteCounts(s: Server, c: seq<string>, j: nat, k: nat, m: Message)
    requires Proper(c) && j < |c| && k < |c| && k != j && Member(s, c[j], c) && Collecting(s, j, k, s.term)
    requires m.VoteResponse? && m.from == c[k] && m.to == c[j] && m.term <= s.term && m.granted
    ensures var r := OnVoteResponse(s, m);
            && Member(r.server, c[j], c) && r.server.term == s.term
            && (r.server.role == Leader || Collecting(r.server, j, k + 1, s.term))
  {
    assert Find(s.peers, m.from) == k;
  }

  lemma {:induction false} LateVotesElect(w: World, c: seq<string>, j: nat, k: nat, term: nat) returns (w': World)
    requires Proper(c) && Shape(w, c) && |c| >= 2 && j < |c| && k <= |c|
    requires c[j] in w.servers && Collecting(w.servers[c[j]], j, k, term)
    requires forall i :: k <= i < |c| && i != j ==> LateVote(w, c[i], c[j], term)
    ensures Reaches(w, w') && Shape(w', c) && Grows(w, w') && OnlyAt(w, w', c, j) && (term, c[j]) in w'.elected
    decreases |c| - k
  {
    ServerAt(w, c, j);
    var s := w.servers[c[j]];
    if k == |c| {
      AllVotes(s.peers);
      w' := w;
    } else if k == j {
      w' := LateVotesElect(w, c, j, k + 1, term);
    } else {
      assert LateVote(w, c[k], c[j], term);
      w' := LateVoteArrives(w, c, j, k, term);
      if w'.servers[c[j]].role != Leader {
        var w1 := w';
        VotesStayLate(w, w1, c, j, term);
        w' := LateVotesElect(w1, c, j, k + 1, term);
        ReachesOn(w, w1, w');
      }
    }
  }

  lemma LateVoteArrives(w: World, c: seq<string>, j: nat, k: nat, term: nat) returns (w': World)
    requires Proper(c) && Shape(w, c) && j < |c| && k < |c| && k != j
    requires c[j] in w.servers && Collecting(w.servers[c[j]], j, k, term) && LateVote(w, c[k], c[j], term)
    ensures Reaches(w, w') && Shape(w', c) && Grows(w, w') && OnlyAt(w, w', c, j) && c[j] in w'.servers
    ensures if w'.servers[c[j]].role == Leader then (term, c[j]) in w'.elected
            else Collecting(w'.servers[c[j]], j, k + 1, term)
  {
    ServerAt(w, c, j);
    var s := w.servers[c[j]];
    var t: nat :| t <= term && Granted(w, c[k], c[j], t);
    var id :| VoteResponse(c[k], c[j], id, t, true) in w.sent;
    var m := VoteResponse(c[k], c[j], id, t, true);
    LateVoteCounts(s, c, j, k, m);
    w' := Moves(w, c, j, Deliver(m, Dropped), OnVoteResponse(s, m));
  }

  lemma VotesStayLate(w: World, w1: World, c: seq<string>, j: nat, term: nat)
    requires Grows(w, w1) && j < |c|
    ensures forall i :: 0 <= i < |c| && LateVote(w, c[i], c[j], term) ==> LateVote(w1, c[i], c[j], term)
  {
    forall i | 0 <= i < |c| && LateVote(w, c[i], c[j], term)
      ensures LateVote(w1, c[i], c[j], term)
    {
      var t: nat :| t <= term && Granted(w, c[i], c[j], t);
      var id :| VoteResponse(c[i], c[j], id, t, true) in w.sent;
      assert VoteResponse(c[i], c[j], id, t, true) in w1.sent && Granted(w1, c[i], c[j], t);
    }
  }

  // ---------------------------------------------------------------- the run

  ghost predicate AllWilling(w: World, c: seq<string>, j: nat, term: nat) {
    forall i :: 0 <= i < |c| && i != j ==> c[i] in w.servers && Willing(w.servers[c[i]], term)
  }

  /** The server at j asks for votes in the given term, and all the others grant; the answers
      stay on their way. */
  lemma AsksInVain(w: World, c: seq<string>, j: nat, term: nat) returns (w': World)
    requires Proper(c) && Shape(w, c) && j < |c| && AllWilling(w, c, j, term)
    requires c[j] in w.servers && var s := w.servers[c[j]]; s.role != Leader && s.uncommit == 0 && s.ready && s.term + 1 == term
    ensures Reaches(w, w') && Shape(w', c) && Grows(w, w')
    ensures c[j] in w'.servers && var s := w'.servers[c[j]]; s.role == Candidate && s.uncommit == 0 && s.ready && s.term == term
    ensures forall i :: 0 <= i < |c| && i != j ==> GrantedBy(w', c, i, j, term)
  {
    var w1 := TimesOut(w, c, j);
    forall i | 0 <= i < |c| && i != j
      ensures AskedOf(w1, c, i, j, term)
    {
      assert c[i] != c[j] && Requested(w1, c[j], c[i], term);
    }
    w' := EveryoneGrants(w1, c, j, term, 0);
    ReachesOn(w, w1, w');
  }

  /** The server at j times out once more and counts the old answers. */
  lemma WinsLate(w: World, c: seq<string>, j: nat, term: nat) returns (w': World)
    requires Proper(c) && Shape(w, c) && |c| >= 2 && j < |c|
    requires c[j] in w.servers && var s := w.servers[c[j]]; s.role != Leader && s.uncommit == 0 && s.term + 1 == term
    requires forall i :: 0 <= i < |c| && i != j ==> LateVote(w, c[i], c[j], term)
    ensures Reaches(w, w') && Shape(w', c) && Grows(w, w') && OnlyAt(w, w', c, j) && (term, c[j]) in w'.elected
  {
    var w1 := TimesOut(w, c, j);
    VotesStayLate(w, w1, c, j, term);
    w' := LateVotesElect(w1, c, j, 0, term);
    ReachesOn(w, w1, w');
  }

  lemma GrantedIsLate(w: World, w': World, c: seq<string>, i: nat, j: nat, t: nat, term: nat)
    requires i < |c| && j < |c| && GrantedBy(w, c, i, j, t) && Grows(w, w') && t <= term
    ensures LateVote(w', c[i], c[j], term)
  {
    var id :| VoteResponse(c[i], c[j], id, t, true) in w.sent;
    assert VoteResponse(c[i], c[j], id, t, true) in w'.sent && Granted(w', c[i], c[j], t);
  }

  lemma StartIsWilling(c: seq<string>, j: nat)
    ensures Shape(Start(c), c) && AllWilling(Start(c), c, j, 1)
  {
    StartIsInv(c);
  }

  /** Both have asked in vain, the server at 1 in term 1 and the server at 0 in term 2. */
  ghost predicate BothAsked(w: World, c: seq<string>)
    requires |c| >= 2
  {
    && Shape(w, c) && c[0] in w.servers && c[1] in w.servers
    && var a, b := w.servers[c[0]], w.servers[c[1]];
    && a.role != Leader && a.uncommit == 0 && a.term == 2
    && b.role != Leader && b.uncommit == 0 && b.term == 2
    && (forall i :: 0 <= i < |c| && i != 0 ==> LateVote(w, c[i], c[0], 3))
    && (forall i :: 0 <= i < |c| && i != 1 ==> LateVote(w, c[i], c[1], 3))
  }

  lemma BothAsk(c: seq<string>) returns (w: World)
    requires Proper(c) && |c| >= 2
    ensures Reaches(Start(c), w) && BothAsked(w, c)
  {
    StartIsWilling(c, 1);
    assert c[1] in c && c[0] in c;
    var w1 := AsksInVain(Start(c), c, 1, 1);
    assert GrantedBy(w1, c, 0, 1, 1);
    forall i | 0 <= i < |c| && i != 0
      ensures c[i] in w1.servers && Willing(w1.servers[c[i]], 2)
    {
      if i != 1 { assert GrantedBy(w1, c, i, 1, 1); }
    }
    w := AsksInVain(w1, c, 0, 2);
    ReachesOn(Start(c), w1, w);
    forall i | 0 <= i < |c|
      ensures i != 0 ==> LateVote(w, c[i], c[0], 3)
      ensures i != 1 ==> LateVote(w, c[i], c[1], 3)
    {
      if i != 0 { GrantedIsLate(w, w, c, i, 0, 2, 3); }
      if i != 1 { GrantedIsLate(w1, w, c, i, 1, 1, 3); }
    }
    assert GrantedBy(w, c, 1, 0, 2);
  }

  lemma TwoLeaders(c: seq<string>) returns (w: World)
    requires Proper(c) && |c| >= 2
    ensures Reaches(Start(c), w) && (3, c[0]) in w.elected && (3, c[1]) in w.elected && c[0] != c[1]
  {
    var w1 := BothAsk(c);
    assert c[0] != c[1];
    var w2 := WinsLate(w1, c, 0, 3);
    VotesStayLate(w1, w2, c, 1, 3);
    w := WinsLate(w2, c, 1, 3);
    ReachesOn(Start(c), w1, w2);
    ReachesOn(Start(c), w2, w);
  }

  // ---------------------------------------------------------------- exactly when it is safe

  ghost predicate LeadersAreMembers(w: World, c: seq<string>) {
    && (forall id :: id in w.servers ==> id in c)
    && (forall t, id :: (t, id) in w.elected ==> id in c)
  }

  lemma {:induction false} RunsKeepMembers(w: World, c: seq<string>, steps: seq<Step>, w': World)
    requires LeadersAreMembers(w, c) && Runs(w, steps, w')
    ensures LeadersAreMembers(w', c)
    decreases |steps|
  {
    if steps != [] { RunsKeepMembers(Next(w, steps[0]), c, steps[1..], w'); }
  }

  /** As it stands, the protocol has at most one leader per term over all its runs if and only
      if the cluster has no two servers. */
  lemma SafeIffAlone(c: seq<string>)
    requires Proper(c)
    ensures (forall w :: Reaches(Start(c), w) ==> OneLeaderPerTerm(w)) <==> |c| <= 1
  {
    if |c| <= 1 {
      forall w | Reaches(Start(c), w)
        ensures OneLeaderPerTerm(w)
      {
        var steps :| Runs(Start(c), steps, w);
        RunsKeepMembers(Start(c), c, steps, w);
      }
    } else {
      var w := TwoLeaders(c);
      assert !OneLeaderPerTerm(w);
    }
  }
}
