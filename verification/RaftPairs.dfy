/**
 * Clusters of at most two nodes. There the age of a reply does not matter: after term 1
 * the two never stand in the same term, because a node that goes on from a term has
 * heard from the other one, and so there is one leader a term on whatever votes.
 */
module RaftPairs {
  import opened RaftNode
  import opened RaftSystem
  import opened RaftElection
  import opened RaftAge
  import opened RaftLogs

  // ----- Two nodes ----------------------------------------------------------------------------

  /**
   * The node ahead is one term ahead and not a follower, and the other one stood in its own term
   * too; in the same term they are not both followers, and after term 1 not both standing.
   */
  ghost predicate Paired(n: Node, m: Node) {
    && (n.currentTerm > m.currentTerm ==>
          n.currentTerm == m.currentTerm + 1 && n.role != Follower && (m.role != Follower || m.currentTerm == 0))
    && (n.currentTerm == m.currentTerm >= 1 ==> n.role != Follower || m.role != Follower)
    && (n.currentTerm == m.currentTerm >= 2 ==> n.role == Follower || m.role == Follower)
  }

  ghost predicate AllPaired(nodes: map<NodeId, Node>) {
    forall n, m :: n in nodes && m in nodes && n != m ==> Paired(nodes[n], nodes[m])
  }

  /** The node has passed the term, or follows in it. */
  ghost predicate Yielded(n: Node, term: int) {
    n.currentTerm > term || (n.currentTerm == term && n.role == Follower)
  }

  /** Whoever is counted in a round has yielded to it. */
  ghost predicate RoundYielded(nodes: map<NodeId, Node>, n: NodeId, round: Round) {
    && 1 <= round.term && round.votes <= nodes.Keys
    && forall v :: v in round.votes && v in nodes && v != n ==> Yielded(nodes[v], round.term)
  }

  ghost predicate RoundsYielded(nodes: map<NodeId, Node>) {
    forall n, r :: n in nodes && 0 <= r < |nodes[n].rounds| ==>
      nodes[n].rounds[r].term <= nodes[n].currentTerm && RoundYielded(nodes, n, nodes[n].rounds[r])
  }

  /** In term 1 the loser has yielded to the winner. */
  ghost predicate FirstYielded(nodes: map<NodeId, Node>, elections: set<Election>) {
    forall e, m :: e in elections && e.term <= 1 && m in nodes && m != e.leader ==> Yielded(nodes[m], e.term)
  }

  /** A message names its round, and a term that its sender has seen. */
  ghost predicate Honest(nodes: map<NodeId, Node>, m: Msg) {
    match m
    case VoteReq(round, to, args) =>
      && RoundOf(nodes, round, args) && to != args.candidateId && args.term <= nodes[args.candidateId].currentTerm
    case VoteResp(round, from, args, reply) =>
      && RoundOf(nodes, round, args) && from in nodes && from != args.candidateId
      && (reply.granted ==> Yielded(nodes[from], args.term))
    case AppendReq(_, _) => true
    case AppendResp(from, args, reply) =>
      from in nodes && from != args.leaderId && reply.term <= nodes[from].currentTerm
  }

  ghost predicate AllHonest(nodes: map<NodeId, Node>, msgs: set<Msg>) {
    forall m :: m in msgs ==> Honest(nodes, m)
  }

  ghost predicate PairInv(s: System) {
    && LeaderInv(s) && Terms(s.nodes) && SelfVotes(s.nodes)
    && AllPaired(s.nodes) && RoundsYielded(s.nodes) && FirstYielded(s.nodes, s.elections)
    && LeadersPass(s.nodes, s.elections)
    && AppendsNamed(s.elections, s.msgs) && AllHonest(s.nodes, s.msgs)
  }

  // ----- What a step does to its node ----------------------------------------------------------------

  ghost predicate Moves(n: Node, m: Node) {
    && m.id == n.id && m.peers == n.peers && m.currentTerm >= n.currentTerm
    && (m.role != Follower ==>
          || (n.role != Follower && m.currentTerm == n.currentTerm && (m.role == n.role || m.role == Leader)
              && m.votedFor == n.votedFor)
          || (n.role == Follower && m.role == Candidate && m.currentTerm == n.currentTerm + 1 && m.votedFor == m.id))
    && (m.role == Follower && m.currentTerm == n.currentTerm ==> n.role != Leader)
    && |n.rounds| <= |m.rounds| && (forall r :: 0 <= r < |n.rounds| ==> m.rounds[r].term == n.rounds[r].term)
  }

  /** The same, when no leader is made and no vote is counted. */
  ghost predicate MovesQuietly(n: Node, m: Node) {
    && Moves(n, m) && (m.role == Leader ==> n.role == Leader)
    && (forall r :: 0 <= r < |m.rounds| ==>
          if r < |n.rounds| then m.rounds[r] == n.rounds[r] else m.rounds[r] == Round(m.currentTerm, {m.id}))
  }

  /** A node goes on to a higher term as a follower only up to one the other has seen. */
  ghost predicate Hears(nodes: map<NodeId, Node>, n: NodeId, m: Node)
    requires n in nodes
  {
    forall k :: k in nodes && k != n && m.role == Follower ==>
      && (m.currentTerm > nodes[n].currentTerm ==> m.currentTerm <= nodes[k].currentTerm)
      && (m.currentTerm == nodes[n].currentTerm && nodes[n].role != Follower ==>
            nodes[k].currentTerm == m.currentTerm && nodes[k].role != Follower)
  }

  lemma MovesKeepPairs(nodes: map<NodeId, Node>, n: NodeId, m: Node)
    requires n in nodes && AllPaired(nodes) && Terms(nodes) && Moves(nodes[n], m) && Hears(nodes, n, m)
    ensures AllPaired(nodes[n := m]) && Terms(nodes[n := m])
  {
    forall k | k in nodes && k != n
      ensures Paired(nodes[k], m) && Paired(m, nodes[k])
    {
      assert Paired(nodes[n], nodes[k]) && Paired(nodes[k], nodes[n]);
    }
  }

  lemma MovesKeepLed(nodes: map<NodeId, Node>, n: NodeId, m: Node, elections: set<Election>)
    requires n in nodes && Moves(nodes[n], m)
    requires forall e :: e in elections ==> Led(nodes, e)
    requires LeadersPass(nodes, elections)
    ensures forall e :: e in elections ==> Led(nodes[n := m], e)
    ensures LeadersPass(nodes[n := m], elections)
  {
    forall e | e in elections
      ensures Led(nodes[n := m], e)
      ensures m.currentTerm == e.term + 1 && e.leader == n ==> m.role == Follower
    {
      assert Led(nodes, e);
    }
  }

  lemma MovesKeepMsgs(nodes: map<NodeId, Node>, n: NodeId, m: Node, msgs: set<Msg>)
    requires n in nodes && Moves(nodes[n], m) && AllHonest(nodes, msgs)
    ensures AllHonest(nodes[n := m], msgs)
  {
    forall x | x in msgs
      ensures Honest(nodes[n := m], x)
    {
      assert Honest(nodes, x);
    }
  }

  lemma MovesKeepFirst(nodes: map<NodeId, Node>, n: NodeId, m: Node, elections: set<Election>)
    requires n in nodes && Moves(nodes[n], m) && FirstYielded(nodes, elections)
    ensures FirstYielded(nodes[n := m], elections)
  {
    forall e, k | e in elections && e.term <= 1 && k in nodes && k != e.leader
      ensures Yielded(nodes[n := m][k], e.term)
    {
      assert Yielded(nodes[k], e.term);
    }
  }

  /** Rounds of other nodes, and those of the node itself that it had before. */
  lemma MovesKeepRound(nodes: map<NodeId, Node>, n: NodeId, m: Node, k: NodeId, round: Round)
    requires n in nodes && Moves(nodes[n], m) && RoundYielded(nodes, k, round)
    ensures RoundYielded(nodes[n := m], k, round)
  {
    assert nodes[n := m].Keys == nodes.Keys;
    forall v | v in round.votes && v in nodes && v != k
      ensures Yielded(nodes[n := m][v], round.term)
    {
      assert Yielded(nodes[v], round.term);
    }
  }

  lemma QuietKeepsRoundsYielded(nodes: map<NodeId, Node>, n: NodeId, m: Node)
    requires n in nodes && m.id == n && MovesQuietly(nodes[n], m) && RoundsYielded(nodes) && Terms(nodes)
    requires |m.rounds| > |nodes[n].rounds| ==> m.currentTerm >= 1
    ensures RoundsYielded(nodes[n := m])
  {
    var after := nodes[n := m];
    assert after.Keys == nodes.Keys;
    forall k, r | k in after && 0 <= r < |after[k].rounds|
      ensures after[k].rounds[r].term <= after[k].currentTerm && RoundYielded(after, k, after[k].rounds[r])
    {
      if k != n || r < |nodes[n].rounds| {
        MovesKeepRound(nodes, n, m, k, nodes[k].rounds[r]);
      }
    }
  }

  /** A step that makes no leader and counts no vote. */
  lemma QuietKeepsPairs(s: System, n: NodeId, m: Node, out: set<Msg>, t: System)
    requires PairInv(s) && n in s.nodes && MovesQuietly(s.nodes[n], m) && Hears(s.nodes, n, m)
    requires |m.rounds| > |s.nodes[n].rounds| ==> m.currentTerm >= 1
    requires t.nodes == s.nodes[n := m] && t.elections == s.elections && t.msgs == s.msgs + out
    requires AllHonest(t.nodes, out) && AppendsNamed(s.elections, out)
    ensures PairInv(t)
  {
    hide Paired, Yielded, Honest, Led, RoundYielded, Hears, Named;
    assert t.nodes.Keys == s.nodes.Keys;
    MovesKeepPairs(s.nodes, n, m);
    MovesKeepLed(s.nodes, n, m, s.elections);
    MovesKeepMsgs(s.nodes, n, m, s.msgs);
    MovesKeepFirst(s.nodes, n, m, s.elections);
    QuietKeepsRoundsYielded(s.nodes, n, m);
    forall k | k in t.nodes && t.nodes[k].role == Leader
      ensures HasElection(t.elections, t.nodes[k].currentTerm, k)
    {
      assert HasElection(s.elections, s.nodes[k].currentTerm, k);
    }
  }

  // ----- Every step -------------------------------------------------------------------------------

  lemma OnlyTwo(nodes: map<NodeId, Node>, a: NodeId, b: NodeId, k: NodeId)
    requires |nodes| <= 2 && a in nodes && b in nodes && k in nodes && a != b
    ensures k == a || k == b
  {
    if k != a && k != b {
      assert |{a, b, k}| == 3;
      SubsetSize({a, b, k}, nodes.Keys);
      assert false;
    }
  }

  lemma VoteMoves(n: Node, args: VoteArgs)
    requires n.id != NOBODY && args.candidateId != n.id && (n.role != Follower ==> n.votedFor == n.id)
    ensures var (m, reply) := HandleVote(n, args);
            && MovesQuietly(n, m)
            && (m.role == Follower && m.currentTerm > n.currentTerm ==> m.currentTerm == args.term)
            && (m.role == Follower && m.currentTerm == n.currentTerm ==> n.role == Follower)
            && (reply.granted ==> Yielded(m, args.term)) && m.rounds == n.rounds
  {
  }

  lemma AnswerVoteKeepsPairs(s: System, m: Msg)
    requires PairInv(s) && |s.nodes| <= 2 && Enabled(s, AnswerVote(m))
    ensures PairInv(Apply(s, AnswerVote(m)))
  {
    hide Paired, RoundYielded, Yielded, Led, HandleVote, MovesQuietly, Moves;
    var v, c := m.to, m.vargs.candidateId;
    var n := s.nodes[v];
    var (node, reply) := HandleVote(n, m.vargs);
    assert Honest(s.nodes, m);
    VoteMoves(n, m.vargs);
    forall k | k in s.nodes && k != v
      ensures k == c
    {
      OnlyTwo(s.nodes, v, c, k);
    }
    MovedRounds(s.nodes, v, node, c);
    QuietKeepsPairs(s, v, node, {VoteResp(m.round, v, m.vargs, reply)}, Apply(s, AnswerVote(m)));
  }

  lemma MovedRounds(nodes: map<NodeId, Node>, n: NodeId, m: Node, c: NodeId)
    requires n in nodes && c in nodes && MovesQuietly(nodes[n], m)
    ensures var after := nodes[n := m];
            |after[c].rounds| >= |nodes[c].rounds|
            && forall r :: 0 <= r < |nodes[c].rounds| ==> after[c].rounds[r].term == nodes[c].rounds[r].term
  {
  }

  lemma AppendMoves(n: Node, args: AppendArgs)
    requires ValidEntries(args.entries)
    ensures var (m, reply) := HandleAppend(n, args);
            && m.rounds == n.rounds && reply.term == n.currentTerm && m.currentTerm >= n.currentTerm
            && (m.role == Follower && m.currentTerm > n.currentTerm ==> m.currentTerm == args.term)
            && (m.role == Follower && m.currentTerm == n.currentTerm && n.role == Candidate ==>
                  args.term == n.currentTerm)
            && MovesQuietly(n, m)
  {
  }

  lemma AnswerAppendKeepsPairs(s: System, m: Msg)
    requires PairInv(s) && |s.nodes| <= 2 && Enabled(s, AnswerAppend(m))
    ensures PairInv(Apply(s, AnswerAppend(m)))
  {
    hide RoundYielded, Yielded, HandleAppend;
    var v, l := m.to, m.aargs.leaderId;
    var n := s.nodes[v];
    var (node, reply) := HandleAppend(n, m.aargs);
    assert Named(s.elections, m);
    AppendMoves(n, m.aargs);
    var e :| e in s.elections && e.term == m.aargs.term && e.leader == l;
    assert Led(s.nodes, e);
    assert Paired(s.nodes[l], n);
    forall k | k in s.nodes && k != v
      ensures k == l
    {
      OnlyTwo(s.nodes, v, l, k);
    }
    QuietKeepsPairs(s, v, node, {AppendResp(v, m.aargs, reply)}, Apply(s, AnswerAppend(m)));
  }

  lemma ReplyMoves(n: Node, p: NodeId, entries: Log, reply: AppendReply)
    ensures var m := HandleAppendReply(n, p, entries, reply);
            && m.rounds == n.rounds && MovesQuietly(n, m)
            && (m.role == Follower && m.currentTerm > n.currentTerm ==> m.currentTerm == reply.term)
            && (m.currentTerm == n.currentTerm ==> m.role == n.role)
  {
  }

  lemma AppendRepliedKeepsPairs(s: System, m: Msg)
    requires PairInv(s) && |s.nodes| <= 2 && Enabled(s, AppendReplied(m))
    ensures PairInv(Apply(s, AppendReplied(m)))
  {
    hide RoundYielded, Yielded, HandleAppendReply, Moves, MovesQuietly, Paired, Led;
    var l := m.aargs.leaderId;
    var n := s.nodes[l];
    var node := HandleAppendReply(n, m.from, m.aargs.entries, m.areply);
    assert Honest(s.nodes, m);
    ReplyMoves(n, m.from, m.aargs.entries, m.areply);
    forall k | k in s.nodes && k != l
      ensures k == m.from
    {
      OnlyTwo(s.nodes, l, m.from, k);
    }
    QuietKeepsPairs(s, l, node, {}, Apply(s, AppendReplied(m)));
  }

  lemma OwnStepKeepsPairs(s: System, step: Step)
    requires PairInv(s) && Enabled(s, step)
    requires step.Timeout? || step.StartElection? || step.AskVote? || step.SendAppend? || step.Propose?
    ensures PairInv(Apply(s, step))
  {
    hide RoundYielded, Yielded, Paired, Led, OneElection, FirstYielded, LeadersPass, AllPaired, RoundsYielded;
    var t := Apply(s, step);
    assert s.nodes[step.n := s.nodes[step.n]] == s.nodes;
    match step
    case Timeout(n) => QuietKeepsPairs(s, n, BecomeCandidate(s.nodes[n]), {}, t);
    case StartElection(n) => QuietKeepsPairs(s, n, OpenRound(s.nodes[n]), {}, t);
    case AskVote(n, r, p) => QuietKeepsPairs(s, n, s.nodes[n], {VoteReq(r, p, VoteArgsOf(s.nodes[n]))}, t);
    case SendAppend(n, p) =>
      assert HasElection(s.elections, s.nodes[n].currentTerm, n);
      QuietKeepsPairs(s, n, s.nodes[n], {AppendReq(p, AppendArgsOf(s.nodes[n], p))}, t);
    case Propose(n, command, now) => QuietKeepsPairs(s, n, ProposeEntry(s.nodes[n], command, now), {}, t);
  }

  // ----- Counting ---------------------------------------------------------------------------------

  lemma CountedKeepsPairs(s: System, m: Msg, t: System)
    requires PairInv(s) && Enabled(s, CountReply(m))
    requires var c := m.vargs.candidateId; t == s.(nodes := s.nodes[c := Counted(s.nodes[c], m.round, m.from)])
    ensures PairInv(t)
  {
    hide Paired, Yielded, Led, Honest, RoundYielded, Named;
    var c := m.vargs.candidateId;
    var n := Counted(s.nodes[c], m.round, m.from);
    assert t.nodes.Keys == s.nodes.Keys;
    CountedMoves(s.nodes[c], m.round, m.from);
    MovesKeepPairs(s.nodes, c, n);
    MovesKeepLed(s.nodes, c, n, s.elections);
    MovesKeepMsgs(s.nodes, c, n, s.msgs);
    MovesKeepFirst(s.nodes, c, n, s.elections);
    forall k, r | k in t.nodes && 0 <= r < |t.nodes[k].rounds|
      ensures t.nodes[k].rounds[r].term <= t.nodes[k].currentTerm && RoundYielded(t.nodes, k, t.nodes[k].rounds[r])
    {
      MovesKeepRound(s.nodes, c, n, k, s.nodes[k].rounds[r]);
      if k == c && r == m.round {
        OneMoreYielded(s, m, t.nodes);
      }
    }
    forall k | k in t.nodes && t.nodes[k].role == Leader
      ensures HasElection(t.elections, t.nodes[k].currentTerm, k)
    {
      assert HasElection(s.elections, s.nodes[k].currentTerm, k);
    }
  }

  lemma CountedMoves(n: Node, r: nat, from: NodeId)
    requires r < |n.rounds|
    ensures Moves(n, Counted(n, r, from)) && Counted(n, r, from).role == n.role
    ensures Counted(n, r, from).currentTerm == n.currentTerm && Counted(n, r, from).votedFor == n.votedFor
  {
  }

  lemma OneMoreYielded(s: System, m: Msg, nodes: map<NodeId, Node>)
    requires PairInv(s) && Enabled(s, CountReply(m))
    requires nodes == s.nodes[m.vargs.candidateId := Counted(s.nodes[m.vargs.candidateId], m.round, m.from)]
    requires RoundYielded(nodes, m.vargs.candidateId, s.nodes[m.vargs.candidateId].rounds[m.round])
    ensures RoundYielded(nodes, m.vargs.candidateId, nodes[m.vargs.candidateId].rounds[m.round])
  {
    assert Honest(s.nodes, m);
  }

  /** Of two nodes, both are needed. */
  lemma BothVoted(nodes: map<NodeId, Node>, c: NodeId, votes: set<NodeId>)
    requires |nodes| <= 2 && Cluster(nodes) && c in nodes && votes <= nodes.Keys
    requires |votes| > (|nodes[c].peers| + 1) / 2
    ensures forall k :: k in nodes ==> k in votes
  {
    assert nodes.Keys == nodes[c].peers + {c};
    if votes != nodes.Keys {
      var k :| k in nodes.Keys && k !in votes;
      assert |nodes.Keys - {k}| == |nodes.Keys| - 1;
      SubsetSize(votes, nodes.Keys - {k});
    }
  }

  /** Nobody won this term before. */
  lemma NoOtherWin(s: System, c: NodeId, e: Election)
    requires PairInv(s) && c in s.nodes && s.nodes[c].role == Candidate && e in s.elections
    ensures e.term != s.nodes[c].currentTerm
  {
    assert Led(s.nodes, e);
    if e.leader != c {
      assert Paired(s.nodes[e.leader], s.nodes[c]);
      if e.term <= 1 {
        assert Yielded(s.nodes[c], e.term);
      }
    }
  }

  /** The candidate, its round and the record of its win. */
  ghost predicate WinsPair(s: System, t: System, c: NodeId, e: Election, r: nat) {
    && c in s.nodes && s.nodes[c].role == Candidate && r < |s.nodes[c].rounds|
    && |s.nodes[c].rounds[r].votes| > (|s.nodes[c].peers| + 1) / 2
    && e.term == s.nodes[c].currentTerm && e.leader == c
    && t.nodes == s.nodes[c := BecomeLeader(s.nodes[c])] && t.elections == s.elections + {e} && t.msgs == s.msgs
  }

  lemma WinKeepsElections(s: System, t: System, c: NodeId, e: Election, r: nat)
    requires PairInv(s) && |s.nodes| <= 2 && WinsPair(s, t, c, e, r)
    ensures LeaderInv(t) && LeadersPass(t.nodes, t.elections) && FirstYielded(t.nodes, t.elections)
  {
    hide Paired, Led, Honest, RoundYielded, Yielded, Named, AllPaired, RoundsYielded, AllHonest, AppendsNamed;
    var m := BecomeLeader(s.nodes[c]);
    assert t.nodes.Keys == s.nodes.Keys;
    MovesKeepLed(s.nodes, c, m, s.elections);
    MovesKeepFirst(s.nodes, c, m, s.elections);
    WinKeepsFirst(s, c, e, r, t.nodes);
    forall f | f in s.elections
      ensures f.term != e.term
    {
      NoOtherWin(s, c, f);
    }
    assert Led(t.nodes, e) by { WinnerIsLed(t.nodes, e, m); }
    forall k | k in t.nodes && t.nodes[k].role == Leader
      ensures HasElection(t.elections, t.nodes[k].currentTerm, k)
    {
      assert k != c ==> HasElection(s.elections, s.nodes[k].currentTerm, k);
      assert k == c ==> e in t.elections;
    }
  }

  lemma WinKeepsPairs(s: System, t: System, c: NodeId, e: Election, r: nat)
    requires PairInv(s) && |s.nodes| <= 2 && WinsPair(s, t, c, e, r)
    ensures PairInv(t)
  {
    hide Paired, Led, Honest, RoundYielded, Yielded, LeadersElected, OneElection, LeadersPass, FirstYielded, Named;
    var m := BecomeLeader(s.nodes[c]);
    WinKeepsElections(s, t, c, e, r);
    MovesKeepPairs(s.nodes, c, m);
    MovesKeepMsgs(s.nodes, c, m, s.msgs);
    QuietRounds(s.nodes, c, m);
    NamesStay(s.elections, t.elections, s.msgs);
  }

  lemma NamesStay(elections: set<Election>, more: set<Election>, msgs: set<Msg>)
    requires AppendsNamed(elections, msgs) && elections <= more
    ensures AppendsNamed(more, msgs)
  {
    forall m | m in msgs
      ensures Named(more, m)
    {
      assert Named(elections, m);
    }
  }

  lemma WinnerIsLed(nodes: map<NodeId, Node>, e: Election, m: Node)
    requires e.leader in nodes && nodes[e.leader] == m && m.role == Leader && m.currentTerm == e.term
    ensures Led(nodes, e)
  {
  }

  lemma QuietRounds(nodes: map<NodeId, Node>, c: NodeId, m: Node)
    requires c in nodes && Moves(nodes[c], m) && m.rounds == nodes[c].rounds && RoundsYielded(nodes)
    ensures RoundsYielded(nodes[c := m])
  {
    var after := nodes[c := m];
    assert after.Keys == nodes.Keys;
    forall k, r | k in after && 0 <= r < |after[k].rounds|
      ensures after[k].rounds[r].term <= after[k].currentTerm && RoundYielded(after, k, after[k].rounds[r])
    {
      MovesKeepRound(nodes, c, m, k, nodes[k].rounds[r]);
    }
  }

  lemma WinKeepsFirst(s: System, c: NodeId, e: Election, r: nat, nodes: map<NodeId, Node>)
    requires PairInv(s) && |s.nodes| <= 2 && c in s.nodes && r < |s.nodes[c].rounds|
    requires |s.nodes[c].rounds[r].votes| > (|s.nodes[c].peers| + 1) / 2
    requires e.term == s.nodes[c].currentTerm && e.leader == c && nodes == s.nodes[c := BecomeLeader(s.nodes[c])]
    ensures forall k :: k in nodes && k != c && e.term <= 1 ==> Yielded(nodes[k], e.term)
  {
    var round := s.nodes[c].rounds[r];
    assert RoundYielded(s.nodes, c, round);
    BothVoted(s.nodes, c, round.votes);
  }

  lemma CountKeepsPairs(s: System, m: Msg)
    requires PairInv(s) && |s.nodes| <= 2 && Enabled(s, CountReply(m))
    ensures PairInv(Apply(s, CountReply(m)))
  {
    hide PairInv;
    var t := Apply(s, CountReply(m));
    var c := m.vargs.candidateId;
    var counted := Counted(s.nodes[c], m.round, m.from);
    var mid := s.(nodes := s.nodes[c := counted]);
    CountedKeepsPairs(s, m, mid);
    assert mid.nodes.Keys == s.nodes.Keys;
    assert |mid.nodes| == |mid.nodes.Keys| == |s.nodes|;
    if |counted.rounds[m.round].votes| > (|counted.peers| + 1) / 2 && counted.role == Candidate {
      var e := Election(counted.currentTerm, c, counted.log, counted.rounds[m.round].votes);
      assert t.nodes == mid.nodes[c := BecomeLeader(counted)];
      WinKeepsPairs(mid, t, c, e, m.round);
    } else {
      PairsLookAt(mid, t);
    }
  }

  lemma PairsLookAt(s: System, t: System)
    requires PairInv(s) && t.nodes == s.nodes && t.elections == s.elections && t.msgs == s.msgs
    ensures PairInv(t)
  {
  }

  lemma StepKeepsPairs(s: System, step: Step)
    requires PairInv(s) && |s.nodes| <= 2 && Enabled(s, step)
    ensures PairInv(Apply(s, step)) && |Apply(s, step).nodes| == |s.nodes|
  {
    hide PairInv;
    match step
    case AnswerVote(m) => AnswerVoteKeepsPairs(s, m);
    case CountReply(m) => CountKeepsPairs(s, m);
    case AnswerAppend(m) => AnswerAppendKeepsPairs(s, m);
    case AppendReplied(m) => AppendRepliedKeepsPairs(s, m);
    case _ => OwnStepKeepsPairs(s, step);
    StepKeepsKeys(s, step);
  }

  lemma StepKeepsKeys(s: System, step: Step)
    requires Enabled(s, step)
    ensures Apply(s, step).nodes.Keys == s.nodes.Keys && |Apply(s, step).nodes| == |s.nodes|
  {
    hide HandleVote, HandleAppend, HandleAppendReply, CountVote, ProposeEntry;
    assert Apply(s, step).nodes.Keys == s.nodes.Keys;
    assert |Apply(s, step).nodes| == |Apply(s, step).nodes.Keys| && |s.nodes| == |s.nodes.Keys|;
  }

  lemma InitHasPairInv(s: System)
    requires Init(s)
    ensures PairInv(s)
  {
  }

  // ----- Votes ---------------------------------------------------------------------------------------

  /** A candidate never hears of another leader of its term. */
  lemma NobodyForgets(s: System, m: Msg)
    requires PairInv(s) && Enabled(s, AnswerAppend(m)) && s.nodes[m.to].role == Candidate
    ensures m.aargs.term != s.nodes[m.to].currentTerm
  {
    assert Named(s.elections, m);
    var e :| e in s.elections && e.term == m.aargs.term && e.leader == m.aargs.leaderId;
    assert Led(s.nodes, e) && Paired(s.nodes[e.leader], s.nodes[m.to]);
    assert e.term <= 1 ==> Yielded(s.nodes[m.to], e.term);
  }

  /** A node gives its vote to another in terms in which it opened no round. */
  ghost predicate VotesOnce(nodes: map<NodeId, Node>, grants: set<Grant>) {
    && (forall g :: g in grants ==> g.voter in nodes && Yielded(nodes[g.voter], g.term))
    && (forall n, r :: n in nodes && 0 <= r < |nodes[n].rounds| && nodes[n].rounds[r].term == nodes[n].currentTerm ==>
          nodes[n].role != Follower)
    && (forall g, r :: g in grants && g.voter in nodes && 0 <= r < |nodes[g.voter].rounds| ==>
          nodes[g.voter].rounds[r].term != g.term)
  }

  /** Once it has stood in a term, the node stands or leads as long as the term lasts. */
  ghost predicate StaysUp(n: Node, m: Node) {
    && Moves(n, m) && (m.role == Follower && m.currentTerm == n.currentTerm ==> n.role == Follower)
    && (forall r :: |n.rounds| <= r < |m.rounds| ==>
          m.rounds[r].term == m.currentTerm == n.currentTerm && n.role != Follower && m.role != Follower)
  }

  lemma StayingUpKeepsVotes(nodes: map<NodeId, Node>, grants: set<Grant>, n: NodeId, m: Node)
    requires VotesOnce(nodes, grants) && RoundsYielded(nodes) && n in nodes && StaysUp(nodes[n], m)
    ensures VotesOnce(nodes[n := m], grants)
  {
    var after := nodes[n := m];
    forall g | g in grants
      ensures Yielded(after[g.voter], g.term)
      ensures forall r :: 0 <= r < |after[g.voter].rounds| ==> after[g.voter].rounds[r].term != g.term
    {
      assert Yielded(nodes[g.voter], g.term);
    }
  }

  lemma VoteStaysUp(n: Node, args: VoteArgs)
    requires n.id != NOBODY && args.candidateId != n.id && (n.role != Follower ==> n.votedFor == n.id)
    ensures StaysUp(n, HandleVote(n, args).0)
  {
    hide HandleVote;
    VoteMoves(n, args);
  }

  lemma AppendStaysUp(n: Node, args: AppendArgs)
    requires ValidEntries(args.entries) && (n.role == Candidate ==> args.term != n.currentTerm)
    ensures StaysUp(n, HandleAppend(n, args).0)
  {
    hide HandleAppend;
    AppendMoves(n, args);
  }

  lemma OthersStayUp(n: Node, entries: Log, p: NodeId, reply: AppendReply, r: nat, command: string, now: int)
    ensures StaysUp(n, HandleAppendReply(n, p, entries, reply)) && StaysUp(n, ProposeEntry(n, command, now))
    ensures n.role == Follower ==> StaysUp(n, BecomeCandidate(n))
    ensures n.role == Candidate ==> StaysUp(n, OpenRound(n))
    ensures r < |n.rounds| ==> StaysUp(n, CountVote(n, r, p))
  {
  }

  lemma GrantKeepsVotes(s: System, m: Msg)
    requires PairInv(s) && VotesOnce(s.nodes, s.grants) && Enabled(s, AnswerVote(m))
    ensures VotesOnce(Apply(s, AnswerVote(m)).nodes, Apply(s, AnswerVote(m)).grants)
  {
    hide HandleVote, StaysUp;
    var n := s.nodes[m.to];
    var (node, reply) := HandleVote(n, m.vargs);
    assert Honest(s.nodes, m);
    VoteStaysUp(n, m.vargs);
    StayingUpKeepsVotes(s.nodes, s.grants, m.to, node);
    VoteMoves(n, m.vargs);
    GrantIsLate(n, m.vargs);
    assert forall r :: 0 <= r < |n.rounds| ==> n.rounds[r].term <= n.currentTerm;
  }

  lemma GrantIsLate(n: Node, args: VoteArgs)
    ensures var (m, reply) := HandleVote(n, args);
            reply.granted ==> n.currentTerm <= m.currentTerm == args.term
  {
  }

  lemma StepKeepsVotes(s: System, step: Step)
    requires PairInv(s) && VotesOnce(s.nodes, s.grants) && Enabled(s, step)
    ensures VotesOnce(Apply(s, step).nodes, Apply(s, step).grants)
  {
    hide StaysUp, VotesOnce, HandleVote, HandleAppend, HandleAppendReply, CountVote, ProposeEntry;
    hide BecomeCandidate, OpenRound, AllPaired, AllHonest, FirstYielded, LeadersPass;
    var no := AppendReply(0, false);
    match step
    case AnswerVote(m) => GrantKeepsVotes(s, m);
    case AnswerAppend(m) =>
      if s.nodes[m.to].role == Candidate {
        NobodyForgets(s, m);
      }
      AppendStaysUp(s.nodes[m.to], m.aargs);
      StayingUpKeepsVotes(s.nodes, s.grants, m.to, HandleAppend(s.nodes[m.to], m.aargs).0);
    case AppendReplied(m) =>
      var l := m.aargs.leaderId;
      OthersStayUp(s.nodes[l], m.aargs.entries, m.from, m.areply, 0, "", 0);
      StayingUpKeepsVotes(s.nodes, s.grants, l, HandleAppendReply(s.nodes[l], m.from, m.aargs.entries, m.areply));
    case CountReply(m) =>
      var c := m.vargs.candidateId;
      OthersStayUp(s.nodes[c], [], m.from, no, m.round, "", 0);
      StayingUpKeepsVotes(s.nodes, s.grants, c, CountVote(s.nodes[c], m.round, m.from));
    case Timeout(n) =>
      OthersStayUp(s.nodes[n], [], "", no, 0, "", 0);
      StayingUpKeepsVotes(s.nodes, s.grants, n, BecomeCandidate(s.nodes[n]));
    case StartElection(n) =>
      OthersStayUp(s.nodes[n], [], "", no, 0, "", 0);
      StayingUpKeepsVotes(s.nodes, s.grants, n, OpenRound(s.nodes[n]));
    case Propose(n, command, now) =>
      OthersStayUp(s.nodes[n], [], "", no, 0, command, now);
      StayingUpKeepsVotes(s.nodes, s.grants, n, ProposeEntry(s.nodes[n], command, now));
    case _ =>
  }
}
