/**
 * Election Safety. A same-term AppendEntries makes a candidate forget its own vote,
 * and then it may vote a second time in the term (RaftVotes.dfy). What stays
 * true: a vote given to somebody else is locked, and a node's own vote counts only
 * while it is still a candidate or a leader of that term.
 */
module RaftElection {
  import opened RaftNode
  import opened RaftSystem

  ghost predicate HasGrant(grants: set<Grant>, term: int, voter: NodeId, cand: NodeId) {
    exists g :: g in grants && g.term == term && g.voter == voter && g.cand == cand
  }

  /** The vote given in `g` is still locked, or its term is over. */
  ghost predicate Locked(nodes: map<NodeId, Node>, g: Grant) {
    && g.voter in nodes && g.cand in nodes && g.voter != g.cand
    && g.term <= nodes[g.voter].currentTerm
    && (g.term == nodes[g.voter].currentTerm ==>
          nodes[g.voter].votedFor == g.cand && nodes[g.voter].role == Follower)
  }

  ghost predicate VotesLocked(nodes: map<NodeId, Node>, grants: set<Grant>) {
    forall g :: g in grants ==> Locked(nodes, g)
  }

  ghost predicate OneGrant(grants: set<Grant>) {
    forall g, h :: g in grants && h in grants && g.term == h.term && g.voter == h.voter ==> g.cand == h.cand
  }

  ghost predicate SelfVotes(nodes: map<NodeId, Node>) {
    forall n :: n in nodes && nodes[n].role != Follower ==> nodes[n].votedFor == n
  }

  ghost predicate Backed(all: set<NodeId>, grants: set<Grant>, term: int, cand: NodeId, votes: set<NodeId>) {
    forall v :: v in votes ==> v in all && (v == cand || HasGrant(grants, term, v, cand))
  }

  ghost predicate RoundsBacked(nodes: map<NodeId, Node>, grants: set<Grant>) {
    forall n, r :: n in nodes && 0 <= r < |nodes[n].rounds| ==>
      && nodes[n].rounds[r].term <= nodes[n].currentTerm
      && n in nodes[n].rounds[r].votes
      && Backed(nodes.Keys, grants, nodes[n].rounds[r].term, n, nodes[n].rounds[r].votes)
  }

  ghost predicate Won(nodes: map<NodeId, Node>, grants: set<Grant>, e: Election) {
    && e.leader in nodes && e.leader in e.voters
    && IsMajority(e.voters, nodes.Keys)
    && Backed(nodes.Keys, grants, e.term, e.leader, e.voters)
    && (forall g :: g in grants ==> !(g.term == e.term && g.voter == e.leader))
    && e.term <= nodes[e.leader].currentTerm
    && (e.term == nodes[e.leader].currentTerm ==> nodes[e.leader].role == Leader)
  }

  ghost predicate ElectionsWon(nodes: map<NodeId, Node>, grants: set<Grant>, elections: set<Election>) {
    forall e :: e in elections ==> Won(nodes, grants, e)
  }

  ghost predicate HasElection(elections: set<Election>, term: int, leader: NodeId) {
    exists e :: e in elections && e.term == term && e.leader == leader
  }

  ghost predicate LeadersElected(nodes: map<NodeId, Node>, elections: set<Election>) {
    forall n :: n in nodes && nodes[n].role == Leader ==> HasElection(elections, nodes[n].currentTerm, n)
  }

  ghost predicate OneElection(elections: set<Election>) {
    forall e, f :: e in elections && f in elections && e.term == f.term ==> e == f
  }

  /** A vote message names its round, and the round is of the message's term. */
  ghost predicate RoundOf(nodes: map<NodeId, Node>, round: nat, args: VoteArgs) {
    && args.candidateId in nodes
    && round < |nodes[args.candidateId].rounds|
    && nodes[args.candidateId].rounds[round].term == args.term
  }

  ghost predicate VoteMsgOk(nodes: map<NodeId, Node>, grants: set<Grant>, m: Msg) {
    match m
    case VoteReq(round, to, args) => RoundOf(nodes, round, args) && to != args.candidateId && to in nodes
    case VoteResp(round, from, args, reply) =>
      RoundOf(nodes, round, args) && from in nodes
      && (reply.granted ==> HasGrant(grants, args.term, from, args.candidateId))
    case _ => true
  }

  ghost predicate VoteMsgs(nodes: map<NodeId, Node>, grants: set<Grant>, msgs: set<Msg>) {
    forall m :: m in msgs ==> VoteMsgOk(nodes, grants, m)
  }

  ghost predicate ElectionInv(s: System) {
    && Cluster(s.nodes)
    && VotesLocked(s.nodes, s.grants)
    && OneGrant(s.grants)
    && SelfVotes(s.nodes)
    && RoundsBacked(s.nodes, s.grants)
    && ElectionsWon(s.nodes, s.grants, s.elections)
    && LeadersElected(s.nodes, s.elections)
    && OneElection(s.elections)
    && VoteMsgs(s.nodes, s.grants, s.msgs)
  }

  /** What a win makes of the winner: it has seen the term, and leads as long as the term lasts. */
  ghost predicate Led(nodes: map<NodeId, Node>, e: Election) {
    && e.leader in nodes && e.term <= nodes[e.leader].currentTerm
    && (e.term == nodes[e.leader].currentTerm ==> nodes[e.leader].role == Leader)
  }

  /** One leader a term, on whatever votes. */
  ghost predicate LeaderInv(s: System) {
    && Cluster(s.nodes)
    && (forall e :: e in s.elections ==> Led(s.nodes, e))
    && LeadersElected(s.nodes, s.elections)
    && OneElection(s.elections)
  }

  lemma WonIsLed(s: System)
    requires ElectionInv(s)
    ensures LeaderInv(s)
  {
    forall e | e in s.elections
      ensures Led(s.nodes, e)
    {
      assert Won(s.nodes, s.grants, e);
    }
  }

  // ----- Steps that leave the votes alone --------------------------------------

  /** What every step but the granting of a vote and the counting of one does to its node. */
  ghost predicate QuietChange(n: Node, m: Node) {
    && m.id == n.id && m.peers == n.peers
    && |n.rounds| <= |m.rounds| && m.rounds[..|n.rounds|] == n.rounds
    && (forall r :: |n.rounds| <= r < |m.rounds| ==> m.rounds[r] == Round(m.currentTerm, {m.id}))
    && n.currentTerm <= m.currentTerm
    && (m.currentTerm == n.currentTerm ==>
          (m.role == n.role && m.votedFor == n.votedFor) || (n.role == Candidate && m.role == Follower))
    && (m.currentTerm > n.currentTerm ==>
          m.role == Follower || (m.role == Candidate && m.votedFor == m.id))
  }

  lemma QuietKeepsRounds(nodes: map<NodeId, Node>, grants: set<Grant>, n: NodeId, m: Node)
    requires Cluster(nodes) && n in nodes && QuietChange(nodes[n], m)
    requires RoundsBacked(nodes, grants)
    ensures RoundsBacked(nodes[n := m], grants)
  {
    var after := nodes[n := m];
    assert after.Keys == nodes.Keys;
    forall k, r | k in after && 0 <= r < |after[k].rounds|
      ensures after[k].rounds[r].term <= after[k].currentTerm
              && k in after[k].rounds[r].votes
              && Backed(after.Keys, grants, after[k].rounds[r].term, k, after[k].rounds[r].votes)
    {
      if k == n && r < |nodes[n].rounds| {
        assert m.rounds[r] == m.rounds[..|nodes[n].rounds|][r] == nodes[n].rounds[r];
      }
    }
  }

  lemma QuietKeepsMsgs(nodes: map<NodeId, Node>, grants: set<Grant>, msgs: set<Msg>, n: NodeId, m: Node)
    requires n in nodes && QuietChange(nodes[n], m)
    requires VoteMsgs(nodes, grants, msgs)
    ensures VoteMsgs(nodes[n := m], grants, msgs)
  {
    forall x | x in msgs
      ensures VoteMsgOk(nodes[n := m], grants, x)
    {
      assert VoteMsgOk(nodes, grants, x);
      if x.VoteReq? || x.VoteResp? {
        var r, c := x.round, x.vargs.candidateId;
        if c == n {
          assert m.rounds[r] == m.rounds[..|nodes[n].rounds|][r] == nodes[n].rounds[r];
        }
      }
    }
  }

  lemma QuietKeeps(s: System, n: NodeId, m: Node, out: set<Msg>, t: System)
    requires ElectionInv(s) && n in s.nodes && QuietChange(s.nodes[n], m)
    requires t.nodes == s.nodes[n := m] && t.msgs == s.msgs + out
    requires t.grants == s.grants && t.elections == s.elections
    requires forall x :: x in out ==> VoteMsgOk(t.nodes, t.grants, x)
    ensures ElectionInv(t)
  {
    assert t.nodes.Keys == s.nodes.Keys;
    QuietKeepsRounds(s.nodes, s.grants, n, m);
    QuietKeepsMsgs(s.nodes, s.grants, s.msgs, n, m);
    forall g | g in s.grants
      ensures Locked(t.nodes, g)
    {
      assert Locked(s.nodes, g);
    }
    forall e | e in s.elections
      ensures Won(t.nodes, t.grants, e)
    {
      assert Won(s.nodes, s.grants, e);
    }
  }

  // ----- Granting a vote --------------------------------------------------------

  lemma MoreGrantsBack(all: set<NodeId>, grants: set<Grant>, more: set<Grant>, term: int, cand: NodeId,
                       votes: set<NodeId>)
    requires Backed(all, grants, term, cand, votes) && grants <= more
    ensures Backed(all, more, term, cand, votes)
  {
    forall v | v in votes && v != cand
      ensures HasGrant(more, term, v, cand)
    {
      assert HasGrant(grants, term, v, cand);
    }
  }

  /** The node `v`, in the term of `g` and free to vote, gives the vote `g`. */
  ghost predicate MayGrant(nodes: map<NodeId, Node>, g: Grant) {
    && g.voter in nodes && g.cand in nodes && g.voter != g.cand
    && nodes[g.voter].currentTerm == g.term
    && (nodes[g.voter].votedFor == NOBODY || nodes[g.voter].votedFor == g.cand)
    && nodes[g.voter].role == Follower
  }

  function Granted(nodes: map<NodeId, Node>, g: Grant): map<NodeId, Node>
    requires g.voter in nodes
  {
    nodes[g.voter := nodes[g.voter].(votedFor := g.cand)]
  }

  /** Only a follower grants: a candidate and a leader have voted for themselves. */
  lemma OnlyFollowersGrant(nodes: map<NodeId, Node>, v: NodeId, cand: NodeId)
    requires Cluster(nodes) && SelfVotes(nodes) && v in nodes && v != cand
    requires nodes[v].votedFor == NOBODY || nodes[v].votedFor == cand
    ensures nodes[v].role == Follower
  {
  }

  lemma GrantLocks(nodes: map<NodeId, Node>, grants: set<Grant>, g: Grant)
    requires NOBODY !in nodes && MayGrant(nodes, g) && VotesLocked(nodes, grants) && OneGrant(grants)
    ensures VotesLocked(Granted(nodes, g), grants + {g}) && OneGrant(grants + {g})
  {
    forall h | h in grants
      ensures Locked(Granted(nodes, g), h)
      ensures h.term == g.term && h.voter == g.voter ==> h.cand == g.cand
    {
      assert Locked(nodes, h);
    }
  }

  lemma GrantKeepsRounds(nodes: map<NodeId, Node>, grants: set<Grant>, g: Grant)
    requires g.voter in nodes && RoundsBacked(nodes, grants)
    ensures RoundsBacked(Granted(nodes, g), grants + {g})
  {
    var after := Granted(nodes, g);
    assert after.Keys == nodes.Keys;
    forall n, r | n in after && 0 <= r < |after[n].rounds|
      ensures Backed(after.Keys, grants + {g}, after[n].rounds[r].term, n, after[n].rounds[r].votes)
    {
      MoreGrantsBack(after.Keys, grants, grants + {g}, nodes[n].rounds[r].term, n, nodes[n].rounds[r].votes);
    }
  }

  lemma GrantKeepsWon(nodes: map<NodeId, Node>, grants: set<Grant>, elections: set<Election>, g: Grant)
    requires MayGrant(nodes, g) && ElectionsWon(nodes, grants, elections)
    ensures ElectionsWon(Granted(nodes, g), grants + {g}, elections)
  {
    var after := Granted(nodes, g);
    assert after.Keys == nodes.Keys;
    forall e | e in elections
      ensures Won(after, grants + {g}, e)
    {
      assert Won(nodes, grants, e);
      MoreGrantsBack(nodes.Keys, grants, grants + {g}, e.term, e.leader, e.voters);
    }
  }

  lemma GrantKeepsMsgs(nodes: map<NodeId, Node>, grants: set<Grant>, msgs: set<Msg>, g: Grant)
    requires g.voter in nodes && VoteMsgs(nodes, grants, msgs)
    ensures VoteMsgs(Granted(nodes, g), grants + {g}, msgs)
  {
    forall x | x in msgs
      ensures VoteMsgOk(Granted(nodes, g), grants + {g}, x)
    {
      assert VoteMsgOk(nodes, grants, x);
      if x.VoteResp? && x.vreply.granted {
        assert HasGrant(grants, x.vargs.term, x.from, x.vargs.candidateId);
      }
    }
  }

  lemma GrantKeeps(s: System, g: Grant, resp: Msg, t: System)
    requires ElectionInv(s) && MayGrant(s.nodes, g)
    requires t.nodes == Granted(s.nodes, g) && t.grants == s.grants + {g}
    requires t.elections == s.elections && t.msgs == s.msgs + {resp}
    requires VoteMsgOk(t.nodes, t.grants, resp)
    ensures ElectionInv(t)
  {
    assert t.nodes.Keys == s.nodes.Keys;
    GrantLocks(s.nodes, s.grants, g);
    GrantKeepsRounds(s.nodes, s.grants, g);
    GrantKeepsWon(s.nodes, s.grants, s.elections, g);
    GrantKeepsMsgs(s.nodes, s.grants, s.msgs, g);
    assert LeadersElected(t.nodes, t.elections) by {
      forall n | n in t.nodes && t.nodes[n].role == Leader
        ensures HasElection(t.elections, t.nodes[n].currentTerm, n)
      {
        assert HasElection(s.elections, s.nodes[n].currentTerm, n);
      }
    }
  }

  lemma AnswerVoteKeeps(s: System, m: Msg)
    requires ElectionInv(s) && Enabled(s, AnswerVote(m))
    ensures ElectionInv(Apply(s, AnswerVote(m)))
  {
    var v, args := m.to, m.vargs;
    var t := Apply(s, AnswerVote(m));
    assert VoteMsgOk(s.nodes, s.grants, m);
    var (node, reply) := HandleVote(s.nodes[v], args);
    var resp := VoteResp(m.round, v, args, reply);
    if !reply.granted {
      VoteIsQuiet(s.nodes[v], args);
      assert VoteMsgOk(t.nodes, t.grants, resp);
      QuietKeeps(s, v, node, {resp}, t);
    } else {
      var heard := HearCandidate(s.nodes[v], args.term);
      VoteIsQuiet(s.nodes[v], args);
      var mid := s.(nodes := s.nodes[v := heard]);
      QuietKeeps(s, v, heard, {}, mid);
      OnlyFollowersGrant(mid.nodes, v, args.candidateId);
      var g := Grant(args.term, v, args.candidateId, args.lastLogIndex, args.lastLogTerm, s.nodes[v].log);
      GrantReaches(s, mid, m, g, t);
      GrantKeeps(mid, g, resp, t);
    }
  }

  /** The part of RequestVote before the vote is decided. */
  function HearCandidate(n: Node, term: int): Node {
    if term > n.currentTerm then StepDown(n, term) else n
  }

  lemma VoteIsQuiet(n: Node, args: VoteArgs)
    ensures QuietChange(n, HearCandidate(n, args.term))
    ensures var (m, reply) := HandleVote(n, args);
            if reply.granted
            then m == HearCandidate(n, args.term).(votedFor := args.candidateId) && m.currentTerm == args.term
                 && HearCandidate(n, args.term).votedFor in {NOBODY, args.candidateId}
            else QuietChange(n, m)
  {
  }

  lemma GrantReaches(s: System, mid: System, m: Msg, g: Grant, t: System)
    requires Enabled(s, AnswerVote(m)) && t == Apply(s, AnswerVote(m))
    requires HandleVote(s.nodes[m.to], m.vargs).1.granted && VoteMsgOk(s.nodes, s.grants, m)
    requires mid == s.(nodes := s.nodes[m.to := HearCandidate(s.nodes[m.to], m.vargs.term)])
    requires g == Grant(m.vargs.term, m.to, m.vargs.candidateId, m.vargs.lastLogIndex, m.vargs.lastLogTerm,
             s.nodes[m.to].log)
    ensures t.nodes == Granted(mid.nodes, g) && t.grants == mid.grants + {g}
    ensures t.elections == mid.elections
    ensures t.msgs == mid.msgs + {VoteResp(m.round, m.to, m.vargs, HandleVote(s.nodes[m.to], m.vargs).1)}
    ensures VoteMsgOk(t.nodes, t.grants, VoteResp(m.round, m.to, m.vargs, HandleVote(s.nodes[m.to], m.vargs).1))
  {
    assert HasGrant(t.grants, g.term, g.voter, g.cand);
  }

  // ----- Counting a vote --------------------------------------------------------

  /** The bookkeeping half of a counted vote, before the candidate may become leader. */
  function Counted(n: Node, r: nat, from: NodeId): Node
    requires r < |n.rounds|
  {
    n.(rounds := n.rounds[r := Round(n.rounds[r].term, n.rounds[r].votes + {from})])
  }

  lemma CountKeepsRounds(nodes: map<NodeId, Node>, grants: set<Grant>, c: NodeId, r: nat, from: NodeId)
    requires c in nodes && r < |nodes[c].rounds| && from in nodes
    requires HasGrant(grants, nodes[c].rounds[r].term, from, c)
    requires RoundsBacked(nodes, grants)
    ensures RoundsBacked(nodes[c := Counted(nodes[c], r, from)], grants)
  {
    var after := nodes[c := Counted(nodes[c], r, from)];
    assert after.Keys == nodes.Keys;
    forall n, k | n in after && 0 <= k < |after[n].rounds|
      ensures after[n].rounds[k].term <= after[n].currentTerm && n in after[n].rounds[k].votes
      ensures Backed(after.Keys, grants, after[n].rounds[k].term, n, after[n].rounds[k].votes)
    {
      assert Backed(nodes.Keys, grants, nodes[n].rounds[k].term, n, nodes[n].rounds[k].votes);
    }
  }

  lemma CountKeepsMsgs(nodes: map<NodeId, Node>, grants: set<Grant>, msgs: set<Msg>, c: NodeId, r: nat, from: NodeId)
    requires c in nodes && r < |nodes[c].rounds| && VoteMsgs(nodes, grants, msgs)
    ensures VoteMsgs(nodes[c := Counted(nodes[c], r, from)], grants, msgs)
  {
    forall x | x in msgs
      ensures VoteMsgOk(nodes[c := Counted(nodes[c], r, from)], grants, x)
    {
      assert VoteMsgOk(nodes, grants, x);
    }
  }

  lemma CountedKeeps(s: System, m: Msg, t: System)
    requires ElectionInv(s) && Enabled(s, CountReply(m))
    requires var c := m.vargs.candidateId;
             t == s.(nodes := s.nodes[c := Counted(s.nodes[c], m.round, m.from)])
    ensures ElectionInv(t)
  {
    var c := m.vargs.candidateId;
    assert VoteMsgOk(s.nodes, s.grants, m);
    CountKeepsRounds(s.nodes, s.grants, c, m.round, m.from);
    CountKeepsMsgs(s.nodes, s.grants, s.msgs, c, m.round, m.from);
    assert t.nodes.Keys == s.nodes.Keys;
    forall g | g in t.grants
      ensures Locked(t.nodes, g)
    {
      assert Locked(s.nodes, g);
    }
    forall f | f in s.elections
      ensures Won(t.nodes, t.grants, f)
    {
      assert Won(s.nodes, s.grants, f);
    }
  }

  /** The heart of Election Safety: a fresh majority excludes any earlier leader of the term. */
  lemma NoEarlierElection(nodes: map<NodeId, Node>, grants: set<Grant>, e: Election, c: NodeId, votes: set<NodeId>)
    requires VotesLocked(nodes, grants) && OneGrant(grants)
    requires Won(nodes, grants, e)
    requires c in nodes && nodes[c].role == Candidate
    requires c in votes && IsMajority(votes, nodes.Keys)
    requires Backed(nodes.Keys, grants, nodes[c].currentTerm, c, votes)
    ensures e.term != nodes[c].currentTerm
  {
    assert forall g :: g in grants && g.term == nodes[c].currentTerm ==> Locked(nodes, g) && g.voter != c;
    if e.term == nodes[c].currentTerm {
      var z := MajoritiesMeet(votes, e.voters, nodes.Keys);
    }
  }

  lemma NewLeaderWins(nodes: map<NodeId, Node>, grants: set<Grant>, elections: set<Election>, c: NodeId, e: Election)
    requires VotesLocked(nodes, grants) && OneGrant(grants) && ElectionsWon(nodes, grants, elections)
    requires c in nodes && nodes[c].role == Candidate
    requires c in e.voters && IsMajority(e.voters, nodes.Keys) && e.leader == c && e.term == nodes[c].currentTerm
    requires Backed(nodes.Keys, grants, e.term, c, e.voters)
    ensures ElectionsWon(nodes[c := BecomeLeader(nodes[c])], grants, elections + {e})
    ensures forall f :: f in elections ==> f.term != e.term
  {
    var after := nodes[c := BecomeLeader(nodes[c])];
    assert after.Keys == nodes.Keys;
    forall g | g in grants
      ensures !(g.term == e.term && g.voter == c)
    {
      assert Locked(nodes, g);
    }
    forall f | f in elections
      ensures Won(after, grants, f) && f.term != e.term
    {
      assert Won(nodes, grants, f);
      NoEarlierElection(nodes, grants, f, c, e.voters);
    }
  }

  lemma NewLeaderKeepsRounds(nodes: map<NodeId, Node>, grants: set<Grant>, msgs: set<Msg>, c: NodeId)
    requires c in nodes && RoundsBacked(nodes, grants) && VoteMsgs(nodes, grants, msgs)
    ensures RoundsBacked(nodes[c := BecomeLeader(nodes[c])], grants)
    ensures VoteMsgs(nodes[c := BecomeLeader(nodes[c])], grants, msgs)
  {
    var after := nodes[c := BecomeLeader(nodes[c])];
    assert after.Keys == nodes.Keys;
    forall x | x in msgs
      ensures VoteMsgOk(after, grants, x)
    {
      assert VoteMsgOk(nodes, grants, x);
    }
    forall n, r | n in after && 0 <= r < |after[n].rounds|
      ensures Backed(after.Keys, grants, after[n].rounds[r].term, n, after[n].rounds[r].votes)
    {
      assert Backed(nodes.Keys, grants, nodes[n].rounds[r].term, n, nodes[n].rounds[r].votes);
    }
  }

  /** A candidate that has counted a majority of votes of its own term becomes leader. */
  lemma LeaderKeeps(s: System, c: NodeId, e: Election, t: System)
    requires ElectionInv(s) && c in s.nodes && s.nodes[c].role == Candidate
    requires c in e.voters && IsMajority(e.voters, s.nodes.Keys) && e.leader == c && e.term == s.nodes[c].currentTerm
    requires Backed(s.nodes.Keys, s.grants, e.term, c, e.voters)
    requires t.nodes == s.nodes[c := BecomeLeader(s.nodes[c])] && t.elections == s.elections + {e}
    requires t.grants == s.grants && t.msgs == s.msgs
    ensures ElectionInv(t)
  {
    assert t.nodes.Keys == s.nodes.Keys;
    NewLeaderWins(s.nodes, s.grants, s.elections, c, e);
    NewLeaderKeepsRounds(s.nodes, s.grants, s.msgs, c);
    forall g | g in t.grants
      ensures Locked(t.nodes, g)
    {
      assert Locked(s.nodes, g);
    }
    forall n | n in t.nodes && t.nodes[n].role == Leader
      ensures HasElection(t.elections, t.nodes[n].currentTerm, n)
    {
      assert n != c ==> HasElection(s.elections, s.nodes[n].currentTerm, n);
    }
  }

  /** A fresh count that reaches the majority is a majority of votes of the current term. */
  lemma CountedMajority(mid: System, m: Msg)
    requires ElectionInv(mid) && m in mid.msgs && m.VoteResp?
    requires m.vargs.candidateId in mid.nodes && m.round < |mid.nodes[m.vargs.candidateId].rounds|
    requires m.vargs.term == mid.nodes[m.vargs.candidateId].currentTerm
    requires var n := mid.nodes[m.vargs.candidateId]; |n.rounds[m.round].votes| > (|n.peers| + 1) / 2
    ensures var c := m.vargs.candidateId; var votes := mid.nodes[c].rounds[m.round].votes;
            && c in votes && IsMajority(votes, mid.nodes.Keys)
            && Backed(mid.nodes.Keys, mid.grants, mid.nodes[c].currentTerm, c, votes)
  {
    var c := m.vargs.candidateId;
    assert VoteMsgOk(mid.nodes, mid.grants, m);
    var votes := mid.nodes[c].rounds[m.round].votes;
    assert Backed(mid.nodes.Keys, mid.grants, mid.nodes[c].rounds[m.round].term, c, votes);
    assert mid.nodes.Keys == mid.nodes[c].peers + {c};
    QuorumIsMajority(c, mid.nodes[c].peers, votes);
  }

  /** A deciding yes is one of the current term. RaftAge.dfy shows that an age of one is enough for that. */
  ghost predicate FreshVote(s: System, step: Step)
    requires Enabled(s, step)
  {
    match step
    case CountReply(m) => Decides(s, m) ==> m.vargs.term == s.nodes[m.vargs.candidateId].currentTerm
    case _ => true
  }

  lemma CountKeeps(s: System, m: Msg)
    requires ElectionInv(s) && Enabled(s, CountReply(m)) && FreshVote(s, CountReply(m))
    ensures ElectionInv(Apply(s, CountReply(m)))
  {
    hide Won, Locked, Backed, VoteMsgOk, ElectionInv, IsMajority;
    var t := Apply(s, CountReply(m));
    var c := m.vargs.candidateId;
    var counted := Counted(s.nodes[c], m.round, m.from);
    var mid := s.(nodes := s.nodes[c := counted]);
    CountedKeeps(s, m, mid);
    if |counted.rounds[m.round].votes| > (|counted.peers| + 1) / 2 && counted.role == Candidate {
      CountedMajority(mid, m);
      var e := Election(counted.currentTerm, c, counted.log, counted.rounds[m.round].votes);
      assert t.nodes == mid.nodes[c := BecomeLeader(counted)];
      LeaderKeeps(mid, c, e, t);
    } else {
      assert t == mid;
    }
  }

  // ----- Every step -------------------------------------------------------------

  lemma HandlersAreQuiet(n: Node, args: AppendArgs, p: NodeId, entries: Log, reply: AppendReply, command: string,
                         now: int)
    ensures QuietChange(n, OpenRound(n))
    ensures n.role == Follower ==> QuietChange(n, BecomeCandidate(n))
    ensures ValidEntries(args.entries) ==> QuietChange(n, HandleAppend(n, args).0)
    ensures QuietChange(n, HandleAppendReply(n, p, entries, reply))
    ensures QuietChange(n, ProposeEntry(n, command, now))
  {
  }

  lemma QuietStepKeeps(s: System, step: Step)
    requires ElectionInv(s) && Enabled(s, step)
    requires step.Timeout? || step.StartElection? || step.AnswerAppend? || step.AppendReplied? || step.Propose?
    ensures ElectionInv(Apply(s, step))
  {
    var t := Apply(s, step);
    match step
    case Timeout(n) => QuietKeeps(s, n, BecomeCandidate(s.nodes[n]), {}, t);
    case StartElection(n) => QuietKeeps(s, n, OpenRound(s.nodes[n]), {}, t);
    case AnswerAppend(m) =>
      var (node, reply) := HandleAppend(s.nodes[m.to], m.aargs);
      HandlersAreQuiet(s.nodes[m.to], m.aargs, "", [], reply, "", 0);
      QuietKeeps(s, m.to, node, {AppendResp(m.to, m.aargs, reply)}, t);
    case AppendReplied(m) =>
      var l := m.aargs.leaderId;
      HandlersAreQuiet(s.nodes[l], m.aargs, m.from, m.aargs.entries, m.areply, "", 0);
      QuietKeeps(s, l, HandleAppendReply(s.nodes[l], m.from, m.aargs.entries, m.areply), {}, t);
    case Propose(n, command, now) => QuietKeeps(s, n, ProposeEntry(s.nodes[n], command, now), {}, t);
  }

  lemma SendKeeps(s: System, step: Step)
    requires ElectionInv(s) && Enabled(s, step) && (step.AskVote? || step.SendAppend?)
    ensures ElectionInv(Apply(s, step))
  {
    var t := Apply(s, step);
    var out := if step.AskVote? then VoteReq(step.round, step.p, VoteArgsOf(s.nodes[step.n]))
               else AppendReq(step.p, AppendArgsOf(s.nodes[step.n], step.p));
    assert s.nodes[step.n := s.nodes[step.n]] == s.nodes;
    QuietKeeps(s, step.n, s.nodes[step.n], {out}, t);
  }

  lemma StepKeepsElection(s: System, step: Step)
    requires ElectionInv(s) && Enabled(s, step) && FreshVote(s, step)
    ensures ElectionInv(Apply(s, step))
  {
    match step
    case AskVote(_, _, _) => SendKeeps(s, step);
    case SendAppend(_, _) => SendKeeps(s, step);
    case AnswerVote(m) => AnswerVoteKeeps(s, m);
    case CountReply(m) => CountKeeps(s, m);
    case _ => QuietStepKeeps(s, step);
  }

  lemma InitHasElectionInv(s: System)
    requires Init(s)
    ensures ElectionInv(s)
  {
  }
}
