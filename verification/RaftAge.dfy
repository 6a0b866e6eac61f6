/**
 * How old a deciding reply may be. A candidate of term T + 1 that still has a round of
 * term T was deposed in T by a leader whose voters exclude it, so that round never
 * completes a majority; and a leader of T never leads T + 1. A reply that decides
 * something is therefore of the current term if it is at most one term old.
 */
module RaftAge {
  import opened RaftNode
  import opened RaftSystem
  import opened RaftElection

  /** Term `term` was won by another node, and the voters exclude `n`. */
  ghost predicate LostTo(elections: set<Election>, term: int, n: NodeId) {
    exists e :: e in elections && e.term == term && e.leader != n && n !in e.voters
  }

  /** The node opened a round of `term` as a candidate and did not stay one to the end of the term. */
  ghost predicate Deposed(n: Node, term: int) {
    if n.role == Follower then n.currentTerm == term else n.currentTerm == term + 1
  }

  ghost predicate RoundsLost(nodes: map<NodeId, Node>, elections: set<Election>) {
    forall n, r :: n in nodes && 0 <= r < |nodes[n].rounds| && Deposed(nodes[n], nodes[n].rounds[r].term) ==>
      LostTo(elections, nodes[n].rounds[r].term, n)
  }

  /** A leader does not stand in the term after the one it led. */
  ghost predicate LeadersPass(nodes: map<NodeId, Node>, elections: set<Election>) {
    forall e :: e in elections && e.leader in nodes && nodes[e.leader].currentTerm == e.term + 1 ==>
      nodes[e.leader].role == Follower
  }

  ghost predicate Named(elections: set<Election>, m: Msg) {
    && (m.AppendReq? || m.AppendResp? ==> HasElection(elections, m.aargs.term, m.aargs.leaderId))
    && (m.AppendReq? ==> m.to != m.aargs.leaderId)
  }

  /** Every append message names the elected leader of its term, and another node as its receiver. */
  ghost predicate AppendsNamed(elections: set<Election>, msgs: set<Msg>) {
    forall m :: m in msgs ==> Named(elections, m)
  }

  ghost predicate AgeInv(s: System) {
    RoundsLost(s.nodes, s.elections) && LeadersPass(s.nodes, s.elections) && AppendsNamed(s.elections, s.msgs)
  }

  // ----- One term old is fresh --------------------------------------------------------------

  /** The votes of a round and the voters of another node's win in the same term are disjoint. */
  lemma LostRoundsAreMinorities(nodes: map<NodeId, Node>, grants: set<Grant>, e: Election, c: NodeId,
                                votes: set<NodeId>)
    requires OneGrant(grants) && Won(nodes, grants, e) && e.leader != c && c !in e.voters
    requires Backed(nodes.Keys, grants, e.term, c, votes)
    ensures !IsMajority(votes, nodes.Keys)
  {
    if IsMajority(votes, nodes.Keys) {
      var z := MajoritiesMeet(votes, e.voters, nodes.Keys);
    }
  }

  lemma RecentVoteIsFresh(s: System, m: Msg)
    requires ElectionInv(s) && AgeInv(s) && Enabled(s, CountReply(m)) && VotesWithin(s, CountReply(m), 1)
    ensures FreshVote(s, CountReply(m))
  {
    var c := m.vargs.candidateId;
    var n := s.nodes[c];
    var votes := n.rounds[m.round].votes + {m.from};
    assert VoteMsgOk(s.nodes, s.grants, m);
    if Decides(s, m) && m.vargs.term != n.currentTerm {
      assert LostTo(s.elections, n.rounds[m.round].term, c);
      var e :| e in s.elections && e.term == m.vargs.term && e.leader != c && c !in e.voters;
      CountedIsBacked(s, m);
      LostRoundsAreMinorities(s.nodes, s.grants, e, c, votes);
      assert s.nodes.Keys == n.peers + {c};
      QuorumIsMajority(c, n.peers, votes);
    }
  }

  lemma CountedIsBacked(s: System, m: Msg)
    requires ElectionInv(s) && Enabled(s, CountReply(m))
    ensures var c := m.vargs.candidateId;
            Backed(s.nodes.Keys, s.grants, m.vargs.term, c, s.nodes[c].rounds[m.round].votes + {m.from})
  {
    var c := m.vargs.candidateId;
    assert VoteMsgOk(s.nodes, s.grants, m);
    assert Backed(s.nodes.Keys, s.grants, s.nodes[c].rounds[m.round].term, c, s.nodes[c].rounds[m.round].votes);
  }

  /** A recorded success is of the leader's own term. */
  ghost predicate FreshSuccess(s: System, step: Step)
    requires Enabled(s, step)
  {
    match step
    case AppendReplied(m) => Records(s, m) ==> m.aargs.term == s.nodes[m.aargs.leaderId].currentTerm
    case _ => true
  }

  lemma RecentSuccessIsFresh(s: System, m: Msg)
    requires ElectionInv(s) && AgeInv(s) && Enabled(s, AppendReplied(m)) && SuccessesWithin(s, AppendReplied(m), 1)
    ensures FreshSuccess(s, AppendReplied(m))
  {
    assert Named(s.elections, m);
    var e :| e in s.elections && e.term == m.aargs.term && e.leader == m.aargs.leaderId;
    assert Won(s.nodes, s.grants, e);
  }

  /** A reply that decides something and is at most one term old is of the current term. */
  lemma OneTermOldIsFresh(s: System, step: Step)
    requires ElectionInv(s) && AgeInv(s) && Enabled(s, step)
    ensures VotesWithin(s, step, 1) ==> FreshVote(s, step)
    ensures SuccessesWithin(s, step, 1) ==> FreshSuccess(s, step)
  {
    match step
    case CountReply(m) =>
      if VotesWithin(s, step, 1) {
        RecentVoteIsFresh(s, m);
      }
    case AppendReplied(m) =>
      if SuccessesWithin(s, step, 1) {
        RecentSuccessIsFresh(s, m);
      }
    case _ =>
  }

  // ----- Every step keeps this ------------------------------------------------------------------

  /** What a step other than the hearing of a leader does to role, term and rounds. */
  ghost predicate AgeQuiet(n: Node, m: Node) {
    && (m.role == Follower ==> m.currentTerm > n.currentTerm || (n.role == Follower && m.currentTerm == n.currentTerm))
    && (m.role != Follower ==>
          || (n.role != Follower && m.currentTerm == n.currentTerm)
          || (n.role == Follower && m.role == Candidate && m.currentTerm == n.currentTerm + 1))
    && forall r :: 0 <= r < |m.rounds| ==>
         (r < |n.rounds| && m.rounds[r].term == n.rounds[r].term)
         || (m.rounds[r].term == m.currentTerm && m.role != Follower)
  }

  lemma HandlersAreAgeQuiet(n: Node, vargs: VoteArgs, p: NodeId, entries: Log, reply: AppendReply, command: string,
                            now: int)
    ensures n.role == Follower ==> AgeQuiet(n, BecomeCandidate(n))
    ensures n.role == Candidate ==> AgeQuiet(n, OpenRound(n))
    ensures AgeQuiet(n, HandleVote(n, vargs).0)
    ensures AgeQuiet(n, HandleAppendReply(n, p, entries, reply))
    ensures AgeQuiet(n, ProposeEntry(n, command, now))
  {
  }

  lemma CountIsAgeQuiet(n: Node, r: nat, from: NodeId)
    requires r < |n.rounds|
    ensures AgeQuiet(n, CountVote(n, r, from))
  {
  }

  lemma AgeQuietKeeps(s: System, n: NodeId, m: Node)
    requires ElectionInv(s) && AgeInv(s) && n in s.nodes && AgeQuiet(s.nodes[n], m)
    ensures RoundsLost(s.nodes[n := m], s.elections) && LeadersPass(s.nodes[n := m], s.elections)
  {
    forall r | 0 <= r < |m.rounds| && Deposed(m, m.rounds[r].term)
      ensures LostTo(s.elections, m.rounds[r].term, n)
    {
      if r < |s.nodes[n].rounds| && m.rounds[r].term == s.nodes[n].rounds[r].term {
        assert s.nodes[n].rounds[r].term <= s.nodes[n].currentTerm;
      }
    }
    forall e | e in s.elections && e.leader == n && m.currentTerm == e.term + 1
      ensures m.role == Follower
    {
      assert Won(s.nodes, s.grants, e);
    }
  }

  /** Elections only add up, and each message stays named. */
  lemma MoreElections(nodes: map<NodeId, Node>, elections: set<Election>, more: set<Election>, msgs: set<Msg>)
    requires RoundsLost(nodes, elections) && AppendsNamed(elections, msgs) && elections <= more
    ensures RoundsLost(nodes, more) && AppendsNamed(more, msgs)
  {
    forall n, r | n in nodes && 0 <= r < |nodes[n].rounds| && Deposed(nodes[n], nodes[n].rounds[r].term)
      ensures LostTo(more, nodes[n].rounds[r].term, n)
    {
      assert LostTo(elections, nodes[n].rounds[r].term, n);
    }
    forall m | m in msgs
      ensures Named(more, m)
    {
      assert Named(elections, m);
    }
  }

  lemma CountKeepsAge(s: System, m: Msg)
    requires ElectionInv(s) && AgeInv(s) && Enabled(s, CountReply(m))
    ensures AgeInv(Apply(s, CountReply(m)))
  {
    var t := Apply(s, CountReply(m));
    var c := m.vargs.candidateId;
    CountIsAgeQuiet(s.nodes[c], m.round, m.from);
    AgeQuietKeeps(s, c, CountVote(s.nodes[c], m.round, m.from));
    MoreElections(t.nodes, s.elections, t.elections, t.msgs);
  }

  /** A candidate that hears the leader of its term was not among the leader's voters. */
  lemma HearingKeepsAge(s: System, m: Msg)
    requires ElectionInv(s) && AgeInv(s) && Enabled(s, AnswerAppend(m))
    ensures AgeInv(Apply(s, AnswerAppend(m)))
  {
    var n := s.nodes[m.to];
    var (node, reply) := HandleAppend(n, m.aargs);
    assert Named(s.elections, m);
    HearingIsAgeQuiet(n, m.aargs);
    if n.role == Candidate && m.aargs.term == n.currentTerm {
      var e :| e in s.elections && e.term == m.aargs.term && e.leader == m.aargs.leaderId;
      NotAmongVoters(s, e, m.to);
      DeposedKeepsAge(s, m.to, node, e);
    } else {
      AgeQuietKeeps(s, m.to, node);
    }
  }

  lemma HearingIsAgeQuiet(n: Node, args: AppendArgs)
    requires ValidEntries(args.entries)
    ensures n.role == Candidate && args.term == n.currentTerm ==>
              var m := HandleAppend(n, args).0;
              m.role == Follower && m.currentTerm == n.currentTerm && m.rounds == n.rounds
    ensures !(n.role == Candidate && args.term == n.currentTerm) ==> AgeQuiet(n, HandleAppend(n, args).0)
  {
  }

  lemma NotAmongVoters(s: System, e: Election, n: NodeId)
    requires ElectionInv(s) && e in s.elections && n in s.nodes && n != e.leader
    requires s.nodes[n].currentTerm == e.term && s.nodes[n].role == Candidate
    ensures n !in e.voters
  {
    assert Won(s.nodes, s.grants, e);
    assert forall g :: g in s.grants && g.term == e.term && g.voter == n ==> Locked(s.nodes, g);
  }

  lemma DeposedKeepsAge(s: System, n: NodeId, m: Node, e: Election)
    requires ElectionInv(s) && AgeInv(s) && n in s.nodes && e in s.elections && e.leader != n && n !in e.voters
    requires m.role == Follower && m.currentTerm == s.nodes[n].currentTerm == e.term && m.rounds == s.nodes[n].rounds
    ensures RoundsLost(s.nodes[n := m], s.elections) && LeadersPass(s.nodes[n := m], s.elections)
  {
    assert LostTo(s.elections, e.term, n);
  }

  lemma OtherStepKeepsAge(s: System, step: Step)
    requires ElectionInv(s) && AgeInv(s) && Enabled(s, step) && !step.CountReply? && !step.AnswerAppend?
    ensures AgeInv(Apply(s, step))
  {
    var t := Apply(s, step);
    var none := AppendReply(0, false);
    match step
    case AskVote(n, r, p) =>
    case SendAppend(n, p) =>
      assert HasElection(s.elections, s.nodes[n].currentTerm, n);
    case Timeout(n) =>
      HandlersAreAgeQuiet(s.nodes[n], VoteArgsOf(s.nodes[n]), "", [], none, "", 0);
      AgeQuietKeeps(s, n, BecomeCandidate(s.nodes[n]));
    case StartElection(n) =>
      HandlersAreAgeQuiet(s.nodes[n], VoteArgsOf(s.nodes[n]), "", [], none, "", 0);
      AgeQuietKeeps(s, n, OpenRound(s.nodes[n]));
    case AnswerVote(m) =>
      HandlersAreAgeQuiet(s.nodes[m.to], m.vargs, "", [], none, "", 0);
      AgeQuietKeeps(s, m.to, HandleVote(s.nodes[m.to], m.vargs).0);
    case AppendReplied(m) =>
      var l := m.aargs.leaderId;
      HandlersAreAgeQuiet(s.nodes[l], VoteArgsOf(s.nodes[l]), m.from, m.aargs.entries, m.areply, "", 0);
      AgeQuietKeeps(s, l, HandleAppendReply(s.nodes[l], m.from, m.aargs.entries, m.areply));
    case Propose(n, command, now) =>
      HandlersAreAgeQuiet(s.nodes[n], VoteArgsOf(s.nodes[n]), "", [], none, command, now);
      AgeQuietKeeps(s, n, ProposeEntry(s.nodes[n], command, now));
  }

  lemma StepKeepsAge(s: System, step: Step)
    requires ElectionInv(s) && AgeInv(s) && Enabled(s, step)
    ensures AgeInv(Apply(s, step))
  {
    match step
    case CountReply(m) => CountKeepsAge(s, m);
    case AnswerAppend(m) => HearingKeepsAge(s, m);
    case _ => OtherStepKeepsAge(s, step);
  }

  lemma InitHasAgeInv(s: System)
    requires Init(s)
    ensures AgeInv(s)
  {
  }
}
