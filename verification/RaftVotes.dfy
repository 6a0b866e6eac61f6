/**
 * How often a node votes in a term. The paper's "one vote per node and term" does not
 * hold of the source: the clause of AppendEntries that turns a candidate into a follower
 * clears its vote, also when the message is of the candidate's own term. That clause is
 * the one way in which a node forgets, within a term, the vote it gave itself.
 */
module RaftVotes {
  import opened RaftNode
  import opened RaftSystem
  import opened RaftRuns

  /** Candidate `v` hears of a leader of its own term. */
  ghost predicate Forgets(s: System, step: Step, v: NodeId) {
    && step.AnswerAppend? && step.m.AppendReq? && step.m.to == v && v in s.nodes
    && step.m.aargs.term == s.nodes[v].currentTerm && s.nodes[v].role == Candidate
  }

  /** No node asks itself for a vote. */
  ghost predicate AsksOthers(s: System) {
    Cluster(s.nodes) && forall m :: m in s.msgs && m.VoteReq? ==> m.to != m.vargs.candidateId
  }

  /** What the handlers do to the vote a node gave itself, as long as the term lasts. */
  lemma HandlersAndOwnVote(n: Node, vargs: VoteArgs, args: AppendArgs)
    requires n.id != NOBODY && ValidEntries(args.entries)
    ensures var m := HandleVote(n, vargs).0;
            && n.currentTerm <= m.currentTerm
            && (m.currentTerm == n.currentTerm && vargs.candidateId != n.id ==>
                  (m.votedFor == n.id <==> n.votedFor == n.id))
    ensures var m := HandleVote(n, vargs).0;
            m.currentTerm == n.currentTerm && n.votedFor == n.id ==> m.votedFor == n.id
    ensures var m := HandleAppend(n, args).0;
            && n.currentTerm <= m.currentTerm
            && (m.currentTerm == n.currentTerm ==>
                  m.votedFor == if args.term == n.currentTerm && n.role == Candidate then NOBODY else n.votedFor)
  {
  }

  lemma ReplyAndOwnVote(n: Node, p: NodeId, entries: Log, reply: AppendReply)
    ensures var m := HandleAppendReply(n, p, entries, reply);
            n.currentTerm <= m.currentTerm && (m.currentTerm == n.currentTerm ==> m.votedFor == n.votedFor)
  {
  }

  lemma OthersLeaveVotes(n: Node, r: nat, p: NodeId, command: string, now: int)
    ensures OpenRound(n).votedFor == n.votedFor && OpenRound(n).currentTerm == n.currentTerm
    ensures BecomeCandidate(n).currentTerm == n.currentTerm + 1
    ensures r < |n.rounds| ==>
              CountVote(n, r, p).votedFor == n.votedFor && CountVote(n, r, p).currentTerm == n.currentTerm
    ensures var m := ProposeEntry(n, command, now); m.votedFor == n.votedFor && m.currentTerm == n.currentTerm
  {
  }

  /** A step forgets a node's own vote, within the term, exactly in this case; and nothing brings it back. */
  lemma StepAndOwnVote(s: System, step: Step, v: NodeId)
    requires AsksOthers(s) && Enabled(s, step) && v in s.nodes
    ensures v in Apply(s, step).nodes && s.nodes[v].currentTerm <= Apply(s, step).nodes[v].currentTerm
    ensures Apply(s, step).nodes[v].currentTerm == s.nodes[v].currentTerm ==>
              (Apply(s, step).nodes[v].votedFor == v <==> s.nodes[v].votedFor == v && !Forgets(s, step, v))
  {
    hide HandleVote, HandleAppend, HandleAppendReply, CountVote, OpenRound, BecomeCandidate, ProposeEntry, Cluster;
    NamesAre(s, v);
    var n, none := s.nodes[v], AppendArgs(0, "", 0, 0, [], 0);
    match step
    case Timeout(_) => OthersLeaveVotes(n, 0, "", "", 0);
    case StartElection(_) => OthersLeaveVotes(n, 0, "", "", 0);
    case CountReply(m) => OthersLeaveVotes(n, m.round, m.from, "", 0);
    case Propose(_, command, now) => OthersLeaveVotes(n, 0, "", command, now);
    case AnswerVote(m) => HandlersAndOwnVote(n, m.vargs, none);
    case AnswerAppend(m) => HandlersAndOwnVote(n, VoteArgsOf(n), m.aargs);
    case AppendReplied(m) => ReplyAndOwnVote(n, m.from, m.aargs.entries, m.areply);
    case _ =>
  }

  lemma NamesAre(s: System, v: NodeId)
    requires Cluster(s.nodes) && v in s.nodes
    ensures s.nodes[v].id == v != NOBODY
  {
  }

  lemma StepAsksOthers(s: System, step: Step)
    requires AsksOthers(s) && Enabled(s, step)
    ensures AsksOthers(Apply(s, step))
  {
    hide HandleVote, HandleAppend, HandleAppendReply, CountVote, ProposeEntry;
    StepKeepsCluster(s, step);
  }

  lemma {:induction false} RunAsksOthers(states: seq<System>, steps: seq<Step>, votes: nat, successes: nat, i: nat)
    requires Run(states, steps, votes, successes) && i < |states|
    ensures AsksOthers(states[i])
  {
    hide AsksOthers, Init, Enabled, Apply, VotesWithin, SuccessesWithin;
    if i == 0 {
      InitAsksOthers(states[0]);
    } else {
      RunAsksOthers(states, steps, votes, successes, i - 1);
      assert Next(states[i - 1], steps[i - 1], states[i], votes, successes);
      StepAsksOthers(states[i - 1], steps[i - 1]);
    }
  }

  lemma InitAsksOthers(s: System)
    requires Init(s)
    ensures AsksOthers(s)
  {
  }

  /**
   * In every run, whatever the ages of its replies: a node that has voted for itself has,
   * as long as the term lasts, taken that vote back if and only if it heard of a leader
   * of the term while it was still a candidate.
   */
  lemma {:induction false} OwnVoteForgotten(states: seq<System>, steps: seq<Step>, votes: nat, successes: nat,
                                            i: nat, k: nat, v: NodeId)
    requires Run(states, steps, votes, successes) && i <= k < |states|
    requires v in states[i].nodes && states[i].nodes[v].votedFor == v
    ensures v in states[k].nodes && states[i].nodes[v].currentTerm <= states[k].nodes[v].currentTerm
    ensures states[k].nodes[v].currentTerm == states[i].nodes[v].currentTerm ==>
              (states[k].nodes[v].votedFor != v <==> exists j :: i <= j < k && Forgets(states[j], steps[j], v))
    decreases k - i
  {
    hide AsksOthers, Init, Enabled, Apply, VotesWithin, SuccessesWithin, Forgets;
    if i < k {
      OwnVoteForgotten(states, steps, votes, successes, i, k - 1, v);
      assert Next(states[k - 1], steps[k - 1], states[k], votes, successes);
      RunAsksOthers(states, steps, votes, successes, k - 1);
      StepAndOwnVote(states[k - 1], steps[k - 1], v);
    }
  }

  // ----- A run in which a node votes twice ----------------------------------------------------------

  /** Node `v` opened a round of `term`, with its own vote, and voted for another in that term. */
  ghost predicate VotedTwice(s: System, v: NodeId, term: int) {
    && v in s.nodes
    && (exists r :: 0 <= r < |s.nodes[v].rounds| && s.nodes[v].rounds[r] == Round(term, {v}))
    && (exists g :: g in s.grants && g.voter == v && g.term == term && g.cand != v)
  }

  /** `v` stands in term 1, and `a` stands in the same term and asks it, but is not heard yet. */
  lemma BothStand(c: Setting, a: NodeId, v: NodeId) returns (s: System)
    requires |c.ids| >= 3 && NOBODY !in c.ids && a in c.ids && v in c.ids && a != v
    ensures Reached(c, s) && s.nodes.Keys == c.ids
    ensures s.nodes[v] == Standing(NewNode(v, c.ids - {v})) && s.nodes[a] == Standing(NewNode(a, c.ids - {a}))
    ensures AllYes(s.msgs, 0, c.ids - {a, v}, VoteArgs(1, a, 0, 0)) && VoteReq(0, v, VoteArgs(1, a, 0, 0)) in s.msgs
  {
    hide Reached, AllYes;
    s := Start(c);
    s := Stand(c, s, v);
    s := Campaign(c, s, a, c.ids - {a, v});
    var yeses := s.msgs;
    s := Extend(c, s, AskVote(a, 0, v));
    AllYesStays(yeses, s.msgs, 0, c.ids - {a, v}, VoteArgs(1, a, 0, 0));
    ReachedKeys(c, s);
  }

  lemma TallyOfFirst(n: Node, q: set<NodeId>)
    requires n == Standing(NewNode(n.id, n.peers)) && n.id !in q && |q| + 1 > (|n.peers| + 1) / 2
    ensures var m := Tally(n, 0, q);
            m.role == Leader && m.currentTerm == 1 && m.log == [] && m.commitIndex == 0 && m.id == n.id
            && forall p :: p in n.peers ==> At(m.nextIndex, p) == 1
  {
    assert |{n.id} + q| == |q| + 1;
  }

  /** `v` hears of the leader, and forgets its vote. */
  lemma HearsAndForgets(n: Node, l: Node)
    requires n == Standing(NewNode(n.id, n.peers))
    requires l.role == Leader && l.currentTerm == 1 && l.log == [] && l.commitIndex == 0 && At(l.nextIndex, n.id) == 1
    ensures ValidEntries(AppendArgsOf(l, n.id).entries)
    ensures HandleAppend(n, AppendArgsOf(l, n.id)).0 == Follows(n, 1, NOBODY)
  {
  }

  /** In every cluster of at least three nodes, and with no late reply at all, a node may vote twice in a term. */
  lemma VotesTwice(c: Setting, a: NodeId, v: NodeId) returns (s: System)
    requires |c.ids| >= 3 && NOBODY !in c.ids && a in c.ids && v in c.ids && a != v
    ensures Reachable(c, s) && VotedTwice(s, v, 1)
  {
    hide Reached, AllYes, HandleAppend, HandleVote;
    s := BothStand(c, a, v);
    var q, args := c.ids - {a, v}, VoteArgs(1, a, 0, 0);
    assert c.ids == q + {a, v};
    PeersAndSelf(s.nodes[a], c.ids);
    TallyOfFirst(s.nodes[a], q);
    var asked := VoteReq(0, v, args);
    s := CountAll(c, s, a, 0, q, args);
    HearsAndForgets(s.nodes[v], s.nodes[a]);
    s := Send(c, s, a, v);
    ReachedKeys(c, s);
    assert s.nodes[v].rounds[0] == Round(1, {v});
    s := Grants(c, s, asked);
  }

  /** Follower `m.to`, which has no vote, answers yes. */
  lemma Grants(c: Setting, s: System, m: Msg) returns (t: System)
    requires Reached(c, s) && m in s.msgs && m.VoteReq? && m.to in c.ids
    requires m.vargs == VoteArgs(1, m.vargs.candidateId, 0, 0)
    requires s.nodes.Keys == c.ids && s.nodes[m.to].currentTerm == 1 && s.nodes[m.to].votedFor == NOBODY
    requires s.nodes[m.to].log == [] && m.to != m.vargs.candidateId
    requires exists r :: 0 <= r < |s.nodes[m.to].rounds| && s.nodes[m.to].rounds[r] == Round(1, {m.to})
    ensures Reachable(c, t) && VotedTwice(t, m.to, 1)
  {
    hide Reachable, Cluster;
    t := Extend(c, s, AnswerVote(m));
    var g := Grant(1, m.to, m.vargs.candidateId, 0, 0, []);
    assert g in t.grants;
  }
}
