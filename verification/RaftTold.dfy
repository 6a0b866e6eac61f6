/**
 * What a node makes of a term it is told of. Whoever answers a request or takes a reply of
 * a term has at least that term afterwards, and goes on to a higher one as a follower; so
 * nobody leads a term below one it has been told of.
 */
module RaftTold {
  import opened RaftNode
  import opened RaftSystem
  import opened RaftTheorems

  /** In this step `n` takes a message of this term. */
  ghost predicate Tells(step: Step, n: NodeId, term: int) {
    match step
    case AnswerVote(m) => m.VoteReq? && m.to == n && m.vargs.term == term
    case AnswerAppend(m) => m.AppendReq? && m.to == n && m.aargs.term == term
    case AppendReplied(m) => m.AppendResp? && m.aargs.leaderId == n && m.areply.term == term
    case _ => false
  }

  /** The term is reached, and where it is new, the node follows, without the vote it gave before. */
  lemma ToldTermIsReached(s: System, step: Step, n: NodeId, term: int)
    requires Enabled(s, step) && Tells(step, n, term)
    ensures n in s.nodes && n in Apply(s, step).nodes
    ensures var before, after := s.nodes[n], Apply(s, step).nodes[n];
            && after.currentTerm == (if term > before.currentTerm then term else before.currentTerm)
            && (term > before.currentTerm ==> after.role == Follower)
            && (term > before.currentTerm && !step.AnswerVote? ==> after.votedFor == NOBODY)
            && (term > before.currentTerm && step.AnswerVote? ==> after.votedFor in {NOBODY, step.m.vargs.candidateId})
  {
    hide ReceiveEntries;
  }

  /** The term stays, or is the next one and the node stands, or is one that the node was told of. */
  ghost predicate Grows(step: Step, n: NodeId, before: Node, after: Node) {
    && before.currentTerm <= after.currentTerm
    && (before.currentTerm < after.currentTerm ==>
          (step == Timeout(n) && after.role == Candidate && after.currentTerm == before.currentTerm + 1)
          || Tells(step, n, after.currentTerm))
  }

  lemma ToldTermsGrow(s: System, step: Step, n: NodeId)
    requires Enabled(s, step) && n in s.nodes && (step.AnswerVote? || step.AnswerAppend? || step.AppendReplied?)
    ensures n in Apply(s, step).nodes && Grows(step, n, s.nodes[n], Apply(s, step).nodes[n])
  {
    hide HandleVote, HandleAppend, HandleAppendReply;
    match step
    case AnswerVote(m) =>
      if n == m.to {
        ToldTermIsReached(s, step, n, m.vargs.term);
      }
    case AnswerAppend(m) =>
      if n == m.to {
        ToldTermIsReached(s, step, n, m.aargs.term);
      }
    case AppendReplied(m) =>
      if n == m.aargs.leaderId {
        ToldTermIsReached(s, step, n, m.areply.term);
      }
  }

  /** No step takes a node back to an earlier term, and only these steps and standing take it on. */
  lemma TermsOnlyGrow(s: System, step: Step, n: NodeId)
    requires Enabled(s, step) && n in s.nodes
    ensures n in Apply(s, step).nodes && Grows(step, n, s.nodes[n], Apply(s, step).nodes[n])
  {
    if step.AnswerVote? || step.AnswerAppend? || step.AppendReplied? {
      hide Enabled, Apply, Grows;
      ToldTermsGrow(s, step, n);
    } else {
      hide HandleVote, HandleAppend, HandleAppendReply, VoteArgsOf, AppendArgsOf, Tells, LastIndex;
    }
  }

  /** In every run, a node that has been told of a term never again leads an earlier one. */
  lemma {:induction false} ToldForGood(states: seq<System>, steps: seq<Step>, votes: nat, successes: nat,
                                       i: nat, k: nat, n: NodeId, term: int)
    requires Run(states, steps, votes, successes) && i < k < |states| && Tells(steps[i], n, term)
    ensures n in states[k].nodes && states[k].nodes[n].currentTerm >= term
    ensures forall t :: LeadsIn(states[k], n, t) ==> t >= term
    decreases k
  {
    hide Init, Enabled, Apply, VotesWithin, SuccessesWithin, Tells;
    assert Next(states[k - 1], steps[k - 1], states[k], votes, successes);
    if k == i + 1 {
      ToldTermIsReached(states[i], steps[i], n, term);
    } else {
      ToldForGood(states, steps, votes, successes, i, k - 1, n, term);
      TermsOnlyGrow(states[k - 1], steps[k - 1], n);
    }
  }
}
