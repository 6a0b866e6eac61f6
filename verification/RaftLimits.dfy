/**
 * How old a deciding reply may be: for each safety property of RaftTheorems.dfy, the
 * clusters and the ages with which every run has it, and with which some run does not.
 */
module RaftLimits {
  import opened RaftNode
  import opened RaftSystem
  import opened RaftRuns
  import opened RaftTheorems
  import opened RaftPairs
  import opened RaftPairLogs
  import opened RaftVotes
  import opened RaftStale

  ghost predicate RunOf(c: Setting, states: seq<System>, steps: seq<Step>) {
    Run(states, steps, c.votes, c.successes) && states[0].nodes.Keys == c.ids
  }

  /** Every run of this cluster, with replies of these ages, has the property. */
  ghost predicate InEveryRun(c: Setting, property: seq<System> -> bool) {
    forall states, steps :: RunOf(c, states, steps) ==> property(states)
  }

  /** Deciding yeses are at most one term old, or the cluster has at most two nodes. */
  predicate VotesRecent(c: Setting) {
    c.votes <= 1 || |c.ids| <= 2
  }

  /** So are recorded successes. */
  predicate RepliesRecent(c: Setting) {
    (c.votes <= 1 && c.successes <= 1) || |c.ids| <= 2
  }

  // ----- The properties, as predicates of a run ---------------------------------------------------

  ghost predicate OneLeaderATerm(states: seq<System>) {
    forall i, k, a, b, term ::
      0 <= i < |states| && 0 <= k < |states| && LeadsIn(states[i], a, term) && LeadsIn(states[k], b, term) ==> a == b
  }

  ghost predicate LeadersOnlyAppend(states: seq<System>) {
    forall i, k, n, term ::
      0 <= i <= k < |states| && LeadsIn(states[i], n, term) && LeadsIn(states[k], n, term) ==>
        states[i].nodes[n].log <= states[k].nodes[n].log
  }

  /** If both logs have an entry of the same term at place `p`, they agree up to it, and it is numbered p + 1. */
  ghost predicate Matched(x: Log, y: Log, p: int) {
    0 <= p < |x| && p < |y| && x[p].term == y[p].term ==> x[..p + 1] == y[..p + 1] && x[p].index == p + 1
  }

  ghost predicate LogsMatch(states: seq<System>) {
    forall i, k, a, b, p ::
      0 <= i < |states| && 0 <= k < |states| && a in states[i].nodes && b in states[k].nodes ==>
        Matched(states[i].nodes[a].log, states[k].nodes[b].log, p)
  }

  ghost predicate BooksAreSound(states: seq<System>) {
    forall i, l, p :: 0 <= i < |states| ==> BookIsSound(states[i], l, p)
  }

  /** What `l` has on a quorum by its book at one time, `m` has when it leads a later term. */
  ghost predicate Complete(s: System, t: System, l: NodeId, m: NodeId, j: int) {
    && l in s.nodes && Replicated(s.nodes[l], j)
    && m in t.nodes && t.nodes[m].role == Leader && t.nodes[m].currentTerm > s.nodes[l].currentTerm
    ==> j < |t.nodes[m].log| && t.nodes[m].log[..j + 1] == s.nodes[l].log[..j + 1]
  }

  ghost predicate LeadersAreComplete(states: seq<System>) {
    forall i, k, l, m, j :: 0 <= i < |states| && 0 <= k < |states| ==> Complete(states[i], states[k], l, m, j)
  }

  // ----- From one run to all -------------------------------------------------------------------------

  lemma RunIsHarmless(c: Setting, states: seq<System>, steps: seq<Step>)
    requires RunOf(c, states, steps)
    ensures |states[0].nodes| == |c.ids|
    ensures VotesRecent(c) ==> VotesHarmless(states, c.votes)
    ensures RepliesRecent(c) ==> RepliesHarmless(states, c.votes, c.successes)
  {
    assert |states[0].nodes| == |states[0].nodes.Keys|;
  }

  /** A state that is reached is the last one of some run. */
  lemma LastState(c: Setting, s: System) returns (states: seq<System>, steps: seq<Step>, last: nat)
    requires Reached(c, s)
    ensures RunOf(c, states, steps) && last + 1 == |states| && states[last] == s
  {
    states, steps :| EndsIn(c, states, steps, s);
    last := |states| - 1;
  }

  /** A run goes on with any step that is allowed in its last state. */
  lemma StepGoesOn(c: Setting, states: seq<System>, steps: seq<Step>, s: System, step: Step)
    requires RunOf(c, states, steps) && states[|states| - 1] == s && Allowed(c, s, step)
    ensures RunOf(c, states + [Apply(s, step)], steps + [step])
  {
    hide Init, Enabled, Apply, Allowed, VotesWithin, SuccessesWithin;
    RunGoesOn(c, states, steps, s, step);
  }

  lemma Three(ids: set<NodeId>) returns (a: NodeId, b: NodeId, d: NodeId)
    requires |ids| >= 3
    ensures {a, b, d} <= ids && a != b && b != d && a != d
  {
    a :| a in ids;
    if ids <= {a} {
      SubsetSize(ids, {a});
      assert false;
    }
    b :| b in ids && b !in {a};
    if ids <= {a, b} {
      SubsetSize(ids, {a, b});
      assert false;
    }
    d :| d in ids && d !in {a, b};
  }

  // ----- Votes ---------------------------------------------------------------------------------------

  ghost predicate NobodyVotesTwice(states: seq<System>) {
    forall i, v, term :: 0 <= i < |states| ==> !VotedTwice(states[i], v, term)
  }

  lemma {:induction false} PairsVoteOnce(states: seq<System>, steps: seq<Step>, votes: nat, successes: nat, i: nat)
    requires Run(states, steps, votes, successes) && i < |states| && |states[0].nodes| <= 2
    ensures VotesOnce(states[i].nodes, states[i].grants)
  {
    hide VotesOnce, PairSafe, PairInv, Init, Enabled, Apply, VotesWithin, SuccessesWithin;
    if i == 0 {
      InitVotesOnce(states[0]);
    } else {
      PairsVoteOnce(states, steps, votes, successes, i - 1);
      PairsAreSafe(states, steps, votes, successes, i - 1);
      SafeIsPaired(states[i - 1]);
      assert Next(states[i - 1], steps[i - 1], states[i], votes, successes);
      StepKeepsVotes(states[i - 1], steps[i - 1]);
    }
  }

  lemma InitVotesOnce(s: System)
    requires Init(s)
    ensures VotesOnce(s.nodes, s.grants)
  {
  }

  lemma SafeIsPaired(s: System)
    requires PairSafe(s)
    ensures PairInv(s)
  {
  }

  lemma OnceIsNotTwice(s: System, v: NodeId, term: int)
    requires VotesOnce(s.nodes, s.grants)
    ensures !VotedTwice(s, v, term)
  {
  }

  /** No node votes for itself and another in one term if and only if there are at most two nodes. */
  lemma OneVoteATermExactly(c: Setting)
    requires NOBODY !in c.ids
    ensures InEveryRun(c, NobodyVotesTwice) <==> |c.ids| <= 2
  {
    if |c.ids| <= 2 {
      forall states: seq<System>, steps: seq<Step> | RunOf(c, states, steps)
        ensures NobodyVotesTwice(states)
      {
        RunIsHarmless(c, states, steps);
        forall i, v, term | 0 <= i < |states|
          ensures !VotedTwice(states[i], v, term)
        {
          PairsVoteOnce(states, steps, c.votes, c.successes, i);
          OnceIsNotTwice(states[i], v, term);
        }
      }
    } else {
      var a, b, d := Three(c.ids);
      var s := VotesTwice(c, a, d);
      var states, steps :| EndsIn(c, states, steps, s);
      assert RunOf(c, states, steps) && VotedTwice(states[|states| - 1], d, 1);
      assert !NobodyVotesTwice(states);
    }
  }

  // ----- Section 5.2 -------------------------------------------------------------------------------

  lemma RecentVotesOneLeader(states: seq<System>, steps: seq<Step>, votes: nat, successes: nat)
    requires Run(states, steps, votes, successes) && VotesHarmless(states, votes)
    ensures OneLeaderATerm(states)
  {
    forall i, k, a, b, term | 0 <= i < |states| && 0 <= k < |states|
                              && LeadsIn(states[i], a, term) && LeadsIn(states[k], b, term)
      ensures a == b
    {
      ElectionSafety(states, steps, votes, successes, i, k, a, b, term);
    }
  }

  /**
   * There is one leader a term in every run if and only if deciding yeses are at most one term old,
   * or there are no more than two nodes.
   */
  lemma ElectionSafetyExactly(c: Setting)
    requires NOBODY !in c.ids
    ensures InEveryRun(c, OneLeaderATerm) <==> c.votes <= 1 || |c.ids| <= 2
  {
    if VotesRecent(c) {
      forall states: seq<System>, steps: seq<Step> | RunOf(c, states, steps)
        ensures OneLeaderATerm(states)
      {
        RunIsHarmless(c, states, steps);
        RecentVotesOneLeader(states, steps, c.votes, c.successes);
      }
    } else {
      var a, b, d := Three(c.ids);
      var s := LateVotes(c, a, d);
      var states, steps, last := LastState(c, s);
      assert LeadsIn(states[last], a, 3) && LeadsIn(states[last], d, 3);
      assert !OneLeaderATerm(states);
    }
  }

  // ----- Section 5.3 -------------------------------------------------------------------------------

  lemma RecentVotesOnlyAppend(states: seq<System>, steps: seq<Step>, votes: nat, successes: nat)
    requires Run(states, steps, votes, successes) && VotesHarmless(states, votes)
    ensures LeadersOnlyAppend(states)
  {
    forall i, k, n, term | 0 <= i <= k < |states| && LeadsIn(states[i], n, term) && LeadsIn(states[k], n, term)
      ensures states[i].nodes[n].log <= states[k].nodes[n].log
    {
      LeaderAppendOnly(states, steps, votes, successes, i, k, n, term);
    }
  }

  lemma ErasingRun(c: Setting, a: NodeId, d: NodeId) returns (states: seq<System>, steps: seq<Step>)
    requires |c.ids| >= 3 && NOBODY !in c.ids && c.votes >= 2 && a in c.ids && d in c.ids && a != d
    ensures RunOf(c, states, steps) && !LeadersOnlyAppend(states)
  {
    hide Run, Enabled, Apply, Allowed, Reached;
    var s, step := LeaderErased(c, a, d);
    var run, done, last := LastState(c, s);
    states, steps := run + [Apply(s, step)], done + [step];
    StepGoesOn(c, run, done, s, step);
    assert states[last] == s && states[last + 1] == Apply(s, step);
    assert LeadsIn(states[last], a, 5) && LeadsIn(states[last + 1], a, 5);
  }

  lemma LeaderAppendOnlyExactly(c: Setting)
    requires NOBODY !in c.ids
    ensures InEveryRun(c, LeadersOnlyAppend) <==> c.votes <= 1 || |c.ids| <= 2
  {
    if VotesRecent(c) {
      forall states: seq<System>, steps: seq<Step> | RunOf(c, states, steps)
        ensures LeadersOnlyAppend(states)
      {
        RunIsHarmless(c, states, steps);
        RecentVotesOnlyAppend(states, steps, c.votes, c.successes);
      }
    } else {
      var a, b, d := Three(c.ids);
      var states, steps := ErasingRun(c, a, d);
      assert !LeadersOnlyAppend(states);
    }
  }

  lemma RecentRepliesSoundBooks(states: seq<System>, steps: seq<Step>, votes: nat, successes: nat)
    requires Run(states, steps, votes, successes) && RepliesHarmless(states, votes, successes)
    ensures BooksAreSound(states)
  {
    forall i, l, p | 0 <= i < |states|
      ensures BookIsSound(states[i], l, p)
    {
      SoundIn(states, steps, votes, successes, i, l, p);
    }
  }

  /** What a leader has recorded for a peer fits both logs in every run if and only if no older reply decides. */
  lemma ReplicationSoundExactly(c: Setting)
    requires NOBODY !in c.ids
    ensures InEveryRun(c, BooksAreSound) <==> (c.votes <= 1 && c.successes <= 1) || |c.ids| <= 2
  {
    if RepliesRecent(c) {
      forall states: seq<System>, steps: seq<Step> | RunOf(c, states, steps)
        ensures BooksAreSound(states)
      {
        RunIsHarmless(c, states, steps);
        RecentRepliesSoundBooks(states, steps, c.votes, c.successes);
      }
    } else {
      var a, b, d := Three(c.ids);
      var s: System;
      if c.votes > 1 {
        s := RivalIsBooked(c, a, d, b);
      } else {
        s := LateSuccesses(c, a, d);
        BookedWrong(c, s, a, d, b);
      }
      var states, steps, last := LastState(c, s);
      assert !BookIsSound(states[last], a, b);
      assert !BooksAreSound(states);
    }
  }

  lemma SoundIn(states: seq<System>, steps: seq<Step>, votes: nat, successes: nat, i: nat, l: NodeId, p: NodeId)
    requires Run(states, steps, votes, successes) && RepliesHarmless(states, votes, successes) && i < |states|
    ensures BookIsSound(states[i], l, p)
  {
    var s := states[i];
    if l in s.nodes && s.nodes[l].role == Leader && p in s.nodes && p in s.nodes[l].peers
       && s.nodes[p].currentTerm == s.nodes[l].currentTerm {
      ReplicationSound(states, steps, votes, successes, i, l, p);
    }
  }

  lemma RecentVotesMatch(states: seq<System>, steps: seq<Step>, votes: nat, successes: nat)
    requires Run(states, steps, votes, successes) && VotesHarmless(states, votes)
    ensures LogsMatch(states)
  {
    forall i, k, a, b, p | 0 <= i < |states| && 0 <= k < |states| && a in states[i].nodes && b in states[k].nodes
      ensures Matched(states[i].nodes[a].log, states[k].nodes[b].log, p)
    {
      if 0 <= p < |states[i].nodes[a].log| && p < |states[k].nodes[b].log|
         && states[i].nodes[a].log[p].term == states[k].nodes[b].log[p].term {
        LogMatching(states, steps, votes, successes, i, k, a, b, p);
      }
    }
  }

  lemma LogMatchingExactly(c: Setting)
    requires NOBODY !in c.ids
    ensures InEveryRun(c, LogsMatch) <==> c.votes <= 1 || |c.ids| <= 2
  {
    if VotesRecent(c) {
      forall states: seq<System>, steps: seq<Step> | RunOf(c, states, steps)
        ensures LogsMatch(states)
      {
        RunIsHarmless(c, states, steps);
        RecentVotesMatch(states, steps, c.votes, c.successes);
      }
    } else {
      var a, b, d := Three(c.ids);
      var s := LateVotes(c, a, d);
      var states, steps, last := LastState(c, s);
      TwoCommands();
      assert One(3, "x")[..1][0] != One(3, "y")[..1][0];
      assert !Matched(states[last].nodes[a].log, states[last].nodes[d].log, 0);
      assert !LogsMatch(states);
    }
  }

  // ----- Section 5.4 -------------------------------------------------------------------------------

  lemma RecentRepliesComplete(states: seq<System>, steps: seq<Step>, votes: nat, successes: nat)
    requires Run(states, steps, votes, successes) && RepliesHarmless(states, votes, successes)
    ensures LeadersAreComplete(states)
  {
    forall i, k, l, m, j | 0 <= i < |states| && 0 <= k < |states|
      ensures Complete(states[i], states[k], l, m, j)
    {
      CompleteIn(states, steps, votes, successes, i, k, l, m, j);
    }
  }

  lemma LeaderCompletenessExactly(c: Setting)
    requires NOBODY !in c.ids
    ensures InEveryRun(c, LeadersAreComplete) <==> (c.votes <= 1 && c.successes <= 1) || |c.ids| <= 2
  {
    if RepliesRecent(c) {
      forall states: seq<System>, steps: seq<Step> | RunOf(c, states, steps)
        ensures LeadersAreComplete(states)
      {
        RunIsHarmless(c, states, steps);
        RecentRepliesComplete(states, steps, c.votes, c.successes);
      }
    } else {
      var a, b, d := Three(c.ids);
      var s: System;
      if c.votes > 1 {
        s := RivalLeadsAgain(c, a, d, b);
        TwoCommands();
        assert One(3, "x")[..1][0] != One(3, "y")[..1][0];
        assert !Complete(s, s, d, a, 0);
      } else {
        s := SixthLeader(c, a, d);
        assert !Complete(s, s, a, d, 1);
      }
      var states, steps, last := LastState(c, s);
      assert !LeadersAreComplete(states);
    }
  }

  lemma CompleteIn(states: seq<System>, steps: seq<Step>, votes: nat, successes: nat,
                   i: nat, k: nat, l: NodeId, m: NodeId, j: int)
    requires Run(states, steps, votes, successes) && RepliesHarmless(states, votes, successes)
    requires i < |states| && k < |states|
    ensures Complete(states[i], states[k], l, m, j)
  {
    var s, t := states[i], states[k];
    if l in s.nodes && Replicated(s.nodes[l], j)
       && m in t.nodes && t.nodes[m].role == Leader && t.nodes[m].currentTerm > s.nodes[l].currentTerm {
      LeaderCompleteness(states, steps, votes, successes, i, k, l, m, j);
    }
  }
}
