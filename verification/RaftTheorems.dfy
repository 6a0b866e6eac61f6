/**
 * The safety properties of the Raft paper, for every run of every length and every
 * cluster, of a network that loses, duplicates and reorders: sections 5.2 (Election
 * Safety), 5.3 (Leader Append-Only, Log Matching) and 5.4 (Leader Completeness) of
 * Ongaro and Ousterhout, "In Search of an Understandable Consensus Algorithm". The
 * runs are those in which a deciding yes is at most one term old and, where it matters, a
 * recorded success too, and all runs of at most two nodes; RaftLimits.dfy shows that these
 * are as many as can be.
 */
module RaftTheorems {
  import opened RaftNode
  import opened RaftSystem
  import opened RaftElection
  import opened RaftAge
  import opened RaftLogs
  import opened RaftPairs
  import opened RaftPairLogs
  import opened RaftCompleteness

  /** What recent votes alone keep. */
  ghost predicate VoteSafe(s: System) {
    ElectionInv(s) && AgeInv(s) && LogBase(s)
  }

  /** One leader a term, and what rests on that alone. */
  ghost predicate LeaderSafe(s: System) {
    LeaderInv(s) && AppendsNamed(s.elections, s.msgs) && LogBase(s)
  }

  /** Deciding votes are recent, or there are too few nodes for their age to matter. */
  ghost predicate VotesHarmless(states: seq<System>, votes: nat) {
    |states| > 0 && (votes <= 1 || |states[0].nodes| <= 2)
  }

  /** The same of all replies that decide something. */
  ghost predicate RepliesHarmless(states: seq<System>, votes: nat, successes: nat) {
    |states| > 0 && ((votes <= 1 && successes <= 1) || |states[0].nodes| <= 2)
  }

  /** What recent votes and recent successes keep. */
  ghost predicate Safe(s: System) {
    ElectionInv(s) && AgeInv(s) && LogInv(s) && AckInv(s)
  }

  ghost predicate LeadsIn(s: System, n: NodeId, term: int) {
    n in s.nodes && s.nodes[n].role == Leader && s.nodes[n].currentTerm == term
  }

  lemma InitIsSafe(s: System)
    requires Init(s)
    ensures Safe(s) && VoteSafe(s)
  {
    hide *;
    InitHasElectionInv(s);
    InitHasAgeInv(s);
    InitHasLogInv(s);
    InitHasAckInv(s);
    AllIsSafe(s);
  }

  lemma AllIsSafe(s: System)
    requires ElectionInv(s) && AgeInv(s) && LogInv(s) && AckInv(s)
    ensures Safe(s) && VoteSafe(s)
  {
    hide ElectionInv, AgeInv, LogBase, AckInv;
  }

  lemma InitHasLogInv(s: System)
    requires Init(s)
    ensures LogInv(s)
  {
  }

  lemma InitHasAckInv(s: System)
    requires Init(s)
    ensures AckInv(s)
  {
  }

  lemma StepIsVoteSafe(s: System, step: Step)
    requires VoteSafe(s) && Enabled(s, step) && VotesWithin(s, step, 1)
    ensures VoteSafe(Apply(s, step))
  {
    hide ElectionInv, AgeInv, LogBase, Enabled, Apply, VotesWithin, FreshVote;
    OneTermOldIsFresh(s, step);
    StepKeepsElection(s, step);
    StepKeepsAge(s, step);
    FreshStepKeepsBase(s, step);
  }

  lemma StepIsSafe(s: System, step: Step)
    requires Safe(s) && Enabled(s, step) && VotesWithin(s, step, 1) && SuccessesWithin(s, step, 1)
    ensures Safe(Apply(s, step))
  {
    hide ElectionInv, AgeInv, LogInv, AckInv, Enabled, Apply, VotesWithin, SuccessesWithin, FreshVote, FreshSuccess;
    OneTermOldIsFresh(s, step);
    StepKeepsElection(s, step);
    StepKeepsAge(s, step);
    StepKeepsLogs(s, step);
    StepKeepsHeld(s, step);
  }

  /** Recent votes keep their invariants in every state of every run, however old the successes. */
  lemma {:induction false} RunsAreVoteSafe(states: seq<System>, steps: seq<Step>, successes: nat, i: nat)
    requires Run(states, steps, 1, successes) && i < |states|
    ensures VoteSafe(states[i])
  {
    hide VoteSafe, Init, Enabled, Apply, VotesWithin, SuccessesWithin, HistoryWithin;
    if i == 0 {
      InitIsSafe(states[0]);
    } else {
      RunsAreVoteSafe(states, steps, successes, i - 1);
      assert Next(states[i - 1], steps[i - 1], states[i], 1, successes);
      StepIsVoteSafe(states[i - 1], steps[i - 1]);
    }
  }

  /** Two nodes keep their invariants in every state of every run, however old the replies. */
  lemma {:induction false} PairsAreSafe(states: seq<System>, steps: seq<Step>, votes: nat, successes: nat, i: nat)
    requires Run(states, steps, votes, successes) && i < |states| && |states[0].nodes| <= 2
    ensures PairSafe(states[i]) && |states[i].nodes| <= 2
  {
    hide PairSafe, Init, Enabled, Apply, VotesWithin, SuccessesWithin;
    if i == 0 {
      InitIsPairSafe(states[0]);
    } else {
      PairsAreSafe(states, steps, votes, successes, i - 1);
      assert Next(states[i - 1], steps[i - 1], states[i], votes, successes);
      StepKeepsPairSafe(states[i - 1], steps[i - 1]);
    }
  }

  /** There is one leader a term, and the logs are canonical, in every state of every such run. */
  lemma RunsAreLeaderSafe(states: seq<System>, steps: seq<Step>, votes: nat, successes: nat, i: nat)
    requires Run(states, steps, votes, successes) && i < |states| && VotesHarmless(states, votes)
    ensures LeaderSafe(states[i])
  {
    hide Run, ElectionInv, LogBase, LeaderInv, AppendsNamed;
    if votes <= 1 {
      RunLoosens(states, steps, votes, successes, 1, successes);
      RunsAreVoteSafe(states, steps, successes, i);
      WonIsLed(states[i]);
    } else {
      PairsAreSafe(states, steps, votes, successes, i);
    }
  }

  lemma {:induction false} RunsAreSafe(states: seq<System>, steps: seq<Step>, i: nat)
    requires Run(states, steps, 1, 1) && i < |states|
    ensures Safe(states[i])
  {
    hide Safe, VoteSafe, Init, Enabled, Apply, VotesWithin, SuccessesWithin;
    if i == 0 {
      InitIsSafe(states[0]);
    } else {
      RunsAreSafe(states, steps, i - 1);
      assert Next(states[i - 1], steps[i - 1], states[i], 1, 1);
      StepIsSafe(states[i - 1], steps[i - 1]);
    }
  }

  ghost predicate HistoryWithin(s: System, t: System) {
    s.nodes.Keys == t.nodes.Keys && s.elections <= t.elections && s.acks <= t.acks && Extends(s.leaderLog, t.leaderLog)
  }

  lemma HistoryHasElections(s: System, t: System)
    requires HistoryWithin(s, t)
    ensures s.elections <= t.elections
  {
  }

  lemma HistoryReflexive(s: System)
    ensures HistoryWithin(s, s)
  {
  }

  lemma HistoryTransitive(s: System, t: System, u: System)
    requires HistoryWithin(s, t) && HistoryWithin(t, u)
    ensures HistoryWithin(s, u)
  {
  }

  lemma StepAddsHistory(s: System, step: Step)
    requires Enabled(s, step) && Extends(s.leaderLog, Apply(s, step).leaderLog)
    ensures HistoryWithin(s, Apply(s, step))
  {
    hide Extends, HandleAppend, HandleVote, HandleAppendReply, CountVote, ProposeEntry, BecomeCandidate, OpenRound;
    assert Apply(s, step).nodes.Keys == s.nodes.Keys;
  }

  lemma {:induction false} HistoryGrowsAlong(states: seq<System>, steps: seq<Step>, votes: nat, successes: nat,
                                             i: nat, k: nat)
    requires Run(states, steps, votes, successes) && i <= k < |states| && VotesHarmless(states, votes)
    ensures HistoryWithin(states[i], states[k])
    decreases k - i
  {
    hide HistoryWithin, LeaderSafe, Init, Enabled, Apply, VotesWithin, SuccessesWithin;
    if i == k {
      HistoryReflexive(states[i]);
    } else {
      HistoryGrowsAlong(states, steps, votes, successes, i, k - 1);
      RunsAreLeaderSafe(states, steps, votes, successes, k - 1);
      RunsAreLeaderSafe(states, steps, votes, successes, k);
      assert Next(states[k - 1], steps[k - 1], states[k], votes, successes);
      StepGrowsHistory(states[k - 1], steps[k - 1]);
      HistoryTransitive(states[i], states[k - 1], states[k]);
    }
  }

  lemma StepGrowsHistory(s: System, step: Step)
    requires LeaderSafe(s) && Enabled(s, step) && LeaderSafe(Apply(s, step))
    ensures HistoryWithin(s, Apply(s, step))
  {
    hide LogBase, Enabled, Apply, AppendsNamed, HistoryWithin;
    StepKeepsBase(s, step);
    StepAddsHistory(s, step);
  }

  // ----- 5.2 ------------------------------------------------------------------------

  /** At most one node is ever leader in a term, however far apart in the run. */
  lemma ElectionSafety(states: seq<System>, steps: seq<Step>, votes: nat, successes: nat,
                       i: nat, k: nat, a: NodeId, b: NodeId, term: int)
    requires Run(states, steps, votes, successes) && VotesHarmless(states, votes) && i < |states| && k < |states|
    requires LeadsIn(states[i], a, term) && LeadsIn(states[k], b, term)
    ensures a == b
  {
    var last := if i < k then k else i;
    HistoryGrowsAlong(states, steps, votes, successes, i, last);
    HistoryGrowsAlong(states, steps, votes, successes, k, last);
    RunsAreLeaderSafe(states, steps, votes, successes, i);
    RunsAreLeaderSafe(states, steps, votes, successes, k);
    RunsAreLeaderSafe(states, steps, votes, successes, last);
    assert HasElection(states[i].elections, term, a);
    assert HasElection(states[k].elections, term, b);
  }

  // ----- 5.3 ------------------------------------------------------------------------

  /** A leader never deletes or overwrites an entry of its own log while it leads. */
  lemma LeaderAppendOnly(states: seq<System>, steps: seq<Step>, votes: nat, successes: nat,
                         i: nat, k: nat, n: NodeId, term: int)
    requires Run(states, steps, votes, successes) && VotesHarmless(states, votes) && i <= k < |states|
    requires LeadsIn(states[i], n, term) && LeadsIn(states[k], n, term)
    ensures states[i].nodes[n].log <= states[k].nodes[n].log
  {
    HistoryGrowsAlong(states, steps, votes, successes, i, k);
    RunsAreLeaderSafe(states, steps, votes, successes, i);
    RunsAreLeaderSafe(states, steps, votes, successes, k);
  }

  /**
   * If the log of `a` at one time and the log of `b` at another have an entry of the
   * same term at the same place, they are identical up to it; and the entry at place
   * `p` has index p + 1.
   */
  lemma LogMatching(states: seq<System>, steps: seq<Step>, votes: nat, successes: nat,
                    i: nat, k: nat, a: NodeId, b: NodeId, p: nat)
    requires Run(states, steps, votes, successes) && VotesHarmless(states, votes) && i < |states| && k < |states|
    requires a in states[i].nodes && b in states[k].nodes
    requires p < |states[i].nodes[a].log| && p < |states[k].nodes[b].log|
    requires states[i].nodes[a].log[p].term == states[k].nodes[b].log[p].term
    ensures states[i].nodes[a].log[..p + 1] == states[k].nodes[b].log[..p + 1]
    ensures states[i].nodes[a].log[p].index == p + 1
  {
    var last := if i < k then k else i;
    GoodAt(states, steps, votes, successes, i, last, a);
    GoodAt(states, steps, votes, successes, k, last, b);
    SameTermSamePrefix(states[last].leaderLog, states[i].nodes[a].log, states[k].nodes[b].log, p);
  }

  lemma GoodAt(states: seq<System>, steps: seq<Step>, votes: nat, successes: nat, i: nat, last: nat, n: NodeId)
    requires Run(states, steps, votes, successes) && VotesHarmless(states, votes)
    requires i <= last < |states| && n in states[i].nodes
    ensures GoodLog(states[last].leaderLog, states[i].nodes[n].log, states[i].nodes[n].currentTerm)
  {
    RunsAreLeaderSafe(states, steps, votes, successes, i);
    HistoryGrowsAlong(states, steps, votes, successes, i, last);
    GoodGrows(states[i].leaderLog, states[last].leaderLog, states[i].nodes[n].log, states[i].nodes[n].currentTerm);
  }

  lemma RecentRepliesAreSound(states: seq<System>, steps: seq<Step>, i: nat, l: NodeId, p: NodeId)
    requires Run(states, steps, 1, 1) && i < |states|
    requires l in states[i].nodes && states[i].nodes[l].role == Leader
    requires p in states[i].nodes && p in states[i].nodes[l].peers
    requires states[i].nodes[p].currentTerm == states[i].nodes[l].currentTerm
    ensures var s := states[i]; var k := At(s.nodes[l].matchIndex, p);
            0 < k ==> k <= |s.nodes[l].log| && k <= |s.nodes[p].log| && s.nodes[p].log[..k] == s.nodes[l].log[..k]
  {
    RunsAreSafe(states, steps, i);
    var s := states[i];
    var k := At(s.nodes[l].matchIndex, p);
    if 0 < k {
      assert MatchBacked(s.nodes[l], s.acks);
      var a := Ack(s.nodes[l].currentTerm, p, k);
      assert AckKept(s.nodes, s.leaderLog, a);
      assert Holds(s.nodes[p].log, s.leaderLog, a.term, k - 1);
    }
  }

  /** What one of two nodes has recorded of the other is in both logs. */
  lemma BookedBetweenTwo(states: seq<System>, steps: seq<Step>, votes: nat, successes: nat,
                         i: nat, l: NodeId, p: NodeId)
    requires Run(states, steps, votes, successes) && i < |states| && |states[0].nodes| <= 2
    requires l in states[i].nodes && p in states[i].nodes && p in states[i].nodes[l].peers
    ensures var s := states[i]; var k := At(s.nodes[l].matchIndex, p);
            0 <= k <= |s.nodes[l].log| && k <= |s.nodes[p].log| && s.nodes[p].log[..k] == s.nodes[l].log[..k]
  {
    hide Run, PairInv, LogInv;
    PairsAreSafe(states, steps, votes, successes, i);
    assert Booked(states[i].nodes, states[i].nodes[l]);
    assert Agree(states[i].nodes, At(states[i].nodes[l].matchIndex, p));
  }

  /** A peer still in the leader's term agrees with the leader up to what the leader recorded for it. */
  lemma ReplicationSound(states: seq<System>, steps: seq<Step>, votes: nat, successes: nat,
                         i: nat, l: NodeId, p: NodeId)
    requires Run(states, steps, votes, successes) && RepliesHarmless(states, votes, successes) && i < |states|
    requires l in states[i].nodes && states[i].nodes[l].role == Leader
    requires p in states[i].nodes && p in states[i].nodes[l].peers
    requires states[i].nodes[p].currentTerm == states[i].nodes[l].currentTerm
    ensures var s := states[i]; var k := At(s.nodes[l].matchIndex, p);
            0 < k ==> k <= |s.nodes[l].log| && k <= |s.nodes[p].log| && s.nodes[p].log[..k] == s.nodes[l].log[..k]
  {
    hide Run;
    if votes <= 1 && successes <= 1 {
      RunLoosens(states, steps, votes, successes, 1, 1);
      RecentRepliesAreSound(states, steps, i, l, p);
    } else {
      BookedBetweenTwo(states, steps, votes, successes, i, l, p);
    }
  }

  // ----- 5.4 -------------------------------------------------------------------------

  /** The leader `l` proposed place `j` in its term, and it and the peers it has heard from make a quorum. */
  ghost predicate Replicated(n: Node, j: int) {
    && n.role == Leader && 0 <= j < |n.log| && n.log[j].term == n.currentTerm
    && CheckQuorum(n.peers, 1 + |Matching(n, j)|)
  }

  function Matching(n: Node, j: int): set<NodeId> {
    set p | p in n.peers && At(n.matchIndex, p) >= j + 1
  }

  lemma ReplicatedIsHeld(s: System, l: NodeId, j: nat)
    requires Safe(s) && l in s.nodes && Replicated(s.nodes[l], j)
    ensures var q := {l} + Matching(s.nodes[l], j);
            IsMajority(q, s.nodes.Keys) && HeldBy(s.acks, q, s.nodes[l].currentTerm, j)
  {
    var n := s.nodes[l];
    var q := {l} + Matching(n, j);
    assert s.nodes.Keys == n.peers + {l};
    assert |q| == 1 + |Matching(n, j)|;
    QuorumIsMajority(l, n.peers, q);
    forall v | v in q
      ensures exists a :: a in s.acks && a.node == v && a.term == n.currentTerm && a.upto > j
    {
      if v == l {
        assert Ack(n.currentTerm, l, j + 1) in s.acks;
      } else {
        assert MatchBacked(n, s.acks);
        assert Ack(n.currentTerm, v, At(n.matchIndex, v)) in s.acks;
      }
    }
  }

  /** A leader's log starts with the log it was elected with. */
  lemma LeaderElection(t: System, m: NodeId) returns (e: Election)
    requires Safe(t) && m in t.nodes && t.nodes[m].role == Leader
    ensures e in t.elections && e.term == t.nodes[m].currentTerm && e.log <= t.nodes[m].log
  {
    assert HasElection(t.elections, t.nodes[m].currentTerm, m);
    e :| e in t.elections && e.term == t.nodes[m].currentTerm && e.leader == m;
    assert Grown(t.leaderLog, e);
  }

  /** What a quorum held at some time it is still known to have held later. */
  lemma ReplicatedLater(s: System, l: NodeId, j: nat, u: System) returns (q: set<NodeId>)
    requires Safe(s) && l in s.nodes && Replicated(s.nodes[l], j) && HistoryWithin(s, u)
    ensures IsMajority(q, u.nodes.Keys) && HeldBy(u.acks, q, s.nodes[l].currentTerm, j)
    ensures var term := s.nodes[l].currentTerm;
            term in u.leaderLog && j < |u.leaderLog[term]| && u.leaderLog[term][j].term == term
            && u.leaderLog[term][..j + 1] == s.nodes[l].log[..j + 1]
  {
    q := {l} + Matching(s.nodes[l], j);
    ReplicatedIsHeld(s, l, j);
    var term := s.nodes[l].currentTerm;
    PrefixOf(s.leaderLog[term], u.leaderLog[term], j);
    forall v | v in q
      ensures exists a :: a in u.acks && a.node == v && a.term == term && a.upto > j
    {
      var a :| a in s.acks && a.node == v && a.term == term && a.upto > j;
      assert a in u.acks;
    }
  }

  lemma RecentRepliesAreComplete(states: seq<System>, steps: seq<Step>, i: nat, k: nat, l: NodeId, m: NodeId, j: nat)
    requires Run(states, steps, 1, 1) && i < |states| && k < |states|
    requires l in states[i].nodes && Replicated(states[i].nodes[l], j)
    requires m in states[k].nodes && states[k].nodes[m].role == Leader
    requires states[k].nodes[m].currentTerm > states[i].nodes[l].currentTerm
    ensures j < |states[k].nodes[m].log|
    ensures states[k].nodes[m].log[..j + 1] == states[i].nodes[l].log[..j + 1]
  {
    var last := if i < k then k else i;
    RunsAreSafe(states, steps, i);
    RunsAreSafe(states, steps, k);
    RunsAreSafe(states, steps, last);
    HistoryGrowsAlong(states, steps, 1, 1, i, last);
    HistoryGrowsAlong(states, steps, 1, 1, k, last);
    CompleteIn(states[i], states[k], states[last], l, m, j);
  }

  lemma CompleteIn(s: System, t: System, u: System, l: NodeId, m: NodeId, j: nat)
    requires Safe(s) && Safe(t) && Safe(u) && HistoryWithin(s, u) && HistoryWithin(t, u)
    requires l in s.nodes && Replicated(s.nodes[l], j)
    requires m in t.nodes && t.nodes[m].role == Leader && t.nodes[m].currentTerm > s.nodes[l].currentTerm
    ensures j < |t.nodes[m].log| && t.nodes[m].log[..j + 1] == s.nodes[l].log[..j + 1]
  {
    var q := ReplicatedLater(s, l, j, u);
    var e := LeaderElection(t, m);
    LaterLeadersHold(u, q, s.nodes[l].currentTerm, j, e);
    PrefixOf(e.log, t.nodes[m].log, j);
  }

  lemma PrefixOf(a: Log, b: Log, j: nat)
    requires a <= b && j < |a|
    ensures a[..j + 1] == b[..j + 1] && a[j] == b[j]
  {
  }

  lemma PeersOf(s: System, n: NodeId)
    requires PairSafe(s) && n in s.nodes
    ensures s.nodes.Keys == s.nodes[n].peers + {n} && Booked(s.nodes, s.nodes[n])
  {
  }

  lemma AloneAgrees(nodes: map<NodeId, Node>, n: NodeId, k: nat)
    requires nodes.Keys == {n} && k <= |nodes[n].log|
    ensures Agree(nodes, k)
  {
    assert forall m :: m in nodes ==> m in nodes.Keys;
  }

  lemma QuorumHasPeer(n: Node, j: nat) returns (q: NodeId)
    requires Replicated(n, j) && n.peers != {}
    ensures q in n.peers && At(n.matchIndex, q) >= j + 1
  {
    var p :| p in n.peers;
    SubsetSize({p}, n.peers);
    assert |Matching(n, j)| >= 1;
    q :| q in Matching(n, j);
  }

  /** Between two nodes, all logs begin with what one of them has on a quorum. */
  lemma ReplicatedIsAgreed(s: System, l: NodeId, j: nat)
    requires PairSafe(s) && l in s.nodes && Replicated(s.nodes[l], j)
    ensures Agree(s.nodes, j + 1)
  {
    hide PairSafe, Agree, CheckQuorum;
    PeersOf(s, l);
    if s.nodes[l].peers == {} {
      AloneAgrees(s.nodes, l, j + 1);
    } else {
      var q := QuorumHasPeer(s.nodes[l], j);
      AgreedBelow(s.nodes, At(s.nodes[l].matchIndex, q), j + 1);
    }
  }

  lemma AgreedBelow(nodes: map<NodeId, Node>, k: int, below: nat)
    requires Agree(nodes, k) && below <= k
    ensures Agree(nodes, below)
  {
    forall n, m | n in nodes && m in nodes
      ensures nodes[n].log[..below] == nodes[m].log[..below]
    {
      assert nodes[n].log[..below] == nodes[n].log[..k][..below];
      assert nodes[m].log[..below] == nodes[m].log[..k][..below];
    }
  }

  lemma {:induction false} AgreedStaysAlong(states: seq<System>, steps: seq<Step>, votes: nat, successes: nat,
                                            i: nat, k: nat)
    requires Run(states, steps, votes, successes) && i <= k < |states| && |states[0].nodes| <= 2
    ensures AgreedStays(states[i].nodes, states[k].nodes)
    decreases k - i
  {
    hide AgreedStays, PairSafe, Init, Enabled, Apply, VotesWithin, SuccessesWithin;
    if i == k {
      StaysReflexive(states[i].nodes);
    } else {
      AgreedStaysAlong(states, steps, votes, successes, i, k - 1);
      PairsAreSafe(states, steps, votes, successes, k - 1);
      assert Next(states[k - 1], steps[k - 1], states[k], votes, successes);
      StepKeepsPairSafe(states[k - 1], steps[k - 1]);
      AgreedStaysOn(states[i].nodes, states[k - 1].nodes, states[k].nodes);
    }
  }

  lemma StaysReflexive(nodes: map<NodeId, Node>)
    ensures AgreedStays(nodes, nodes)
  {
  }

  /** Of two nodes, the one that leads a later term leads it still. */
  lemma LeadsSince(s: System, e: Election, l: NodeId)
    requires PairSafe(s) && e in s.elections && l in s.nodes && e.term > s.nodes[l].currentTerm
    ensures e.leader in s.nodes && s.nodes[e.leader].currentTerm == e.term && s.nodes[e.leader].role == Leader
    ensures e.term in s.leaderLog && s.nodes[e.leader].log == s.leaderLog[e.term] && Grown(s.leaderLog, e)
  {
    hide Grown, AppendOk, GoodLog, Agree;
    assert Led(s.nodes, e);
    assert Paired(s.nodes[e.leader], s.nodes[l]);
  }

  /** Its older entries are those it was elected with. */
  lemma OlderAreElected(logs: TermLogs, e: Election, log: Log, later: Log, j: nat)
    requires e.term in logs && Grown(logs, e) && later == logs[e.term] && e.log <= log
    requires j < |later| && later[j].term < e.term
    ensures j < |log| && log[..j + 1] == later[..j + 1]
  {
    PrefixOf(e.log, log, j);
    assert e.log[..j + 1] == later[..|e.log|][..j + 1] == later[..j + 1];
  }

  lemma EarlierLeaderHas(t: System, s: System, l: NodeId, m: NodeId, j: nat)
    requires PairSafe(s) && LeaderSafe(t) && t.elections <= s.elections
    requires l in s.nodes && Replicated(s.nodes[l], j) && Agree(s.nodes, j + 1)
    requires m in t.nodes && t.nodes[m].role == Leader && t.nodes[m].currentTerm > s.nodes[l].currentTerm
    ensures j < |t.nodes[m].log| && t.nodes[m].log[..j + 1] == s.nodes[l].log[..j + 1]
  {
    hide PairSafe, LeaderSafe, Grown, CheckQuorum;
    var e := LeaderElected(t, m);
    LeadsSince(s, e, l);
    var later := s.nodes[m].log;
    assert later[j] == later[..j + 1][j] == s.nodes[l].log[..j + 1][j];
    OlderAreElected(s.leaderLog, e, t.nodes[m].log, later, j);
  }

  lemma LeaderElected(t: System, m: NodeId) returns (e: Election)
    requires LeaderSafe(t) && m in t.nodes && t.nodes[m].role == Leader
    ensures e in t.elections && e.term == t.nodes[m].currentTerm && e.leader == m && e.log <= t.nodes[m].log
  {
    assert HasElection(t.elections, t.nodes[m].currentTerm, m);
    e :| e in t.elections && e.term == t.nodes[m].currentTerm && e.leader == m;
    assert Grown(t.leaderLog, e);
  }

  lemma CompleteBetweenTwo(states: seq<System>, steps: seq<Step>, votes: nat, successes: nat,
                           i: nat, k: nat, l: NodeId, m: NodeId, j: nat)
    requires Run(states, steps, votes, successes) && |states[0].nodes| <= 2 && i < |states| && k < |states|
    requires l in states[i].nodes && Replicated(states[i].nodes[l], j)
    requires m in states[k].nodes && states[k].nodes[m].role == Leader
    requires states[k].nodes[m].currentTerm > states[i].nodes[l].currentTerm
    ensures j < |states[k].nodes[m].log|
    ensures states[k].nodes[m].log[..j + 1] == states[i].nodes[l].log[..j + 1]
  {
    hide Run, PairSafe, LeaderSafe, Replicated, HistoryWithin;
    PairsAreSafe(states, steps, votes, successes, i);
    ReplicatedIsAgreed(states[i], l, j);
    if i <= k {
      AgreedStaysAlong(states, steps, votes, successes, i, k);
      assert m in states[i].nodes.Keys;
    } else {
      RunsAreLeaderSafe(states, steps, votes, successes, k);
      HistoryGrowsAlong(states, steps, votes, successes, k, i);
      HistoryHasElections(states[k], states[i]);
      EarlierLeaderHas(states[k], states[i], l, m, j);
    }
  }

  /**
   * An entry that the leader of a term proposed in that term, and that was on a quorum
   * by the leader's own books at some time of the run, is in the log of every leader
   * of a later term, at the same place, at every time of the run.
   */
  lemma LeaderCompleteness(states: seq<System>, steps: seq<Step>, votes: nat, successes: nat,
                           i: nat, k: nat, l: NodeId, m: NodeId, j: nat)
    requires Run(states, steps, votes, successes) && RepliesHarmless(states, votes, successes)
    requires i < |states| && k < |states|
    requires l in states[i].nodes && Replicated(states[i].nodes[l], j)
    requires m in states[k].nodes && states[k].nodes[m].role == Leader
    requires states[k].nodes[m].currentTerm > states[i].nodes[l].currentTerm
    ensures j < |states[k].nodes[m].log|
    ensures states[k].nodes[m].log[..j + 1] == states[i].nodes[l].log[..j + 1]
  {
    hide Run, Replicated;
    if votes <= 1 && successes <= 1 {
      RunLoosens(states, steps, votes, successes, 1, 1);
      RecentRepliesAreComplete(states, steps, i, k, l, m, j);
    } else {
      CompleteBetweenTwo(states, steps, votes, successes, i, k, l, m, j);
    }
  }

  // ----- What holds of every run -----------------------------------------------------------

  ghost predicate Uncommitted(s: System) {
    && (forall n :: n in s.nodes ==> s.nodes[n].commitIndex == 0)
    && (forall m :: m in s.msgs && (m.AppendReq? || m.AppendResp?) ==> m.aargs.leaderCommit == 0)
  }

  lemma HandlersCommitNothing(n: Node, vargs: VoteArgs, args: AppendArgs, p: NodeId, reply: AppendReply)
    requires n.commitIndex == 0
    ensures HandleVote(n, vargs).0.commitIndex == 0 && HandleAppendReply(n, p, args.entries, reply).commitIndex == 0
    ensures ValidEntries(args.entries) && args.leaderCommit == 0 ==> HandleAppend(n, args).0.commitIndex == 0
  {
  }

  lemma OthersCommitNothing(n: Node, r: nat, from: NodeId, command: string, now: int)
    requires n.commitIndex == 0
    ensures r < |n.rounds| ==> CountVote(n, r, from).commitIndex == 0
    ensures ProposeEntry(n, command, now).commitIndex == 0
    ensures BecomeCandidate(n).commitIndex == 0 && OpenRound(n).commitIndex == 0
  {
  }

  lemma StepCommitsNothing(s: System, step: Step)
    requires Uncommitted(s) && Enabled(s, step)
    ensures Uncommitted(Apply(s, step))
  {
    hide HandleVote, HandleAppend, HandleAppendReply, CountVote, ProposeEntry, BecomeCandidate, OpenRound;
    var none := AppendArgs(0, "", 0, 0, [], 0);
    match step
    case CountReply(m) => OthersCommitNothing(s.nodes[m.vargs.candidateId], m.round, m.from, "", 0);
    case Propose(n, command, now) => OthersCommitNothing(s.nodes[n], 0, "", command, now);
    case Timeout(n) => OthersCommitNothing(s.nodes[n], 0, "", "", 0);
    case StartElection(n) => OthersCommitNothing(s.nodes[n], 0, "", "", 0);
    case AnswerVote(m) => HandlersCommitNothing(s.nodes[m.to], m.vargs, none, "", AppendReply(0, false));
    case AnswerAppend(m) =>
      HandlersCommitNothing(s.nodes[m.to], VoteArgsOf(s.nodes[m.to]), m.aargs, "", AppendReply(0, false));
    case AppendReplied(m) =>
      HandlersCommitNothing(s.nodes[m.aargs.leaderId], VoteArgsOf(s.nodes[m.aargs.leaderId]), m.aargs, m.from,
        m.areply);
    case _ =>
  }

  /** The leader never advances its commit index, so no node of any run ever commits. */
  lemma {:induction false} NothingCommits(states: seq<System>, steps: seq<Step>, votes: nat, successes: nat, i: nat)
    requires Run(states, steps, votes, successes) && i < |states|
    ensures Uncommitted(states[i])
  {
    if i > 0 {
      hide Uncommitted, Init, Enabled, Apply, VotesWithin, SuccessesWithin;
      NothingCommits(states, steps, votes, successes, i - 1);
      assert Next(states[i - 1], steps[i - 1], states[i], votes, successes);
      StepCommitsNothing(states[i - 1], steps[i - 1]);
    }
  }
}
