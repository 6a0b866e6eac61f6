/**
 * Leader Completeness. Whoever held a position of the leader's log in term T still
 * holds it, or was overwritten by a later leader whose own log conflicts with it. A
 * voter that still holds the position forces it into the log of the candidate it votes
 * for. So if a majority held the position, the first later leader without it would
 * need an even earlier one: there is none.
 */
module RaftCompleteness {
  import opened RaftNode
  import opened RaftSystem
  import opened RaftElection
  import opened RaftAge
  import opened RaftLogs

  /** `log` has the leader's log of `term` up to and including place `j`. */
  ghost predicate Holds(log: Log, logs: TermLogs, term: int, j: int)
    requires term in logs && 0 <= j < |logs[term]|
  {
    j < |log| && log[..j + 1] == logs[term][..j + 1]
  }

  /** The leader logs of `later` and `term` differ at or before place `j`. */
  ghost predicate Conflict(logs: TermLogs, later: int, term: int, j: int) {
    && later in logs && term in logs
    && exists i :: 0 <= i <= j && i < |logs[later]| && i < |logs[term]| && logs[later][i] != logs[term][i]
  }

  /** Some leader after `term` and no later than `upto` conflicts. */
  ghost predicate Overwritten(logs: TermLogs, term: int, j: int, upto: int) {
    exists later :: term < later <= upto && Conflict(logs, later, term, j)
  }

  ghost predicate KeptUpTo(log: Log, logs: TermLogs, term: int, k: int, upto: int) {
    && term in logs && 0 <= k <= |logs[term]|
    && forall j :: 0 <= j < k ==> Holds(log, logs, term, j) || Overwritten(logs, term, j, upto)
  }

  ghost predicate AckKept(nodes: map<NodeId, Node>, logs: TermLogs, a: Ack) {
    && a.node in nodes && a.term <= nodes[a.node].currentTerm
    && KeptUpTo(nodes[a.node].log, logs, a.term, a.upto, nodes[a.node].currentTerm)
  }

  ghost predicate AcksKept(nodes: map<NodeId, Node>, logs: TermLogs, acks: set<Ack>) {
    forall a :: a in acks ==> AckKept(nodes, logs, a)
  }

  /** The voter's log at the time of its vote: good, kept, and not ahead of the candidate's. */
  ghost predicate GrantGood(logs: TermLogs, g: Grant) {
    GoodLog(logs, g.log, g.term) && UpToDate(g.lastIndex, g.lastTerm, g.log)
  }

  ghost predicate GrantKept(logs: TermLogs, g: Grant, a: Ack) {
    a.node == g.voter && a.term < g.term ==> KeptUpTo(g.log, logs, a.term, a.upto, g.term)
  }

  ghost predicate GrantsKept(logs: TermLogs, grants: set<Grant>, acks: set<Ack>) {
    && (forall g :: g in grants ==> GrantGood(logs, g))
    && (forall g, a :: g in grants && a in acks ==> GrantKept(logs, g, a))
  }

  /** While it stands, a candidate's log is the one it advertised. */
  ghost predicate Advertised(nodes: map<NodeId, Node>, cand: NodeId, term: int, lastIndex: int, lastTerm: int) {
    && cand in nodes && term <= nodes[cand].currentTerm
    && (nodes[cand].role == Candidate && nodes[cand].currentTerm == term ==>
          lastIndex == LastIndex(nodes[cand].log) && lastTerm == LastTerm(nodes[cand].log))
  }

  ghost predicate Advertisements(nodes: map<NodeId, Node>, grants: set<Grant>, msgs: set<Msg>) {
    && (forall g :: g in grants ==> Advertised(nodes, g.cand, g.term, g.lastIndex, g.lastTerm))
    && (forall m :: m in msgs && m.VoteReq? ==>
          Advertised(nodes, m.vargs.candidateId, m.vargs.term, m.vargs.lastLogIndex, m.vargs.lastLogTerm))
  }

  /** An entry of an earlier term acknowledged by a voter is in the new leader's log, or was overwritten in between. */
  ghost predicate Carries(logs: TermLogs, e: Election, a: Ack) {
    a.node in e.voters && a.term < e.term ==>
      && a.term in logs && 0 <= a.upto <= |logs[a.term]|
      && forall j :: 0 <= j < a.upto && logs[a.term][j].term == a.term ==>
           Holds(e.log, logs, a.term, j) || Overwritten(logs, a.term, j, e.term - 1)
  }

  ghost predicate ElectionsCarry(logs: TermLogs, elections: set<Election>, acks: set<Ack>) {
    forall e, a :: e in elections && a in acks ==> Carries(logs, e, a)
  }

  /** What a leader has recorded about a peer is something the peer acknowledged in this term. */
  ghost predicate MatchBacked(n: Node, acks: set<Ack>) {
    n.role == Leader ==>
      forall p :: p in n.peers && At(n.matchIndex, p) > 0 ==> Ack(n.currentTerm, p, At(n.matchIndex, p)) in acks
  }

  ghost predicate MatchesBacked(nodes: map<NodeId, Node>, acks: set<Ack>) {
    forall n :: n in nodes ==> MatchBacked(nodes[n], acks)
  }

  ghost predicate ReplyBacked(acks: set<Ack>, m: Msg) {
    m.AppendResp? && m.areply.success && |m.aargs.entries| > 0 ==>
      Ack(m.aargs.term, m.from, LastIndex(m.aargs.entries)) in acks
  }

  ghost predicate RepliesBacked(msgs: set<Msg>, acks: set<Ack>) {
    forall m :: m in msgs ==> ReplyBacked(acks, m)
  }

  /** A leader acknowledges its own proposals. */
  ghost predicate ProposalsAcked(nodes: map<NodeId, Node>, acks: set<Ack>) {
    forall n, j :: n in nodes && nodes[n].role == Leader && 0 <= j < |nodes[n].log|
                   && nodes[n].log[j].term == nodes[n].currentTerm ==>
      Ack(nodes[n].currentTerm, n, j + 1) in acks
  }

  ghost predicate AckInv(s: System) {
    && AcksKept(s.nodes, s.leaderLog, s.acks)
    && GrantsKept(s.leaderLog, s.grants, s.acks)
    && Advertisements(s.nodes, s.grants, s.msgs)
    && ElectionsCarry(s.leaderLog, s.elections, s.acks)
    && MatchesBacked(s.nodes, s.acks)
    && RepliesBacked(s.msgs, s.acks)
    && ProposalsAcked(s.nodes, s.acks)
  }

  // ----- The theorem, in one state ------------------------------------------------

  /** Every node of `q` acknowledged place `j` in `term`. */
  ghost predicate HeldBy(acks: set<Ack>, q: set<NodeId>, term: int, j: int) {
    forall v :: v in q ==> exists a :: a in acks && a.node == v && a.term == term && a.upto > j
  }

  lemma HoldsOrConflicts(logs: TermLogs, later: int, term: int, j: nat)
    requires later in logs && term in logs && j < |logs[term]|
    requires Holds(logs[later], logs, term, j)
    ensures !Conflict(logs, later, term, j)
  {
    forall i | 0 <= i <= j && i < |logs[later]|
      ensures logs[later][i] == logs[term][i]
    {
      assert logs[later][..j + 1][i] == logs[term][..j + 1][i];
    }
  }

  /** A place of term `term` held by a majority is in the log of every later leader. */
  lemma {:induction false} LaterLeadersHold(s: System, q: set<NodeId>, term: int, j: nat, e: Election)
    requires ElectionInv(s) && LogInv(s) && AckInv(s)
    requires term in s.leaderLog && j < |s.leaderLog[term]| && s.leaderLog[term][j].term == term
    requires IsMajority(q, s.nodes.Keys) && HeldBy(s.acks, q, term, j)
    requires e in s.elections && e.term > term
    ensures Holds(e.log, s.leaderLog, term, j)
    ensures Holds(s.leaderLog[e.term], s.leaderLog, term, j)
    decreases e.term - term
  {
    var logs := s.leaderLog;
    assert Won(s.nodes, s.grants, e) && Grown(logs, e);
    var v := MajoritiesMeet(q, e.voters, s.nodes.Keys);
    var a :| a in s.acks && a.node == v && a.term == term && a.upto > j;
    assert Carries(logs, e, a);
    if !Holds(e.log, logs, term, j) {
      var later :| term < later <= e.term - 1 && Conflict(logs, later, term, j);
      var f :| f in s.elections && f.term == later;
      LaterLeadersHold(s, q, term, j, f);
      HoldsOrConflicts(logs, later, term, j);
    }
    assert e.log[..j + 1] == logs[e.term][..|e.log|][..j + 1];
  }

  // ----- What grows keeps ------------------------------------------------------------

  lemma KeptGrows(log: Log, logs: TermLogs, more: TermLogs, term: int, k: int, upto: int, later: int)
    requires KeptUpTo(log, logs, term, k, upto) && Extends(logs, more) && upto <= later
    ensures KeptUpTo(log, more, term, k, later)
  {
    forall j | 0 <= j < k
      ensures Holds(log, more, term, j) || Overwritten(more, term, j, later)
    {
      if Holds(log, logs, term, j) {
        assert logs[term] == more[term][..|logs[term]|];
      } else {
        var t :| term < t <= upto && Conflict(logs, t, term, j);
        ConflictGrows(logs, more, t, term, j);
      }
    }
  }

  lemma ConflictGrows(logs: TermLogs, more: TermLogs, later: int, term: int, j: int)
    requires Conflict(logs, later, term, j) && Extends(logs, more)
    ensures Conflict(more, later, term, j)
  {
    var i :| 0 <= i <= j && i < |logs[later]| && i < |logs[term]| && logs[later][i] != logs[term][i];
    assert more[later][i] == logs[later][i] && more[term][i] == logs[term][i];
  }

  lemma CarriesGrows(logs: TermLogs, more: TermLogs, e: Election, a: Ack)
    requires Carries(logs, e, a) && Extends(logs, more)
    ensures Carries(more, e, a)
  {
    if a.node in e.voters && a.term < e.term {
      assert logs[a.term] == more[a.term][..|logs[a.term]|];
      forall j | 0 <= j < a.upto && more[a.term][j].term == a.term
        ensures Holds(e.log, more, a.term, j) || Overwritten(more, a.term, j, e.term - 1)
      {
        if !Holds(e.log, logs, a.term, j) {
          var t :| a.term < t <= e.term - 1 && Conflict(logs, t, a.term, j);
          ConflictGrows(logs, more, t, a.term, j);
        }
      }
    }
  }

  /** The history kept by grants and elections survives growth of the leader logs. */
  lemma HistoryKept(s: System, more: TermLogs)
    requires AckInv(s) && Extends(s.leaderLog, more)
    ensures AcksKept(s.nodes, more, s.acks)
    ensures GrantsKept(more, s.grants, s.acks)
    ensures ElectionsCarry(more, s.elections, s.acks)
  {
    var logs := s.leaderLog;
    forall a | a in s.acks
      ensures AckKept(s.nodes, more, a)
    {
      assert AckKept(s.nodes, logs, a);
      KeptGrows(s.nodes[a.node].log, logs, more, a.term, a.upto, s.nodes[a.node].currentTerm,
        s.nodes[a.node].currentTerm);
    }
    forall g | g in s.grants
      ensures GrantGood(more, g)
    {
      assert GrantGood(logs, g);
      GoodGrows(logs, more, g.log, g.term);
    }
    forall g, a | g in s.grants && a in s.acks
      ensures GrantKept(more, g, a)
    {
      assert GrantKept(logs, g, a);
      if a.node == g.voter && a.term < g.term {
        KeptGrows(g.log, logs, more, a.term, a.upto, g.term, g.term);
      }
    }
    forall e, a | e in s.elections && a in s.acks
      ensures Carries(more, e, a)
    {
      assert Carries(logs, e, a);
      CarriesGrows(logs, more, e, a);
    }
  }

  // ----- Steps that change no log and no history of logs ------------------------------

  ghost predicate AckQuiet(n: Node, m: Node, acks: set<Ack>) {
    && m.log == n.log && m.currentTerm >= n.currentTerm
    && (m.role == Leader ==> n.role == Leader && m.currentTerm == n.currentTerm)
    && (m.role == Candidate ==> m.currentTerm > n.currentTerm || n.role == Candidate)
    && MatchBacked(m, acks)
  }

  lemma QuietKeepsAcks(nodes: map<NodeId, Node>, logs: TermLogs, acks: set<Ack>, n: NodeId, m: Node)
    requires n in nodes && AckQuiet(nodes[n], m, acks) && AcksKept(nodes, logs, acks)
    ensures AcksKept(nodes[n := m], logs, acks)
  {
    forall a | a in acks
      ensures AckKept(nodes[n := m], logs, a)
    {
      assert AckKept(nodes, logs, a);
      if a.node == n {
        KeptGrows(m.log, logs, logs, a.term, a.upto, nodes[n].currentTerm, m.currentTerm);
      }
    }
  }

  lemma QuietKeepsAds(nodes: map<NodeId, Node>, acks: set<Ack>, grants: set<Grant>, msgs: set<Msg>, n: NodeId, m: Node)
    requires n in nodes && AckQuiet(nodes[n], m, acks) && Advertisements(nodes, grants, msgs)
    ensures Advertisements(nodes[n := m], grants, msgs)
  {
  }

  lemma AckQuietKeeps(s: System, n: NodeId, m: Node, out: set<Msg>, t: System)
    requires AckInv(s) && n in s.nodes && AckQuiet(s.nodes[n], m, s.acks)
    requires t.nodes == s.nodes[n := m] && t.msgs == s.msgs + out
    requires t.grants == s.grants && t.elections == s.elections
    requires t.leaderLog == s.leaderLog && t.acks == s.acks
    requires Advertisements(t.nodes, {}, out) && RepliesBacked(out, s.acks)
    ensures AckInv(t)
  {
    QuietKeepsAcks(s.nodes, s.leaderLog, s.acks, n, m);
    QuietKeepsAds(s.nodes, s.acks, s.grants, s.msgs, n, m);
  }

  lemma SimpleHandlersAreAckQuiet(n: Node, acks: set<Ack>)
    requires MatchBacked(n, acks)
    ensures n.role == Follower ==> AckQuiet(n, BecomeCandidate(n), acks)
    ensures AckQuiet(n, OpenRound(n), acks)
    ensures AckQuiet(n, n, acks)
  {
  }

  lemma CountedIsAckQuiet(n: Node, r: nat, from: NodeId, acks: set<Ack>)
    requires r < |n.rounds| && MatchBacked(n, acks)
    ensures AckQuiet(n, Counted(n, r, from), acks)
  {
  }

  lemma ReplyIsAckQuiet(n: Node, p: NodeId, args: AppendArgs, reply: AppendReply, acks: set<Ack>)
    requires MatchBacked(n, acks)
    requires reply.success && |args.entries| > 0 ==> Ack(args.term, p, LastIndex(args.entries)) in acks
    requires n.role == Leader && reply.success && |args.entries| > 0 && reply.term <= n.currentTerm ==>
               args.term == n.currentTerm
    ensures AckQuiet(n, HandleAppendReply(n, p, args.entries, reply), acks)
  {
  }

  lemma QuietStepKeepsHeld(s: System, step: Step)
    requires AckInv(s) && Enabled(s, step) && FreshSuccess(s, step)
    requires step.Timeout? || step.StartElection? || step.AppendReplied?
    ensures AckInv(Apply(s, step))
  {
    var t := Apply(s, step);
    match step
    case Timeout(n) =>
      SimpleHandlersAreAckQuiet(s.nodes[n], s.acks);
      AckQuietKeeps(s, n, BecomeCandidate(s.nodes[n]), {}, t);
    case StartElection(n) =>
      SimpleHandlersAreAckQuiet(s.nodes[n], s.acks);
      AckQuietKeeps(s, n, OpenRound(s.nodes[n]), {}, t);
    case AppendReplied(m) =>
      var l := m.aargs.leaderId;
      assert ReplyBacked(s.acks, m);
      ReplyIsAckQuiet(s.nodes[l], m.from, m.aargs, m.areply, s.acks);
      AckQuietKeeps(s, l, HandleAppendReply(s.nodes[l], m.from, m.aargs.entries, m.areply), {}, t);
  }

  lemma SendKeepsHeld(s: System, step: Step)
    requires Cluster(s.nodes) && AckInv(s) && Enabled(s, step) && (step.AskVote? || step.SendAppend?)
    ensures AckInv(Apply(s, step))
  {
    var t := Apply(s, step);
    assert s.nodes[step.n := s.nodes[step.n]] == s.nodes;
    SimpleHandlersAreAckQuiet(s.nodes[step.n], s.acks);
    if step.SendAppend? {
      AckQuietKeeps(s, step.n, s.nodes[step.n], {AppendReq(step.p, AppendArgsOf(s.nodes[step.n], step.p))}, t);
    } else {
      AckQuietKeeps(s, step.n, s.nodes[step.n], {VoteReq(step.round, step.p, VoteArgsOf(s.nodes[step.n]))}, t);
    }
  }

  // ----- Granting a vote ----------------------------------------------------------------

  lemma VoteIsAckQuiet(n: Node, args: VoteArgs, acks: set<Ack>)
    requires MatchBacked(n, acks)
    requires (n.role != Follower ==> n.votedFor != NOBODY && n.votedFor != args.candidateId)
    ensures AckQuiet(n, HandleVote(n, args).0, acks)
    ensures HandleVote(n, args).1.granted ==>
              HandleVote(n, args).0.currentTerm == args.term >= n.currentTerm
              && UpToDate(args.lastLogIndex, args.lastLogTerm, n.log)
  {
  }

  /** A new grant records a log that is good, kept, and not ahead of the candidate's. */
  lemma GrantKeepsHeld(nodes: map<NodeId, Node>, logs: TermLogs, grants: set<Grant>, acks: set<Ack>, g: Grant)
    requires AcksKept(nodes, logs, acks) && GrantsKept(logs, grants, acks) && g.voter in nodes
    requires GoodLog(logs, nodes[g.voter].log, nodes[g.voter].currentTerm)
    requires g.log == nodes[g.voter].log && g.term >= nodes[g.voter].currentTerm
    requires UpToDate(g.lastIndex, g.lastTerm, g.log)
    ensures GrantsKept(logs, grants + {g}, acks)
  {
    forall a | a in acks
      ensures GrantKept(logs, g, a)
    {
      assert AckKept(nodes, logs, a);
      if a.node == g.voter {
        KeptGrows(g.log, logs, logs, a.term, a.upto, nodes[g.voter].currentTerm, g.term);
      }
    }
  }

  lemma AnswerVoteKeepsHeld(s: System, m: Msg)
    requires ElectionInv(s) && LogInv(s) && AckInv(s) && Enabled(s, AnswerVote(m))
    ensures AckInv(Apply(s, AnswerVote(m)))
  {
    var v, args := m.to, m.vargs;
    var n := s.nodes[v];
    assert VoteMsgOk(s.nodes, s.grants, m);
    var (node, reply) := HandleVote(n, args);
    var out := VoteResp(m.round, v, args, reply);
    var t := Apply(s, AnswerVote(m));
    VoteIsAckQuiet(n, args, s.acks);
    var mid := t.(grants := s.grants);
    AckQuietKeeps(s, v, node, {out}, mid);
    if reply.granted {
      var g := Grant(args.term, v, args.candidateId, args.lastLogIndex, args.lastLogTerm, n.log);
      GrantKeepsHeld(s.nodes, s.leaderLog, s.grants, s.acks, g);
      assert Advertised(mid.nodes, g.cand, g.term, g.lastIndex, g.lastTerm);
    }
  }

  // ----- A new leader ------------------------------------------------------------------------

  /** A voter that still holds an entry of its own term's leader forces it on the candidate. */
  lemma CandidateCarries(logs: TermLogs, elog: Log, vlog: Log, vbound: int, term: int, j: nat, won: int)
    requires GoodTermLogs(logs) && GoodLog(logs, elog, won - 1) && GoodLog(logs, vlog, vbound)
    requires UpToDate(LastIndex(elog), LastTerm(elog), vlog)
    requires term in logs && j < |logs[term]| && logs[term][j].term == term && Holds(vlog, logs, term, j)
    ensures Holds(elog, logs, term, j) || Overwritten(logs, term, j, won - 1)
  {
    assert vlog[j] == vlog[..j + 1][j] == logs[term][j];
    TermsAscend(logs, vlog, j, |vlog| - 1);
    var last := LastTerm(elog);
    assert FromTerm(logs, elog, |elog| - 1);
    assert elog == elog[..|elog|];
    if last == LastTerm(vlog) {
      assert FromTerm(logs, vlog, |vlog| - 1);
      assert vlog == vlog[..|vlog|];
      assert elog[..j + 1] == vlog[..j + 1];
    } else if !Holds(elog, logs, term, j) {
      var i := FirstDifference(elog, logs[term], j);
      assert logs[last][i] == elog[i];
      assert Conflict(logs, last, term, j);
    }
  }

  /**
   * A log whose last entry is of a later term than anything in `base`, and which does not
   * contain `base` up to `j`, differs from it at or before `j`.
   */
  lemma FirstDifference(log: Log, base: Log, j: nat) returns (i: nat)
    requires |log| > 0 && j < |base| && !(j < |log| && log[..j + 1] == base[..j + 1])
    requires forall k :: 0 <= k < |base| ==> base[k].term < LastTerm(log)
    ensures i <= j && i < |log| && log[i] != base[i]
  {
    if |log| <= j {
      i := |log| - 1;
    } else {
      assert log[..j + 1] != base[..j + 1];
      i :| 0 <= i <= j && log[i] != base[i];
    }
  }

  /** Nobody has led term `won` yet, so what was overwritten was overwritten before it. */
  lemma OverwrittenBefore(logs: TermLogs, term: int, j: int, won: int)
    requires Overwritten(logs, term, j, won) && won !in logs
    ensures Overwritten(logs, term, j, won - 1)
  {
  }

  lemma WinnerCarries(s: System, t: System, c: NodeId, e: Election, round: nat, from: NodeId, a: Ack)
    requires LogInv(s) && AckInv(s) && ElectionsWon(t.nodes, t.grants, t.elections)
    requires Wins(s, t, c, e, round, from) && e.term !in s.leaderLog && a in s.acks
    ensures Carries(s.leaderLog, e, a)
  {
    hide Advertised, MatchBacked, ReplyBacked, Grown, AppendOk, Locked, GrantGood, GrantKept, Progress, VoteMsgOk;
    hide Holds, Overwritten, KeptUpTo, GoodLog, WellNumbered, Backed, IsMajority;
    var logs := s.leaderLog;
    if a.node in e.voters && a.term < e.term {
      assert AckKept(s.nodes, logs, a);
      KeptIsInside(s.nodes, logs, a);
      WinnerIsAhead(s, c, e);
      forall j | 0 <= j < a.upto && logs[a.term][j].term == a.term
        ensures Holds(e.log, logs, a.term, j) || Overwritten(logs, a.term, j, e.term - 1)
      {
        if a.node == c {
          WinnerKeeps(s, c, e, a, j);
        } else {
          var g := VoterGrant(s, t, c, e, round, from, a.node);
          VoterCarries(s, c, e, g, a, j);
        }
      }
    }
  }

  lemma KeptIsInside(nodes: map<NodeId, Node>, logs: TermLogs, a: Ack)
    requires AckKept(nodes, logs, a)
    ensures a.term in logs && 0 <= a.upto <= |logs[a.term]|
  {
  }

  lemma WinnerIsAhead(s: System, c: NodeId, e: Election)
    requires LogInv(s) && c in s.nodes && e.log == s.nodes[c].log && e.term == s.nodes[c].currentTerm
    requires e.term !in s.leaderLog
    ensures GoodLog(s.leaderLog, e.log, e.term - 1)
  {
    BelowTerm(s.leaderLog, e.log, e.term);
  }

  /** The vote of a voter other than the winner. */
  lemma VoterGrant(s: System, t: System, c: NodeId, e: Election, round: nat, from: NodeId, v: NodeId) returns (g: Grant)
    requires ElectionsWon(t.nodes, t.grants, t.elections) && Wins(s, t, c, e, round, from) && v in e.voters && v != c
    ensures g in s.grants && g.term == e.term && g.voter == v && g.cand == c
  {
    hide Locked, VoteMsgOk, IsMajority;
    assert Won(t.nodes, t.grants, e);
    assert HasGrant(t.grants, e.term, v, c);
    g :| g in s.grants && g.term == e.term && g.voter == v && g.cand == c;
  }

  lemma BelowTerm(logs: TermLogs, log: Log, term: int)
    requires GoodLog(logs, log, term) && term !in logs
    ensures GoodLog(logs, log, term - 1)
  {
    forall i | 0 <= i < |log|
      ensures log[i].term <= term - 1
    {
      assert FromTerm(logs, log, i);
    }
  }

  lemma WinnerKeeps(s: System, c: NodeId, e: Election, a: Ack, j: nat)
    requires AckKept(s.nodes, s.leaderLog, a) && a.node == c && j < a.upto
    requires e.log == s.nodes[c].log && e.term == s.nodes[c].currentTerm && e.term !in s.leaderLog
    ensures Holds(e.log, s.leaderLog, a.term, j) || Overwritten(s.leaderLog, a.term, j, e.term - 1)
  {
    if !Holds(e.log, s.leaderLog, a.term, j) {
      OverwrittenBefore(s.leaderLog, a.term, j, e.term);
    }
  }

  lemma VoterCarries(s: System, c: NodeId, e: Election, g: Grant, a: Ack, j: nat)
    requires LogInv(s) && AckInv(s) && c in s.nodes && s.nodes[c].role == Candidate
    requires e.log == s.nodes[c].log && e.term == s.nodes[c].currentTerm && e.term !in s.leaderLog
    requires GoodLog(s.leaderLog, e.log, e.term - 1)
    requires g in s.grants && g.term == e.term && g.cand == c && g.voter == a.node
    requires a in s.acks && a.term < e.term && a.term in s.leaderLog && j < a.upto <= |s.leaderLog[a.term]|
    requires s.leaderLog[a.term][j].term == a.term
    ensures Holds(e.log, s.leaderLog, a.term, j) || Overwritten(s.leaderLog, a.term, j, e.term - 1)
  {
    var logs := s.leaderLog;
    assert GrantGood(logs, g) && GrantKept(logs, g, a);
    assert Advertised(s.nodes, c, g.term, g.lastIndex, g.lastTerm);
    if Holds(g.log, logs, a.term, j) {
      CandidateCarries(logs, e.log, g.log, g.term, a.term, j, e.term);
    } else {
      OverwrittenBefore(logs, a.term, j, e.term);
    }
  }

  lemma NewElectionCarries(logs: TermLogs, more: TermLogs, elections: set<Election>, acks: set<Ack>, e: Election)
    requires ElectionsCarry(more, elections, acks) && Extends(logs, more)
    requires forall a :: a in acks ==> Carries(logs, e, a)
    ensures ElectionsCarry(more, elections + {e}, acks)
  {
    forall a | a in acks
      ensures Carries(more, e, a)
    {
      CarriesGrows(logs, more, e, a);
    }
  }

  lemma WinKeepsHeld(s: System, t: System, c: NodeId, e: Election, round: nat, from: NodeId)
    requires LogInv(s) && AckInv(s) && ElectionsWon(t.nodes, t.grants, t.elections)
    requires Wins(s, t, c, e, round, from) && e.term !in s.leaderLog
    ensures AckInv(t)
  {
    hide Carries, AckKept, GrantKept, GrantGood, Advertised, MatchBacked, ReplyBacked, Won, Locked, Grown;
    var leader := BecomeLeader(Counted(s.nodes[c], round, from));
    HistoryKept(s, t.leaderLog);
    forall a | a in s.acks
      ensures Carries(s.leaderLog, e, a)
    {
      WinnerCarries(s, t, c, e, round, from, a);
    }
    NewElectionCarries(s.leaderLog, t.leaderLog, s.elections, s.acks, e);
    BelowTerm(s.leaderLog, e.log, e.term);
    WinKeepsNodes(s, c, leader, t.leaderLog);
  }

  lemma WinKeepsNodes(s: System, c: NodeId, leader: Node, logs: TermLogs)
    requires c in s.nodes && AcksKept(s.nodes, logs, s.acks) && Advertisements(s.nodes, s.grants, s.msgs)
    requires MatchesBacked(s.nodes, s.acks)
    requires leader.log == s.nodes[c].log && leader.currentTerm == s.nodes[c].currentTerm && leader.role == Leader
    requires forall p :: p in leader.peers ==> At(leader.matchIndex, p) == 0
    requires WellNumbered(leader.log, leader.currentTerm - 1) && ProposalsAcked(s.nodes, s.acks)
    ensures ProposalsAcked(s.nodes[c := leader], s.acks)
    ensures AcksKept(s.nodes[c := leader], logs, s.acks)
    ensures Advertisements(s.nodes[c := leader], s.grants, s.msgs)
    ensures MatchesBacked(s.nodes[c := leader], s.acks)
  {
    forall a | a in s.acks
      ensures AckKept(s.nodes[c := leader], logs, a)
    {
      assert AckKept(s.nodes, logs, a);
    }
  }

  lemma CountKeepsHeld(s: System, m: Msg, t: System)
    requires ElectionInv(s) && LogInv(s) && AckInv(s) && CountOutcome(s, m, t)
    requires OneElection(t.elections) && ElectionsWon(t.nodes, t.grants, t.elections)
    ensures AckInv(t)
  {
    var c := m.vargs.candidateId;
    if Wins(s, t, c, Win(s, m), m.round, m.from) {
      WinIsNew(s, t, c, Win(s, m), m.round, m.from);
      WinKeepsHeld(s, t, c, Win(s, m), m.round, m.from);
    } else {
      CountedIsAckQuiet(s.nodes[c], m.round, m.from, s.acks);
      AckQuietKeeps(s, c, Counted(s.nodes[c], m.round, m.from), {}, t);
    }
  }

  // ----- AppendEntries -------------------------------------------------------------------------

  /** A place of `log` that the message destroys is one where the sender's log conflicts. */
  lemma ReceiveKeepsPlace(logs: TermLogs, log: Log, args: AppendArgs, term: int, j: nat)
    requires GoodTermLogs(logs) && Canonical(logs, log) && AppendOk(logs, args)
    requires term in logs && j < |logs[term]| && term <= args.term
    requires Holds(log, logs, term, j)
    ensures ValidEntries(args.entries)
    ensures Holds(ReceiveEntries(log, args).0, logs, term, j)
            || (term < args.term && Conflict(logs, args.term, term, j))
  {
    ReceiveOutcome(logs, log, args);
    var target, end := logs[args.term], args.prevLogIndex + |args.entries|;
    var after := ReceiveEntries(log, args).0;
    assert log[..j + 1] == logs[term][..j + 1];
    if !Holds(after, logs, term, j) {
      var i := LostAt(log, target, after, args.prevLogIndex, end, j, ReceiveEntries(log, args).1);
      assert log[i] == log[..j + 1][i] == logs[term][i];
    }
  }

  /** Where a destroyed place shows that the two logs differ. */
  lemma LostAt(log: Log, target: Log, after: Log, prev: nat, end: nat, j: nat, ok: bool) returns (i: nat)
    requires prev <= end <= |target| && j < |log|
    requires if ok then after == Merged(log, target, end)
             else
               || after == log
               || (0 < prev <= |log| && log[prev - 1].term != target[prev - 1].term && after == log[..prev - 1])
    requires !(j < |after| && after[..j + 1] == log[..j + 1])
    ensures i <= j && i < |target| && log[i] != target[i]
  {
    if !ok {
      i := prev - 1;
    } else if j < end {
      assert target[..end][..j + 1] == target[..j + 1];
      assert target[..j + 1] != log[..j + 1];
      i :| 0 <= i <= j && log[i] != target[i];
    } else {
      assert log[..end] != target[..end];
      i :| 0 <= i < end && log[i] != target[i];
    }
  }

  lemma ReceiveKeepsAck(logs: TermLogs, log: Log, args: AppendArgs, a: Ack, upto: int)
    requires GoodTermLogs(logs) && Canonical(logs, log) && AppendOk(logs, args)
    requires KeptUpTo(log, logs, a.term, a.upto, upto) && a.term <= args.term && upto <= args.term
    ensures ValidEntries(args.entries)
    ensures KeptUpTo(ReceiveEntries(log, args).0, logs, a.term, a.upto, args.term)
  {
    ReceiveOutcome(logs, log, args);
    forall j | 0 <= j < a.upto
      ensures Holds(ReceiveEntries(log, args).0, logs, a.term, j) || Overwritten(logs, a.term, j, args.term)
    {
      if Holds(log, logs, a.term, j) {
        ReceiveKeepsPlace(logs, log, args, a.term, j);
      }
    }
  }

  /** What AppendEntries leaves of a node, as far as the acknowledgements are concerned. */
  lemma AppendShape(n: Node, args: AppendArgs)
    requires ValidEntries(args.entries)
    ensures var (m, reply) := HandleAppend(n, args);
            && m.matchIndex == n.matchIndex && m.peers == n.peers
            && (m.role != Follower ==> m.role == n.role && m.currentTerm == n.currentTerm)
            && (m.role == Candidate ==> m == n)
            && (if args.term < n.currentTerm then m == n && !reply.success
                else m.currentTerm == args.term && m.log == ReceiveEntries(n.log, args).0
                     && reply.success == ReceiveEntries(n.log, args).1)
  {
  }

  /** A success acknowledges the sent stretch. */
  lemma NewAckKept(logs: TermLogs, log: Log, args: AppendArgs)
    requires GoodTermLogs(logs) && Canonical(logs, log) && AppendOk(logs, args) && |args.entries| > 0
    ensures ValidEntries(args.entries)
    ensures ReceiveEntries(log, args).1 ==>
              KeptUpTo(ReceiveEntries(log, args).0, logs, args.term, LastIndex(args.entries), args.term)
  {
    ReceiveOutcome(logs, log, args);
    LastOfMessage(logs, args);
    var end := args.prevLogIndex + |args.entries|;
    var after := ReceiveEntries(log, args).0;
    MergedHolds(log, logs[args.term], end);
    if ReceiveEntries(log, args).1 {
      forall j | 0 <= j < end
        ensures Holds(after, logs, args.term, j)
      {
        assert after[..j + 1] == after[..end][..j + 1] == logs[args.term][..end][..j + 1];
      }
    }
  }

  lemma AppendKeepsAcks(s: System, m: Msg, t: System)
    requires ElectionInv(s) && LogInv(s) && AckInv(s) && Enabled(s, AnswerAppend(m))
    requires t == Apply(s, AnswerAppend(m))
    ensures AcksKept(t.nodes, t.leaderLog, t.acks)
  {
    var logs, p, args := s.leaderLog, m.to, m.aargs;
    AppendShape(s.nodes[p], args);
    forall a | a in t.acks
      ensures AckKept(t.nodes, logs, a)
    {
      if a in s.acks {
        assert AckKept(s.nodes, logs, a);
        if a.node == p && args.term >= s.nodes[p].currentTerm {
          ReceiveKeepsAck(logs, s.nodes[p].log, args, a, s.nodes[p].currentTerm);
        }
      } else {
        NewAckKept(logs, s.nodes[p].log, args);
      }
    }
  }

  /** An acknowledgement in the current term of its node is later than all its votes. */
  lemma LateAck(s: System, a: Ack)
    requires VotesLocked(s.nodes, s.grants) && ElectionsWon(s.nodes, s.grants, s.elections)
    requires a.node in s.nodes && a.term >= s.nodes[a.node].currentTerm
    ensures forall g :: g in s.grants ==> GrantKept(s.leaderLog, g, a)
    ensures forall e :: e in s.elections ==> Carries(s.leaderLog, e, a)
  {
    forall g | g in s.grants
      ensures GrantKept(s.leaderLog, g, a)
    {
      assert Locked(s.nodes, g);
    }
    forall e | e in s.elections
      ensures Carries(s.leaderLog, e, a)
    {
      assert Won(s.nodes, s.grants, e);
      if a.node in e.voters && a.node != e.leader {
        var g :| g in s.grants && g.term == e.term && g.voter == a.node && g.cand == e.leader;
        assert Locked(s.nodes, g);
      }
    }
  }

  lemma AnswerAppendKeepsHeld(s: System, m: Msg)
    requires ElectionInv(s) && LogInv(s) && AckInv(s) && Enabled(s, AnswerAppend(m))
    ensures AckInv(Apply(s, AnswerAppend(m)))
  {
    var t := Apply(s, AnswerAppend(m));
    var n := s.nodes[m.to];
    AppendKeepsAcks(s, m, t);
    AppendShape(n, m.aargs);
    AppendKeepsLog(s.leaderLog, n, m.aargs);
    forall a | a in t.acks && a !in s.acks
      ensures a.node in s.nodes && a.term >= s.nodes[a.node].currentTerm
    {
    }
    AppendKeepsRest(s, m, t);
  }

  lemma AppendKeepsRest(s: System, m: Msg, t: System)
    requires ElectionInv(s) && LogInv(s) && AckInv(s) && Enabled(s, AnswerAppend(m))
    requires t == Apply(s, AnswerAppend(m))
    requires forall a :: a in t.acks && a !in s.acks ==> a.node in s.nodes && a.term >= s.nodes[a.node].currentTerm
    ensures GrantsKept(t.leaderLog, t.grants, t.acks) && ElectionsCarry(t.leaderLog, t.elections, t.acks)
    ensures Advertisements(t.nodes, t.grants, t.msgs)
    ensures MatchesBacked(t.nodes, t.acks) && RepliesBacked(t.msgs, t.acks) && ProposalsAcked(t.nodes, t.acks)
  {
    LateAcks(s, t.acks);
    AppendKeepsRecords(s, m, t);
  }

  lemma LateAcks(s: System, acks: set<Ack>)
    requires ElectionInv(s) && AckInv(s)
    requires forall a :: a in acks && a !in s.acks ==> a.node in s.nodes && a.term >= s.nodes[a.node].currentTerm
    ensures GrantsKept(s.leaderLog, s.grants, acks) && ElectionsCarry(s.leaderLog, s.elections, acks)
  {
    hide GrantKept, Carries, GrantGood;
    forall a | a in acks && a !in s.acks
      ensures forall g :: g in s.grants ==> GrantKept(s.leaderLog, g, a)
      ensures forall e :: e in s.elections ==> Carries(s.leaderLog, e, a)
    {
      LateAck(s, a);
    }
  }

  lemma AppendKeepsRecords(s: System, m: Msg, t: System)
    requires ElectionInv(s) && LogInv(s) && AckInv(s) && Enabled(s, AnswerAppend(m))
    requires t == Apply(s, AnswerAppend(m))
    ensures Advertisements(t.nodes, t.grants, t.msgs)
    ensures MatchesBacked(t.nodes, t.acks) && RepliesBacked(t.msgs, t.acks) && ProposalsAcked(t.nodes, t.acks)
  {
    hide HandleAppend, ElectionInv, Grown, GoodLog, AckKept, GrantsKept, ElectionsCarry, Advertised, MatchBacked;
    var (n, reply) := HandleAppend(s.nodes[m.to], m.aargs);
    AppendShape(s.nodes[m.to], m.aargs);
    AppendKeepsLog(s.leaderLog, s.nodes[m.to], m.aargs);
    AnswerKeepsRecords(s, m.to, n, AppendResp(m.to, m.aargs, reply), t.acks);
  }

  lemma AnswerKeepsRecords(s: System, p: NodeId, n: Node, reply: Msg, acks: set<Ack>)
    requires p in s.nodes && Advertisements(s.nodes, s.grants, s.msgs) && MatchesBacked(s.nodes, s.acks)
    requires RepliesBacked(s.msgs, s.acks) && ProposalsAcked(s.nodes, s.acks) && s.acks <= acks
    requires n.matchIndex == s.nodes[p].matchIndex && n.peers == s.nodes[p].peers
    requires n.currentTerm >= s.nodes[p].currentTerm && (n.role == Candidate ==> n == s.nodes[p])
    requires n.role == Leader ==>
               s.nodes[p].role == Leader && n.currentTerm == s.nodes[p].currentTerm && n.log == s.nodes[p].log
    requires !reply.VoteReq? && ReplyBacked(acks, reply)
    ensures Advertisements(s.nodes[p := n], s.grants, s.msgs + {reply})
    ensures MatchesBacked(s.nodes[p := n], acks)
    ensures RepliesBacked(s.msgs + {reply}, acks) && ProposalsAcked(s.nodes[p := n], acks)
  {
    forall m | m in s.msgs
      ensures ReplyBacked(acks, m)
    {
      assert ReplyBacked(s.acks, m);
    }
  }

  // ----- A new entry -------------------------------------------------------------------------------

  lemma ProposeKeepsHeld(s: System, step: Step)
    requires ElectionInv(s) && LogInv(s) && AckInv(s) && Enabled(s, step) && step.Propose?
    ensures AckInv(Apply(s, step))
  {
    var n := s.nodes[step.n];
    ProposedKeepsHeld(s, step.n, ProposeEntry(n, step.command, step.now), Apply(s, step));
  }

  lemma ProposedKeepsHeld(s: System, n: NodeId, m: Node, t: System)
    requires ElectionInv(s) && LogInv(s) && AckInv(s) && n in s.nodes && s.nodes[n].role == Leader
    requires |m.log| > 0 && m == s.nodes[n].(log := m.log) && m.log[..|m.log| - 1] == s.nodes[n].log
    requires t.nodes == s.nodes[n := m] && t.leaderLog == s.leaderLog[m.currentTerm := m.log]
    requires t.acks == s.acks + {Ack(m.currentTerm, n, |m.log|)}
    requires t.grants == s.grants && t.elections == s.elections && t.msgs == s.msgs
    ensures AckInv(t)
  {
    hide Carries, AckKept, GrantKept, GrantGood, Advertised, MatchBacked, ReplyBacked, Won, Locked, Grown;
    assert Extends(s.leaderLog, t.leaderLog);
    HistoryKept(s, t.leaderLog);
    var a := Ack(m.currentTerm, n, |m.log|);
    LateAck(s.(leaderLog := t.leaderLog), a);
    ProposeKeepsAcks(s, n, m, t.leaderLog, a);
    ProposeKeepsRest(s, n, m, t);
  }

  lemma ProposeKeepsRest(s: System, n: NodeId, m: Node, t: System)
    requires AckInv(s) && n in s.nodes && s.nodes[n].role == Leader
    requires |m.log| > 0 && m == s.nodes[n].(log := m.log) && m.log[..|m.log| - 1] == s.nodes[n].log
    requires t.nodes == s.nodes[n := m] && t.acks == s.acks + {Ack(m.currentTerm, n, |m.log|)}
    requires t.grants == s.grants && t.msgs == s.msgs
    ensures Advertisements(t.nodes, t.grants, t.msgs) && MatchesBacked(t.nodes, t.acks)
    ensures RepliesBacked(t.msgs, t.acks) && ProposalsAcked(t.nodes, t.acks)
  {
    assert forall j :: 0 <= j < |m.log| - 1 ==> m.log[j] == s.nodes[n].log[j];
  }

  lemma ProposeKeepsAcks(s: System, n: NodeId, m: Node, logs: TermLogs, a: Ack)
    requires n in s.nodes && AcksKept(s.nodes, logs, s.acks) && m.currentTerm == s.nodes[n].currentTerm
    requires s.nodes[n].log <= m.log && m.currentTerm in logs && logs[m.currentTerm] == m.log
    requires a == Ack(m.currentTerm, n, |m.log|)
    ensures AcksKept(s.nodes[n := m], logs, s.acks + {a})
  {
    forall b | b in s.acks
      ensures AckKept(s.nodes[n := m], logs, b)
    {
      assert AckKept(s.nodes, logs, b);
      if b.node == n {
        forall j | 0 <= j < b.upto && Holds(s.nodes[n].log, logs, b.term, j)
          ensures Holds(m.log, logs, b.term, j)
        {
          assert m.log[..j + 1] == s.nodes[n].log[..j + 1];
        }
      }
    }
    assert forall j :: 0 <= j < |m.log| ==> Holds(m.log, logs, m.currentTerm, j);
  }

  lemma StepKeepsHeld(s: System, step: Step)
    requires ElectionInv(s) && LogInv(s) && AckInv(s) && Enabled(s, step)
    requires FreshVote(s, step) && FreshSuccess(s, step)
    ensures AckInv(Apply(s, step))
  {
    match step
    case AskVote(_, _, _) => SendKeepsHeld(s, step);
    case SendAppend(_, _) => SendKeepsHeld(s, step);
    case AnswerVote(m) => AnswerVoteKeepsHeld(s, m);
    case CountReply(m) =>
      StepKeepsElection(s, step);
      CountEffect(s, m, Apply(s, step));
      CountKeepsHeld(s, m, Apply(s, step));
    case AnswerAppend(m) => AnswerAppendKeepsHeld(s, m);
    case Propose(_, _, _) => ProposeKeepsHeld(s, step);
    case _ => QuietStepKeepsHeld(s, step);
  }
}
