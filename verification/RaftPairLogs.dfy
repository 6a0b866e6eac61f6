/**
 * Replication between two nodes. A message is taken only from the present leader, so what
 * both logs have once begun with they begin with for ever, and a success may be written
 * down however late it comes.
 */
module RaftPairLogs {
  import opened RaftNode
  import opened RaftSystem
  import opened RaftElection
  import opened RaftAge
  import opened RaftLogs
  import opened RaftPairs

  /** All logs begin with the same `k` entries. */
  ghost predicate Agree(nodes: map<NodeId, Node>, k: int) {
    0 <= k && forall n, m :: n in nodes && m in nodes ==>
      k <= |nodes[n].log| && k <= |nodes[m].log| && nodes[n].log[..k] == nodes[m].log[..k]
  }

  /** A log keeps what all logs begin with. */
  ghost predicate KeepsAgreed(nodes: map<NodeId, Node>, n: NodeId, log: Log)
    requires n in nodes
  {
    forall k: nat :: Agree(nodes, k) ==> k <= |log| && k <= |nodes[n].log| && log[..k] == nodes[n].log[..k]
  }

  ghost predicate Taken(nodes: map<NodeId, Node>, m: Msg) {
    m.AppendResp? && m.areply.success && |m.aargs.entries| > 0 ==> Agree(nodes, LastIndex(m.aargs.entries))
  }

  ghost predicate AllTaken(nodes: map<NodeId, Node>, msgs: set<Msg>) {
    forall m :: m in msgs ==> Taken(nodes, m)
  }

  ghost predicate Booked(nodes: map<NodeId, Node>, n: Node) {
    forall p :: p in n.peers ==> Agree(nodes, At(n.matchIndex, p))
  }

  ghost predicate AllBooked(nodes: map<NodeId, Node>) {
    forall n :: n in nodes ==> Booked(nodes, nodes[n])
  }

  ghost predicate PairSafe(s: System) {
    PairInv(s) && LogInv(s) && AllTaken(s.nodes, s.msgs) && AllBooked(s.nodes)
  }

  // ----- What is agreed stays agreed -----------------------------------------------------------------

  /** Nothing that all logs began with is lost. */
  ghost predicate AgreedStays(s: map<NodeId, Node>, t: map<NodeId, Node>) {
    && s.Keys == t.Keys
    && forall k: nat, n :: Agree(s, k) && n in s ==>
         Agree(t, k) && k <= |s[n].log| && k <= |t[n].log| && t[n].log[..k] == s[n].log[..k]
  }

  lemma AgreedStaysOn(s: map<NodeId, Node>, t: map<NodeId, Node>, u: map<NodeId, Node>)
    requires AgreedStays(s, t) && AgreedStays(t, u)
    ensures AgreedStays(s, u)
  {
    hide Agree;
    forall k: nat, n | Agree(s, k) && n in s
      ensures Agree(u, k) && k <= |s[n].log| && k <= |u[n].log| && u[n].log[..k] == s[n].log[..k]
    {
      assert Agree(t, k);
    }
  }

  lemma KeptIsAgreed(nodes: map<NodeId, Node>, n: NodeId, m: Node)
    requires n in nodes && KeepsAgreed(nodes, n, m.log)
    ensures AgreedStays(nodes, nodes[n := m])
  {
    var after := nodes[n := m];
    assert after.Keys == nodes.Keys;
    forall k: nat | Agree(nodes, k)
      ensures Agree(after, k)
    {
      assert m.log[..k] == nodes[n].log[..k];
    }
  }

  lemma SameLogKeeps(nodes: map<NodeId, Node>, n: NodeId, log: Log)
    requires n in nodes && nodes[n].log <= log
    ensures KeepsAgreed(nodes, n, log)
  {
    forall k: nat | Agree(nodes, k)
      ensures k <= |log| && log[..k] == nodes[n].log[..k]
    {
      assert nodes[n].log == log[..|nodes[n].log|];
    }
  }

  lemma AgreedKeeps(s: System, t: System)
    requires AllTaken(s.nodes, s.msgs) && AllBooked(s.nodes) && AgreedStays(s.nodes, t.nodes)
    ensures AllTaken(t.nodes, s.msgs)
    ensures forall n :: n in s.nodes ==> Booked(t.nodes, s.nodes[n])
  {
    hide Agree;
    forall m | m in s.msgs
      ensures Taken(t.nodes, m)
    {
      assert Taken(s.nodes, m);
      AgreedOnce(s.nodes, t.nodes, if m.AppendResp? then LastIndex(m.aargs.entries) else 0);
    }
    forall n | n in s.nodes
      ensures Booked(t.nodes, s.nodes[n])
    {
      assert Booked(s.nodes, s.nodes[n]);
      forall p | p in s.nodes[n].peers
        ensures Agree(t.nodes, At(s.nodes[n].matchIndex, p))
      {
        AgreedOnce(s.nodes, t.nodes, At(s.nodes[n].matchIndex, p));
      }
    }
  }

  lemma AgreedOnce(s: map<NodeId, Node>, t: map<NodeId, Node>, k: int)
    requires AgreedStays(s, t)
    ensures Agree(s, k) ==> Agree(t, k)
  {
    if s.Keys == {} {
      assert t.Keys == {};
      assert forall n :: n in t ==> n in t.Keys;
    } else if Agree(s, k) {
      var n :| n in s.Keys;
      assert n in s;
    }
  }

  // ----- A message is taken from the present leader only ------------------------------------------------

  lemma SenderLeads(s: System, m: Msg)
    requires PairInv(s) && Enabled(s, AnswerAppend(m)) && m.aargs.term >= s.nodes[m.to].currentTerm
    ensures var l := m.aargs.leaderId;
            l in s.nodes && l != m.to && s.nodes[l].role == Leader && s.nodes[l].currentTerm == m.aargs.term
  {
    assert Named(s.elections, m);
    var e :| e in s.elections && e.term == m.aargs.term && e.leader == m.aargs.leaderId;
    assert Led(s.nodes, e);
    assert Paired(s.nodes[e.leader], s.nodes[m.to]);
  }

  /** What the message makes of the log keeps what the log has in common with the leader's. */
  lemma ReceiveKeeps(logs: TermLogs, log: Log, args: AppendArgs, k: nat)
    requires GoodTermLogs(logs) && Canonical(logs, log) && AppendOk(logs, args)
    requires k <= |log| && k <= |logs[args.term]| && log[..k] == logs[args.term][..k]
    ensures ValidEntries(args.entries)
    ensures var after := ReceiveEntries(log, args).0; k <= |after| && after[..k] == log[..k]
  {
    var target, end := logs[args.term], args.prevLogIndex + |args.entries|;
    ReceiveOutcome(logs, log, args);
    var (after, ok) := ReceiveEntries(log, args);
    if ok {
      MergeKeeps(log, target, end, k);
    } else if after != log {
      DifferAbove(log, target, args.prevLogIndex - 1, k);
    }
  }

  lemma DifferAbove(log: Log, target: Log, i: nat, k: nat)
    requires i < |log| && i < |target| && log[i].term != target[i].term
    requires k <= |log| && k <= |target| && log[..k] == target[..k]
    ensures i >= k
  {
    forall x | 0 <= x < k
      ensures log[x] == target[x]
    {
      assert log[..k][x] == target[..k][x];
    }
  }

  lemma MergeKeeps(log: Log, target: Log, end: nat, k: nat)
    requires end <= |target| && k <= |log| && k <= |target| && log[..k] == target[..k]
    ensures k <= |Merged(log, target, end)| && Merged(log, target, end)[..k] == log[..k]
  {
    if end < k {
      assert log[..end] == log[..k][..end] && target[..end] == target[..k][..end];
    } else {
      assert target[..end][..k] == target[..k];
    }
  }

  lemma AnswerKeepsAgreed(s: System, m: Msg)
    requires PairSafe(s) && Enabled(s, AnswerAppend(m))
    ensures KeepsAgreed(s.nodes, m.to, HandleAppend(s.nodes[m.to], m.aargs).0.log)
  {
    var n, args := s.nodes[m.to], m.aargs;
    if args.term < n.currentTerm {
      SameLogKeeps(s.nodes, m.to, n.log);
    } else {
      SenderLeads(s, m);
      var l := s.nodes[args.leaderId];
      assert l.log == s.leaderLog[args.term];
      forall k: nat | Agree(s.nodes, k)
        ensures var log := HandleAppend(n, args).0.log; k <= |log| && log[..k] == n.log[..k]
      {
        ReceiveKeeps(s.leaderLog, n.log, args, k);
        HandleReceives(n, args);
      }
    }
  }

  lemma HandleReceives(n: Node, args: AppendArgs)
    requires ValidEntries(args.entries) && args.term >= n.currentTerm
    ensures HandleAppend(n, args).0.log == ReceiveEntries(n.log, args).0
    ensures HandleAppend(n, args).1.success <==> ReceiveEntries(n.log, args).1
  {
  }

  lemma SuccessHolds(logs: TermLogs, n: Node, args: AppendArgs)
    requires GoodTermLogs(logs) && Canonical(logs, n.log) && AppendOk(logs, args) && |args.entries| > 0
    ensures ValidEntries(args.entries)
    ensures var (m, reply) := HandleAppend(n, args); var end := LastIndex(args.entries);
            reply.success ==> args.term >= n.currentTerm && 0 <= end <= |m.log| && end <= |logs[args.term]|
                              && m.log[..end] == logs[args.term][..end]
  {
    hide HandleAppend;
    ReceiveOutcome(logs, n.log, args);
    LastOfMessage(logs, args);
    MergedHolds(n.log, logs[args.term], LastIndex(args.entries));
    LateIsRefused(n, args);
    if args.term >= n.currentTerm {
      HandleReceives(n, args);
    }
  }

  lemma LateIsRefused(n: Node, args: AppendArgs)
    requires ValidEntries(args.entries)
    ensures args.term < n.currentTerm ==> HandleAppend(n, args) == (n, AppendReply(n.currentTerm, false))
  {
  }

  lemma TwoAgree(nodes: map<NodeId, Node>, a: NodeId, b: NodeId, k: nat)
    requires |nodes| <= 2 && a in nodes && b in nodes && a != b
    requires k <= |nodes[a].log| && k <= |nodes[b].log| && nodes[a].log[..k] == nodes[b].log[..k]
    ensures Agree(nodes, k)
  {
    forall n | n in nodes
      ensures n == a || n == b
    {
      OnlyTwo(nodes, a, b, n);
    }
  }

  /** With its yes the two logs agree up to the last entry of the message. */
  lemma SuccessAgrees(s: System, m: Msg)
    requires PairSafe(s) && |s.nodes| <= 2 && Enabled(s, AnswerAppend(m))
    requires HandleAppend(s.nodes[m.to], m.aargs).1.success && |m.aargs.entries| > 0
    ensures Agree(s.nodes[m.to := HandleAppend(s.nodes[m.to], m.aargs).0], LastIndex(m.aargs.entries))
  {
    hide HandleAppend, Agree;
    var n, args := s.nodes[m.to], m.aargs;
    SuccessHolds(s.leaderLog, n, args);
    SenderLeads(s, m);
    var after := s.nodes[m.to := HandleAppend(n, args).0];
    assert after.Keys == s.nodes.Keys;
    assert |after| == |after.Keys| == |s.nodes.Keys|;
    TwoAgree(after, m.to, args.leaderId, LastIndex(args.entries));
  }

  // ----- Every step -----------------------------------------------------------------------------

  ghost predicate BookQuiet(n: Node, m: Node) {
    m.peers == n.peers && forall p :: p in n.peers ==> At(m.matchIndex, p) in {At(n.matchIndex, p), 0}
  }

  lemma ZeroAgreed(nodes: map<NodeId, Node>)
    ensures Agree(nodes, 0)
  {
  }

  /** A step that writes down nothing new. */
  lemma QuietKeepsAgreed(s: System, n: NodeId, m: Node, out: set<Msg>, t: System)
    requires AllTaken(s.nodes, s.msgs) && AllBooked(s.nodes) && n in s.nodes
    requires KeepsAgreed(s.nodes, n, m.log) && BookQuiet(s.nodes[n], m)
    requires t.nodes == s.nodes[n := m] && t.msgs == s.msgs + out && AllTaken(t.nodes, out)
    ensures AllTaken(t.nodes, t.msgs) && AllBooked(t.nodes) && AgreedStays(s.nodes, t.nodes)
  {
    hide Agree, KeepsAgreed, Taken;
    KeptIsAgreed(s.nodes, n, m);
    AgreedKeeps(s, t);
    ZeroAgreed(t.nodes);
    assert Booked(t.nodes, s.nodes[n]);
  }

  lemma OwnStepIsQuiet(n: Node, command: string, now: int)
    ensures BookQuiet(n, n) && BookQuiet(n, BecomeCandidate(n)) && BookQuiet(n, OpenRound(n))
    ensures var m := ProposeEntry(n, command, now); BookQuiet(n, m) && n.log <= m.log
    ensures BecomeCandidate(n).log == n.log && OpenRound(n).log == n.log
  {
  }

  lemma HandlersAreQuiet(n: Node, vargs: VoteArgs, args: AppendArgs, r: nat, from: NodeId)
    ensures var m := HandleVote(n, vargs).0; BookQuiet(n, m) && m.log == n.log
    ensures ValidEntries(args.entries) ==> BookQuiet(n, HandleAppend(n, args).0)
    ensures r < |n.rounds| ==> var m := CountVote(n, r, from); BookQuiet(n, m) && m.log == n.log
  {
  }

  lemma NothingTaken(nodes: map<NodeId, Node>, m: Msg)
    requires !m.AppendResp?
    ensures AllTaken(nodes, {m}) && AllTaken(nodes, {})
  {
  }

  lemma AnswerKeepsBooks(s: System, m: Msg)
    requires PairSafe(s) && |s.nodes| <= 2 && Enabled(s, AnswerAppend(m))
    ensures var t := Apply(s, AnswerAppend(m));
            AllTaken(t.nodes, t.msgs) && AllBooked(t.nodes) && AgreedStays(s.nodes, t.nodes)
  {
    hide Agree, KeepsAgreed, BookQuiet, HandleAppend, PairInv, LogInv;
    var (node, reply) := HandleAppend(s.nodes[m.to], m.aargs);
    AnswerKeepsAgreed(s, m);
    HandlersAreQuiet(s.nodes[m.to], VoteArgsOf(s.nodes[m.to]), m.aargs, 0, "");
    if reply.success && |m.aargs.entries| > 0 {
      SuccessAgrees(s, m);
    }
    QuietKeepsAgreed(s, m.to, node, {AppendResp(m.to, m.aargs, reply)}, Apply(s, AnswerAppend(m)));
  }

  /** A success is written down, and the logs agree up to there. */
  lemma RepliedKeepsBooks(s: System, m: Msg)
    requires AllTaken(s.nodes, s.msgs) && AllBooked(s.nodes) && Enabled(s, AppendReplied(m))
    ensures var t := Apply(s, AppendReplied(m));
            AllTaken(t.nodes, t.msgs) && AllBooked(t.nodes) && AgreedStays(s.nodes, t.nodes)
  {
    hide Agree;
    var l := m.aargs.leaderId;
    var n := s.nodes[l];
    var node := HandleAppendReply(n, m.from, m.aargs.entries, m.areply);
    var t := Apply(s, AppendReplied(m));
    SameLogKeeps(s.nodes, l, node.log);
    KeptIsAgreed(s.nodes, l, node);
    AgreedKeeps(s, t);
    assert s.msgs + {} == s.msgs;
    assert Taken(t.nodes, m);
    assert Booked(t.nodes, n);
  }

  lemma StepKeepsBooks(s: System, step: Step)
    requires PairSafe(s) && |s.nodes| <= 2 && Enabled(s, step)
    ensures var t := Apply(s, step);
            AllTaken(t.nodes, t.msgs) && AllBooked(t.nodes) && AgreedStays(s.nodes, t.nodes)
  {
    hide PairInv, LogInv, AllTaken, AllBooked, AgreedStays, HandleAppend, HandleAppendReply, HandleVote, CountVote;
    match step
    case AnswerAppend(m) => AnswerKeepsBooks(s, m);
    case AppendReplied(m) => RepliedKeepsBooks(s, m);
    case _ => OtherKeepsBooks(s, step);
  }

  lemma OtherKeepsBooks(s: System, step: Step)
    requires AllTaken(s.nodes, s.msgs) && AllBooked(s.nodes) && Enabled(s, step)
    requires !step.AnswerAppend? && !step.AppendReplied?
    ensures var t := Apply(s, step);
            AllTaken(t.nodes, t.msgs) && AllBooked(t.nodes) && AgreedStays(s.nodes, t.nodes)
  {
    hide Agree, KeepsAgreed, BookQuiet, AllTaken, AllBooked, AgreedStays;
    hide HandleVote, CountVote, ProposeEntry, BecomeCandidate, OpenRound;
    var t := Apply(s, step);
    var none := AppendArgs(0, "", 0, 0, [], 0);
    match step
    case AnswerVote(m) =>
      var (node, reply) := HandleVote(s.nodes[m.to], m.vargs);
      HandlersAreQuiet(s.nodes[m.to], m.vargs, none, 0, "");
      SameLogKeeps(s.nodes, m.to, node.log);
      NothingTaken(t.nodes, VoteResp(m.round, m.to, m.vargs, reply));
      QuietKeepsAgreed(s, m.to, node, {VoteResp(m.round, m.to, m.vargs, reply)}, t);
    case CountReply(m) =>
      var c := m.vargs.candidateId;
      var node := CountVote(s.nodes[c], m.round, m.from);
      HandlersAreQuiet(s.nodes[c], m.vargs, none, m.round, m.from);
      SameLogKeeps(s.nodes, c, node.log);
      NothingTaken(t.nodes, VoteReq(0, "", m.vargs));
      QuietKeepsAgreed(s, c, node, {}, t);
    case AskVote(n, r, p) =>
      OwnStepIsQuiet(s.nodes[n], "", 0);
      SameLogKeeps(s.nodes, n, s.nodes[n].log);
      NothingTaken(t.nodes, VoteReq(r, p, VoteArgsOf(s.nodes[n])));
      QuietKeepsAgreed(s, n, s.nodes[n], {VoteReq(r, p, VoteArgsOf(s.nodes[n]))}, t);
    case SendAppend(n, p) =>
      OwnStepIsQuiet(s.nodes[n], "", 0);
      SameLogKeeps(s.nodes, n, s.nodes[n].log);
      NothingTaken(t.nodes, AppendReq(p, AppendArgsOf(s.nodes[n], p)));
      QuietKeepsAgreed(s, n, s.nodes[n], {AppendReq(p, AppendArgsOf(s.nodes[n], p))}, t);
    case Timeout(n) => SilentKeepsBooks(s, n, BecomeCandidate(s.nodes[n]), "", 0, t);
    case StartElection(n) => SilentKeepsBooks(s, n, OpenRound(s.nodes[n]), "", 0, t);
    case Propose(n, command, now) => SilentKeepsBooks(s, n, ProposeEntry(s.nodes[n], command, now), command, now, t);
  }

  lemma SilentKeepsBooks(s: System, n: NodeId, m: Node, command: string, now: int, t: System)
    requires AllTaken(s.nodes, s.msgs) && AllBooked(s.nodes) && n in s.nodes
    requires m in {BecomeCandidate(s.nodes[n]), OpenRound(s.nodes[n]), ProposeEntry(s.nodes[n], command, now)}
    requires t.nodes == s.nodes[n := m] && t.msgs == s.msgs + {}
    ensures AllTaken(t.nodes, t.msgs) && AllBooked(t.nodes) && AgreedStays(s.nodes, t.nodes)
  {
    hide Agree, KeepsAgreed, BookQuiet, AllBooked, AgreedStays, ProposeEntry, BecomeCandidate, OpenRound;
    OwnStepIsQuiet(s.nodes[n], command, now);
    SameLogKeeps(s.nodes, n, m.log);
    QuietKeepsAgreed(s, n, m, {}, t);
  }

  /** What a leader writes down is in its log, so it never looks past the end. */
  lemma AgreedIsWithin(s: System, step: Step)
    requires AllTaken(s.nodes, s.msgs) && Enabled(s, step)
    ensures BooksWithin(s, step)
  {
    match step
    case AppendReplied(m) => assert Taken(s.nodes, m);
    case _ =>
  }

  lemma StepKeepsPairSafe(s: System, step: Step)
    requires PairSafe(s) && |s.nodes| <= 2 && Enabled(s, step)
    ensures var t := Apply(s, step);
            PairSafe(t) && |t.nodes| == |s.nodes| && AgreedStays(s.nodes, t.nodes) && Extends(s.leaderLog, t.leaderLog)
  {
    hide LogInv, AllTaken, AllBooked, AgreedStays, Extends, Enabled, Apply, BooksWithin;
    StepKeepsPairs(s, step);
    StepKeepsBooks(s, step);
    AgreedIsWithin(s, step);
    StepKeepsLogInv(s, step);
  }

  lemma InitIsPairSafe(s: System)
    requires Init(s)
    ensures PairSafe(s)
  {
    InitHasPairInv(s);
    ZeroAgreed(s.nodes);
  }
}
