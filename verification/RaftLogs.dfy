/**
 * Log Matching. The history variable `leaderLog[T]` is the log of the leader of term
 * T for as long as it leads: it only grows. Every log of the system, up to any entry
 * of term T, is a prefix of `leaderLog[T]`; two logs with an entry of the same term at
 * the same place therefore agree up to it.
 */
module RaftLogs {
  import opened RaftNode
  import opened RaftSystem
  import opened RaftElection
  import opened RaftAge

  type TermLogs = map<int, Log>

  ghost predicate FromTerm(logs: TermLogs, log: Log, i: int)
    requires 0 <= i < |log|
  {
    && log[i].term in logs
    && i < |logs[log[i].term]|
    && log[..i + 1] == logs[log[i].term][..i + 1]
  }

  ghost predicate Canonical(logs: TermLogs, log: Log) {
    forall i :: 0 <= i < |log| ==> FromTerm(logs, log, i)
  }

  /** Positions are one more than places, and terms lie between 1 and `bound`. */
  ghost predicate WellNumbered(log: Log, bound: int) {
    forall i :: 0 <= i < |log| ==> log[i].index == i + 1 && 1 <= log[i].term <= bound
  }

  ghost predicate GoodLog(logs: TermLogs, log: Log, bound: int) {
    Canonical(logs, log) && WellNumbered(log, bound)
  }

  ghost predicate GoodTermLogs(logs: TermLogs) {
    forall t :: t in logs ==> t >= 1 && GoodLog(logs, logs[t], t)
  }

  ghost predicate NodeLogs(nodes: map<NodeId, Node>, logs: TermLogs) {
    forall n :: n in nodes ==> GoodLog(logs, nodes[n].log, nodes[n].currentTerm)
  }

  ghost predicate Terms(nodes: map<NodeId, Node>) {
    forall n :: n in nodes ==>
      nodes[n].currentTerm >= 0 && (nodes[n].role != Follower ==> nodes[n].currentTerm >= 1)
  }

  ghost predicate LeaderLogs(nodes: map<NodeId, Node>, logs: TermLogs) {
    forall n :: n in nodes && nodes[n].role == Leader ==>
      nodes[n].currentTerm in logs && nodes[n].log == logs[nodes[n].currentTerm]
  }

  /** A leader's log is its log at the election followed by entries of its own term. */
  ghost predicate Grown(logs: TermLogs, e: Election) {
    && e.term in logs && |e.log| <= |logs[e.term]|
    && e.log == logs[e.term][..|e.log|]
    && (forall i :: 0 <= i < |logs[e.term]| ==> (i < |e.log| <==> logs[e.term][i].term < e.term))
  }

  ghost predicate ElectionLogs(elections: set<Election>, logs: TermLogs) {
    && (forall e :: e in elections ==> Grown(logs, e))
    && (forall t :: t in logs ==> exists e :: e in elections && e.term == t)
  }

  /** The message carries the stretch of its leader's log that starts after `prevLogIndex`. */
  ghost predicate AppendOk(logs: TermLogs, args: AppendArgs) {
    && args.term in logs
    && 0 <= args.prevLogIndex && args.prevLogIndex + |args.entries| <= |logs[args.term]|
    && args.entries == logs[args.term][args.prevLogIndex..args.prevLogIndex + |args.entries|]
    && (args.prevLogIndex > 0 ==> args.prevLogTerm == logs[args.term][args.prevLogIndex - 1].term)
    && args.leaderCommit == 0
  }

  ghost predicate AppendMsgs(logs: TermLogs, msgs: set<Msg>) {
    forall m :: m in msgs && (m.AppendReq? || m.AppendResp?) ==> AppendOk(logs, m.aargs)
  }

  /**
   * A leader that takes a late success for one of its own term may look past the end of
   * its log. Such a message carries nothing, and no log agrees with it.
   */
  ghost predicate Blind(args: AppendArgs) {
    args.prevLogIndex > 0 && args.prevLogTerm == 0 && args.entries == [] && args.leaderCommit == 0
  }

  ghost predicate AppendSound(logs: TermLogs, args: AppendArgs) {
    AppendOk(logs, args) || (args.term in logs && Blind(args))
  }

  ghost predicate SoundMsgs(logs: TermLogs, msgs: set<Msg>) {
    forall m :: m in msgs && (m.AppendReq? || m.AppendResp?) ==> AppendSound(logs, m.aargs)
  }

  /** What holds of the logs however old the successes are that leaders record. */
  ghost predicate LogBase(s: System) {
    && Terms(s.nodes)
    && GoodTermLogs(s.leaderLog)
    && NodeLogs(s.nodes, s.leaderLog)
    && LeaderLogs(s.nodes, s.leaderLog)
    && ElectionLogs(s.elections, s.leaderLog)
    && SoundMsgs(s.leaderLog, s.msgs)
    && (forall n :: n in s.nodes ==> s.nodes[n].commitIndex == 0)
  }

  ghost predicate Progress(n: Node) {
    n.role == Leader ==> forall p :: p in n.peers ==> 1 <= At(n.nextIndex, p) <= |n.log| + 1
  }

  ghost predicate AllProgress(nodes: map<NodeId, Node>) {
    forall n :: n in nodes ==> Progress(nodes[n])
  }

  /** With recent successes no leader looks past the end of its log. */
  ghost predicate LogInv(s: System) {
    LogBase(s) && AppendMsgs(s.leaderLog, s.msgs) && AllProgress(s.nodes)
  }

  // ----- Facts about canonical logs ---------------------------------------------

  /** The same term at the same place means the same log up to there. */
  lemma SameTermSamePrefix(logs: TermLogs, a: Log, b: Log, i: nat)
    requires Canonical(logs, a) && Canonical(logs, b)
    requires i < |a| && i < |b| && a[i].term == b[i].term
    ensures a[..i + 1] == b[..i + 1]
  {
    assert FromTerm(logs, a, i) && FromTerm(logs, b, i);
  }

  lemma GoodPrefix(logs: TermLogs, log: Log, bound: int, k: nat)
    requires GoodLog(logs, log, bound) && k <= |log|
    ensures GoodLog(logs, log[..k], bound)
  {
    forall i | 0 <= i < k
      ensures FromTerm(logs, log[..k], i)
    {
      assert FromTerm(logs, log, i);
      assert log[..k][..i + 1] == log[..i + 1];
    }
  }

  /** Terms never decrease along a log. */
  lemma TermsAscend(logs: TermLogs, log: Log, i: nat, j: nat)
    requires GoodTermLogs(logs) && Canonical(logs, log) && i <= j < |log|
    ensures log[i].term <= log[j].term
  {
    assert FromTerm(logs, log, j);
    assert log[i] == log[..j + 1][i] == logs[log[j].term][i];
  }

  lemma LastIsLength(logs: TermLogs, log: Log, bound: int)
    requires GoodLog(logs, log, bound)
    ensures LastIndex(log) == |log|
  {
  }

  // ----- The history only grows ---------------------------------------------------

  ghost predicate Extends(logs: TermLogs, more: TermLogs) {
    forall t :: t in logs ==> t in more && logs[t] <= more[t]
  }

  lemma GoodGrows(logs: TermLogs, more: TermLogs, log: Log, bound: int)
    requires GoodLog(logs, log, bound) && Extends(logs, more)
    ensures GoodLog(more, log, bound)
  {
    forall i | 0 <= i < |log|
      ensures FromTerm(more, log, i)
    {
      assert FromTerm(logs, log, i);
      var t := log[i].term;
      assert logs[t] == more[t][..|logs[t]|];
    }
  }

  lemma AppendOkGrows(logs: TermLogs, more: TermLogs, args: AppendArgs)
    requires AppendOk(logs, args) && Extends(logs, more)
    ensures AppendOk(more, args)
  {
    assert logs[args.term] == more[args.term][..|logs[args.term]|];
  }

  lemma SoundMsgsGrow(logs: TermLogs, more: TermLogs, msgs: set<Msg>)
    requires Extends(logs, more)
    ensures SoundMsgs(logs, msgs) ==> SoundMsgs(more, msgs)
    ensures AppendMsgs(logs, msgs) ==> AppendMsgs(more, msgs)
  {
    forall m | m in msgs && (m.AppendReq? || m.AppendResp?)
      ensures AppendOk(logs, m.aargs) ==> AppendOk(more, m.aargs)
    {
      if AppendOk(logs, m.aargs) {
        AppendOkGrows(logs, more, m.aargs);
      }
    }
    hide AppendOk, Blind;
  }

  // ----- AppendEntries --------------------------------------------------------------

  /** What is left of `log` once it has been made to contain `target[..m]`. */
  function Merged(log: Log, target: Log, m: nat): Log
    requires m <= |target|
  {
    if m <= |log| && log[..m] == target[..m] then log else target[..m]
  }

  lemma MergeOne(logs: TermLogs, log: Log, target: Log, bound: int, m: nat)
    requires GoodLog(logs, target, bound) && Canonical(logs, log) && m < |target|
    ensures target[m].index >= 1
    ensures AppendOne(Merged(log, target, m), target[m]) == Merged(log, target, m + 1)
  {
    assert target[..m] + [target[m]] == target[..m + 1];
    if m <= |log| && log[..m] == target[..m] {
      if m < |log| {
        assert log[..m + 1] == log[..m] + [log[m]];
        if log[m].term == target[m].term {
          SameTermSamePrefix(logs, log, target, m);
        }
      }
    } else if m < |log| {
      assert log[..m + 1][..m] == log[..m] && target[..m + 1][..m] == target[..m];
    }
  }

  /** The loop of AppendEntries: nothing happens to a log that already has the entries. */
  lemma {:induction false} AppendAllMerges(logs: TermLogs, log: Log, target: Log, bound: int, prev: nat, n: nat)
    requires GoodLog(logs, target, bound) && Canonical(logs, log)
    requires prev + n <= |target| && prev <= |log| && log[..prev] == target[..prev]
    ensures ValidEntries(target[prev..prev + n])
    ensures AppendAll(log, target[prev..prev + n]) == Merged(log, target, prev + n)
  {
    hide Merged, AppendOne, Canonical, GoodLog;
    if n > 0 {
      var m := prev + n - 1;
      var entries := target[prev..prev + n];
      AppendAllMerges(logs, log, target, bound, prev, n - 1);
      assert entries[..n - 1] == target[prev..m];
      assert entries[n - 1] == target[m];
      MergeOne(logs, log, target, bound, m);
    } else {
      MergedHolds(log, target, prev);
      assert target[prev..prev + n] == [];
    }
  }

  /** What the check and the loop of AppendEntries do to a canonical log, case by case. */
  lemma ReceiveOutcome(logs: TermLogs, log: Log, args: AppendArgs)
    requires GoodTermLogs(logs) && Canonical(logs, log) && AppendOk(logs, args)
    ensures ValidEntries(args.entries)
    ensures var (after, ok) := ReceiveEntries(log, args);
            var target, prev, end := logs[args.term], args.prevLogIndex, args.prevLogIndex + |args.entries|;
            if ok then after == Merged(log, target, end)
            else after == log
                 || (0 < prev <= |log| && log[prev - 1].term != target[prev - 1].term && after == log[..prev - 1])
  {
    var target, prev := logs[args.term], args.prevLogIndex;
    assert GoodLog(logs, target, args.term);
    if 0 < prev <= |log| && log[prev - 1].term == args.prevLogTerm {
      SameTermSamePrefix(logs, log, target, prev - 1);
    }
    if prev <= |log| && log[..prev] == target[..prev] {
      AppendAllMerges(logs, log, target, args.term, prev, |args.entries|);
    }
  }

  /** A log that has been made to contain `target[..m]` contains it. */
  lemma MergedHolds(log: Log, target: Log, m: nat)
    requires m <= |target|
    ensures |Merged(log, target, m)| >= m && Merged(log, target, m)[..m] == target[..m]
    ensures m <= |log| && log[..m] == target[..m] ==> Merged(log, target, m) == log
  {
  }

  /** A log that already holds everything a message could bring accepts it unchanged. */
  lemma ReceiveHeld(logs: TermLogs, log: Log, args: AppendArgs)
    requires GoodTermLogs(logs) && Canonical(logs, log) && AppendOk(logs, args)
    requires var end := args.prevLogIndex + |args.entries|; end <= |log| && log[..end] == logs[args.term][..end]
    ensures ValidEntries(args.entries)
    ensures ReceiveEntries(log, args) == (log, true)
  {
    var target, prev, end := logs[args.term], args.prevLogIndex, args.prevLogIndex + |args.entries|;
    ReceiveOutcome(logs, log, args);
    if prev > 0 {
      assert log[..end][prev - 1] == target[..end][prev - 1];
    }
    assert log[..end][..prev] == log[..prev] && target[..end][..prev] == target[..prev];
  }

  lemma ReceiveOlder(logs: TermLogs, log: Log, target: Log, end: nat, older: AppendArgs)
    requires GoodTermLogs(logs) && Canonical(logs, log) && AppendOk(logs, older)
    requires target == logs[older.term] && older.prevLogIndex + |older.entries| <= end <= |target|
    ensures ValidEntries(older.entries)
    ensures ReceiveEntries(Merged(log, target, end), older) == (Merged(log, target, end), true)
  {
    var after := Merged(log, target, end);
    MergedHolds(log, target, end);
    MergedIsCanonical(logs, log, target, older.term, end);
    var end' := older.prevLogIndex + |older.entries|;
    assert after[..end'] == after[..end][..end'];
    assert target[..end'] == target[..end][..end'];
    ReceiveHeld(logs, after, older);
  }

  /**
   * Receiving the same message again, or an older one of the same leader that reaches
   * no further, changes no entry.
   */
  lemma ReceiveAgain(logs: TermLogs, log: Log, args: AppendArgs, older: AppendArgs)
    requires GoodTermLogs(logs) && Canonical(logs, log) && AppendOk(logs, args) && AppendOk(logs, older)
    requires older.term == args.term
    requires older.prevLogIndex + |older.entries| <= args.prevLogIndex + |args.entries|
    ensures ValidEntries(args.entries) && ValidEntries(older.entries)
    ensures var (after, ok) := ReceiveEntries(log, args); ok ==> ReceiveEntries(after, older) == (after, true)
  {
    ReceiveOutcome(logs, log, args);
    ReceiveOlder(logs, log, logs[args.term], args.prevLogIndex + |args.entries|, older);
  }

  lemma MergedIsCanonical(logs: TermLogs, log: Log, target: Log, bound: int, m: nat)
    requires Canonical(logs, log) && GoodLog(logs, target, bound) && m <= |target|
    ensures Canonical(logs, Merged(log, target, m))
  {
    GoodPrefix(logs, target, bound, m);
  }

  // ----- Steps that change no log ----------------------------------------------------

  ghost predicate LogQuiet(n: Node, m: Node) {
    && m.log == n.log && m.peers == n.peers && m.commitIndex == n.commitIndex
    && m.currentTerm >= n.currentTerm
    && (m.role != Follower ==> m.currentTerm >= 1)
    && (m.role == Leader ==> n.role == Leader && m.currentTerm == n.currentTerm)
  }

  lemma LogQuietKeeps(s: System, n: NodeId, m: Node, out: set<Msg>, t: System)
    requires LogBase(s) && n in s.nodes && LogQuiet(s.nodes[n], m)
    requires t.nodes == s.nodes[n := m] && t.msgs == s.msgs + out
    requires t.leaderLog == s.leaderLog && t.elections == s.elections
    requires SoundMsgs(s.leaderLog, out)
    ensures LogBase(t)
  {
    assert GoodLog(s.leaderLog, s.nodes[n].log, s.nodes[n].currentTerm);
  }

  lemma SimpleHandlersAreLogQuiet(n: Node, args: VoteArgs, p: NodeId, entries: Log, reply: AppendReply)
    requires n.currentTerm >= 0 && (n.role != Follower ==> n.currentTerm >= 1)
    ensures n.role == Follower ==> LogQuiet(n, BecomeCandidate(n))
    ensures LogQuiet(n, OpenRound(n))
    ensures LogQuiet(n, HandleVote(n, args).0)
    ensures LogQuiet(n, HandleAppendReply(n, p, entries, reply))
  {
  }

  lemma LastOfMessage(logs: TermLogs, args: AppendArgs)
    requires GoodTermLogs(logs) && AppendOk(logs, args) && |args.entries| > 0
    ensures LastIndex(args.entries) == args.prevLogIndex + |args.entries|
  {
    assert GoodLog(logs, logs[args.term], args.term);
  }

  lemma LeaderSends(logs: TermLogs, n: Node, p: NodeId)
    requires n.role == Leader && n.currentTerm in logs && n.log == logs[n.currentTerm]
    requires At(n.nextIndex, p) >= 1 && n.commitIndex == 0
    ensures AppendSound(logs, AppendArgsOf(n, p))
    ensures Progress(n) && p in n.peers ==> AppendOk(logs, AppendArgsOf(n, p))
  {
  }

  lemma QuietStepKeepsLogs(s: System, step: Step)
    requires LeaderInv(s) && LogBase(s) && Enabled(s, step)
    requires step.Timeout? || step.StartElection? || step.AnswerVote? || step.AppendReplied?
    ensures LogBase(Apply(s, step))
  {
    var t := Apply(s, step);
    var none := AppendReply(0, false);
    match step
    case Timeout(n) =>
      SimpleHandlersAreLogQuiet(s.nodes[n], VoteArgsOf(s.nodes[n]), "", [], none);
      LogQuietKeeps(s, n, BecomeCandidate(s.nodes[n]), {}, t);
    case StartElection(n) =>
      SimpleHandlersAreLogQuiet(s.nodes[n], VoteArgsOf(s.nodes[n]), "", [], none);
      LogQuietKeeps(s, n, OpenRound(s.nodes[n]), {}, t);
    case AnswerVote(m) =>
      SimpleHandlersAreLogQuiet(s.nodes[m.to], m.vargs, "", [], none);
      var (node, reply) := HandleVote(s.nodes[m.to], m.vargs);
      LogQuietKeeps(s, m.to, node, {VoteResp(m.round, m.to, m.vargs, reply)}, t);
    case AppendReplied(m) =>
      var l := m.aargs.leaderId;
      SimpleHandlersAreLogQuiet(s.nodes[l], VoteArgsOf(s.nodes[l]), m.from, m.aargs.entries, m.areply);
      LogQuietKeeps(s, l, HandleAppendReply(s.nodes[l], m.from, m.aargs.entries, m.areply), {}, t);
  }

  lemma MessagesKeepLogs(s: System, out: set<Msg>, t: System)
    requires LogBase(s) && SoundMsgs(s.leaderLog, out)
    requires t.nodes == s.nodes && t.msgs == s.msgs + out && t.leaderLog == s.leaderLog && t.elections == s.elections
    ensures LogBase(t)
  {
    hide GoodLog, AppendSound, Grown;
  }

  lemma SendKeepsLogs(s: System, step: Step)
    requires LeaderInv(s) && LogBase(s) && Enabled(s, step) && (step.AskVote? || step.SendAppend?)
    ensures LogBase(Apply(s, step))
  {
    hide LeaderInv, GoodLog, Grown, AppendSound, AppendArgsOf, VoteArgsOf;
    var t := Apply(s, step);
    if step.SendAppend? {
      LeaderSends(s.leaderLog, s.nodes[step.n], step.p);
      MessagesKeepLogs(s, {AppendReq(step.p, AppendArgsOf(s.nodes[step.n], step.p))}, t);
    } else {
      MessagesKeepLogs(s, {VoteReq(step.round, step.p, VoteArgsOf(s.nodes[step.n]))}, t);
    }
  }

  // ----- AppendEntries keeps the logs ------------------------------------------------------

  lemma ReceiveKeepsGood(logs: TermLogs, log: Log, bound: int, args: AppendArgs)
    requires GoodTermLogs(logs) && GoodLog(logs, log, bound) && AppendOk(logs, args) && bound <= args.term
    ensures ValidEntries(args.entries)
    ensures GoodLog(logs, ReceiveEntries(log, args).0, args.term)
    ensures log == logs[args.term] ==> ReceiveEntries(log, args).0 == log
  {
    var target, prev, end := logs[args.term], args.prevLogIndex, args.prevLogIndex + |args.entries|;
    ReceiveOutcome(logs, log, args);
    GoodPrefix(logs, target, args.term, end);
    if prev > 0 && prev <= |log| {
      GoodPrefix(logs, log, bound, prev - 1);
    }
  }

  /** What one message makes of a node that has a good log. */
  ghost predicate Received(logs: TermLogs, n: Node, m: Node) {
    && GoodLog(logs, m.log, m.currentTerm) && m.commitIndex == 0 && m.peers == n.peers
    && m.currentTerm >= n.currentTerm && (m.role != Follower ==> m.currentTerm >= 1)
    && (m.role == Leader ==> n.role == Leader && m.currentTerm == n.currentTerm && m.log == n.log)
    && m.nextIndex == n.nextIndex
  }

  lemma AppendKeepsLog(logs: TermLogs, n: Node, args: AppendArgs)
    requires GoodTermLogs(logs) && GoodLog(logs, n.log, n.currentTerm) && AppendOk(logs, args)
    requires n.currentTerm >= 0 && (n.role != Follower ==> n.currentTerm >= 1) && n.commitIndex == 0
    requires n.role == Leader ==> n.currentTerm in logs && n.log == logs[n.currentTerm]
    ensures ValidEntries(args.entries) && Received(logs, n, HandleAppend(n, args).0)
  {
    if args.term >= n.currentTerm {
      ReceiveKeepsGood(logs, n.log, n.currentTerm, args);
    } else {
      ReceiveOutcome(logs, n.log, args);
    }
  }

  /** A blind message is refused, and at most cuts the log. */
  lemma BlindKeepsLog(logs: TermLogs, n: Node, args: AppendArgs)
    requires GoodLog(logs, n.log, n.currentTerm) && Blind(args)
    requires n.currentTerm >= 0 && (n.role != Follower ==> n.currentTerm >= 1) && n.commitIndex == 0
    requires n.role == Leader ==> args.term != n.currentTerm
    ensures ValidEntries(args.entries) && Received(logs, n, HandleAppend(n, args).0)
  {
    if args.prevLogIndex <= |n.log| {
      GoodPrefix(logs, n.log, n.currentTerm, args.prevLogIndex - 1);
    }
    assert args.prevLogIndex <= |n.log| ==> n.log[args.prevLogIndex - 1].term >= 1;
  }

  /** A leader gets no message of its own term. */
  lemma LeaderHearsNoPeer(s: System, m: Msg)
    requires LeaderInv(s) && AppendsNamed(s.elections, s.msgs) && m in s.msgs && m.AppendReq? && m.to in s.nodes
    ensures s.nodes[m.to].role == Leader ==> m.aargs.term != s.nodes[m.to].currentTerm
  {
    assert Named(s.elections, m);
    if s.nodes[m.to].role == Leader {
      assert HasElection(s.elections, s.nodes[m.to].currentTerm, m.to);
    }
  }

  lemma AnswerAppendKeepsLogs(s: System, m: Msg)
    requires LeaderInv(s) && AppendsNamed(s.elections, s.msgs) && LogBase(s) && Enabled(s, AnswerAppend(m))
    ensures LogBase(Apply(s, AnswerAppend(m)))
    ensures Received(s.leaderLog, s.nodes[m.to], HandleAppend(s.nodes[m.to], m.aargs).0)
  {
    hide HandleAppend, GoodLog, Grown, Canonical, AppendOk, Blind, Extends, LeaderInv, AppendsNamed;
    var t := Apply(s, AnswerAppend(m));
    LeaderHearsNoPeer(s, m);
    if AppendOk(s.leaderLog, m.aargs) {
      AppendKeepsLog(s.leaderLog, s.nodes[m.to], m.aargs);
    } else {
      BlindKeepsLog(s.leaderLog, s.nodes[m.to], m.aargs);
    }
  }

  // ----- A new leader, and a new entry ---------------------------------------------------

  /** Writing `log` as the log of term `term` extends the history. */
  lemma HistoryGrows(s: System, logs: TermLogs)
    requires LogBase(s) && Extends(s.leaderLog, logs)
    ensures NodeLogs(s.nodes, logs) && SoundMsgs(logs, s.msgs)
    ensures forall t :: t in s.leaderLog ==> GoodLog(logs, s.leaderLog[t], t)
  {
    forall n | n in s.nodes
      ensures GoodLog(logs, s.nodes[n].log, s.nodes[n].currentTerm)
    {
      GoodGrows(s.leaderLog, logs, s.nodes[n].log, s.nodes[n].currentTerm);
    }
    SoundMsgsGrow(s.leaderLog, logs, s.msgs);
    forall t | t in s.leaderLog
      ensures GoodLog(logs, s.leaderLog[t], t)
    {
      GoodGrows(s.leaderLog, logs, s.leaderLog[t], t);
    }
  }

  lemma NewLeaderLog(s: System, c: NodeId, e: Election, logs: TermLogs)
    requires LogBase(s) && c in s.nodes && e.term == s.nodes[c].currentTerm >= 1 && e.log == s.nodes[c].log
    requires e.term !in s.leaderLog && logs == s.leaderLog[e.term := e.log]
    ensures Extends(s.leaderLog, logs) && GoodTermLogs(logs)
    ensures ElectionLogs(s.elections + {e}, logs)
    ensures NodeLogs(s.nodes, logs) && SoundMsgs(logs, s.msgs)
  {
    HistoryGrows(s, logs);
    forall i | 0 <= i < |e.log|
      ensures e.log[i].term < e.term
    {
      assert FromTerm(s.leaderLog, e.log, i);
    }
    assert Grown(logs, e);
    forall f | f in s.elections
      ensures Grown(logs, f)
    {
      assert Grown(s.leaderLog, f);
    }
    forall t | t in logs
      ensures exists f :: f in s.elections + {e} && f.term == t
    {
      if t == e.term {
        assert e in s.elections + {e};
      } else {
        var f :| f in s.elections && f.term == t;
        assert f in s.elections + {e};
      }
    }
  }

  /** What winning changes: the candidate's role and progress, and the record of the win. */
  ghost predicate Wins(s: System, t: System, c: NodeId, e: Election, round: nat, from: NodeId) {
    && c in s.nodes && s.nodes[c].role == Candidate && round < |s.nodes[c].rounds|
    && e.term == s.nodes[c].currentTerm && e.leader == c && e.log == s.nodes[c].log
    && e.voters == s.nodes[c].rounds[round].votes + {from}
    && t == s.(nodes := s.nodes[c := BecomeLeader(Counted(s.nodes[c], round, from))],
               elections := s.elections + {e}, leaderLog := s.leaderLog[e.term := e.log])
  }

  function Win(s: System, m: Msg): Election
    requires m.VoteResp? && m.vargs.candidateId in s.nodes && m.round < |s.nodes[m.vargs.candidateId].rounds|
  {
    var n := s.nodes[m.vargs.candidateId];
    Election(n.currentTerm, m.vargs.candidateId, n.log, n.rounds[m.round].votes + {m.from})
  }

  ghost predicate CountOutcome(s: System, m: Msg, t: System) {
    && m.VoteResp? && m.vargs.candidateId in s.nodes && m.round < |s.nodes[m.vargs.candidateId].rounds|
    && var c := m.vargs.candidateId;
       || t == s.(nodes := s.nodes[c := Counted(s.nodes[c], m.round, m.from)])
       || Wins(s, t, c, Win(s, m), m.round, m.from)
  }

  /** A counted vote either only counts, or wins. */
  lemma CountEffect(s: System, m: Msg, t: System)
    requires Cluster(s.nodes) && Enabled(s, CountReply(m)) && t == Apply(s, CountReply(m))
    ensures CountOutcome(s, m, t)
  {
    assert s.msgs + {} == s.msgs;
  }

  /** The term a candidate wins had no leader before. */
  lemma WinIsNew(s: System, t: System, c: NodeId, e: Election, round: nat, from: NodeId)
    requires LeaderInv(s) && ElectionLogs(s.elections, s.leaderLog) && OneElection(t.elections)
    requires Wins(s, t, c, e, round, from)
    ensures e.term !in s.leaderLog
  {
    assert e in t.elections;
    assert forall f :: f in s.elections ==> f in t.elections && Led(s.nodes, f);
  }

  lemma WinKeepsLogs(s: System, t: System, c: NodeId, e: Election, round: nat, from: NodeId)
    requires LogBase(s) && Wins(s, t, c, e, round, from) && e.term !in s.leaderLog
    ensures LogBase(t) && Extends(s.leaderLog, t.leaderLog)
  {
    NewLeaderLog(s, c, e, t.leaderLog);
    forall n | n in t.nodes
      ensures GoodLog(t.leaderLog, t.nodes[n].log, t.nodes[n].currentTerm)
    {
      assert GoodLog(t.leaderLog, s.nodes[n].log, s.nodes[n].currentTerm);
    }
  }

  lemma CountKeepsLogs(s: System, m: Msg, t: System)
    requires LeaderInv(s) && LogBase(s) && CountOutcome(s, m, t) && OneElection(t.elections)
    ensures LogBase(t) && Extends(s.leaderLog, t.leaderLog)
  {
    var c := m.vargs.candidateId;
    if Wins(s, t, c, Win(s, m), m.round, m.from) {
      WinIsNew(s, t, c, Win(s, m), m.round, m.from);
      WinKeepsLogs(s, t, c, Win(s, m), m.round, m.from);
    } else {
      CountedIsLogQuiet(s.nodes[c], m.round, m.from);
      LogQuietKeeps(s, c, Counted(s.nodes[c], m.round, m.from), {}, t);
    }
  }

  lemma CountedIsLogQuiet(n: Node, r: nat, from: NodeId)
    requires r < |n.rounds| && (n.role != Follower ==> n.currentTerm >= 1)
    ensures LogQuiet(n, Counted(n, r, from))
  {
  }

  lemma ProposeGood(s: System, n: NodeId, log: Log, logs: TermLogs)
    requires LogBase(s) && n in s.nodes && s.nodes[n].role == Leader
    requires |log| > 0 && log[..|log| - 1] == s.nodes[n].log
    requires log[|log| - 1].term == s.nodes[n].currentTerm && log[|log| - 1].index == |log|
    requires logs == s.leaderLog[s.nodes[n].currentTerm := log]
    ensures Extends(s.leaderLog, logs) && GoodLog(logs, log, s.nodes[n].currentTerm)
    ensures GoodTermLogs(logs) && NodeLogs(s.nodes, logs) && SoundMsgs(logs, s.msgs)
  {
    var term := s.nodes[n].currentTerm;
    HistoryGrows(s, logs);
    forall i | 0 <= i < |log|
      ensures FromTerm(logs, log, i) && log[i].index == i + 1 && 1 <= log[i].term <= term
    {
      if i < |log| - 1 {
        assert FromTerm(logs, s.leaderLog[term], i);
        assert log[..i + 1] == s.leaderLog[term][..i + 1] && log[i] == log[..|log| - 1][i];
      }
    }
  }

  lemma ProposeKeepsLogs(s: System, step: Step)
    requires LeaderInv(s) && LogBase(s) && Enabled(s, step) && step.Propose?
    ensures LogBase(Apply(s, step)) && Extends(s.leaderLog, Apply(s, step).leaderLog)
  {
    hide GoodLog, Grown, AppendOk, Canonical, WellNumbered, LeaderInv, Extends;
    var t := Apply(s, step);
    var n := step.n;
    var log := t.nodes[n].log;
    LastIsLength(s.leaderLog, s.nodes[n].log, s.nodes[n].currentTerm);
    ProposeGood(s, n, log, t.leaderLog);
    ProposeKeepsElectionLogs(s, n, log, t.leaderLog);
    ProposeKeepsLeaders(s, step);
  }

  lemma ProposeKeepsElectionLogs(s: System, n: NodeId, log: Log, logs: TermLogs)
    requires ElectionLogs(s.elections, s.leaderLog) && n in s.nodes
    requires var term := s.nodes[n].currentTerm;
             && term in s.leaderLog && |log| > 0 && log[..|log| - 1] == s.leaderLog[term]
             && log[|log| - 1].term == term && logs == s.leaderLog[term := log]
    ensures ElectionLogs(s.elections, logs)
  {
    forall e | e in s.elections
      ensures Grown(logs, e)
    {
      assert Grown(s.leaderLog, e);
      if e.term == s.nodes[n].currentTerm {
        assert log[..|e.log|] == log[..|log| - 1][..|e.log|];
        assert forall i :: 0 <= i < |log| - 1 ==> log[i] == s.leaderLog[e.term][i];
      }
    }
  }

  /** There is one leader a term, so the new entry is in the log of the only leader of its term. */
  lemma ProposeKeepsLeaders(s: System, step: Step)
    requires LeaderInv(s) && LogBase(s) && Enabled(s, step) && step.Propose?
    ensures LeaderLogs(Apply(s, step).nodes, Apply(s, step).leaderLog)
  {
    var t := Apply(s, step);
    forall k | k in t.nodes && t.nodes[k].role == Leader && k != step.n
      ensures t.nodes[k].currentTerm in t.leaderLog && t.nodes[k].log == t.leaderLog[t.nodes[k].currentTerm]
    {
      assert HasElection(s.elections, s.nodes[k].currentTerm, k);
      assert HasElection(s.elections, s.nodes[step.n].currentTerm, step.n);
    }
  }

  /** As long as there is one leader a term, the logs stay canonical, however old the replies. */
  lemma StepKeepsBase(s: System, step: Step)
    requires LeaderInv(s) && AppendsNamed(s.elections, s.msgs) && LogBase(s) && Enabled(s, step)
    requires OneElection(Apply(s, step).elections)
    ensures LogBase(Apply(s, step)) && Extends(s.leaderLog, Apply(s, step).leaderLog)
  {
    match step
    case AskVote(_, _, _) => SendKeepsLogs(s, step);
    case SendAppend(_, _) => SendKeepsLogs(s, step);
    case CountReply(m) =>
      CountEffect(s, m, Apply(s, step));
      CountKeepsLogs(s, m, Apply(s, step));
    case AnswerAppend(m) => AnswerAppendKeepsLogs(s, m);
    case Propose(_, _, _) => ProposeKeepsLogs(s, step);
    case _ => QuietStepKeepsLogs(s, step);
  }

  /** Fresh votes leave one leader a term. */
  lemma FreshStepKeepsBase(s: System, step: Step)
    requires ElectionInv(s) && AgeInv(s) && LogBase(s) && Enabled(s, step) && FreshVote(s, step)
    ensures LogBase(Apply(s, step)) && Extends(s.leaderLog, Apply(s, step).leaderLog)
  {
    hide LogBase, Enabled, Apply, FreshVote, Won, Extends;
    WonIsLed(s);
    StepKeepsElection(s, step);
    StepKeepsBase(s, step);
  }

  // ----- Recent successes keep leaders within their logs -----------------------------------

  lemma BecomeLeaderProgress(n: Node)
    requires LastIndex(n.log) == |n.log|
    ensures Progress(BecomeLeader(n))
  {
  }

  lemma HandlersKeepProgress(n: Node, args: VoteArgs, command: string, now: int)
    requires Progress(n)
    ensures Progress(BecomeCandidate(n)) && Progress(OpenRound(n)) && Progress(HandleVote(n, args).0)
    ensures Progress(ProposeEntry(n, command, now))
  {
  }

  lemma CountKeepsProgress(n: Node, r: nat, from: NodeId)
    requires Progress(n) && LastIndex(n.log) == |n.log| && r < |n.rounds|
    ensures Progress(CountVote(n, r, from))
  {
    BecomeLeaderProgress(Counted(n, r, from));
  }

  /** A success that is written down reaches no further than the leader's log. */
  ghost predicate BooksWithin(s: System, step: Step)
    requires Enabled(s, step)
  {
    match step
    case AppendReplied(m) => Records(s, m) ==> LastIndex(m.aargs.entries) <= |s.nodes[m.aargs.leaderId].log|
    case _ => true
  }

  /** So it is with one of the leader's own term. */
  lemma FreshIsWithin(s: System, step: Step)
    requires LogInv(s) && Enabled(s, step) && FreshSuccess(s, step)
    ensures BooksWithin(s, step)
  {
    match step
    case AppendReplied(m) =>
      if Records(s, m) {
        LastOfMessage(s.leaderLog, m.aargs);
      }
    case _ =>
  }

  lemma ReplyKeepsProgress(logs: TermLogs, n: Node, p: NodeId, args: AppendArgs, reply: AppendReply)
    requires GoodTermLogs(logs) && AppendOk(logs, args) && Progress(n)
    requires n.role == Leader && reply.success && |args.entries| > 0 && reply.term <= n.currentTerm ==>
               LastIndex(args.entries) <= |n.log|
    ensures Progress(HandleAppendReply(n, p, args.entries, reply))
  {
    if |args.entries| > 0 {
      LastOfMessage(logs, args);
    }
  }

  lemma ReceivedKeepsProgress(logs: TermLogs, n: Node, m: Node)
    requires Progress(n) && Received(logs, n, m)
    ensures Progress(m)
  {
  }

  /** The one node a step changes keeps its progress. */
  lemma StepKeepsProgress(s: System, step: Step)
    requires LeaderInv(s) && AppendsNamed(s.elections, s.msgs) && LogInv(s) && Enabled(s, step) && BooksWithin(s, step)
    ensures AllProgress(Apply(s, step).nodes)
  {
    hide LeaderInv, AppendsNamed, Progress, HandleAppend, HandleAppendReply, CountVote, HandleVote, ProposeEntry;
    hide BecomeCandidate;
    hide OpenRound, AppendOk, Received, GoodLog, Grown;
    match step
    case Timeout(n) => HandlersKeepProgress(s.nodes[n], VoteArgsOf(s.nodes[n]), "", 0);
    case StartElection(n) => HandlersKeepProgress(s.nodes[n], VoteArgsOf(s.nodes[n]), "", 0);
    case AnswerVote(m) => HandlersKeepProgress(s.nodes[m.to], m.vargs, "", 0);
    case CountReply(m) =>
      var c := m.vargs.candidateId;
      LastIsLength(s.leaderLog, s.nodes[c].log, s.nodes[c].currentTerm);
      CountKeepsProgress(s.nodes[c], m.round, m.from);
    case AnswerAppend(m) =>
      AnswerAppendKeepsLogs(s, m);
      ReceivedKeepsProgress(s.leaderLog, s.nodes[m.to], HandleAppend(s.nodes[m.to], m.aargs).0);
    case AppendReplied(m) =>
      ReplyKeepsProgress(s.leaderLog, s.nodes[m.aargs.leaderId], m.from, m.aargs, m.areply);
    case Propose(n, command, now) => HandlersKeepProgress(s.nodes[n], VoteArgsOf(s.nodes[n]), command, now);
    case _ =>
  }

  lemma StepKeepsMessages(s: System, step: Step)
    requires LogInv(s) && Enabled(s, step) && Extends(s.leaderLog, Apply(s, step).leaderLog)
    ensures AppendMsgs(Apply(s, step).leaderLog, Apply(s, step).msgs)
  {
    hide HandleAppend, HandleVote, AppendOk, AppendArgsOf, Extends, Progress, GoodLog, Grown, CountVote;
    SoundMsgsGrow(s.leaderLog, Apply(s, step).leaderLog, s.msgs);
    if step.SendAppend? {
      LeaderSends(s.leaderLog, s.nodes[step.n], step.p);
    }
  }

  lemma StepKeepsLogInv(s: System, step: Step)
    requires LeaderInv(s) && AppendsNamed(s.elections, s.msgs) && LogInv(s) && Enabled(s, step)
    requires OneElection(Apply(s, step).elections) && BooksWithin(s, step)
    ensures LogInv(Apply(s, step)) && Extends(s.leaderLog, Apply(s, step).leaderLog)
  {
    hide LeaderInv, AppendsNamed, LogBase, Enabled, Apply, BooksWithin, AppendMsgs, AllProgress, OneElection, Extends;
    StepKeepsBase(s, step);
    StepKeepsProgress(s, step);
    StepKeepsMessages(s, step);
  }

  lemma StepKeepsLogs(s: System, step: Step)
    requires ElectionInv(s) && AgeInv(s) && LogInv(s) && Enabled(s, step)
    requires FreshVote(s, step) && FreshSuccess(s, step)
    ensures LogInv(Apply(s, step))
  {
    hide LogInv, Enabled, Apply, FreshVote, FreshSuccess, Won, BooksWithin;
    WonIsLed(s);
    StepKeepsElection(s, step);
    FreshIsWithin(s, step);
    StepKeepsLogInv(s, step);
  }
}
