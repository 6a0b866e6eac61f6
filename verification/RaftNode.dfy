/**
 * One Raft node as a value, and each handler of the node as a function from the
 * node before to the node after. The class in RaftServer.dfy carries the same
 * handlers as methods that update fields, and is proved against these functions.
 */
module RaftNode {
  type NodeId = string

  /** The empty string is the source's "voted for nobody". */
  const NOBODY: NodeId := ""

  datatype Role = Follower | Candidate | Leader

  datatype Entry = Entry(term: int, index: int, command: string, timestamp: int)
  type Log = seq<Entry>

  datatype VoteArgs = VoteArgs(term: int, candidateId: NodeId, lastLogIndex: int, lastLogTerm: int)
  datatype VoteReply = VoteReply(term: int, granted: bool)

  datatype AppendArgs = AppendArgs(term: int, leaderId: NodeId, prevLogIndex: int, prevLogTerm: int,
                                   entries: Log, leaderCommit: int)
  datatype AppendReply = AppendReply(term: int, success: bool)

  /** The counter one election round shares between its goroutines: who has been counted so far. */
  datatype Round = Round(term: int, votes: set<NodeId>)

  datatype Node = Node(id: NodeId, peers: set<NodeId>,
                       currentTerm: int, votedFor: NodeId, log: Log,
                       role: Role, commitIndex: int,
                       nextIndex: map<NodeId, int>, matchIndex: map<NodeId, int>,
                       rounds: seq<Round>)

  function LastIndex(log: Log): int {
    if |log| == 0 then 0 else log[|log| - 1].index
  }

  function LastTerm(log: Log): int {
    if |log| == 0 then 0 else log[|log| - 1].term
  }

  /** A missing key of a Go map reads as zero. */
  function At(m: map<NodeId, int>, p: NodeId): int {
    if p in m then m[p] else 0
  }

  function Members(peers: seq<NodeId>): set<NodeId> {
    set p | p in peers
  }

  function Constant(keys: set<NodeId>, value: int): map<NodeId, int> {
    map p | p in keys :: value
  }

  function NewNode(id: NodeId, peers: set<NodeId>): Node {
    Node(id, peers, 0, NOBODY, [], Follower, 0, Constant(peers, 1), Constant(peers, 0), [])
  }

  function BecomeCandidate(n: Node): Node {
    n.(role := Candidate, currentTerm := n.currentTerm + 1, votedFor := n.id)
  }

  /** A candidate's tick opens a new round whose counter starts with its own vote. */
  function OpenRound(n: Node): Node {
    n.(rounds := n.rounds + [Round(n.currentTerm, {n.id})])
  }

  function VoteArgsOf(n: Node): VoteArgs {
    VoteArgs(n.currentTerm, n.id, LastIndex(n.log), LastTerm(n.log))
  }

  function BecomeLeader(n: Node): Node {
    n.(role := Leader,
       nextIndex := n.nextIndex + Constant(n.peers, LastIndex(n.log) + 1),
       matchIndex := n.matchIndex + Constant(n.peers, 0))
  }

  /** A granted reply of `from` arrives at round `r`. */
  function CountVote(n: Node, r: nat, from: NodeId): Node
    requires r < |n.rounds|
  {
    var votes := n.rounds[r].votes + {from};
    var counted := n.(rounds := n.rounds[r := Round(n.rounds[r].term, votes)]);
    if |votes| > (|n.peers| + 1) / 2 && n.role == Candidate then BecomeLeader(counted) else counted
  }

  function UpToDate(lastIndex: int, lastTerm: int, log: Log): bool {
    lastTerm > LastTerm(log) || (lastTerm == LastTerm(log) && lastIndex >= LastIndex(log))
  }

  function StepDown(n: Node, term: int): Node {
    n.(currentTerm := term, role := Follower, votedFor := NOBODY)
  }

  function HandleVote(n: Node, args: VoteArgs): (Node, VoteReply) {
    if args.term < n.currentTerm then (n, VoteReply(n.currentTerm, false))
    else
      var m := if args.term > n.currentTerm then StepDown(n, args.term) else n;
      if (m.votedFor == NOBODY || m.votedFor == args.candidateId)
         && UpToDate(args.lastLogIndex, args.lastLogTerm, m.log)
      then (m.(votedFor := args.candidateId), VoteReply(n.currentTerm, true))
      else (m, VoteReply(n.currentTerm, false))
  }

  /** The arguments a leader builds for peer `p`. */
  function AppendArgsOf(n: Node, p: NodeId): AppendArgs
    requires At(n.nextIndex, p) >= 1
  {
    var next := At(n.nextIndex, p);
    var prev := next - 1;
    AppendArgs(n.currentTerm, n.id, prev,
               if 0 < prev <= |n.log| then n.log[prev - 1].term else 0,
               if next <= |n.log| then n.log[next - 1..] else [],
               n.commitIndex)
  }

  /** One turn of the AppendEntries loop. An index below 1 makes the source panic. */
  function AppendOne(log: Log, e: Entry): Log
    requires e.index >= 1
  {
    if e.index <= |log| then
      if log[e.index - 1].term != e.term then log[..e.index - 1] + [e] else log
    else log + [e]
  }

  ghost predicate ValidEntries(entries: Log) {
    forall i :: 0 <= i < |entries| ==> entries[i].index >= 1
  }

  function AppendAll(log: Log, entries: Log): Log
    requires ValidEntries(entries)
  {
    if |entries| == 0 then log
    else AppendOne(AppendAll(log, entries[..|entries| - 1]), entries[|entries| - 1])
  }

  /** The consistency check on the previous entry, then the loop: the new log, and whether the check passed. */
  function ReceiveEntries(log: Log, args: AppendArgs): (Log, bool)
    requires ValidEntries(args.entries)
  {
    var prev := args.prevLogIndex;
    if prev > 0 && prev > |log| then (log, false)
    else if prev > 0 && log[prev - 1].term != args.prevLogTerm then (log[..prev - 1], false)
    else (AppendAll(log, args.entries), true)
  }

  function Commit(n: Node, leaderCommit: int): Node {
    if leaderCommit > n.commitIndex then
      n.(commitIndex := if leaderCommit < LastIndex(n.log) then leaderCommit else LastIndex(n.log))
    else n
  }

  /** The term and role part of AppendEntries, done before the log is looked at. */
  function HearLeader(n: Node, term: int): Node {
    if term > n.currentTerm || n.role == Candidate then StepDown(n, term) else n
  }

  function HandleAppend(n: Node, args: AppendArgs): (Node, AppendReply)
    requires ValidEntries(args.entries)
  {
    if args.term < n.currentTerm then (n, AppendReply(n.currentTerm, false))
    else
      var m := HearLeader(n, args.term);
      var (log, ok) := ReceiveEntries(m.log, args);
      if ok then (Commit(m.(log := log), args.leaderCommit), AppendReply(n.currentTerm, true))
      else (m.(log := log), AppendReply(n.currentTerm, false))
  }

  /** What the sender does with the answer of `p` to a message that carried `entries`. */
  function HandleAppendReply(n: Node, p: NodeId, entries: Log, reply: AppendReply): Node {
    if reply.term > n.currentTerm then StepDown(n, reply.term)
    else if reply.success then
      if |entries| > 0 then
        n.(nextIndex := n.nextIndex[p := LastIndex(entries) + 1],
           matchIndex := n.matchIndex[p := LastIndex(entries)])
      else n
    else if At(n.nextIndex, p) > 1 then n.(nextIndex := n.nextIndex[p := At(n.nextIndex, p) - 1])
    else n
  }

  function ProposeEntry(n: Node, command: string, now: int): Node {
    if n.role != Leader then n
    else n.(log := n.log + [Entry(n.currentTerm, LastIndex(n.log) + 1, command, now)])
  }

  // ----- Quorums -------------------------------------------------------------

  function QuorumSize(peers: set<NodeId>): int {
    (|peers| + 1) / 2 + 1
  }

  predicate CheckQuorum(peers: set<NodeId>, acks: int) {
    acks >= QuorumSize(peers)
  }

  ghost predicate IsMajority(q: set<NodeId>, all: set<NodeId>) {
    q <= all && 2 * |q| > |all|
  }

  lemma SubsetSize<T>(a: set<T>, b: set<T>)
    requires a <= b
    ensures |a| <= |b|
  {
    assert b == a + (b - a);
  }

  /** Two majorities of the same cluster share a node. */
  lemma MajoritiesMeet(p: set<NodeId>, q: set<NodeId>, all: set<NodeId>) returns (z: NodeId)
    requires IsMajority(p, all) && IsMajority(q, all)
    ensures z in p && z in q
  {
    if p * q == {} {
      assert |p + q| == |p| + |q|;
      SubsetSize(p + q, all);
      assert false;
    }
    z :| z in p * q;
  }

  /** The source's two ways of asking for a quorum agree with "more than half of the cluster". */
  lemma QuorumIsMajority(id: NodeId, peers: set<NodeId>, q: set<NodeId>)
    requires id !in peers && q <= peers + {id}
    ensures CheckQuorum(peers, |q|) <==> IsMajority(q, peers + {id})
    ensures |q| > (|peers| + 1) / 2 <==> IsMajority(q, peers + {id})
  {
    assert |peers + {id}| == |peers| + 1;
  }
}
