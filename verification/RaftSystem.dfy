/**
 * The cluster: every node, and a network that may lose, duplicate and reorder.
 * A message once sent stays in `msgs` for ever and may be delivered any number of
 * times or never. A round counts each voter once; the answer to an append message may
 * be taken note of again and again, where the source takes note of it once. `grants`,
 * `elections`, `leaderLog` and `acks` are history: no step reads them, they only record
 * what the steps did.
 */
module RaftSystem {
  import opened RaftNode

  datatype Msg =
    | VoteReq(round: nat, to: NodeId, vargs: VoteArgs)
    | VoteResp(round: nat, from: NodeId, vargs: VoteArgs, vreply: VoteReply)
    | AppendReq(to: NodeId, aargs: AppendArgs)
    | AppendResp(from: NodeId, aargs: AppendArgs, areply: AppendReply)

  /** `voter`, whose log then was `log`, answered yes to `cand` in `term`. */
  datatype Grant = Grant(term: int, voter: NodeId, cand: NodeId, lastIndex: int, lastTerm: int, log: Log)

  /** `leader` left the candidate state for the leader state in `term`. */
  datatype Election = Election(term: int, leader: NodeId, log: Log, voters: set<NodeId>)

  /** In `term`, `node` held the leader's log up to position `upto`. */
  datatype Ack = Ack(term: int, node: NodeId, upto: int)

  datatype System = System(nodes: map<NodeId, Node>, msgs: set<Msg>,
                           grants: set<Grant>, elections: set<Election>,
                           leaderLog: map<int, Log>, acks: set<Ack>)

  datatype Step =
    | Timeout(n: NodeId)
    | StartElection(n: NodeId)
    | AskVote(n: NodeId, round: nat, p: NodeId)
    | AnswerVote(m: Msg)
    | CountReply(m: Msg)
    | SendAppend(n: NodeId, p: NodeId)
    | AnswerAppend(m: Msg)
    | AppendReplied(m: Msg)
    | Propose(n: NodeId, command: string, now: int)

  ghost predicate Enabled(s: System, step: Step) {
    match step
    case Timeout(n) => n in s.nodes && s.nodes[n].role == Follower
    case StartElection(n) => n in s.nodes && s.nodes[n].role == Candidate
    case AskVote(n, r, p) =>
      n in s.nodes && p in s.nodes[n].peers && s.nodes[n].role == Candidate
      && r < |s.nodes[n].rounds| && s.nodes[n].rounds[r].term == s.nodes[n].currentTerm
    case AnswerVote(m) => m in s.msgs && m.VoteReq? && m.to in s.nodes
    case CountReply(m) =>
      m in s.msgs && m.VoteResp? && m.vreply.granted && m.vargs.candidateId in s.nodes
      && m.round < |s.nodes[m.vargs.candidateId].rounds|
      && m.from !in s.nodes[m.vargs.candidateId].rounds[m.round].votes
    case SendAppend(n, p) =>
      n in s.nodes && p in s.nodes[n].peers && s.nodes[n].role == Leader && At(s.nodes[n].nextIndex, p) >= 1
    case AnswerAppend(m) => m in s.msgs && m.AppendReq? && m.to in s.nodes && ValidEntries(m.aargs.entries)
    case AppendReplied(m) => m in s.msgs && m.AppendResp? && m.aargs.leaderId in s.nodes
    case Propose(n, _, _) => n in s.nodes && s.nodes[n].role == Leader
  }

  function Deliver(s: System, n: NodeId, node: Node, out: set<Msg>): System {
    s.(nodes := s.nodes[n := node], msgs := s.msgs + out)
  }

  function GrantsOf(args: VoteArgs, voter: NodeId, log: Log, reply: VoteReply): set<Grant> {
    if reply.granted
    then {Grant(args.term, voter, args.candidateId, args.lastLogIndex, args.lastLogTerm, log)}
    else {}
  }

  function AcksOf(args: AppendArgs, node: NodeId, reply: AppendReply): set<Ack> {
    if reply.success && |args.entries| > 0 then {Ack(args.term, node, LastIndex(args.entries))} else {}
  }

  ghost function Apply(s: System, step: Step): System
    requires Enabled(s, step)
  {
    match step
    case Timeout(n) => Deliver(s, n, BecomeCandidate(s.nodes[n]), {})
    case StartElection(n) => Deliver(s, n, OpenRound(s.nodes[n]), {})
    case AskVote(n, r, p) => s.(msgs := s.msgs + {VoteReq(r, p, VoteArgsOf(s.nodes[n]))})
    case AnswerVote(m) =>
      var (node, reply) := HandleVote(s.nodes[m.to], m.vargs);
      Deliver(s, m.to, node, {VoteResp(m.round, m.to, m.vargs, reply)})
      .(grants := s.grants + GrantsOf(m.vargs, m.to, s.nodes[m.to].log, reply))
    case CountReply(m) =>
      var c := m.vargs.candidateId;
      var node := CountVote(s.nodes[c], m.round, m.from);
      var t := Deliver(s, c, node, {});
      if node.role == s.nodes[c].role then t
      else t.(elections := s.elections + {Election(node.currentTerm, c, node.log, node.rounds[m.round].votes)},
              leaderLog := s.leaderLog[node.currentTerm := node.log])
    case SendAppend(n, p) => s.(msgs := s.msgs + {AppendReq(p, AppendArgsOf(s.nodes[n], p))})
    case AnswerAppend(m) =>
      var (node, reply) := HandleAppend(s.nodes[m.to], m.aargs);
      Deliver(s, m.to, node, {AppendResp(m.to, m.aargs, reply)})
      .(acks := s.acks + AcksOf(m.aargs, m.to, reply))
    case AppendReplied(m) =>
      var l := m.aargs.leaderId;
      Deliver(s, l, HandleAppendReply(s.nodes[l], m.from, m.aargs.entries, m.areply), {})
    case Propose(n, command, now) =>
      var node := ProposeEntry(s.nodes[n], command, now);
      Deliver(s, n, node, {})
      .(leaderLog := s.leaderLog[node.currentTerm := node.log],
        acks := s.acks + {Ack(node.currentTerm, n, |node.log|)})
  }

  // ----- How old a reply may be when it decides something ----------------------------------

  /** This yes completes the majority of a standing candidate. */
  ghost predicate Decides(s: System, m: Msg)
    requires Enabled(s, CountReply(m))
  {
    var n := s.nodes[m.vargs.candidateId];
    n.role == Candidate && |n.rounds[m.round].votes + {m.from}| > (|n.peers| + 1) / 2
  }

  /** This success is written down by a leader. */
  ghost predicate Records(s: System, m: Msg)
    requires Enabled(s, AppendReplied(m))
  {
    var n := s.nodes[m.aargs.leaderId];
    n.role == Leader && m.areply.success && |m.aargs.entries| > 0 && m.areply.term <= n.currentTerm
  }

  /** A deciding yes answers a request at most `age` terms old. The source does not check this. */
  ghost predicate VotesWithin(s: System, step: Step, age: int)
    requires Enabled(s, step)
  {
    match step
    case CountReply(m) => Decides(s, m) ==> s.nodes[m.vargs.candidateId].currentTerm - m.vargs.term <= age
    case _ => true
  }

  /** A recorded success answers a message at most `age` terms old. The source does not check this. */
  ghost predicate SuccessesWithin(s: System, step: Step, age: int)
    requires Enabled(s, step)
  {
    match step
    case AppendReplied(m) => Records(s, m) ==> s.nodes[m.aargs.leaderId].currentTerm - m.aargs.term <= age
    case _ => true
  }

  /** Node ids are not empty, and every node's peers are the other nodes. */
  ghost predicate Cluster(nodes: map<NodeId, Node>) {
    && NOBODY !in nodes
    && forall n :: n in nodes ==> nodes[n].id == n && nodes[n].peers == nodes.Keys - {n}
  }

  ghost predicate Init(s: System) {
    && Cluster(s.nodes)
    && (forall n :: n in s.nodes ==> s.nodes[n] == NewNode(n, s.nodes.Keys - {n}))
    && s.msgs == {} && s.grants == {} && s.elections == {} && s.leaderLog == map[] && s.acks == {}
  }

  ghost predicate Next(s: System, step: Step, t: System, votes: nat, successes: nat) {
    && Enabled(s, step) && t == Apply(s, step)
    && VotesWithin(s, step, votes) && SuccessesWithin(s, step, successes)
  }

  /** A run of any length in which deciding votes and recorded successes have at most these ages. */
  ghost predicate Run(states: seq<System>, steps: seq<Step>, votes: nat, successes: nat) {
    && |states| == |steps| + 1
    && Init(states[0])
    && forall i :: 0 <= i < |steps| ==> Next(states[i], steps[i], states[i + 1], votes, successes)
  }

  lemma RunLoosens(states: seq<System>, steps: seq<Step>, votes: nat, successes: nat, votes': nat, successes': nat)
    requires Run(states, steps, votes, successes) && votes <= votes' && successes <= successes'
    ensures Run(states, steps, votes', successes')
  {
    hide Init, Enabled, Apply, Decides, Records;
    forall i | 0 <= i < |steps|
      ensures Next(states[i], steps[i], states[i + 1], votes', successes')
    {
      assert Next(states[i], steps[i], states[i + 1], votes, successes);
    }
  }
}
