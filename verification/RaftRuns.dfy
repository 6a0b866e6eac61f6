/** How to drive a cluster: campaigns, replication and late replies, as steps of one run. */
module RaftRuns {
  import opened RaftNode
  import opened RaftSystem

  /** The nodes of a cluster, and how old deciding votes and recorded successes may be. */
  datatype Setting = Setting(ids: set<NodeId>, votes: nat, successes: nat)

  /** Some run ends in `s`. */
  ghost predicate Reachable(c: Setting, s: System) {
    exists states, steps :: EndsIn(c, states, steps, s)
  }

  ghost predicate EndsIn(c: Setting, states: seq<System>, steps: seq<Step>, s: System) {
    Run(states, steps, c.votes, c.successes) && states[0].nodes.Keys == c.ids && states[|states| - 1] == s
  }

  ghost predicate Reached(c: Setting, s: System) {
    Reachable(c, s) && Cluster(s.nodes) && s.nodes.Keys == c.ids
  }

  ghost predicate Allowed(c: Setting, s: System, step: Step) {
    Enabled(s, step) && VotesWithin(s, step, c.votes) && SuccessesWithin(s, step, c.successes)
  }

  lemma RunGoesOn(c: Setting, states: seq<System>, steps: seq<Step>, s: System, step: Step)
    requires EndsIn(c, states, steps, s) && Allowed(c, s, step)
    ensures EndsIn(c, states + [Apply(s, step)], steps + [step], Apply(s, step))
  {
    hide Init, Enabled, Apply, VotesWithin, SuccessesWithin;
    var states', steps' := states + [Apply(s, step)], steps + [step];
    forall i | 0 <= i < |steps'|
      ensures Next(states'[i], steps'[i], states'[i + 1], c.votes, c.successes)
    {
      if i < |steps| {
        assert Next(states[i], steps[i], states[i + 1], c.votes, c.successes);
      }
    }
  }

  lemma HandlersKeepNames(n: Node, vargs: VoteArgs, args: AppendArgs, r: nat, p: NodeId, entries: Log,
                          reply: AppendReply, command: string, now: int)
    ensures var m := HandleVote(n, vargs).0; m.id == n.id && m.peers == n.peers
    ensures ValidEntries(args.entries) ==> var m := HandleAppend(n, args).0; m.id == n.id && m.peers == n.peers
    ensures r < |n.rounds| ==> var m := CountVote(n, r, p); m.id == n.id && m.peers == n.peers
    ensures var m := HandleAppendReply(n, p, entries, reply); m.id == n.id && m.peers == n.peers
    ensures var m := ProposeEntry(n, command, now); m.id == n.id && m.peers == n.peers
  {
  }

  lemma RenamedNone(nodes: map<NodeId, Node>, n: NodeId, m: Node)
    requires Cluster(nodes) && n in nodes && m.id == nodes[n].id && m.peers == nodes[n].peers
    ensures Cluster(nodes[n := m]) && nodes[n := m].Keys == nodes.Keys
  {
    assert nodes[n := m].Keys == nodes.Keys;
  }

  lemma StepKeepsCluster(s: System, step: Step)
    requires Cluster(s.nodes) && Enabled(s, step)
    ensures Cluster(Apply(s, step).nodes) && Apply(s, step).nodes.Keys == s.nodes.Keys
  {
    hide Cluster, HandleVote, HandleAppend, HandleAppendReply, CountVote, ProposeEntry;
    var v, a, none := VoteArgs(0, "", 0, 0), AppendArgs(0, "", 0, 0, [], 0), AppendReply(0, false);
    match step
    case AnswerVote(m) =>
      HandlersKeepNames(s.nodes[m.to], m.vargs, a, 0, "", [], none, "", 0);
      RenamedNone(s.nodes, m.to, HandleVote(s.nodes[m.to], m.vargs).0);
    case AnswerAppend(m) =>
      HandlersKeepNames(s.nodes[m.to], v, m.aargs, 0, "", [], none, "", 0);
      RenamedNone(s.nodes, m.to, HandleAppend(s.nodes[m.to], m.aargs).0);
    case CountReply(m) =>
      var n := m.vargs.candidateId;
      HandlersKeepNames(s.nodes[n], v, a, m.round, m.from, [], none, "", 0);
      RenamedNone(s.nodes, n, CountVote(s.nodes[n], m.round, m.from));
    case AppendReplied(m) =>
      var n := m.aargs.leaderId;
      HandlersKeepNames(s.nodes[n], v, a, 0, m.from, m.aargs.entries, m.areply, "", 0);
      RenamedNone(s.nodes, n, HandleAppendReply(s.nodes[n], m.from, m.aargs.entries, m.areply));
    case Propose(n, command, now) =>
      HandlersKeepNames(s.nodes[n], v, a, 0, "", [], none, command, now);
      RenamedNone(s.nodes, n, ProposeEntry(s.nodes[n], command, now));
    case Timeout(n) => RenamedNone(s.nodes, n, BecomeCandidate(s.nodes[n]));
    case StartElection(n) => RenamedNone(s.nodes, n, OpenRound(s.nodes[n]));
    case _ =>
  }

  lemma Extend(c: Setting, s: System, step: Step) returns (t: System)
    requires Reached(c, s) && Allowed(c, s, step)
    ensures t == Apply(s, step) && Reached(c, t)
  {
    hide Cluster, EndsIn, Enabled, Apply, VotesWithin, SuccessesWithin;
    t := Apply(s, step);
    var states, steps :| EndsIn(c, states, steps, s);
    RunGoesOn(c, states, steps, s, step);
    StepKeepsCluster(s, step);
  }

  lemma Start(c: Setting) returns (s: System)
    requires NOBODY !in c.ids
    ensures Reached(c, s) && s.nodes == map n | n in c.ids :: NewNode(n, c.ids - {n})
  {
    s := System(map n | n in c.ids :: NewNode(n, c.ids - {n}), {}, {}, {}, map[], {});
    assert s.nodes.Keys == c.ids;
    var states: seq<System>, steps: seq<Step> := [s], [];
    assert Init(s);
    assert EndsIn(c, states, steps, s);
  }

  // ----- Campaigns -------------------------------------------------------------------------

  function Follows(n: Node, term: int, votedFor: NodeId): Node {
    n.(currentTerm := term, votedFor := votedFor, role := Follower)
  }

  function Standing(n: Node): Node {
    OpenRound(BecomeCandidate(n))
  }

  /** Node `n`, a follower, stands and opens a round. */
  lemma Stand(c: Setting, s: System, n: NodeId) returns (t: System)
    requires Reached(c, s) && n in c.ids && s.nodes[n].role == Follower
    ensures Reached(c, t) && t.nodes == s.nodes[n := Standing(s.nodes[n])] && t.msgs == s.msgs
  {
    hide Reached;
    assert s.nodes.Keys == c.ids by { ReachedKeys(c, s); }
    t := Extend(c, s, Timeout(n));
    t := Extend(c, t, StartElection(n));
  }

  lemma ReachedKeys(c: Setting, s: System)
    requires Reached(c, s)
    ensures s.nodes.Keys == c.ids && Cluster(s.nodes)
  {
  }

  /** Candidate `n` asks `p` in its last round, and `p` answers. */
  lemma Ask(c: Setting, s: System, n: NodeId, p: NodeId) returns (t: System)
    requires Reached(c, s) && n in c.ids && p in c.ids && n != p && s.nodes[n].role == Candidate
    requires |s.nodes[n].rounds| > 0 && s.nodes[n].rounds[|s.nodes[n].rounds| - 1].term == s.nodes[n].currentTerm
    ensures Reached(c, t) && s.msgs <= t.msgs
    ensures var args := VoteArgsOf(s.nodes[n]);
            var (node, reply) := HandleVote(s.nodes[p], args);
            t.nodes == s.nodes[p := node] && VoteResp(|s.nodes[n].rounds| - 1, p, args, reply) in t.msgs
  {
    hide Reached, HandleVote;
    ReachedKeys(c, s);
    var r := |s.nodes[n].rounds| - 1;
    t := Extend(c, s, AskVote(n, r, p));
    t := Extend(c, t, AnswerVote(VoteReq(r, p, VoteArgsOf(s.nodes[n]))));
  }

  /** A node of an earlier term, whose log is not ahead, follows and votes. */
  ghost predicate WillVote(n: Node, args: VoteArgs) {
    n.currentTerm < args.term && UpToDate(args.lastLogIndex, args.lastLogTerm, n.log)
  }

  lemma VoteIsGiven(n: Node, args: VoteArgs)
    requires WillVote(n, args)
    ensures HandleVote(n, args) == (Follows(n, args.term, args.candidateId), VoteReply(n.currentTerm, true))
  {
  }

  /** The nodes, once those of `q` have voted for `cand` in `term`. */
  function Following(nodes: map<NodeId, Node>, q: set<NodeId>, term: int, cand: NodeId): map<NodeId, Node> {
    map k | k in nodes :: if k in q then Follows(nodes[k], term, cand) else nodes[k]
  }

  /** A yes of `p` to these arguments, in this round, is under way. */
  ghost predicate YesUnderWay(msgs: set<Msg>, round: nat, p: NodeId, args: VoteArgs) {
    exists reply :: VoteResp(round, p, args, reply) in msgs && reply.granted
  }

  ghost predicate AllYes(msgs: set<Msg>, round: nat, q: set<NodeId>, args: VoteArgs) {
    forall p :: p in q ==> YesUnderWay(msgs, round, p, args)
  }

  lemma AllYesStays(msgs: set<Msg>, more: set<Msg>, round: nat, q: set<NodeId>, args: VoteArgs)
    requires AllYes(msgs, round, q, args) && msgs <= more
    ensures AllYes(more, round, q, args)
  {
    forall p | p in q
      ensures YesUnderWay(more, round, p, args)
    {
      assert YesUnderWay(msgs, round, p, args);
    }
  }

  /** Candidate `n` asks all of `q`, and all of them vote for it. */
  lemma {:induction false} AskAll(c: Setting, s: System, n: NodeId, q: set<NodeId>) returns (t: System)
    requires Reached(c, s) && n in c.ids && q <= c.ids - {n} && s.nodes[n].role == Candidate
    requires |s.nodes[n].rounds| > 0 && s.nodes[n].rounds[|s.nodes[n].rounds| - 1].term == s.nodes[n].currentTerm
    requires forall p :: p in q ==> WillVote(s.nodes[p], VoteArgsOf(s.nodes[n]))
    ensures Reached(c, t) && s.msgs <= t.msgs
    ensures t.nodes == Following(s.nodes, q, s.nodes[n].currentTerm, n)
    ensures AllYes(t.msgs, |s.nodes[n].rounds| - 1, q, VoteArgsOf(s.nodes[n]))
    decreases |q|
  {
    hide Reached, HandleVote, WillVote, VoteArgsOf, Follows, YesUnderWay;
    ReachedKeys(c, s);
    var args, r := VoteArgsOf(s.nodes[n]), |s.nodes[n].rounds| - 1;
    if q == {} {
      t := s;
      assert t.nodes == Following(s.nodes, q, s.nodes[n].currentTerm, n);
    } else {
      var p :| p in q;
      var mid := AskAll(c, s, n, q - {p});
      t := Ask(c, mid, n, p);
      VoteIsGiven(s.nodes[p], args);
      YesArrives(s, mid, t, n, p, args, r);
      AllYesStays(mid.msgs, t.msgs, r, q - {p}, args);
      assert t.nodes == Following(s.nodes, q, s.nodes[n].currentTerm, n) by {
        ArgsName(s.nodes[n]);
        assert args.candidateId == n;
      }
    }
  }

  lemma ArgsName(n: Node)
    ensures VoteArgsOf(n).candidateId == n.id && VoteArgsOf(n).term == n.currentTerm
    ensures VoteArgsOf(n).lastLogIndex == LastIndex(n.log) && VoteArgsOf(n).lastLogTerm == LastTerm(n.log)
  {
  }

  lemma YesArrives(s: System, mid: System, t: System, n: NodeId, p: NodeId, args: VoteArgs, r: nat)
    requires p in s.nodes && WillVote(s.nodes[p], args)
    requires VoteResp(r, p, args, HandleVote(s.nodes[p], args).1) in t.msgs
    ensures YesUnderWay(t.msgs, r, p, args)
  {
    VoteIsGiven(s.nodes[p], args);
  }

  function WithVotes(n: Node, r: nat, votes: set<NodeId>): Node
    requires r < |n.rounds|
  {
    n.(rounds := n.rounds[r := Round(n.rounds[r].term, votes)])
  }

  function Decided(n: Node, votes: set<NodeId>): Node {
    if |votes| > (|n.peers| + 1) / 2 && n.role == Candidate then BecomeLeader(n) else n
  }

  /** The candidate once the yeses of `q` are counted in round `r`. */
  function Tally(n: Node, r: nat, q: set<NodeId>): Node
    requires r < |n.rounds|
  {
    Decided(WithVotes(n, r, n.rounds[r].votes + q), n.rounds[r].votes + q)
  }

  lemma CountIsDecided(n: Node, r: nat, p: NodeId)
    requires r < |n.rounds|
    ensures CountVote(n, r, p) == Decided(WithVotes(n, r, n.rounds[r].votes + {p}), n.rounds[r].votes + {p})
  {
  }

  lemma DecidedTwice(n: Node, r: nat, votes: set<NodeId>, more: set<NodeId>)
    requires r < |n.rounds| && votes <= more
    ensures Decided(WithVotes(Decided(WithVotes(n, r, votes), votes), r, more), more) ==
            Decided(WithVotes(n, r, more), more)
  {
    SubsetSize(votes, more);
    assert n.rounds[r := Round(n.rounds[r].term, votes)][r := Round(n.rounds[r].term, more)]
        == n.rounds[r := Round(n.rounds[r].term, more)];
  }

  lemma TallyOneMore(n: Node, r: nat, q: set<NodeId>, p: NodeId)
    requires r < |n.rounds|
    ensures CountVote(Tally(n, r, q), r, p) == Tally(n, r, q + {p})
  {
    hide Decided, CountVote;
    var votes := n.rounds[r].votes + q;
    assert n.rounds[r].votes + (q + {p}) == votes + {p};
    TallyFacts(n, r, q);
    CountIsDecided(Tally(n, r, q), r, p);
    DecidedTwice(n, r, votes, votes + {p});
  }

  lemma TallyNone(n: Node, r: nat)
    requires r < |n.rounds| && |n.rounds[r].votes| <= (|n.peers| + 1) / 2
    ensures Tally(n, r, {}) == n
  {
    assert n.rounds[r].votes + {} == n.rounds[r].votes;
    assert n.rounds[r := n.rounds[r]] == n.rounds;
  }

  /** After the yeses of `q`, that of `p` is counted. */
  lemma CountMore(c: Setting, s: System, mid: System, n: NodeId, r: nat, q: set<NodeId>, p: NodeId, args: VoteArgs)
    returns (t: System)
    requires Reached(c, mid) && n in s.nodes && r < |s.nodes[n].rounds|
    requires mid.msgs == s.msgs && mid.nodes == s.nodes[n := Tally(s.nodes[n], r, q)]
    requires args.candidateId == n && s.nodes[n].currentTerm - args.term <= c.votes
    requires YesUnderWay(s.msgs, r, p, args) && p !in s.nodes[n].rounds[r].votes + q
    ensures Reached(c, t) && t.msgs == s.msgs && t.nodes.Keys == c.ids
    ensures t.nodes == s.nodes[n := Tally(s.nodes[n], r, q + {p})]
  {
    hide Reached, Cluster, CountVote, Tally, Decided, WithVotes;
    var reply :| VoteResp(r, p, args, reply) in s.msgs && reply.granted;
    TallyFacts(s.nodes[n], r, q);
    t := CountOne(c, mid, VoteResp(r, p, args, reply));
    TallyOneMore(s.nodes[n], r, q, p);
    ReachedKeys(c, t);
  }

  /** Candidate `n` counts the yeses of `q` in round `r`, however old they are. */
  lemma {:induction false} CountAll(c: Setting, s: System, n: NodeId, r: nat, q: set<NodeId>, args: VoteArgs)
    returns (t: System)
    requires Reached(c, s) && n in c.ids && r < |s.nodes[n].rounds|
    requires args.candidateId == n && s.nodes[n].currentTerm - args.term <= c.votes
    requires AllYes(s.msgs, r, q, args) && q !! s.nodes[n].rounds[r].votes
    requires |s.nodes[n].rounds[r].votes| <= (|s.nodes[n].peers| + 1) / 2
    ensures Reached(c, t) && t.msgs == s.msgs && t.nodes.Keys == c.ids
    ensures t.nodes == s.nodes[n := Tally(s.nodes[n], r, q)]
    decreases |q|
  {
    hide Reached, Cluster, CountVote, Tally, Decided, WithVotes, YesUnderWay;
    ReachedKeys(c, s);
    if q == {} {
      t := s;
      TallyNone(s.nodes[n], r);
    } else {
      var p :| p in q;
      assert AllYes(s.msgs, r, q - {p}, args);
      var mid := CountAll(c, s, n, r, q - {p}, args);
      assert q - {p} + {p} == q;
      t := CountMore(c, s, mid, n, r, q - {p}, p, args);
    }
  }

  lemma TallyFacts(n: Node, r: nat, q: set<NodeId>)
    requires r < |n.rounds|
    ensures var m := Tally(n, r, q);
            && |m.rounds| == |n.rounds| && m.rounds[r].votes == n.rounds[r].votes + q
            && m.currentTerm == n.currentTerm && m.log == n.log && m.id == n.id && m.peers == n.peers
            && m.commitIndex == n.commitIndex
  {
  }

  lemma CountOne(c: Setting, s: System, m: Msg) returns (t: System)
    requires Reached(c, s) && Enabled(s, CountReply(m))
    requires s.nodes[m.vargs.candidateId].currentTerm - m.vargs.term <= c.votes
    ensures Reached(c, t) && t.msgs == s.msgs
    ensures var n := m.vargs.candidateId; t.nodes == s.nodes[n := CountVote(s.nodes[n], m.round, m.from)]
  {
    hide Reached, CountVote;
    t := Extend(c, s, CountReply(m));
    assert s.msgs + {} == s.msgs;
  }

  /** What winning a campaign makes of a node. */
  ghost predicate Leading(n: Node, m: Node) {
    && m.role == Leader && m.currentTerm == n.currentTerm + 1 && m.log == n.log && m.commitIndex == n.commitIndex
    && m.id == n.id && m.peers == n.peers
    && forall p :: p in n.peers ==> At(m.nextIndex, p) == LastIndex(n.log) + 1 && At(m.matchIndex, p) == 0
  }

  /** A follower stands and is voted for by all of `q`; the yeses stay under way. */
  lemma Campaign(c: Setting, s: System, n: NodeId, q: set<NodeId>) returns (t: System)
    requires Reached(c, s) && n in c.ids && q <= c.ids - {n} && s.nodes[n].role == Follower
    requires forall p :: p in q ==> WillVote(s.nodes[p], VoteArgsOf(Standing(s.nodes[n])))
    ensures Reached(c, t) && s.msgs <= t.msgs && t.nodes.Keys == c.ids
    ensures t.nodes[n] == Standing(s.nodes[n])
    ensures forall p :: p in c.ids && p != n ==>
              t.nodes[p] == if p in q then Follows(s.nodes[p], s.nodes[n].currentTerm + 1, n) else s.nodes[p]
    ensures AllYes(t.msgs, |s.nodes[n].rounds|, q, VoteArgsOf(Standing(s.nodes[n])))
  {
    hide Reached, WillVote, VoteArgsOf, AllYes, BecomeCandidate, Follows;
    ReachedKeys(c, s);
    StandingFacts(s.nodes[n]);
    t := Stand(c, s, n);
    t := AskAll(c, t, n, q);
    ReachedKeys(c, t);
  }

  /** A follower stands and is elected, with fresh votes, by `q`; nobody else takes part. */
  lemma Elect(c: Setting, s: System, n: NodeId, q: set<NodeId>) returns (t: System)
    requires Reached(c, s) && n in c.ids && q <= c.ids - {n} && s.nodes[n].role == Follower
    requires 2 * (|q| + 1) > |c.ids| >= 2
    requires forall p :: p in q ==> WillVote(s.nodes[p], VoteArgsOf(Standing(s.nodes[n])))
    ensures Reached(c, t) && s.msgs <= t.msgs && t.nodes.Keys == c.ids
    ensures Leading(s.nodes[n], t.nodes[n])
    ensures forall p :: p in c.ids && p != n ==>
              t.nodes[p] == if p in q then Follows(s.nodes[p], s.nodes[n].currentTerm + 1, n) else s.nodes[p]
  {
    hide Reached, WillVote, VoteArgsOf, AllYes, Tally, Leading, BecomeCandidate, Follows, OpenRound;
    ReachedKeys(c, s);
    var n0, n1 := s.nodes[n], Standing(s.nodes[n]);
    StandingFacts(n0);
    ArgsName(n1);
    PeersAndSelf(n0, c.ids);
    var mid := Campaign(c, s, n, q);
    t := CountAll(c, mid, n, |n0.rounds|, q, VoteArgsOf(n1));
    TallyLeads(n0, q);
  }

  lemma PeersAndSelf(n: Node, ids: set<NodeId>)
    requires n.id in ids && n.peers == ids - {n.id}
    ensures |n.peers| + 1 == |ids| && |{n.id}| == 1
  {
    assert ids == n.peers + {n.id};
  }

  lemma StandingFacts(n: Node)
    ensures var m := Standing(n);
            && m.role == Candidate && m.currentTerm == n.currentTerm + 1 && m.id == n.id && m.peers == n.peers
            && |m.rounds| == |n.rounds| + 1 && m.rounds[|n.rounds|] == Round(m.currentTerm, {n.id})
            && m.log == n.log
  {
  }

  lemma TallyLeads(n: Node, q: set<NodeId>)
    requires n.id !in q && q != {} && |q| + 1 > (|n.peers| + 1) / 2
    ensures Leading(n, Tally(Standing(n), |n.rounds|, q))
  {
    assert Standing(n).rounds[|n.rounds|].votes == {n.id};
    assert |{n.id} + q| == |q| + 1;
  }

  // ----- Replication -------------------------------------------------------------------------

  /** Leader `l` sends `p` what is next for it, and `p` answers. */
  lemma Send(c: Setting, s: System, l: NodeId, p: NodeId) returns (t: System)
    requires Reached(c, s) && l in c.ids && p in c.ids && l != p && s.nodes[l].role == Leader
    requires At(s.nodes[l].nextIndex, p) >= 1 && ValidEntries(AppendArgsOf(s.nodes[l], p).entries)
    ensures Reached(c, t) && s.msgs <= t.msgs
    ensures var args := AppendArgsOf(s.nodes[l], p);
            var (node, reply) := HandleAppend(s.nodes[p], args);
            t.nodes == s.nodes[p := node] && AppendResp(p, args, reply) in t.msgs
  {
    hide Reached, HandleAppend, AppendArgsOf;
    ReachedKeys(c, s);
    t := Extend(c, s, SendAppend(l, p));
    t := Extend(c, t, AnswerAppend(AppendReq(p, AppendArgsOf(s.nodes[l], p))));
  }

  /** The leader takes note of an answer. */
  lemma Note(c: Setting, s: System, m: Msg) returns (t: System)
    requires Reached(c, s) && m in s.msgs && m.AppendResp? && m.aargs.leaderId in c.ids
    requires s.nodes[m.aargs.leaderId].currentTerm - m.aargs.term <= c.successes
    ensures Reached(c, t) && t.msgs == s.msgs
    ensures var l := m.aargs.leaderId;
            t.nodes == s.nodes[l := HandleAppendReply(s.nodes[l], m.from, m.aargs.entries, m.areply)]
  {
    hide Reached, HandleAppendReply;
    ReachedKeys(c, s);
    t := Extend(c, s, AppendReplied(m));
    assert s.msgs + {} == s.msgs;
  }

  lemma ProposeOne(c: Setting, s: System, l: NodeId, command: string) returns (t: System)
    requires Reached(c, s) && l in c.ids && s.nodes[l].role == Leader
    ensures Reached(c, t) && t.msgs == s.msgs && t.nodes == s.nodes[l := ProposeEntry(s.nodes[l], command, 0)]
  {
    hide Reached;
    ReachedKeys(c, s);
    t := Extend(c, s, Propose(l, command, 0));
    assert s.msgs + {} == s.msgs;
  }

  /** An answer of `p` that `entries` of term `term` were taken is under way to `l`. */
  ghost predicate SuccessUnderWay(msgs: set<Msg>, l: NodeId, p: NodeId, term: int, entries: Log) {
    exists args, reply :: TakenBy(msgs, l, p, term, entries, args, reply)
  }

  ghost predicate TakenBy(msgs: set<Msg>, l: NodeId, p: NodeId, term: int, entries: Log, args: AppendArgs,
                          reply: AppendReply) {
    && AppendResp(p, args, reply) in msgs && args.leaderId == l && args.term == term && args.entries == entries
    && reply.success && reply.term <= term
  }

  /** The leader differs only in what it will send. */
  ghost predicate SameButNext(n: Node, m: Node, q: set<NodeId>) {
    && m == n.(nextIndex := m.nextIndex)
    && forall p :: p !in q ==> At(m.nextIndex, p) == At(n.nextIndex, p)
  }

  /** What happens to an empty follower when the leader looks too far ahead, and when it does not. */
  lemma EmptyFollower(l: Node, n: Node)
    requires l.role == Leader && |l.log| > 0 && l.commitIndex == 0 && At(l.nextIndex, n.id) >= 1
    requires n.role == Follower && n.currentTerm == l.currentTerm && n.log == [] && n.commitIndex == 0
    requires forall i :: 0 <= i < |l.log| ==> l.log[i].index == i + 1
    ensures var args := AppendArgsOf(l, n.id);
            && ValidEntries(args.entries) && args.leaderId == l.id && args.term == l.currentTerm
            && (At(l.nextIndex, n.id) > 1 ==> HandleAppend(n, args) == (n, AppendReply(n.currentTerm, false)))
            && (At(l.nextIndex, n.id) == 1 ==>
                  args.entries == l.log
                  && HandleAppend(n, args) == (n.(log := l.log), AppendReply(n.currentTerm, true)))
  {
    if At(l.nextIndex, n.id) == 1 {
      assert l.log[0..] == l.log;
      AppendToEmpty(l.log, |l.log|);
      assert l.log[..|l.log|] == l.log;
    }
  }

  lemma {:induction false} AppendToEmpty(log: Log, k: nat)
    requires k <= |log| && forall i :: 0 <= i < |log| ==> log[i].index == i + 1
    ensures ValidEntries(log[..k]) && AppendAll([], log[..k]) == log[..k]
  {
    if k > 0 {
      AppendToEmpty(log, k - 1);
      assert log[..k][..k - 1] == log[..k - 1];
      assert log[..k - 1] + [log[k - 1]] == log[..k];
    }
  }

  /** The leader brings its whole log to an empty follower of its term; the success stays under way. */
  lemma {:induction false} Fill(c: Setting, s: System, l: NodeId, p: NodeId) returns (t: System)
    requires Reached(c, s) && l in c.ids && p in c.ids && l != p
    requires FillReady(s.nodes[l], s.nodes[p], p)
    ensures Reached(c, t) && s.msgs <= t.msgs && t.nodes.Keys == c.ids
    ensures SameButNext(s.nodes[l], t.nodes[l], {p}) && t.nodes[p] == s.nodes[p].(log := s.nodes[l].log)
    ensures forall k :: k in c.ids && k != l && k != p ==> t.nodes[k] == s.nodes[k]
    ensures SuccessUnderWay(t.msgs, l, p, s.nodes[l].currentTerm, s.nodes[l].log)
    decreases At(s.nodes[l].nextIndex, p)
  {
    hide Reached, AppendArgsOf, HandleAppend, ValidEntries;
    ReachedKeys(c, s);
    var n := s.nodes[l];
    var args := AppendArgsOf(n, p);
    EmptyFollower(n, s.nodes[p]);
    t := Send(c, s, l, p);
    if At(n.nextIndex, p) > 1 {
      var mid := Note(c, t, AppendResp(p, args, AppendReply(n.currentTerm, false)));
      t := Fill(c, mid, l, p);
    } else {
      ReachedKeys(c, t);
      assert TakenBy(t.msgs, l, p, n.currentTerm, n.log, args, AppendReply(n.currentTerm, true));
    }
  }

  ghost predicate FillReady(l: Node, n: Node, p: NodeId) {
    && l.role == Leader && |l.log| > 0 && l.commitIndex == 0 && At(l.nextIndex, p) >= 1
    && (forall i :: 0 <= i < |l.log| ==> l.log[i].index == i + 1)
    && n.role == Follower && n.currentTerm == l.currentTerm && n.log == [] && n.commitIndex == 0
  }

  /** What `Fill` does, for each of `q`: their logs, and of the leader only what it will send. */
  ghost predicate Filled(s: System, t: System, l: NodeId, q: set<NodeId>)
    requires l in s.nodes && l in t.nodes && s.nodes.Keys == t.nodes.Keys
  {
    && SameButNext(s.nodes[l], t.nodes[l], q)
    && forall k :: k in s.nodes && k != l ==>
         t.nodes[k] == if k in q then s.nodes[k].(log := s.nodes[l].log) else s.nodes[k]
  }

  lemma FillMore(c: Setting, s: System, mid: System, l: NodeId, q: set<NodeId>, p: NodeId) returns (t: System)
    requires Reached(c, s) && Reached(c, mid) && l in c.ids && p in c.ids && l != p && p !in q
    requires mid.nodes.Keys == s.nodes.Keys == c.ids && s.msgs <= mid.msgs && Filled(s, mid, l, q)
    requires FillReady(s.nodes[l], s.nodes[p], p)
    requires AllTaken(mid.msgs, l, q, s.nodes[l].currentTerm, s.nodes[l].log)
    ensures Reached(c, t) && s.msgs <= t.msgs && t.nodes.Keys == c.ids && Filled(s, t, l, q + {p})
    ensures AllTaken(t.msgs, l, q + {p}, s.nodes[l].currentTerm, s.nodes[l].log)
  {
    hide Reached, SuccessUnderWay;
    assert FillReady(mid.nodes[l], mid.nodes[p], p);
    t := Fill(c, mid, l, p);
    AllTakenStays(mid.msgs, t.msgs, l, q, s.nodes[l].currentTerm, s.nodes[l].log);
  }

  lemma {:induction false} FillAll(c: Setting, s: System, l: NodeId, q: set<NodeId>) returns (t: System)
    requires Reached(c, s) && l in c.ids && q <= c.ids - {l}
    requires forall p :: p in q ==> FillReady(s.nodes[l], s.nodes[p], p)
    ensures Reached(c, t) && s.msgs <= t.msgs && t.nodes.Keys == c.ids && Filled(s, t, l, q)
    ensures AllTaken(t.msgs, l, q, s.nodes[l].currentTerm, s.nodes[l].log)
    decreases |q|
  {
    hide Reached, SuccessUnderWay, FillReady, Cluster;
    ReachedKeys(c, s);
    if q == {} {
      t := s;
    } else {
      var p :| p in q;
      var mid := FillAll(c, s, l, q - {p});
      t := FillMore(c, s, mid, l, q - {p}, p);
      assert q - {p} + {p} == q;
    }
  }

  ghost predicate AllTaken(msgs: set<Msg>, l: NodeId, q: set<NodeId>, term: int, entries: Log) {
    forall p :: p in q ==> SuccessUnderWay(msgs, l, p, term, entries)
  }

  lemma AllTakenStays(msgs: set<Msg>, more: set<Msg>, l: NodeId, q: set<NodeId>, term: int, entries: Log)
    requires AllTaken(msgs, l, q, term, entries) && msgs <= more
    ensures AllTaken(more, l, q, term, entries)
  {
    forall p | p in q
      ensures SuccessUnderWay(more, l, p, term, entries)
    {
      assert SuccessUnderWay(msgs, l, p, term, entries);
      var args, reply :| TakenBy(msgs, l, p, term, entries, args, reply);
      assert TakenBy(more, l, p, term, entries, args, reply);
    }
  }

  /** What the leader has written down, and what has stayed. */
  ghost predicate Noted(n: Node, m: Node, q: set<NodeId>, index: int) {
    && m == n.(nextIndex := m.nextIndex, matchIndex := m.matchIndex)
    && (forall p :: p in q ==> At(m.matchIndex, p) == index)
  }

  lemma NotedOneMore(n: Node, m: Node, q: set<NodeId>, p: NodeId, entries: Log, reply: AppendReply)
    requires Noted(n, m, q, LastIndex(entries)) && reply.success && reply.term <= m.currentTerm && |entries| > 0
    ensures Noted(n, HandleAppendReply(m, p, entries, reply), q + {p}, LastIndex(entries))
  {
  }

  /** Leader `l` takes note of the successes of `q`, however old they are. */
  lemma {:induction false} NoteAll(c: Setting, s: System, l: NodeId, q: set<NodeId>, term: int, entries: Log)
    returns (t: System)
    requires Reached(c, s) && l in c.ids && s.nodes[l].role == Leader && |entries| > 0
    requires term <= s.nodes[l].currentTerm <= term + c.successes && AllTaken(s.msgs, l, q, term, entries)
    ensures Reached(c, t) && t.msgs == s.msgs && t.nodes == s.nodes[l := t.nodes[l]]
    ensures l in t.nodes && Noted(s.nodes[l], t.nodes[l], q, LastIndex(entries))
    decreases |q|
  {
    hide Reached;
    ReachedKeys(c, s);
    if q == {} {
      t := s;
    } else {
      var p :| p in q;
      var mid := NoteAll(c, s, l, q - {p}, term, entries);
      assert SuccessUnderWay(s.msgs, l, p, term, entries);
      var args, reply :| TakenBy(s.msgs, l, p, term, entries, args, reply);
      t := Note(c, mid, AppendResp(p, args, reply));
      NotedOneMore(s.nodes[l], mid.nodes[l], q - {p}, p, entries, reply);
      assert q - {p} + {p} == q;
    }
  }
}
