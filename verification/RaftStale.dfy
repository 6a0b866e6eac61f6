/**
 * Two terms are too many: in every cluster of at least three nodes, a run in which a
 * two terms old yes decides, or a two terms old success is recorded, breaks the
 * properties that RaftTheorems.dfy proves when one term is the most. Each property is
 * given the ages with which, and only with which, all runs have it.
 */
module RaftStale {
  import opened RaftNode
  import opened RaftSystem
  import opened RaftRuns
  import opened RaftTheorems

  // ----- A cluster as two nodes and the rest -----------------------------------------------------

  datatype Part = Part(role: Role, term: int, log: Log)

  /** Nodes `a` and `d`, and the term and the log of all others, which are followers if `quiet`. */
  datatype Scene = Scene(a: NodeId, pa: Part, d: NodeId, pd: Part, term: int, log: Log, quiet: bool)

  ghost predicate Plays(n: Node, p: Part) {
    n.role == p.role && n.currentTerm == p.term && n.log == p.log && n.commitIndex == 0
  }

  ghost predicate InRest(n: Node, term: int, log: Log, quiet: bool) {
    n.currentTerm == term && n.log == log && n.commitIndex == 0 && (quiet ==> n.role == Follower)
  }

  function Rest(c: Setting, z: Scene): set<NodeId> {
    c.ids - {z.a, z.d}
  }

  ghost predicate Shows(c: Setting, s: System, z: Scene) {
    && Reached(c, s) && z.a in c.ids && z.d in c.ids && z.a != z.d
    && Plays(s.nodes[z.a], z.pa) && Plays(s.nodes[z.d], z.pd)
    && forall p :: p in Rest(c, z) ==> InRest(s.nodes[p], z.term, z.log, z.quiet)
  }

  function Swap(z: Scene): Scene {
    Scene(z.d, z.pd, z.a, z.pa, z.term, z.log, z.quiet)
  }

  ghost predicate SendsFrom(n: Node, next: int) {
    forall p :: p in n.peers ==> At(n.nextIndex, p) == next
  }

  lemma RestIsLarge(c: Setting, z: Scene)
    requires |c.ids| >= 3 && z.a in c.ids && z.d in c.ids && z.a != z.d
    ensures |Rest(c, z)| == |c.ids| - 2 && 2 * (|Rest(c, z)| + 1) > |c.ids|
  {
    assert c.ids == Rest(c, z) + {z.a, z.d};
  }

  lemma Ready(n: Node, p: Node)
    requires p.currentTerm <= n.currentTerm && UpToDate(LastIndex(n.log), LastTerm(n.log), p.log)
    ensures WillVote(p, VoteArgsOf(Standing(n)))
  {
  }

  /** Follower `n` stands and wins with the votes of all but `n` and `absent`. */
  lemma WinsWithout(c: Setting, s: System, n: NodeId, absent: NodeId) returns (t: System)
    requires |c.ids| >= 3 && Reached(c, s) && n in c.ids && absent in c.ids && n != absent
    requires s.nodes[n].role == Follower && s.nodes[n].commitIndex == 0
    requires forall p :: p in c.ids - {n, absent} ==>
               s.nodes[p].currentTerm <= s.nodes[n].currentTerm
               && UpToDate(LastIndex(s.nodes[n].log), LastTerm(s.nodes[n].log), s.nodes[p].log)
    ensures Reached(c, t) && s.msgs <= t.msgs && t.nodes.Keys == c.ids && t.nodes[absent] == s.nodes[absent]
    ensures Plays(t.nodes[n], Part(Leader, s.nodes[n].currentTerm + 1, s.nodes[n].log))
    ensures SendsFrom(t.nodes[n], LastIndex(s.nodes[n].log) + 1) && t.nodes[n].peers == c.ids - {n}
    ensures forall p :: p in c.ids - {n, absent} ==>
              t.nodes[p] == Follows(s.nodes[p], s.nodes[n].currentTerm + 1, n)
  {
    hide Reached, Cluster, WillVote, VoteArgsOf, Standing, UpToDate, Follows;
    ReachedKeys(c, s);
    var q := c.ids - {n, absent};
    assert c.ids == q + {n, absent};
    forall p | p in q
      ensures WillVote(s.nodes[p], VoteArgsOf(Standing(s.nodes[n])))
    {
      Ready(s.nodes[n], s.nodes[p]);
    }
    ReachedNames(c, s, n);
    t := Elect(c, s, n, q);
  }

  lemma ReachedNames(c: Setting, s: System, n: NodeId)
    requires Reached(c, s) && n in c.ids
    ensures n in s.nodes && s.nodes[n].id == n && s.nodes[n].peers == c.ids - {n}
  {
  }

  function Elected(z: Scene): Scene {
    Scene(z.a, Part(Leader, z.pa.term + 1, z.pa.log), z.d, z.pd, z.pa.term + 1, z.log, true)
  }

  /** Node `a` stands and wins with the votes of the rest; `d` hears nothing of it. */
  lemma Wins(c: Setting, s: System, z: Scene) returns (t: System)
    requires |c.ids| >= 3 && Shows(c, s, z) && z.pa.role == Follower && z.term <= z.pa.term
    requires UpToDate(LastIndex(z.pa.log), LastTerm(z.pa.log), z.log)
    ensures Shows(c, t, Elected(z)) && s.msgs <= t.msgs && t.nodes[z.d] == s.nodes[z.d]
    ensures SendsFrom(t.nodes[z.a], LastIndex(z.pa.log) + 1)
  {
    hide Reached, Cluster, UpToDate;
    ReachedKeys(c, s);
    t := WinsWithout(c, s, z.a, z.d);
  }

  /** The log after the check on the previous entry of a message without entries. */
  function Checked(log: Log, prev: nat, term: int): Log {
    if 0 < prev <= |log| && log[prev - 1].term != term then log[..prev - 1] else log
  }

  lemma HeartbeatFacts(n: Node, m: Node)
    requires m.currentTerm < n.currentTerm && At(n.nextIndex, m.id) == |n.log| + 1
    requires n.commitIndex == m.commitIndex == 0
    ensures var args := AppendArgsOf(n, m.id);
            && ValidEntries(args.entries)
            && Plays(HandleAppend(m, args).0,
                     Part(Follower, n.currentTerm, Checked(m.log, |n.log|, LastTerm(n.log))))
  {
  }

  /** Leader `l`, which has nothing to send, tells the earlier `p` of its term. */
  lemma Heartbeat(c: Setting, s: System, l: NodeId, p: NodeId) returns (t: System)
    requires Reached(c, s) && l in c.ids && p in c.ids && l != p
    requires s.nodes[l].role == Leader && s.nodes[p].currentTerm < s.nodes[l].currentTerm
    requires At(s.nodes[l].nextIndex, p) == |s.nodes[l].log| + 1
    requires s.nodes[l].commitIndex == s.nodes[p].commitIndex == 0
    ensures Reached(c, t) && s.msgs <= t.msgs && t.nodes.Keys == c.ids && t.nodes == s.nodes[p := t.nodes[p]]
    ensures Plays(t.nodes[p], Part(Follower, s.nodes[l].currentTerm,
                                   Checked(s.nodes[p].log, |s.nodes[l].log|, LastTerm(s.nodes[l].log))))
  {
    hide Reached, HandleAppend, AppendArgsOf, ValidEntries;
    ReachedKeys(c, s);
    HeartbeatFacts(s.nodes[l], s.nodes[p]);
    t := Send(c, s, l, p);
  }

  /** Leader `a` tells `d` of its term. */
  lemma Tells(c: Setting, s: System, z: Scene) returns (t: System)
    requires Shows(c, s, z) && z.pa.role == Leader && z.pd.term < z.pa.term
    requires At(s.nodes[z.a].nextIndex, z.d) == |z.pa.log| + 1
    ensures Shows(c, t, z.(pd := Part(Follower, z.pa.term, Checked(z.pd.log, |z.pa.log|, LastTerm(z.pa.log)))))
    ensures s.msgs <= t.msgs && t.nodes.Keys == c.ids && t.nodes[z.a] == s.nodes[z.a]
  {
    hide Reached, Cluster;
    ReachedKeys(c, s);
    t := Heartbeat(c, s, z.a, z.d);
  }

  function Proposed(z: Scene, command: string): Scene {
    z.(pa := z.pa.(log := z.pa.log + [Entry(z.pa.term, LastIndex(z.pa.log) + 1, command, 0)]))
  }

  lemma Proposes(c: Setting, s: System, z: Scene, command: string) returns (t: System)
    requires Shows(c, s, z) && z.pa.role == Leader
    ensures Shows(c, t, Proposed(z, command)) && t.msgs == s.msgs && t.nodes.Keys == c.ids
    ensures t.nodes == s.nodes[z.a := t.nodes[z.a]] && t.nodes[z.a].nextIndex == s.nodes[z.a].nextIndex
    ensures t.nodes[z.a].matchIndex == s.nodes[z.a].matchIndex && t.nodes[z.a].peers == s.nodes[z.a].peers
  {
    hide Reached, Cluster;
    ReachedKeys(c, s);
    t := ProposeOne(c, s, z.a, command);
    ReachedKeys(c, t);
  }

  // ----- A yes that is two terms old --------------------------------------------------------------

  /** A node of the rest wins the next term with the votes of all but `d`. */
  lemma OtherWins(c: Setting, s: System, z: Scene, b: NodeId) returns (t: System)
    requires |c.ids| >= 3 && Shows(c, s, z) && z.quiet && b in Rest(c, z)
    requires z.pa.term <= z.term && z.pa.log == z.log == []
    ensures Shows(c, t, Scene(z.a, Part(Follower, z.term + 1, []), z.d, z.pd, z.term + 1, [], false))
    ensures s.msgs <= t.msgs && t.nodes.Keys == c.ids && t.nodes[z.a] == Follows(s.nodes[z.a], z.term + 1, b)
    ensures t.nodes[b].role == Leader && At(t.nodes[b].nextIndex, z.d) == 1
  {
    hide Reached, Cluster;
    ReachedKeys(c, s);
    t := WinsWithout(c, s, b, z.d);
  }

  /** It wins, and `d` hears of it. */
  lemma OtherLeads(c: Setting, s: System, z: Scene, b: NodeId) returns (t: System)
    requires |c.ids| >= 3 && Shows(c, s, z) && z.quiet && b in Rest(c, z)
    requires z.pa.term <= z.term && z.pd.term <= z.term && z.pa.log == z.log == []
    ensures Shows(c, t, Scene(z.a, Part(Follower, z.term + 1, []), z.d, Part(Follower, z.term + 1, z.pd.log),
                              z.term + 1, [], false))
    ensures s.msgs <= t.msgs && t.nodes.Keys == c.ids && t.nodes[z.a] == Follows(s.nodes[z.a], z.term + 1, b)
  {
    hide Reached, Cluster;
    t := OtherWins(c, s, z, b);
    t := Heartbeat(c, t, b, z.d);
  }

  /** `a` stands, is voted for by the rest, and does not hear of it yet. */
  lemma Unheard(c: Setting, s: System, z: Scene) returns (t: System)
    requires |c.ids| >= 3 && Shows(c, s, z) && z.pa == Part(Follower, z.term, []) && z.log == []
    ensures Shows(c, t, Scene(z.a, Part(Candidate, z.term + 1, []), z.d, z.pd, z.term + 1, [], true))
    ensures t.nodes.Keys == c.ids && t.nodes[z.a] == Standing(s.nodes[z.a])
    ensures AllYes(t.msgs, |s.nodes[z.a].rounds|, Rest(c, z), VoteArgsOf(Standing(s.nodes[z.a])))
  {
    hide Reached, Cluster, WillVote, VoteArgsOf, AllYes;
    ReachedKeys(c, s);
    forall p | p in Rest(c, z)
      ensures WillVote(s.nodes[p], VoteArgsOf(Standing(s.nodes[z.a])))
    {
      Ready(s.nodes[z.a], s.nodes[p]);
    }
    t := Campaign(c, s, z.a, Rest(c, z));
  }

  /** `a` stands in the term that `d` leads, and the yeses to its request of two terms ago make it leader. */
  lemma LateYeses(c: Setting, s: System, z: Scene, r: nat, args: VoteArgs) returns (t: System)
    requires |c.ids| >= 3 && c.votes >= 2 && Shows(c, s, z) && z.pa.role == Follower && z.pa.log == []
    requires r < |s.nodes[z.a].rounds| && s.nodes[z.a].rounds[r].votes == {z.a}
    requires args.candidateId == z.a && args.term + 1 == z.pa.term && AllYes(s.msgs, r, Rest(c, z), args)
    ensures Shows(c, t, z.(pa := Part(Leader, z.pa.term + 1, []))) && t.nodes.Keys == c.ids
    ensures t.nodes[z.d] == s.nodes[z.d] && SendsFrom(t.nodes[z.a], 1)
  {
    hide Reached, Cluster, AllYes, Tally;
    ReachedKeys(c, s);
    RestIsLarge(c, z);
    t := Extend(c, s, Timeout(z.a));
    assert s.msgs + {} == s.msgs;
    var n := t.nodes[z.a];
    PeersAndSelf(n, c.ids) by { ReachedNames(c, t, z.a); }
    t := CountAll(c, t, z.a, r, Rest(c, z), args);
    TallyLeadsLate(n, r, Rest(c, z));
  }

  lemma TallyLeadsLate(n: Node, r: nat, q: set<NodeId>)
    requires n.role == Candidate && n.log == [] && r < |n.rounds| && n.rounds[r].votes == {n.id}
    requires n.id !in q && |q| + 1 > (|n.peers| + 1) / 2 && n.commitIndex == 0
    ensures Plays(Tally(n, r, q), Part(Leader, n.currentTerm, [])) && SendsFrom(Tally(n, r, q), 1)
  {
    assert |{n.id} + q| == |q| + 1;
  }

  /** From any start on empty logs, except for that of `d`, to a term with two leaders. */
  lemma BothWin(c: Setting, s: System, z: Scene) returns (t: System)
    requires |c.ids| >= 3 && c.votes >= 2 && Shows(c, s, z) && z.log == []
    requires z.pa == Part(Follower, z.term, []) && z.pd.term <= z.term
    requires UpToDate(LastIndex(z.pd.log), LastTerm(z.pd.log), [])
    ensures Shows(c, t, Scene(z.a, Part(Leader, z.term + 3, []), z.d, Part(Leader, z.term + 3, z.pd.log),
                              z.term + 3, [], true))
    ensures t.nodes.Keys == c.ids && SendsFrom(t.nodes[z.a], 1) && SendsFrom(t.nodes[z.d], LastIndex(z.pd.log) + 1)
  {
    hide Reached, Shows, AllYes, Standing, SendsFrom;
    ShowsKeys(c, s, z);
    RestIsLarge(c, z);
    var b :| b in Rest(c, z);
    var n, k := s.nodes[z.a], |s.nodes[z.a].rounds|;
    StandingFacts(n);
    t := Unheard(c, s, z);
    var z1 := Scene(z.a, Part(Candidate, z.term + 1, []), z.d, z.pd, z.term + 1, [], true);
    var args, msgs := VoteArgsOf(Standing(n)), t.msgs;
    t := OtherLeads(c, t, z1, b);
    var z2 := Scene(z.a, Part(Follower, z.term + 2, []), z.d, Part(Follower, z.term + 2, z.pd.log),
                    z.term + 2, [], false);
    ShowsSwapped(c, t, z2);
    t := Wins(c, t, Swap(z2));
    AllYesStays(msgs, t.msgs, k, Rest(c, z), args);
    ShowsSwapped(c, t, Elected(Swap(z2)));
    t := LateYeses(c, t, Swap(Elected(Swap(z2))), k, args);
  }

  lemma ShowsSwapped(c: Setting, s: System, z: Scene)
    requires Shows(c, s, z)
    ensures Shows(c, s, Swap(z))
  {
    assert Rest(c, Swap(z)) == Rest(c, z);
  }

  lemma ShowsKeys(c: Setting, s: System, z: Scene)
    requires Shows(c, s, z)
    ensures s.nodes.Keys == c.ids && z.a in c.ids && z.d in c.ids && z.a != z.d
    ensures s.nodes[z.a].id == z.a && s.nodes[z.a].currentTerm == z.pa.term && s.nodes[z.a].log == z.pa.log
  {
  }

  // ----- Entries and what is written down about them ------------------------------------------------

  ghost predicate Indexed(log: Log) {
    |log| > 0 && forall i :: 0 <= i < |log| ==> log[i].index == i + 1
  }

  /** Leader `a` brings its log to the empty rest; the successes stay under way. */
  lemma Spreads(c: Setting, s: System, z: Scene, next: int) returns (t: System)
    requires Shows(c, s, z) && z.pa.role == Leader && z.quiet && z.term == z.pa.term && z.log == []
    requires Indexed(z.pa.log) && next >= 1 && SendsFrom(s.nodes[z.a], next)
    ensures Shows(c, t, z.(log := z.pa.log)) && s.msgs <= t.msgs && t.nodes.Keys == c.ids
    ensures t.nodes[z.d] == s.nodes[z.d] && AllTaken(t.msgs, z.a, Rest(c, z), z.pa.term, z.pa.log)
  {
    hide Reached, Cluster, AllTaken;
    ReachedNames(c, s, z.a);
    ReachedKeys(c, s);
    t := FillAll(c, s, z.a, Rest(c, z));
  }

  ghost predicate Booked(c: Setting, n: Node, z: Scene, index: int) {
    forall p :: p in Rest(c, z) ==> At(n.matchIndex, p) == index
  }

  /** Leader `a` writes down the successes of the rest, however old they are. */
  lemma Books(c: Setting, s: System, z: Scene, term: int, entries: Log) returns (t: System)
    requires Shows(c, s, z) && z.pa.role == Leader && |entries| > 0
    requires term <= z.pa.term <= term + c.successes && AllTaken(s.msgs, z.a, Rest(c, z), term, entries)
    ensures Shows(c, t, z) && t.msgs == s.msgs && t.nodes.Keys == c.ids && t.nodes[z.d] == s.nodes[z.d]
    ensures Booked(c, t.nodes[z.a], z, LastIndex(entries))
  {
    hide Reached, Cluster, AllTaken;
    ReachedKeys(c, s);
    t := NoteAll(c, s, z.a, Rest(c, z), term, entries);
  }

  /** With the rest of a cluster of three or more, the leader has a quorum. */
  lemma BookedIsReplicated(c: Setting, s: System, z: Scene, j: nat)
    requires |c.ids| >= 3 && Shows(c, s, z) && z.pa.role == Leader && Booked(c, s.nodes[z.a], z, j + 1)
    requires j < |z.pa.log| && z.pa.log[j].term == z.pa.term
    ensures Replicated(s.nodes[z.a], j)
  {
    RestIsLarge(c, z);
    var n := s.nodes[z.a];
    PeersAndSelf(n, c.ids);
    assert Rest(c, z) <= Matching(n, j);
    SubsetSize(Rest(c, z), Matching(n, j));
  }

  // ----- The run with two late yeses ---------------------------------------------------------------

  lemma Opening(c: Setting, a: NodeId, d: NodeId) returns (s: System)
    requires NOBODY !in c.ids && a in c.ids && d in c.ids && a != d
    ensures Shows(c, s, Scene(a, Part(Follower, 0, []), d, Part(Follower, 0, []), 0, [], true))
    ensures s.nodes.Keys == c.ids
  {
    hide Reached;
    s := Start(c);
  }

  function One(term: int, command: string): Log {
    [Entry(term, 1, command, 0)]
  }

  /** Two leaders of term 3, each with an entry of its own. */
  function Rivals(a: NodeId, d: NodeId): Scene {
    Scene(a, Part(Leader, 3, One(3, "y")), d, Part(Leader, 3, One(3, "x")), 3, [], true)
  }

  lemma LateVotes(c: Setting, a: NodeId, d: NodeId) returns (s: System)
    requires |c.ids| >= 3 && NOBODY !in c.ids && c.votes >= 2 && a in c.ids && d in c.ids && a != d
    ensures Shows(c, s, Rivals(a, d)) && s.nodes.Keys == c.ids
    ensures SendsFrom(s.nodes[a], 1) && SendsFrom(s.nodes[d], 1)
  {
    hide Reached, Shows;
    s := Opening(c, a, d);
    s := BothWin(c, s, Scene(a, Part(Follower, 0, []), d, Part(Follower, 0, []), 0, [], true));
    var z := Scene(a, Part(Leader, 3, []), d, Part(Leader, 3, []), 3, [], true);
    ShowsKeys(c, s, z);
    s := Proposes(c, s, z, "y");
    ShowsSwapped(c, s, Proposed(z, "y"));
    s := Proposes(c, s, Swap(Proposed(z, "y")), "x");
    ShowsSwapped(c, s, Proposed(Swap(Proposed(z, "y")), "x"));
    assert Swap(Proposed(Swap(Proposed(z, "y")), "x")) == Rivals(a, d);
  }

  /** The other leader has its entry on a quorum, and knows it. */
  lemma RivalReplicates(c: Setting, a: NodeId, d: NodeId) returns (s: System)
    requires |c.ids| >= 3 && NOBODY !in c.ids && c.votes >= 2 && a in c.ids && d in c.ids && a != d
    ensures Shows(c, s, Rivals(a, d).(log := One(3, "x"))) && s.nodes.Keys == c.ids
    ensures SendsFrom(s.nodes[a], 1) && Replicated(s.nodes[d], 0)
  {
    hide Reached, Shows;
    s := LateVotes(c, a, d);
    var z, y := Swap(Rivals(a, d)), Swap(Rivals(a, d)).(log := One(3, "x"));
    ShowsSwapped(c, s, Rivals(a, d));
    s := Spreads(c, s, z, 1);
    s := Books(c, s, y, 3, One(3, "x"));
    BookedIsReplicated(c, s, y, 0);
    ShowsSwapped(c, s, y);
    assert Swap(y) == Rivals(a, d).(log := One(3, "x"));
  }

  /** Leader `a` writes down that `b` took its entry, where `b` kept the other leader's. */
  lemma RivalIsBooked(c: Setting, a: NodeId, d: NodeId, b: NodeId) returns (s: System)
    requires NOBODY !in c.ids && c.votes >= 2 && {a, b, d} <= c.ids && a != d && b != a && b != d
    ensures Reached(c, s) && s.nodes.Keys == c.ids && !BookIsSound(s, a, b)
  {
    hide Reached;
    ThreeAreThree(c.ids, a, b, d);
    s := RivalReplicates(c, a, d);
    ReachedNames(c, s, a);
    ReachedNames(c, s, b);
    s := SendAndNote(c, s, a, b);
  }

  lemma SendAndNote(c: Setting, s: System, a: NodeId, b: NodeId) returns (t: System)
    requires Reached(c, s) && a in c.ids && b in c.ids && a != b
    requires Plays(s.nodes[a], Part(Leader, 3, One(3, "y"))) && Plays(s.nodes[b], Part(Follower, 3, One(3, "x")))
    requires At(s.nodes[a].nextIndex, b) == 1
    ensures Reached(c, t) && t.nodes.Keys == c.ids && !BookIsSound(t, a, b)
  {
    hide Reached, Cluster;
    ReachedNames(c, s, a);
    ReachedNames(c, s, b);
    var args := AppendArgsOf(s.nodes[a], b);
    KeepsItsOwn(s.nodes[b], args);
    t := Send(c, s, a, b);
    t := Note(c, t, AppendResp(b, args, AppendReply(3, true)));
    ReachedNames(c, t, a);
    ReachedKeys(c, t);
    TwoCommands();
    assert t.nodes[b].log[..1][0] != t.nodes[a].log[..1][0];
  }

  lemma TwoCommands()
    ensures One(3, "x")[0] != One(3, "y")[0]
  {
    assert "x"[0] != "y"[0];
  }

  /** An entry of the same term at the same place is taken for the same entry. */
  lemma KeepsItsOwn(n: Node, args: AppendArgs)
    requires Plays(n, Part(Follower, 3, One(3, "x")))
    requires args.term == 3 && args.prevLogIndex == 0 && args.entries == One(3, "y") && args.leaderCommit == 0
    ensures ValidEntries(args.entries) && HandleAppend(n, args) == (n, AppendReply(3, true))
  {
    assert args.entries[..0] == [];
  }

  /** What a leader has recorded for a peer of its term is in both logs, the same. */
  ghost predicate BookIsSound(s: System, l: NodeId, p: NodeId) {
    l in s.nodes && s.nodes[l].role == Leader && p in s.nodes && p in s.nodes[l].peers
    && s.nodes[p].currentTerm == s.nodes[l].currentTerm ==>
      var k := At(s.nodes[l].matchIndex, p);
      0 < k ==> k <= |s.nodes[l].log| && k <= |s.nodes[p].log| && s.nodes[p].log[..k] == s.nodes[l].log[..k]
  }

  lemma ThreeAreThree(ids: set<NodeId>, a: NodeId, b: NodeId, d: NodeId)
    requires {a, b, d} <= ids && a != d && b != a && b != d
    ensures |ids| >= 3
  {
    assert |{a, b, d}| == 3;
    SubsetSize({a, b, d}, ids);
  }

  /** `a` steps down, wins again, and leads a later term without the entry. */
  lemma RivalLeadsAgain(c: Setting, a: NodeId, d: NodeId, b: NodeId) returns (s: System)
    requires NOBODY !in c.ids && c.votes >= 2 && {a, b, d} <= c.ids && a != d && b != a && b != d
    ensures Reached(c, s) && s.nodes.Keys == c.ids && Replicated(s.nodes[d], 0)
    ensures Plays(s.nodes[d], Part(Leader, 3, One(3, "x"))) && Plays(s.nodes[a], Part(Leader, 5, One(3, "y")))
  {
    hide Reached, WillVote, VoteArgsOf, Standing, Replicated;
    ThreeAreThree(c.ids, a, b, d);
    s := RivalReplicates(c, a, d);
    Ready(s.nodes[b], s.nodes[a]);
    StandingFacts(s.nodes[b]);
    s := Campaign(c, s, b, {a});
    s := WinsWithout(c, s, a, d);
  }

  // ----- A leader that loses an entry of its own ---------------------------------------------------

  /** Two leaders of term 5: `d` has an older entry, and its message without entries is under way to `a`. */
  lemma OlderRival(c: Setting, a: NodeId, d: NodeId) returns (s: System)
    requires |c.ids| >= 3 && NOBODY !in c.ids && c.votes >= 2 && a in c.ids && d in c.ids && a != d
    ensures Shows(c, s, Scene(a, Part(Leader, 5, []), d, Part(Leader, 5, One(1, "x")), 5, [], true))
    ensures s.nodes.Keys == c.ids && At(s.nodes[d].nextIndex, a) == 2
  {
    hide Reached, Shows;
    var z := Scene(a, Part(Follower, 0, []), d, Part(Follower, 0, []), 0, [], true);
    s := Opening(c, a, d);
    ShowsSwapped(c, s, z);
    s := Wins(c, s, Swap(z));
    s := Proposes(c, s, Elected(Swap(z)), "x");
    var y := Proposed(Elected(Swap(z)), "x");
    assert y.pa.log == One(1, "x");
    ShowsSwapped(c, s, y);
    RestIsLarge(c, z);
    var b :| b in Rest(c, z);
    s := OtherLeads(c, s, Swap(y), b);
    s := BothWin(c, s, Scene(a, Part(Follower, 2, []), d, Part(Follower, 2, One(1, "x")), 2, [], false));
    var last := Scene(a, Part(Leader, 5, []), d, Part(Leader, 5, One(1, "x")), 5, [], true);
    ShowsSwapped(c, s, last);
    LooksFrom(c, s, Swap(last), 2);
  }

  /** In the second state the message of `d` has erased the entry that `a` proposed. */
  ghost predicate Erased(s: System, step: Step, t: System, a: NodeId) {
    && Enabled(s, step) && t == Apply(s, step) && a in s.nodes && a in t.nodes
    && Plays(s.nodes[a], Part(Leader, 5, One(5, "y"))) && Plays(t.nodes[a], Part(Leader, 5, []))
  }

  lemma LeaderErased(c: Setting, a: NodeId, d: NodeId) returns (s: System, step: Step)
    requires |c.ids| >= 3 && NOBODY !in c.ids && c.votes >= 2 && a in c.ids && d in c.ids && a != d
    ensures Reached(c, s) && Allowed(c, s, step) && Erased(s, step, Apply(s, step), a)
  {
    hide Reached, Cluster;
    s := OlderRival(c, a, d);
    ReachedNames(c, s, d);
    var args := AppendArgsOf(s.nodes[d], a);
    var m := AppendReq(a, args);
    s := Extend(c, s, SendAppend(d, a));
    ReachedKeys(c, s);
    s := ProposeOne(c, s, a, "y");
    step := AnswerAppend(m);
    assert s.nodes[a].log == One(5, "y");
  }

  // ----- The run with late successes ---------------------------------------------------------------

  const OLD: Log := [Entry(1, 1, "x", 0), Entry(1, 2, "x", 0)]
  const NEW: Log := [Entry(2, 1, "y", 0), Entry(5, 2, "z", 0)]

  /** `a` has two entries of term 1, and `d`, the leader of term 2, has one; nobody else has any. */
  function Divided(a: NodeId, d: NodeId): Scene {
    Scene(a, Part(Follower, 2, OLD), d, Part(Leader, 2, One(2, "y")), 2, [], true)
  }

  lemma FirstLeader(c: Setting, a: NodeId, d: NodeId) returns (s: System)
    requires |c.ids| >= 3 && NOBODY !in c.ids && a in c.ids && d in c.ids && a != d
    ensures Shows(c, s, Scene(a, Part(Leader, 1, OLD), d, Part(Follower, 1, []), 1, [], true)) && s.nodes.Keys == c.ids
  {
    hide Reached, Shows;
    s := Opening(c, a, d);
    s := Wins(c, s, Scene(a, Part(Follower, 0, []), d, Part(Follower, 0, []), 0, [], true));
    var z := Scene(a, Part(Leader, 1, []), d, Part(Follower, 0, []), 1, [], true);
    LooksFrom(c, s, z, 1);
    s := Tells(c, s, z);
    var y := z.(pd := Part(Follower, 1, []));
    s := Proposes(c, s, y, "x");
    s := Proposes(c, s, Proposed(y, "x"), "x");
    assert Proposed(Proposed(y, "x"), "x") == y.(pa := Part(Leader, 1, OLD));
  }

  lemma LooksFrom(c: Setting, s: System, z: Scene, next: int)
    requires Shows(c, s, z) && SendsFrom(s.nodes[z.a], next)
    ensures At(s.nodes[z.a].nextIndex, z.d) == next
  {
  }

  lemma SecondLeader(c: Setting, a: NodeId, d: NodeId) returns (s: System)
    requires |c.ids| >= 3 && NOBODY !in c.ids && a in c.ids && d in c.ids && a != d
    ensures Shows(c, s, Divided(a, d)) && s.nodes.Keys == c.ids
  {
    hide Reached, Shows;
    s := FirstLeader(c, a, d);
    var z := Scene(a, Part(Leader, 1, OLD), d, Part(Follower, 1, []), 1, [], true);
    ShowsSwapped(c, s, z);
    s := Wins(c, s, Swap(z));
    LooksFrom(c, s, Elected(Swap(z)), 1);
    s := Tells(c, s, Elected(Swap(z)));
    var y := Elected(Swap(z)).(pd := Part(Follower, 2, OLD));
    s := Proposes(c, s, y, "y");
    ShowsSwapped(c, s, Proposed(y, "y"));
    assert Swap(Proposed(y, "y")) == Divided(a, d);
  }

  /** `a` leads term 3 and brings its entries to the rest, while `d` only hears of it. */
  function Spread(a: NodeId, d: NodeId): Scene {
    Scene(a, Part(Leader, 3, OLD), d, Part(Follower, 3, One(2, "y")), 3, OLD, true)
  }

  lemma ThirdLeader(c: Setting, a: NodeId, d: NodeId) returns (s: System)
    requires |c.ids| >= 3 && NOBODY !in c.ids && a in c.ids && d in c.ids && a != d
    ensures Shows(c, s, Spread(a, d)) && s.nodes.Keys == c.ids && AllTaken(s.msgs, a, c.ids - {a, d}, 3, OLD)
  {
    hide Reached, Shows, AllTaken;
    s := SecondLeader(c, a, d);
    s := Wins(c, s, Divided(a, d));
    LooksFrom(c, s, Elected(Divided(a, d)), 3);
    s := Tells(c, s, Elected(Divided(a, d)));
    s := Spreads(c, s, Elected(Divided(a, d)).(pd := Part(Follower, 3, One(2, "y"))), 3);
  }

  /** `d` leads term 4 with the later log, and `a` takes that log over. */
  function Overwritten(a: NodeId, d: NodeId): Scene {
    Scene(a, Part(Follower, 4, One(2, "y")), d, Part(Leader, 4, One(2, "y")), 4, OLD, true)
  }

  lemma FourthLeader(c: Setting, a: NodeId, d: NodeId) returns (s: System)
    requires |c.ids| >= 3 && NOBODY !in c.ids && a in c.ids && d in c.ids && a != d
    ensures Shows(c, s, Overwritten(a, d)) && s.nodes.Keys == c.ids && AllTaken(s.msgs, a, c.ids - {a, d}, 3, OLD)
  {
    hide Reached, Shows, AllTaken;
    s := ThirdLeader(c, a, d);
    var early := s.msgs;
    ShowsSwapped(c, s, Spread(a, d));
    var z := Elected(Swap(Spread(a, d)));
    s := Wins(c, s, Swap(Spread(a, d)));
    LooksFrom(c, s, z, 2);
    s := Tells(c, s, z);
    assert OLD[..0] == [];
    s := TakesOver(c, s, z.(pd := Part(Follower, 4, [])));
    AllTakenStays(early, s.msgs, a, c.ids - {a, d}, 3, OLD);
    ShowsSwapped(c, s, z.(pd := Part(Follower, 4, One(2, "y"))));
  }

  /** The empty follower `d` takes over the log of leader `a`. */
  lemma TakesOver(c: Setting, s: System, z: Scene) returns (t: System)
    requires Shows(c, s, z) && z.pa.role == Leader && z.pd == Part(Follower, z.pa.term, []) && Indexed(z.pa.log)
    requires At(s.nodes[z.a].nextIndex, z.d) >= 1
    ensures Shows(c, t, z.(pd := Part(Follower, z.pa.term, z.pa.log))) && s.msgs <= t.msgs && t.nodes.Keys == c.ids
  {
    hide Reached, Cluster, SuccessUnderWay;
    ReachedKeys(c, s);
    t := Fill(c, s, z.a, z.d);
  }

  /** `a` leads term 5 without the entries of term 1, and writes down the successes of term 3 for them. */
  function Recorded(a: NodeId, d: NodeId): Scene {
    Scene(a, Part(Leader, 5, NEW), d, Part(Follower, 5, One(2, "y")), 5, OLD, true)
  }

  lemma LateSuccesses(c: Setting, a: NodeId, d: NodeId) returns (s: System)
    requires |c.ids| >= 3 && NOBODY !in c.ids && c.successes >= 2 && a in c.ids && d in c.ids && a != d
    ensures Shows(c, s, Recorded(a, d)) && s.nodes.Keys == c.ids && Booked(c, s.nodes[a], Recorded(a, d), 2)
  {
    hide Reached, Shows, AllTaken, Booked;
    s := FourthLeader(c, a, d);
    var early := s.msgs;
    var z := Elected(Overwritten(a, d));
    s := Wins(c, s, Overwritten(a, d));
    LooksFrom(c, s, z, 2);
    s := Tells(c, s, z);
    var y := z.(pd := Part(Follower, 5, One(2, "y")));
    s := Proposes(c, s, y, "z");
    assert Proposed(y, "z") == Recorded(a, d);
    AllTakenStays(early, s.msgs, a, c.ids - {a, d}, 3, OLD);
    s := Books(c, s, Recorded(a, d), 3, OLD);
  }

  /** The leader's book does not fit the log of a node of the rest. */
  lemma BookedWrong(c: Setting, s: System, a: NodeId, d: NodeId, b: NodeId)
    requires Shows(c, s, Recorded(a, d)) && b in c.ids && b != a && b != d && Booked(c, s.nodes[a], Recorded(a, d), 2)
    ensures !BookIsSound(s, a, b)
  {
    ReachedNames(c, s, a);
    assert s.nodes[b].log[..2][0] != s.nodes[a].log[..2][0];
  }

  /** `d` leads term 6 without the entry that `a`, still leader of term 5, has on a quorum by its book. */
  lemma SixthLeader(c: Setting, a: NodeId, d: NodeId) returns (s: System)
    requires |c.ids| >= 3 && NOBODY !in c.ids && c.successes >= 2 && a in c.ids && d in c.ids && a != d
    ensures Reached(c, s) && s.nodes.Keys == c.ids && Replicated(s.nodes[a], 1)
    ensures Plays(s.nodes[a], Part(Leader, 5, NEW)) && Plays(s.nodes[d], Part(Leader, 6, One(2, "y")))
  {
    hide Replicated, Booked;
    s := LateSuccesses(c, a, d);
    BookedIsReplicated(c, s, Recorded(a, d), 1);
    ShowsSwapped(c, s, Recorded(a, d));
    s := Wins(c, s, Swap(Recorded(a, d)));
  }
}
