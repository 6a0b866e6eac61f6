/**
 * The node as the source has it: an object whose handlers update its fields in
 * place. `State()` is the value the transition system of RaftSystem.dfy works on,
 * and every method moves it exactly as the function of RaftNode.dfy does.
 */
module RaftServer {
  import opened RaftNode

  class Raft {
    const id: NodeId
    const peers: seq<NodeId>
    var currentTerm: int
    var votedFor: NodeId
    var log: Log
    var role: Role
    var commitIndex: int
    var nextIndex: map<NodeId, int>
    var matchIndex: map<NodeId, int>
    var rounds: seq<Round>

    ghost function PeerSet(): set<NodeId> {
      Members(peers)
    }

    ghost predicate DistinctPeers() {
      forall i, j :: 0 <= i < j < |peers| ==> peers[i] != peers[j]
    }

    ghost function State(): (n: Node)
      reads this
    {
      Node(id, PeerSet(), currentTerm, votedFor, log, role, commitIndex, nextIndex, matchIndex, rounds)
    }

    constructor (id: NodeId, peers: seq<NodeId>)
      ensures this.id == id && this.peers == peers
      ensures State() == NewNode(id, Members(peers))
      ensures currentTerm == 0 && votedFor == "" && log == [] && role == Follower && commitIndex == 0 && rounds == []
      ensures forall p :: p in nextIndex <==> p in peers
      ensures forall p :: p in matchIndex <==> p in peers
      ensures forall p :: p in peers ==> nextIndex[p] == 1 && matchIndex[p] == 0
    {
      this.id, this.peers := id, peers;
      currentTerm, votedFor, log, role, commitIndex, rounds := 0, NOBODY, [], Follower, 0, [];
      new;
      nextIndex, matchIndex := map[], map[];
      FillProgress(1, 0);
      assert nextIndex == Constant(Members(peers), 1);
      assert matchIndex == Constant(Members(peers), 0);
    }

    /** The loop that New and becomeLeader both run over the peers. */
    method FillProgress(next: int, matched: int)
      modifies this`nextIndex, this`matchIndex
      ensures nextIndex == old(nextIndex) + Constant(PeerSet(), next)
      ensures matchIndex == old(matchIndex) + Constant(PeerSet(), matched)
    {
      var i := 0;
      while i < |peers|
        invariant 0 <= i <= |peers|
        invariant nextIndex == old(nextIndex) + Constant(Members(peers[..i]), next)
        invariant matchIndex == old(matchIndex) + Constant(Members(peers[..i]), matched)
      {
        nextIndex := nextIndex[peers[i] := next];
        matchIndex := matchIndex[peers[i] := matched];
        FillOne(old(nextIndex), peers, i, next);
        FillOne(old(matchIndex), peers, i, matched);
        i := i + 1;
      }
      assert peers[..i] == peers;
    }

    method Timeout()
      requires role == Follower
      modifies this
      ensures State() == BecomeCandidate(old(State()))
      ensures role == Candidate && currentTerm == old(currentTerm) + 1 && votedFor == id
      ensures unchanged(`log, `commitIndex, `nextIndex, `matchIndex, `rounds)
    {
      role := Candidate;
      currentTerm := currentTerm + 1;
      votedFor := id;
    }

    method StartElection()
      requires role == Candidate
      modifies this`rounds
      ensures State() == OpenRound(old(State()))
      ensures rounds == old(rounds) + [Round(currentTerm, {id})]
    {
      rounds := rounds + [Round(currentTerm, {id})];
    }

    method HandleVoteReply(round: nat, from: NodeId, reply: VoteReply)
      requires DistinctPeers() && round < |rounds|
      modifies this
      ensures State() == if reply.granted then CountVote(old(State()), round, from) else old(State())
      ensures !reply.granted ==> unchanged(`rounds)
      ensures reply.granted ==> rounds == old(rounds)[round := Round(old(rounds)[round].term, rounds[round].votes)]
      ensures reply.granted ==> rounds[round].votes == old(rounds)[round].votes + {from}
      ensures unchanged(`currentTerm, `votedFor, `log, `commitIndex)
      ensures var wins := reply.granted && old(role) == Candidate && |rounds[round].votes| > (|peers| + 1) / 2;
              && role == (if wins then Leader else old(role))
              && (!wins ==> unchanged(`nextIndex, `matchIndex))
              && (wins ==> forall p :: p in peers ==>
                    && p in nextIndex && nextIndex[p] == (if log == [] then 1 else log[|log| - 1].index + 1)
                    && p in matchIndex && matchIndex[p] == 0)
    {
      hide Constant, LastIndex;
      if reply.granted {
        var votes := rounds[round].votes + {from};
        rounds := rounds[round := Round(rounds[round].term, votes)];
        PeerCount(peers);
        if |votes| > (|peers| + 1) / 2 {
          if role == Candidate {
            role := Leader;
            FillProgress(LastIndex(log) + 1, 0);
            ConstantAt(old(nextIndex), peers, LastIndex(log) + 1);
            ConstantAt(old(matchIndex), peers, 0);
            LastIndexIs(log);
          }
        }
      }
    }

    method RequestVote(args: VoteArgs) returns (reply: VoteReply)
      modifies this
      ensures (State(), reply) == HandleVote(old(State()), args)
      ensures var newer := args.term > old(currentTerm);
              var free := newer || old(votedFor) == NOBODY || old(votedFor) == args.candidateId;
              var last := if log == [] then Entry(0, 0, "", 0) else log[|log| - 1];
              var ahead := args.lastLogTerm > last.term
                           || (args.lastLogTerm == last.term && args.lastLogIndex >= last.index);
              && (reply.granted <==> args.term >= old(currentTerm) && free && ahead)
              && reply.term == old(currentTerm)
              && currentTerm == (if newer then args.term else old(currentTerm))
              && role == (if newer then Follower else old(role))
              && votedFor == (if reply.granted then args.candidateId else if newer then NOBODY else old(votedFor))
      ensures unchanged(`log, `commitIndex, `nextIndex, `matchIndex, `rounds)
    {
      reply := VoteReply(currentTerm, false);
      if args.term < currentTerm {
        return;
      }
      if args.term > currentTerm {
        currentTerm := args.term;
        role := Follower;
        votedFor := NOBODY;
      }
      if votedFor == NOBODY || votedFor == args.candidateId {
        var lastLogIndex, lastLogTerm := LastIndex(log), LastTerm(log);
        if args.lastLogTerm > lastLogTerm
           || (args.lastLogTerm == lastLogTerm && args.lastLogIndex >= lastLogIndex) {
          votedFor := args.candidateId;
          reply := reply.(granted := true);
        }
      }
    }

    method BuildAppend(peer: NodeId) returns (args: AppendArgs)
      requires At(nextIndex, peer) >= 1
      ensures args == AppendArgsOf(State(), peer)
      ensures args.term == currentTerm && args.leaderId == id && args.leaderCommit == commitIndex
      ensures args.prevLogIndex == At(nextIndex, peer) - 1
      ensures args.prevLogTerm == if 0 < args.prevLogIndex <= |log| then log[args.prevLogIndex - 1].term else 0
      ensures args.entries == if args.prevLogIndex <= |log| then log[args.prevLogIndex..] else []
    {
      var prevLogIndex := At(nextIndex, peer) - 1;
      var prevLogTerm := 0;
      if prevLogIndex > 0 && prevLogIndex <= |log| {
        prevLogTerm := log[prevLogIndex - 1].term;
      }
      var entries := [];
      if At(nextIndex, peer) <= |log| {
        entries := log[At(nextIndex, peer) - 1..];
      }
      args := AppendArgs(currentTerm, id, prevLogIndex, prevLogTerm, entries, commitIndex);
    }

    method AppendEntries(args: AppendArgs) returns (reply: AppendReply)
      requires ValidEntries(args.entries)
      modifies this
      ensures (State(), reply) == HandleAppend(old(State()), args)
      ensures var late := args.term < old(currentTerm);
              var prev := args.prevLogIndex;
              var short := prev > |old(log)|;
              var conflict := 0 < prev <= |old(log)| && old(log)[prev - 1].term != args.prevLogTerm;
              var heard := !late && (args.term > old(currentTerm) || old(role) == Candidate);
              && reply.term == old(currentTerm)
              && (reply.success <==> !late && (prev <= 0 || (!short && !conflict)))
              && currentTerm == (if heard then args.term else old(currentTerm))
              && role == (if heard then Follower else old(role))
              && votedFor == (if heard then NOBODY else old(votedFor))
              && (!reply.success ==> log == if !late && conflict then old(log)[..prev - 1] else old(log))
              && (reply.success ==> log == AppendAll(old(log), args.entries))
              && commitIndex == (if reply.success && args.leaderCommit > old(commitIndex)
                                 then Least(args.leaderCommit, LastIndex(log)) else old(commitIndex))
      ensures unchanged(`nextIndex, `matchIndex, `rounds)
    {
      reply := AppendReply(currentTerm, false);
      if args.term < currentTerm {
        return;
      }
      if args.term > currentTerm || role == Candidate {
        currentTerm := args.term;
        role := Follower;
        votedFor := NOBODY;
      }
      if args.prevLogIndex > 0 {
        if args.prevLogIndex > |log| {
          return;
        }
        if log[args.prevLogIndex - 1].term != args.prevLogTerm {
          log := log[..args.prevLogIndex - 1];
          return;
        }
      }
      AppendNew(args.entries);
      if args.leaderCommit > commitIndex {
        var lastLogIndex := LastIndex(log);
        if args.leaderCommit < lastLogIndex {
          commitIndex := args.leaderCommit;
        } else {
          commitIndex := lastLogIndex;
        }
      }
      reply := reply.(success := true);
    }

    /** The loop over the new entries. */
    method AppendNew(entries: Log)
      requires ValidEntries(entries)
      modifies this`log
      ensures log == AppendAll(old(log), entries)
    {
      var i := 0;
      while i < |entries|
        invariant 0 <= i <= |entries|
        invariant log == AppendAll(old(log), entries[..i])
      {
        var entry := entries[i];
        ghost var done := entries[..i + 1];
        assert done[..i] == entries[..i];
        if entry.index <= |log| {
          if log[entry.index - 1].term != entry.term {
            log := log[..entry.index - 1];
            log := log + [entry];
          }
        } else {
          log := log + [entry];
        }
        i := i + 1;
      }
      assert entries[..i] == entries;
    }

    method HandleReply(peer: NodeId, entries: Log, reply: AppendReply)
      modifies this
      ensures State() == HandleAppendReply(old(State()), peer, entries, reply)
      ensures reply.term > old(currentTerm) ==> currentTerm == reply.term && role == Follower && votedFor == NOBODY
      ensures reply.term <= old(currentTerm) ==> unchanged(`currentTerm, `role, `votedFor)
      ensures var noted := reply.term <= old(currentTerm) && reply.success && |entries| > 0;
              && matchIndex
                  == (if noted then old(matchIndex)[peer := entries[|entries| - 1].index] else old(matchIndex))
              && nextIndex == if noted then old(nextIndex)[peer := entries[|entries| - 1].index + 1]
                              else if reply.term <= old(currentTerm) && !reply.success && At(old(nextIndex), peer) > 1
                              then old(nextIndex)[peer := old(nextIndex)[peer] - 1]
                              else old(nextIndex)
      ensures unchanged(`log, `commitIndex, `rounds)
    {
      if reply.term > currentTerm {
        currentTerm := reply.term;
        role := Follower;
        votedFor := NOBODY;
        return;
      }
      if reply.success {
        if |entries| > 0 {
          nextIndex := nextIndex[peer := entries[|entries| - 1].index + 1];
          matchIndex := matchIndex[peer := entries[|entries| - 1].index];
        }
      } else {
        if At(nextIndex, peer) > 1 {
          nextIndex := nextIndex[peer := At(nextIndex, peer) - 1];
        }
      }
    }

    method Propose(command: string, now: int) returns (ok: bool)
      modifies this`log
      ensures ok == (old(role) == Leader)
      ensures State() == ProposeEntry(old(State()), command, now)
      ensures !ok ==> log == old(log)
      ensures ok ==> |log| == |old(log)| + 1 && log[..|old(log)|] == old(log)
      ensures ok ==> var last := if old(log) == [] then 0 else old(log)[|old(log)| - 1].index;
              log[|old(log)|] == Entry(currentTerm, last + 1, command, now)
    {
      if role != Leader {
        return false;
      }
      var entry := Entry(currentTerm, LastIndex(log) + 1, command, now);
      log := log + [entry];
      return true;
    }
  }

  lemma ConstantAt(m: map<NodeId, int>, peers: seq<NodeId>, value: int)
    ensures forall p :: p in peers ==>
              p in m + Constant(Members(peers), value) && (m + Constant(Members(peers), value))[p] == value
  {
  }

  lemma LastIndexIs(log: Log)
    ensures LastIndex(log) == if log == [] then 0 else log[|log| - 1].index
  {
  }

  function Least(a: int, b: int): int {
    if a < b then a else b
  }

  lemma FillOne(m: map<NodeId, int>, peers: seq<NodeId>, i: nat, value: int)
    requires i < |peers|
    ensures m + Constant(Members(peers[..i + 1]), value) ==
            (m + Constant(Members(peers[..i]), value))[peers[i] := value]
  {
    assert Members(peers[..i + 1]) == Members(peers[..i]) + {peers[i]} by {
      assert peers[..i + 1] == peers[..i] + [peers[i]];
    }
  }

  /** Distinct peers make the length of the configured list the size of the peer set. */
  lemma {:induction false} PeerCount(peers: seq<NodeId>)
    requires forall i, j :: 0 <= i < j < |peers| ==> peers[i] != peers[j]
    ensures |Members(peers)| == |peers|
  {
    if |peers| > 0 {
      var rest := peers[..|peers| - 1];
      PeerCount(rest);
      var last := peers[|peers| - 1];
      assert Members(peers) == Members(rest) + {last};
      assert last !in rest;
    }
  }
}
