# GoThinkDB, verified

A Dafny model of four parts of GoThinkDB and proofs of what they promise. `dafny verify dfyconfig.toml`
checks everything.

**The B-tree over the page cache over the block file.** `FileSerializer.dfy` is the file of 4096-byte blocks;
`PageCache.dfy` the write-back LRU cache over it, with `Lru.dfy` for the recency list and the traces on which caches
of different sizes include each other; `NodeCodec.dfy` and `NodeOps.dfy` the nodes, their bytes, searches, shifts
and splits, with `NodeLayout.dfy` for what stands at which offset; `BTree.dfy` the tree with Get, Put, Delete and
Scan over block ids. These are classes and loops as in the source. `Tree.dfy` says as a value what tree a set of
blocks represents. Around it stand key ranges and contents (`TreeOrder.dfy`, `TreePut.dfy`), block ids, depth and
fill (`TreeShape.dfy`), the sibling chain (`TreeChain.dfy`) and the way the tree lies in the blocks
(`TreeStore.dfy`). `TreeRuns.dfy` concludes: any run of requests, over caches of any size from 1 up, with a flush
and a reopening in between, answers as a plain map does.

**Raft election and log replication.** `RaftServer.dfy` is a node whose handlers update its fields;
`RaftNode.dfy` gives the same handlers as functions on values, to which the methods are proved equal;
`RaftSystem.dfy` puts nodes on a network that loses, duplicates and reorders; `RaftTold.dfy` says what every node
makes of a term it is told of. `RaftElection.dfy`, `RaftAge.dfy`, `RaftLogs.dfy` and `RaftCompleteness.dfy` hold the
invariants and `RaftTheorems.dfy` the theorems over all runs: the properties of sections 5.2, 5.3 and 5.4 of Ongaro
and Ousterhout, "In Search of an Understandable Consensus Algorithm".

The source departs from that paper in two ways. A candidate that hears a leader of its own term clears its vote;
`RaftVotes.dfy` gives a run, for every cluster of at least three nodes, in which a node therefore votes twice in a
term, and shows that this clause is the only way for a node to forget its own vote. Election Safety survives it,
because those who voted for a winner are followers and keep their vote. And nothing checks how old a reply is when
it decides something: the yes that completes a candidate's majority, or a success that a leader writes down.
`RaftAge.dfy` shows that replies one term old do no harm, `RaftStale.dfy` how to drive any cluster of at least three
nodes into trouble with replies two terms old, and `RaftPairs.dfy` and `RaftPairLogs.dfy` that between two nodes the
age of a reply never matters. `RaftLimits.dfy` concludes, for each of the five properties and for every cluster, with
exactly which ages all runs have it. Replies that decide nothing may be of any age.

The other assumptions are the source's configuration and timing: peers are the other nodes, each once; a request is
built in the step of the tick that sends it, while the node is still candidate or leader; nodes do not restart.
Commit safety is not claimed: `RaftTheorems.NothingCommits` shows that nothing is ever committed, and Leader
Completeness therefore speaks of entries that are on a majority by the leader's `matchIndex`.

**The order of values and the operators on it.** `Datum.dfy` is the order with its laws, `DatumDirection.dfy` says
which of two values is the smaller one, `DatumCode.dfy` is the comparison code and the mutable objects,
`Operators.dfy` orderBy, min and max, `Group.dfy` group.

**The ReQL text parser.** `Reql.dfy` says what the parser computes, `Parser.dfy` is the parser with its cursor,
proved to compute it on every input without leaving the text. `ReqlText.dfy` describes queries as they are written,
independently of the parser: trees with the chosen space, quoting and brackets, their text and their value.
`ReqlReads.dfy` proves that such a text reads back, `ReqlSound.dfy` that nothing else is taken in, and
`ReqlTheorems.dfy` concludes which texts ParseReQL accepts, exactly, and with which values. Some are unexpected: a
closing bracket may be missing at the end of a list, an object or a call, a key needs no colon, and inside arguments
`r .xnow()` is `r.now()`, because the byte behind a dot that has space before it is passed over.

## Assumptions of the storage model

One caller at a time; block writes succeed; `maxSize` is at least 1; block ids stay below 2^32. A stored key has at
most 10 bytes, and key and value together at most 79, so that 49 pairs, and 249 separators with 250 children, fit in
a block. Within these sizes the overfull node that is written just before a split may be cut off in its block; the
split works on the node in memory and rewrites both halves.

Where code and documentation disagree the model follows the code. The comment on Delete says that the value is only
marked; the code removes the pair. The comment on the comparison of geometries says that coordinates take part; the
code ignores them. The comment in orderBy says that the first field decides; the code goes on to the next field
on equality.

## Model

| member | source | states |
|---|---|---|
| FileSerializer.NewBlockFromData | internal/storage/block.go:35-39 | data that fits stands at the front of its block with zeros behind it, and of longer data the front remains |
| FileSerializer.WriteOneBlock | internal/storage/file_serializer.go:90-104 | writing one block at its offset changes that block and no other, and extends the file by one block when the id is the next one |
| FileSerializer.FileSerializer.constructor | internal/storage/file_serializer.go:34-50 | opening a file of any contents recovers the next id from its size, cut to 32 bits and never 0; nothing is cut exactly when the file is smaller than 2^44 bytes |
| FileSerializer.FileSerializer.BlockRead | internal/storage/file_serializer.go:54-79 | the block stored under the id; the two error cases exactly when the file is closed or the id was never handed out |
| FileSerializer.FileSerializer.BlockWrite | internal/storage/file_serializer.go:82-113 | the block is written at its offset under any id: one of the file's blocks changes, the invalid id allocates the next one, an id past the last changes no block, and after the last 32-bit id none is known; a closed file changes nothing |
| FileSerializer.FileSerializer.BlockDelete | internal/storage/file_serializer.go:116-141 | the block reads as zeros afterwards, with the same error cases as a read |
| Lru.TouchFacts | internal/storage/page_cache.go:143-157 | using an id keeps the recency list free of repeats and within the size: the id goes from its place to the front, or comes in front and a full list loses its last |
| Lru.InclusionExactly | internal/storage/page_cache.go:38-193 | all along a trace the lists of caches of all sizes are nested and without repeats if and only if every get of an id never handed out finds it nowhere or most recently used, and no allocation hands out an id that a put has left cached |
| Lru.LargerCacheIncludes | internal/storage/page_cache.go:38-193 | on such traces list and map of each cache agree, neighbouring sizes differ by at most one block, and the larger cache never has fewer hits |
| Lru.UnknownGetBreaksInclusion | internal/storage/page_cache.go:38-83 | a put and a later get of an id never handed out: a trace without inclusion |
| Lru.EarlyPutBreaksInclusion | internal/storage/page_cache.go:65-99 | a put of the id that is allocated next leaves two list elements for one block |
| PageCache.EvictFacts | internal/storage/page_cache.go:160-178 | evicting the last id, with write-back when dirty, leaves the view and the invariant of cache, list and file as they were |
| PageCache.AllClean | internal/storage/page_cache.go:107-115 | once every listed entry is clean the file alone is the view |
| PageCache.SameSize | internal/storage/page_cache.go:142-147 | list and map hold the same ids, so comparing the size of either with maxSize is the same test |
| PageCache.PageCache.constructor | internal/storage/page_cache.go:28-35 | an empty cache shows exactly the blocks of the file |
| PageCache.PageCache.Get | internal/storage/page_cache.go:38-62 | the block of the view, which does not change; a hit is counted exactly when the id was cached, else a miss; the id comes to the front of the list, from its place or in place of the last |
| PageCache.PageCache.Put | internal/storage/page_cache.go:65-83 | the view becomes the old one with the block set, whether the id was cached or not and whatever is evicted; the id comes to the front of the list and no counter moves |
| PageCache.PageCache.Allocate | internal/storage/page_cache.go:86-99 | a new id, in the view with the given block and at the front of the list, and nothing else changed |
| PageCache.PageCache.Flush | internal/storage/page_cache.go:102-118 | afterwards the file holds the view; view and list stay |
| PageCache.PageCache.Delete | internal/storage/page_cache.go:181-193 | the block of the view becomes zeros and the id leaves the list, where the others keep their order; an unknown id is an error and changes nothing |
| PageCache.PageCache.AddToCache | internal/storage/page_cache.go:143-157 | makes room and inserts in front; the view gains exactly this block |
| PageCache.PageCache.MakeRoom | internal/storage/page_cache.go:145-147 | the loop ends for maxSize >= 1, drops the tail of the list and keeps the view |
| PageCache.PageCache.Evict | internal/storage/page_cache.go:160-178 | drops the last entry, if there is one, writing it back when dirty, and keeps the view |
| NodeCodec.LeafRoundTrip | internal/btree/node.go:103-162 | a leaf that fits in a block is decoded from its block unchanged: keys, values and sibling |
| NodeCodec.InternalRoundTrip | internal/btree/node.go:165-226 | the same for an internal node: keys and children |
| NodeCodec.LeafSurvivesExactly | internal/btree/node.go:103-162 | a leaf of any size comes back from its block if and only if every length fits its field, all bytes cut off are zero, and no length but zero is cut in two |
| NodeCodec.InternalSurvivesExactly | internal/btree/node.go:165-226 | the same of an internal node, whose child ids must not be cut in pieces either |
| NodeLayout.LeafLayout | internal/btree/node.go:103-123 | the bytes of a leaf at their offsets: tag 1, key count and right neighbour with the low byte first, then each key before its value, either behind its length |
| NodeLayout.InternalLayout | internal/btree/node.go:165-188 | the bytes of an internal node at their offsets: tag 2, the two counts, the children at four bytes each, then the keys behind their lengths |
| NodeLayout.LeafFromBytes | internal/btree/node.go:126-162 | a leaf read from any bytes, if it lies within them, is encoded to exactly these bytes |
| NodeLayout.InternalFromBytes | internal/btree/node.go:191-226 | the same for an internal node |
| NodeCodec.SerializeLeaf | internal/btree/node.go:103-123 | the writing loop produces the encoding of the first numKeys pairs |
| NodeCodec.SerializeInternal | internal/btree/node.go:165-188 | header with the given numKeys, then all children and all keys; the encoding of the node when numKeys is the number of its keys |
| NodeCodec.DeserializePairs | internal/btree/node.go:145-159 | the reading loop, on any bytes, with the zeros that short reads leave |
| NodeCodec.DeserializeChildren | internal/btree/node.go:208-214 | the loop over children, on any bytes |
| NodeCodec.DeserializeFields | internal/btree/node.go:216-223 | the loop over keys, on any bytes |
| NodeOps.LowerBoundSplits | internal/btree/node.go:281-292 | on ascending keys the place of findKey has smaller keys before it and none after |
| NodeOps.UpperBoundSplits | internal/btree/node.go:317-328 | on ascending keys the place of FindChild has no greater keys before it and only greater ones after |
| NodeOps.LeafNode.FindKey | internal/btree/node.go:281-292 | the binary search returns the lower bound: smaller keys before it, none after |
| NodeOps.InternalNode.FindChild | internal/btree/node.go:317-328 | the binary search returns the upper bound: no greater keys before it, only greater ones after |
| NodeOps.LeafNode.Insert | internal/btree/node.go:229-254 | afterwards the key has the value, every other key has what it had, and the keys ascend, by replacing or by shifting; a full leaf refuses and stays as it is |
| NodeOps.LeafNode.Delete | internal/btree/node.go:257-269 | afterwards the key has no value, every other key has what it had, and the keys ascend; the answer says whether it was there |
| NodeOps.LeafNode.Split | internal/btree/node.go:295-314 | cuts keys and values at the middle and links the new leaf into the chain |
| NodeOps.InternalNode.Insert | internal/btree/node.go:331-350 | inserts the separator and, one place later, the child; a full node refuses |
| NodeOps.InternalNode.Split | internal/btree/node.go:353-375 | cuts children at the middle and takes the key between the halves out of both |
| NodeOps.DeserializeLeaf | internal/btree/node.go:126-162 | the leaf in the bytes, or null exactly for less than seven bytes or another first byte than 1 |
| NodeOps.DeserializeInternal | internal/btree/node.go:191-226 | the internal node in the bytes, or null exactly for less than seven bytes or another first byte than 2 |
| TreeOrder.LookupIsFind | internal/btree/btree.go:51-78 | following FindChild down to a leaf finds exactly what the contents of the whole tree say |
| TreeOrder.ItemsSorted | internal/btree/btree.go:306-363 | the pairs of a tree, left to right, are in strictly ascending key order |
| TreeOrder.SelectIsExact | internal/btree/btree.go:306-363 | selecting a range keeps exactly the pairs in it, in order |
| TreeOrder.LeafScan | internal/btree/btree.go:330-345 | from findKey(start) to the first key above the end lie exactly the wanted pairs of a leaf |
| TreeOrder.EarlierChildren | internal/btree/btree.go:354-361 | no child before FindChild(start) holds a pair of the range |
| TreePut.PutWithin | internal/btree/btree.go:95-187 | separators bound subtrees, left < separator <= right, after any put, whatever splits |
| TreePut.PutItems | internal/btree/btree.go:95-187 | what a put leaves below a node, one subtree or two halves, has the old contents with the one key set |
| TreePut.PutRootCorrect | internal/btree/btree.go:81-93 | the same at the root, with a new root when the old one splits |
| TreePut.DeleteWithin | internal/btree/btree.go:273-303 | a delete keeps the key ranges |
| TreePut.DeleteItems | internal/btree/btree.go:273-303 | a delete takes exactly the one key away |
| TreeShape.PutIds | internal/btree/btree.go:208-264 | no block id is used twice after a put; new blocks get new ids; the left half keeps the old id |
| TreeShape.PutRootIds | internal/btree/btree.go:190-206 | the same with a new root |
| TreeShape.PutFilled | internal/btree/btree.go:111-142 | a put never meets a full node and leaves none: 125 to 250 children below the root, at most 49 keys in a leaf, all leaves at one depth; at most one new block a level |
| TreeShape.PutRootFilled | internal/btree/btree.go:190-206 | at the root: the height stays or grows by one |
| TreeShape.DeleteFilled | internal/btree/btree.go:273-303 | a delete keeps depth and fill limits |
| TreeShape.HeightBound | internal/storage/block.go:18-18 | with 32-bit block ids the tree is at most six levels high |
| TreeShape.PutRootSmall | internal/btree/node.go:12-23 | keys and values stay within the size limits that were put in |
| TreeChain.ChainVisitsLeaves | internal/btree/node.go:295-314 | following right from the leftmost leaf visits exactly the leaves in tree order and ends at the invalid id |
| TreeChain.LeavesHoldItems | internal/btree/node.go:41-46 | the leaves in that order hold the contents |
| TreeChain.PutRootChained | internal/btree/btree.go:208-237 | a put keeps the chain |
| TreeChain.DeleteChained | internal/btree/btree.go:273-303 | a delete keeps the chain |
| TreeStore.GoodFits | internal/btree/node.go:103-123 | every node of a tree the operations leave fits in its block: 7 + 49 * 83 and 5 + 1000 + 249 * 12 bytes are within 4096 |
| TreeStore.StoredFrame | internal/btree/btree.go:113-117 | a stored subtree stays stored when only blocks outside it change |
| TreeStore.PutRootGood | internal/btree/btree.go:81-93 | a put keeps key ranges, distinct ids, depth, fill, sizes and sibling ids all together |
| TreeStore.DeleteGood | internal/btree/btree.go:267-303 | a delete keeps them all together |
| TreeStore.HalvesTaken | internal/btree/btree.go:155-164 | after a child split the rewritten parent is stored, or overfull with its children stored, though its block may be cut |
| TreeStore.SplitStored | internal/btree/btree.go:239-264 | both halves of a split internal node are stored although the overfull block was written before |
| TreeStore.LeafHalvesStored | internal/btree/btree.go:208-237 | the same for a leaf |
| TreeStore.DeleteReturns | internal/btree/btree.go:295-303 | a parent that is never rewritten still points at its changed child |
| BTree.BTree.New | internal/btree/btree.go:18-36 | a new tree is the empty map |
| BTree.BTree.Load | internal/btree/btree.go:39-44 | a tree opened by its root id is the map whose blocks it finds |
| BTree.BTree.Get | internal/btree/btree.go:47-78 | the value last put and not since deleted, or none; the number of block reads is the height, at most 6 |
| BTree.BTree.Put | internal/btree/btree.go:81-187 | the map gains the pair; nothing fails within the size limits; all tree invariants stay |
| BTree.BTree.PutAt | internal/btree/btree.go:95-187 | the recursive descent: only blocks of the subtree and new blocks change, and they hold what the put makes of it |
| BTree.BTree.TakeUp | internal/btree/btree.go:150-184 | the way up: an empty report ends it, a split child is taken in and the parent split when full |
| BTree.BTree.SplitLeaf | internal/btree/btree.go:208-237 | right half in a new block, left half in the old one, separator the first key on the right |
| BTree.BTree.SplitInternal | internal/btree/btree.go:239-264 | right half in a new block, left half in the old one, middle key reported |
| BTree.BTree.CreateRoot | internal/btree/btree.go:190-206 | a new block with the separator over the two halves |
| BTree.BTree.Delete | internal/btree/btree.go:267-303 | the map loses the key; a key that is not there leaves every block as it is |
| BTree.BTree.Scan | internal/btree/btree.go:306-363 | exactly the pairs with start <= key <= end, without upper limit when there is no end, in strictly ascending order, each once |
| BTree.BTree.ScanAt | internal/btree/btree.go:318-363 | appends to the shared results what the subtree has in the range, and changes no block |
| TreeRuns.RunsAgree | internal/storage/page_cache.go:10-35 | two runs of the same requests from the same map give the same answers, so the size of the cache cannot be seen |
| TreeRuns.BlocksDetermineTree | internal/btree/btree.go:39-44 | blocks and root id determine the tree, so what Load finds is not a choice |
| TreeRuns.PerformAll | internal/btree/btree.go:47-363 | any run of requests over a cache of any size answers each as a plain map does, as long as its puts do not run out of block ids; gets, scans and deletes use none |
| TreeRuns.Reopen | internal/storage/page_cache.go:102-118 | flush, reopen the file, any other cache size, Load the same root id: the same map |
| TreeRuns.Session | internal/storage/file_serializer.go:34-50 | from an empty file, a run, a flush, a reopening and another run answer as one run on one map |
| RaftNode.QuorumIsMajority | internal/raft/consistency.go:98-106 | CheckQuorum and the count in startElection both mean more than half of the cluster |
| RaftNode.MajoritiesMeet | internal/raft/raft.go:160-165 | two majorities share a node |
| RaftServer.Raft.constructor | internal/raft/raft.go:60-65 | the starting state of a node |
| RaftServer.Raft.Timeout | internal/raft/raft.go:137-147 | standing as a candidate |
| RaftServer.Raft.StartElection | internal/raft/raft.go:149-155 | a tick of a candidate opens a round that counts its own vote |
| RaftServer.Raft.HandleVoteReply | internal/raft/raft.go:156-167 | a counted yes makes a leader exactly when it completes a majority of a standing candidate |
| RaftServer.Raft.RequestVote | internal/raft/raft.go:273-309 | state and reply for every combination of term, vote and log |
| RaftServer.Raft.BuildAppend | internal/raft/raft.go:219-239 | the message a leader sends a peer |
| RaftServer.Raft.AppendEntries | internal/raft/raft.go:312-371 | state and reply, with the loop over entries, truncation and the commit index |
| RaftServer.Raft.HandleReply | internal/raft/raft.go:251-269 | an answer of a higher term makes the leader a follower of that term without a vote; otherwise a success with entries moves matchIndex and nextIndex to and past the last of them, and a refusal takes nextIndex back by one but not below one |
| RaftServer.Raft.Propose | internal/raft/raft.go:374-396 | a leader appends one entry, anyone else refuses |
| RaftTold.ToldTermIsReached | internal/raft/raft.go:251-256 | after every enabled step that takes a request or an append reply, the receiver has at least the term in it, and where its term grew it is a follower whose earlier vote is gone |
| RaftTold.TermsOnlyGrow | internal/raft/raft.go:137-331 | no step takes a node back a term, and only standing as a candidate or being told of a term takes it on |
| RaftTold.ToldForGood | internal/raft/raft.go:251-331 | in every run, whatever the ages of its replies, a node once told of a term never again leads an earlier one |
| RaftElection.NoEarlierElection | internal/raft/raft.go:327-331 | the winning quorum stays locked, so no other leader of the term exists, although a candidate that hears a leader forgets its vote |
| RaftElection.StepKeepsElection | internal/raft/raft.go:137-206 | every step keeps the invariant behind Election Safety |
| RaftVotes.OwnVoteForgotten | internal/raft/raft.go:327-331 | in every run, a node has taken back its own vote within a term if and only if it heard a leader of that term while still a candidate |
| RaftVotes.VotesTwice | internal/raft/raft.go:291-331 | a run, for every cluster of at least three nodes and with no late reply, in which a node votes for itself and then for another in one term |
| RaftAge.OneTermOldIsFresh | internal/raft/raft.go:156-167 | a reply at most one term old that decides something is of the current term: older rounds of that age lost to a leader whose voters exclude the candidate, and a leader never leads the next term |
| RaftAge.StepKeepsAge | internal/raft/raft.go:137-331 | every step keeps what that rests on: which rounds are lost, and that append messages come from elected leaders |
| RaftPairs.NoOtherWin | internal/raft/raft.go:156-165 | of two nodes the candidate's term was never won before, on whatever votes, since the two never stand in one term after the first |
| RaftPairs.StepKeepsPairs | internal/raft/raft.go:137-371 | every step keeps the invariant on the terms and roles of two nodes |
| RaftPairLogs.StepKeepsPairSafe | internal/raft/raft.go:214-371 | every step of two nodes keeps what both logs begin with, and every success under way or written down is about such a beginning |
| RaftLogs.AppendAllMerges | internal/raft/raft.go:347-357 | the loop leaves a log that already has the entries alone, tail included, and otherwise cuts it to the leader's |
| RaftLogs.ReceiveOutcome | internal/raft/raft.go:335-357 | what check and loop together make of a log, case by case |
| RaftLogs.ReceiveAgain | internal/raft/raft.go:335-357 | the same message again, or an older one reaching no further, changes no entry |
| RaftLogs.StepKeepsBase | internal/raft/raft.go:214-396 | as long as there is one leader a term, every step keeps all logs canonical, numbered by position, and leaders' logs growing, however old the replies |
| RaftLogs.StepKeepsLogs | internal/raft/raft.go:214-396 | with recent successes, every step also keeps what leaders will send and have recorded consistent with their logs |
| RaftCompleteness.LaterLeadersHold | internal/raft/raft.go:295-306 | in a state with the invariants, what a majority held of a term is in every later leader's log |
| RaftCompleteness.StepKeepsHeld | internal/raft/raft.go:149-396 | every step keeps the invariant on acknowledgements, votes and elections |
| RaftTheorems.RunsAreVoteSafe | internal/raft/raft.go:105-396 | the invariants of elections and logs hold in every state of every run whose deciding votes are at most one term old |
| RaftTheorems.RunsAreSafe | internal/raft/raft.go:105-396 | with recorded successes at most one term old, so do those of replication |
| RaftTheorems.PairsAreSafe | internal/raft/raft.go:105-396 | in every state of every run of at most two nodes the invariants of pairs hold, whatever the ages of replies |
| RaftTheorems.ElectionSafety | internal/raft/raft.go:137-206 | at most one node is ever leader in a term, at any two times of a run with recent votes or of at most two nodes (section 5.2) |
| RaftTheorems.LeaderAppendOnly | internal/raft/raft.go:374-396 | with recent votes or at most two nodes, a leader's log only grows within its term (section 5.3) |
| RaftTheorems.LogMatching | internal/raft/raft.go:335-357 | with recent votes or at most two nodes: same index and term, same log up to there, at any two times; the entry at place i has index i + 1 (section 5.3) |
| RaftTheorems.ReplicationSound | internal/raft/raft.go:258-269 | with recent votes and successes, or at most two nodes, a peer still in the leader's term agrees with it up to matchIndex |
| RaftTheorems.LeaderCompleteness | internal/raft/raft.go:196-270 | with recent votes and successes, or at most two nodes, an entry proposed by the leader of a term and held by a quorum through matchIndex is in the log of every leader of a later term (section 5.4) |
| RaftTheorems.NothingCommits | internal/raft/raft.go:359-367 | no run ever commits, whatever the ages of its replies: the leader never advances its commit index |
| RaftStale.BothWin | internal/raft/raft.go:156-165 | with yeses two terms old, two nodes of any cluster of at least three lead one term |
| RaftStale.RivalIsBooked | internal/raft/raft.go:258-263 | one of two such leaders records a success of a peer that kept the other's entry |
| RaftStale.LeaderErased | internal/raft/raft.go:327-345 | one of two such leaders erases an entry that the other proposed and still leads with |
| RaftStale.LateSuccesses | internal/raft/raft.go:258-263 | with successes two terms old and no late vote at all, a leader records entries it no longer has |
| RaftStale.SixthLeader | internal/raft/raft.go:258-263 | from there a later leader is elected without an entry that is on a quorum by the earlier leader's book |
| RaftLimits.OneVoteATermExactly | internal/raft/raft.go:291-331 | in every run no node votes for itself and another in one term if and only if the cluster has at most two nodes |
| RaftLimits.ElectionSafetyExactly | internal/raft/raft.go:156-165 | every run of a cluster has one leader a term if and only if deciding yeses are at most one term old, or there are at most two nodes (section 5.2) |
| RaftLimits.LeaderAppendOnlyExactly | internal/raft/raft.go:335-357 | likewise leaders only append to their logs under exactly the same condition (section 5.3) |
| RaftLimits.LogMatchingExactly | internal/raft/raft.go:335-357 | likewise logs match under exactly the same condition (section 5.3) |
| RaftLimits.ReplicationSoundExactly | internal/raft/raft.go:258-269 | what leaders record of peers is sound if and only if deciding yeses and recorded successes are at most one term old, or there are at most two nodes |
| RaftLimits.LeaderCompletenessExactly | internal/raft/raft.go:156-270 | later leaders hold what was on a quorum if and only if deciding yeses and recorded successes are at most one term old, or there are at most two nodes (section 5.4) |
| Datum.OrderFlips | pkg/datum/datum.go:258-329 | swapping the operands negates the result, which is -1, 0 or 1 |
| Datum.OrderChains | pkg/datum/datum.go:258-329 | transitivity, with equality only where both steps are equal, through arrays and objects |
| Datum.TotalOrder | pkg/datum/datum.go:252-257 | reflexive, antisymmetric in sign, transitive, total, NaN included |
| Datum.EqualIffVisibleEqual | pkg/datum/datum.go:740-751 | two values compare equal exactly when they differ in nothing but time zones and coordinates |
| Datum.EqualIffSame | pkg/datum/datum.go:333-335 | without times and geometries inside, equal means identical |
| DatumDirection.NumbersByValue | pkg/datum/datum.go:278-294 | one finite number is below another exactly if its value is smaller |
| DatumDirection.NumberEnds | pkg/datum/datum.go:278-294 | NaN below minus infinity, that below every finite number, and each of these below plus infinity |
| DatumDirection.FalseBelowTrue | pkg/datum/datum.go:269-276 | false comes before true |
| DatumDirection.TimesByInstant | pkg/datum/datum.go:315-322 | times compare by their instants, whatever their zones |
| DatumDirection.StringsByBytes | pkg/datum/datum.go:297-326 | strings, binary data and geometry types: at the first difference the smaller byte decides, and a proper prefix comes first |
| DatumDirection.TypesAscend | pkg/datum/datum.go:343-365 | any values of the eleven types compare as their types do: MinVal, null, boolean, number, string, array, object, binary, time, geometry, MaxVal |
| DatumDirection.ArraysByFirstDifference | pkg/datum/datum.go:368-388 | an array is below another exactly if at the first place that is not level it ends or has the smaller item |
| DatumDirection.PrefixBelow | pkg/datum/datum.go:368-388 | a proper prefix of an array is below the array |
| DatumDirection.FewerKeysBelow | pkg/datum/datum.go:682-690 | an object with fewer fields is below one with more |
| DatumDirection.ObjectsByFirstDifference | pkg/datum/datum.go:682-709 | an object is below another exactly if it has fewer fields, or as many and the first differing key is smaller, or the same keys and the first differing value is smaller |
| DatumCode.CompareTypes | pkg/datum/datum.go:343-365 | the order of the types |
| DatumCode.CompareNumbers | pkg/datum/datum.go:278-294 | the order of numbers, which DatumDirection pins to comparison by value, NaN lowest |
| DatumCode.CompareBytes | pkg/datum/datum.go:391-413 | the loop over bytes gives the lexicographic order |
| DatumCode.Compare | pkg/datum/datum.go:258-329 | Compare returns the order whose laws Datum.dfy proves and whose direction DatumDirection.dfy proves |
| DatumCode.CompareArrays | pkg/datum/datum.go:368-388 | the loop over items gives the lexicographic order of arrays |
| DatumCode.CompareObjects | pkg/datum/datum.go:682-709 | key count, keys, then values in key order |
| DatumCode.ObjectData.FromMap | pkg/datum/datum.go:617-632 | from a map visited in any order: keys sorted, distinct, equal to the field set |
| DatumCode.ObjectData.Set | pkg/datum/datum.go:641-647 | the field is set and the keys stay sorted, distinct and equal to the field set |
| DatumCode.ObjectData.Delete | pkg/datum/datum.go:650-660 | the field is gone and the keys stay sorted, distinct and equal to the field set |
| DatumCode.ObjectData.Values | pkg/datum/datum.go:673-679 | the values in key order |
| DatumCode.KeysDetermined | pkg/datum/datum.go:611-614 | the fields determine the key list, whatever the order of sets and deletes |
| Operators.StrictWeakOrder | internal/reql/evaluator.go:696-714 | the comparison handed to the sort is a strict weak order |
| Operators.MissingComesFirst | internal/reql/evaluator.go:698-705 | a document without the field sorts before, or level with, every other |
| Operators.RowLess | internal/reql/evaluator.go:696-714 | the loop over fields decides by the first difference |
| Operators.SortSlice | internal/reql/evaluator.go:696-714 | in place: a permutation of the rows, in order |
| Operators.OrderBy | internal/reql/evaluator.go:682-717 | the rows end as a permutation, on the key and the documents: by a string key they ascend in its value, a missing one first; by a list each string orders the rows that the strings before it leave level; any other key changes nothing |
| Operators.Min | internal/reql/evaluator.go:1340-1365 | null when no document takes part, else the value, of the document or of its field, of the first document where it is least; documents without the field do not count |
| Operators.Max | internal/reql/evaluator.go:1385-1410 | null when no document takes part, else the value, of the document or of its field, of the first document where it is greatest; documents without the field do not count |
| Group.FirstSeenOrder | internal/reql/evaluator.go:1430-1445 | the group keys are exactly the keys that occur, each once, in the order of their first occurrence |
| Group.MembersKeepOrder | internal/reql/evaluator.go:1445-1445 | a group holds the documents at exactly the places of its key, in input order |
| Group.GroupsPartition | internal/reql/evaluator.go:1433-1446 | all groups together are exactly the input multiset |
| Group.GroupBy | internal/reql/evaluator.go:1430-1456 | objects of just a text and a list, no two of one text and none empty; every document stands under the text of its field, or under null where it is no object, lacks it or none is given; all lists together are the input |
| Parser.Parser.ParseExpression | internal/reql/parser.go:299-320 | the cursor method agrees with the grammar function, ends and stays in bounds on every input |
| Parser.Parser.ParseRChain | internal/reql/parser.go:322-378 | the chain loop nests each further call around the term so far |
| Parser.Parser.ParseIdentifier | internal/reql/parser.go:380-390 | the longest name at the cursor, or an error |
| Parser.Parser.ParseArgList | internal/reql/parser.go:392-426 | the arguments, empty or not |
| Parser.Parser.ParseItems | internal/reql/parser.go:643-671 | the loop over values up to the closing bracket, of arguments and of arrays |
| Parser.Parser.ParseArgValue | internal/reql/parser.go:428-484 | the dispatch on the first byte, in the order of the source |
| Parser.Parser.ParseString | internal/reql/parser.go:486-522 | the escapes of a double-quoted string |
| Parser.Parser.ParseSingleQuotedString | internal/reql/parser.go:524-545 | the escapes of a single-quoted string |
| Parser.Parser.ParseNumberValue | internal/reql/parser.go:547-572 | integers through ParseInt, everything else through ParseFloat |
| Parser.Parser.ParseObject | internal/reql/parser.go:594-641 | the loop over fields; a later value for a key wins |
| Parser.Parser.ParseLiteral | internal/reql/parser.go:673-708 | the dispatch for a bare literal |
| Parser.ParseReQL | internal/reql/parser.go:242-260 | the whole parse, trailing text refused, on every input |
| ReqlText.PiecesOfText | internal/reql/parser.go:486-545 | every text can be written in either quotes |
| ReqlReads.DoubleQuotedReads | internal/reql/parser.go:486-522 | bytes between double quotes, behind backslashes or not, read back as what they stand for; an unknown escape keeps its backslash |
| ReqlReads.SingleQuotedReads | internal/reql/parser.go:524-545 | in single quotes a backslash takes the next byte as it is |
| ReqlReads.ParseIntReads | internal/reql/parser.go:564-571 | a whole number of any sign, leading zeros and size reads back, or is out of range exactly outside 64 bits |
| ReqlReads.IntReads | internal/reql/parser.go:547-572 | a whole number reads as its float, and outside 64 bits as what ParseFloat makes of its text |
| ReqlReads.DecimalReads | internal/reql/parser.go:556-561 | a number with a point reads as what ParseFloat makes of its text |
| ReqlReads.ItemsRead | internal/reql/parser.go:409-422 | written values, with any space around them, read back in order |
| ReqlReads.FieldsRead | internal/reql/parser.go:604-637 | written fields read back, with or without their colons, and the last of equal keys wins |
| ReqlReads.ArgReads | internal/reql/parser.go:428-484 | any written argument reads back, to exactly its end: null, booleans, numbers, strings, the row, parentheses, arrays, objects, nested chains |
| ReqlReads.SpacedReads | internal/reql/parser.go:472-480 | a chain with space before its first dot loses the byte behind the dot unseen |
| ReqlReads.ChainRuns | internal/reql/parser.go:347-375 | the loop takes in the written calls one after the other, each around the term so far |
| ReqlReads.NestIsTerm | internal/reql/parser.go:368-374 | wrapping from the inside out gives the term whose last call is outermost |
| ReqlSound.ArgFoundAt | internal/reql/parser.go:428-484 | whatever is accepted as an argument is a written argument with this text and value |
| ReqlSound.BracketedFound | internal/reql/parser.go:392-426 | what is accepted between brackets is a list of written values, whose closing bracket is missing only where neither it nor a comma follows |
| ReqlSound.ObjectFound | internal/reql/parser.go:594-641 | the same for the fields of an object |
| ReqlSound.RChainFound | internal/reql/parser.go:322-378 | what is accepted as a chain is a written chain of known methods |
| ReqlTheorems.RoundTrip | internal/reql/parser.go:242-378 | the text of any query, with any space, parses to the value of the query |
| ReqlTheorems.OnlyQueriesParse | internal/reql/parser.go:242-378 | whatever parses is the text of a query with that value |
| ReqlTheorems.ExactLanguage | internal/reql/parser.go:242-260 | on every input: a text parses to a value if and only if it is, but for space around it, the text of a query with that value |
| ReqlTheorems.Unambiguous | internal/reql/parser.go:242-260 | no text is that of two queries of different values |
| ReqlTheorems.GetByDecimal | internal/reql/parser.go:556-561 | the query that gets a document by a number with a point parses to its term |
| ReqlTheorems.TrailingRefused | internal/reql/parser.go:253-258 | a query with more than space behind it is refused |
| ReqlTheorems.UnknownMethodRefused | internal/reql/parser.go:338-341 | a chain is refused at its first unknown method, whatever follows |

## Left out

- RaftServer.Raft.AppendEntries: entries have an index of at least 1, as every entry a leader sends has; the source panics on others. Integers are unbounded where the source has int64, and the log slice that a message shares with its leader is copied.
- RaftServer.Raft.StartElection: the goroutines of a round become messages; the counter they share is the set of peers whose yes was counted, each goroutine counting at most once.
- RaftServer.Raft.Propose: the heartbeats it starts are steps of their own; clocks, timeouts and jitter are nondeterministic ticks.
- Raft compaction, snapshots and the write-ahead log: cutting the log in memory breaks the rule that an index is a position plus one.
- Raft liveness, commit and apply, QuorumRead, membership and transfer.
- BTree.BTree.Load: the tree that the blocks hold is a ghost argument; `TreeRuns.BlocksDetermineTree` shows that there is no choice in it.
- TreeRuns.PerformAll: requires that seven new blocks for each put stay below the last block id, the most that a put can use.
- BTree.BTree.Put: stays below the last block id and within the size limits; the error returns of the cache and of full nodes are not reached under the invariant and are proved unreachable instead of being handled.
- NodeCodec.SerializeLeaf: called with numKeys at most the number of keys; the source panics on more.
- FileSerializer.FileSerializer.BlockRead: seek, read and write errors of the operating system, the block count and the file header are not modelled.
- PageCache.PageCache.Put: takes ids that the file has handed out, as the tree does; the source caches a block under any id. What that does to the recency list, an early allocation of the id included, is in `Lru.dfy`; what it does to the blocks is not modelled.
- Close, statistics and locking of the cache and the file.
- DatumCode.CompareNumbers: numbers are NaN, the infinities and reals; rounding and the two zeros are not distinguished.
- DatumCode.Compare: takes objects whose keys match their fields, which `ObjectData` keeps; an object is compared by its value, so two variables sharing one object are not modelled.
- DatumCode.ObjectData.FromMap: the library sort is replaced by an insertion sort with the same promise; with distinct keys the result is the only one possible.
- Operators.SortSlice: the library's sort is replaced by insertion in place, and only what any correct sort of a strict weak order promises is stated; stability is not claimed. Evaluation of the arguments of the operators is left out.
- Group.GroupBy: the JSON text of a value is a parameter; a failed marshalling is the empty text, and a missing field is the text null, as in the source.
- Parser.ParseReQL: the table of methods, ParseFloat and the conversion of integers to floats are parameters. Trimming removes ASCII space only; the library also trims other Unicode space.
- ReqlTheorems.ExactLanguage: characters stand for bytes. The trees of written queries and their texts are part of the specification.
- The secondary indexes of a table, whose entries do not follow an update, and their ranges over formatted strings.
- The rest of the evaluator, transactions, cluster administration, authentication, HTTP, WebSocket, TCP, drivers, dashboard and configuration.
