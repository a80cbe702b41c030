# Verified core of AGENT++, AgentX++ and libdes

A Dafny model of the parts of the SNMP agent in which a mistake is hardest to see, with proofs of what they promise:

- **Object identifiers** (`OidOrder`, `OidNeighbours`): the lexicographic order behind every container of the agent, and
  the discrete order of identifiers of at most 128 components with which AgentX resumes searches.
- **The threaded AVL map** (`AvlTree`, `AvlContents`, `AvlNodes`, `AvlPlaces`, `AvlMap`): nodes on the heap whose empty
  child slots hold threads to the in-order neighbours, with balance and thread bits in one status word. The recursive
  insertion and deletion rewrite the nodes in place and report height changes through fields that stand for the
  file-level statics. Each heap routine is tied to a function on a ghost tree, and the functions are proved to keep
  order, balance marks and contents. The MIB's own map (`agent++/src/mib_avl_map.cpp`) repeats the algorithm for another
  value type and is covered by the same model.
- **OID lists** (`OidList`): the searches and the cursor lookup that the agent runs on such a map.
- **AgentX registration** (`AgentXRegions`, `AgentXOwnership`, `AgentXRegistration`, `AgentXUnregistration`,
  `AgentXRuns`, `AgentXPriority`, `AgentXExamples`, `AgentXMaster`): how the master cuts OID space into nodes (section 7.1.4.1 of RFC
  2741), stated through lookup: an object's owners are those of the entry with the greatest key not above it, if that
  entry reaches that far. One registration, one unregistration, ranges, any run of them, and which owner is asked.
- **GETNEXT** (`MibTables`, `MibSearch`, `MibServer`): the search through the context, inside a table with its
  shortcuts, and through access control (section 4.2.2 of RFC 3416).
- **The distributed SET** (`AgentXSet`, `AgentXSetPhases`): test, commit, undo and cleanup under any order of responses
  and timeouts (section 7.2 of RFC 2741), and which PDUs each step sends to whom.
- **Index allocation** (`AgentXIndexes`, `AgentXIndexRequests`): which values an index object hands out and takes back,
  and the two passes over allocation and deallocation requests (sections 7.1.2 and 7.1.3 of RFC 2741).
- **DES** (`DesRounds`, `DesBits`, `DesStandard`, `DesBlock`, `DesChaining`, `DesBytes`, `DesStreams`): block and triple
  encryption, CBC with partial last blocks over byte buffers, and the crypt(3) loop, for every S-box table and every key
  schedule. `DesStandard` gives the cipher of FIPS PUB 46 on bits, with its tables IP, IP inverse and E, and proves that
  the words compute it; `DesBytes` states the chaining on bytes.
- **VACM** (`VacmAccess`): which access row decides (section 4 of RFC 3415, vacmAccessTable).
- **Thread pools** (`ThreadPools`, `ThreadPoolOrder`): the hand-off of tasks between callers and workers in every
  interleaving.

Where a routine works in place, a method over a class or an array follows it statement by statement and is proved equal
to a function of the old state; the promised properties are lemmas about that function.

## Where the code does less than it promises

The code is modelled as it is. In these places a promise fails, and the model says exactly when:

- *Registration may miss part of its region.* Splitting a node at a region that ends where the node ends leaves an empty
  node behind, because `AgentXNode::is_empty` always answers false; a later region that starts there, or any region with
  such an empty entry inside, does not become an owner there. And when no entry starts at or below the region, the
  affected entries are not looked for: those inside the region keep their owners.
  `AgentXUnregistration.RegisterWholeRegion` gives the exact condition, `AgentXExamples.SplitLeavesEmpty` and
  `RefusedAtEmpty` a concrete case.
- *A second registration can go wrong.* The last arm of the splitting loop leaves the provisional node unshrunk, and a
  region in front of all others is added whatever starts inside it, so that stored bounds overlap.
  `AgentXRegistration.RegisterDisjoint` says exactly when one registration does this, `AgentXRuns.RunDisjoint` that a
  whole run of registrations and unregistrations keeps bounds disjoint exactly when none of its registrations does, and
  `AgentXRuns.RunOwners` that in such a run every object has the owners asked for exactly when each registration gets
  its whole region. `AgentXExamples.ProvisionalStays` and `SecondRegistrationMisses` show an object that loses an owner.
- *GETNEXT can pass over a leaf.* After a table has been exhausted by access control the search goes on from the table's
  upper bound, and a leaf whose key is exactly that bound is skipped. `MibSearch.GetNextCorrect` proves that this is the
  only way to fail.
- *A failed commit is undone only if the failing CommitSet was the last one outstanding*
  (`AgentXSet.UndoOnlyAfterLast`); otherwise the request is answered at once. `AgentXSet.CommitLeftBehind` is a run of
  two sessions in which one commit is refused, the other one stands, and nothing is undone.
- *Index values.* A new index is above all allocated ones only while such a value is left
  (`AgentXIndexes.NewValueAbove`); after that it is the least value that was not released, allocated or not
  (`AgentXIndexes.NewValueTaken`). ANY_INDEX hands out an allocated value in two cases, and in no others
  (`AgentXIndexes.AnyValueFree`): the first released value has been allocated explicitly since
  (`AgentXIndexes.AnyAfterExplicit`), or nothing was released, 0xFFFFFFFF is allocated, and the unsigned value after it
  wraps around to an allocated zero (`AgentXIndexes.WrapsToTaken`). The session that held the value loses it
  (`AgentXIndexRequests.OtherSessionLoses`).
- *An accepted allocation request need not add exactly its entries.* Besides those values, an explicit negative value for
  an object that does not exist yet is accepted and allocates nothing (`AgentXIndexRequests.NegativeExplicit`), and two
  bindings for one object get one value between them; with ANY_INDEX a released value is lost
  (`AgentXIndexRequests.AnyTwice`). `AgentXIndexRequests.AllocateExact` proves that there is no other way.
- *Error indexes.* The error index of a refused allocation counts from one, that of a refused deallocation from zero
  (`AgentXIndexRequests.IndexDatabase.ProcessAllocate` and `ProcessDeallocate`).

`OidListCursor::lookup` positions the cursor at the greatest key that is not above its argument, as its code says.

## Model

| member | source | states |
|---|---|---|
| OidOrder.NCompare | snmp++/include/snmp_pp/oid.h:540-580 | the component-wise scan answers -1, 0 or 1 exactly as the lexicographic order has it, a proper prefix being smaller |
| OidOrder.LessTotal | snmp++/include/snmp_pp/oid.h:248-259 | the order is total and asymmetric, so that maps can be keyed by it |
| OidNeighbours.Successor | agent++/include/agent_pp/snmp_pp_ext.h:348-369 | nothing of bounded length lies between an identifier and its successor; only the greatest one has none |
| OidNeighbours.Predecessor | agent++/include/agent_pp/snmp_pp_ext.h:377-389 | nothing of bounded length lies between the predecessor and the identifier; only the empty one has none |
| OidNeighbours.NeighboursUnique | agent++/include/agent_pp/snmp_pp_ext.h:348-389 | immediate neighbours determine each other, so successor and predecessor undo each other away from the ends |
| OidNeighbours.ResumeAbove | agentx++/src/agentx_master.cpp:1682-1684 | a search above the predecessor of a bound covers exactly the identifiers from the bound on |
| AvlTree.InsertAvl | agent++/src/avl_map.cpp:194-358 | insertion keeps every balance mark exact, and the rebalancing flag is up exactly when the tree grew by one level |
| AvlTree.DeleteAvl | agent++/src/avl_map.cpp:381-599 | deletion keeps every balance mark exact, and the flag is up exactly when the tree lost one level, two-child case included |
| AvlTree.InsertOwns | agent++/src/avl_map.cpp:194-358 | insertion keeps all nodes and adds the new one only if the key was absent |
| AvlTree.DeleteOwns | agent++/src/avl_map.cpp:381-599 | deletion gives up exactly the node whose binding or whose predecessor's binding moved up |
| AvlContents.InsertItems | agent++/src/avl_map.cpp:194-358 | the new binding stands at the key's rank and no other binding moves, whatever was rotated |
| AvlContents.DeleteItems | agent++/src/avl_map.cpp:381-599 | exactly the binding at the key's rank disappears from the key order |
| AvlContents.InsertCorrect | agent++/src/avl_map.cpp:194-378 | as a finite map, insertion binds an unbound key to the default and changes nothing else |
| AvlContents.DeleteCorrect | agent++/src/avl_map.cpp:381-617 | as a finite map, deletion unbinds exactly its key; an absent key changes nothing |
| AvlContents.HeightBound | agent++/src/avl_map.cpp:194-617 | a balanced tree of height h holds at least Fib(h + 2) - 1 keys |
| AvlContents.RunKeeps | agent++/src/avl_map.cpp:194-617 | after any run of insertions and deletions the tree is balanced and ordered, represents the map the operations describe, and obeys the height bound |
| AvlNodes.DoRotateRight | agent++/src/avl_map.cpp:231-245 | the pointer surgery of a single right rotation, threads and marks included, yields the rotated tree in the same nodes |
| AvlNodes.DoRotateLeftRight | agent++/src/avl_map.cpp:247-275 | the same for the double rotation, whose outer marks depend on the middle node's mark |
| AvlNodes.DoRotateLeft | agent++/src/avl_map.cpp:459-486 | the single left rotation of both deletion cases, with the marks each of them sets |
| AvlNodes.DoRotateRightLeft | agent++/src/avl_map.cpp:487-515 | the mirrored double rotation |
| AvlMap.AvlMap.Add | agent++/src/avl_map.cpp:194-358 | the recursive insertion leaves in memory the tree of Insert, returns its root, finds or creates the key's node, and counts it |
| AvlMap.AvlMap.Index | agent++/src/avl_map.cpp:361-378 | subscripting returns a node holding the key and binds it to the default only if it was unbound; the map stays valid |
| AvlMap.AvlMap.Put | agent++/src/avl_map.cpp:361-378 | writing through the subscript updates exactly that key |
| AvlMap.AvlMap.UnlinkLeaf | agent++/src/avl_map.cpp:395-410 | a childless node leaves its parent's slot, which becomes a thread |
| AvlMap.AvlMap.SpliceRight | agent++/src/avl_map.cpp:411-420 | a node without left child is replaced by its right subtree, whose leftmost thread is redirected |
| AvlMap.AvlMap.SpliceLeft | agent++/src/avl_map.cpp:421-430 | the mirrored case |
| AvlMap.AvlMap.TakeOverPred | agent++/src/avl_map.cpp:431-438 | with two children the node takes over its predecessor's binding and the search goes on for the greatest key on the left |
| AvlMap.AvlMap.Del | agent++/src/avl_map.cpp:381-599 | the recursive deletion leaves in memory the tree of Delete with all threads, reports the node given up and the height change |
| AvlMap.AvlMap.Remove | agent++/src/avl_map.cpp:603-617 | deletion keeps the map valid, removes exactly the key, lowers the count exactly if it was there, and frees a node no longer in use |
| AvlMap.AvlMap.Succ | agent++/src/avl_map.cpp:118-123 | the in-order successor, through the right subtree or the right thread |
| AvlMap.AvlMap.Pred | agent++/src/avl_map.cpp:125-130 | the in-order predecessor |
| AvlMap.AvlMap.First | agent++/src/avl_map.cpp:104-109 | the node of the least key |
| AvlMap.AvlMap.Last | agent++/src/avl_map.cpp:111-116 | the node of the greatest key |
| AvlMap.AvlMap.Next | agent++/include/agent_pp/avl_map.h:130-133 | stepping visits the nodes in key order and ends with null |
| AvlMap.AvlMap.Prev | agent++/include/agent_pp/avl_map.h:135-138 | stepping backward likewise |
| AvlMap.AvlMap.Seek | agent++/src/avl_map.cpp:133-155 | a node is found exactly if the map binds the key, and it holds that binding; the search visits n nodes only if the map holds at least Fib(n + 2) - 1 keys |
| AvlMap.AvlMap.SeekInexact | agent++/src/avl_map.cpp:157-179 | the key's node or one of the two would-be neighbours; null only for an empty map; as few nodes visited |
| AvlMap.AvlMap.OK | agent++/src/avl_map.cpp:639-660 | the self-check succeeds on every valid map: threads list every key once in strict order, as many as counted |
| AvlMap.AvlMap.Clear | agent++/src/map.cpp:62-70 | deleting the first key until there is none ends with the empty map |
| AvlMap.AvlMap.Copy | agent++/src/avl_map.cpp:630-636 | the copy has the same contents in nodes of its own |
| OidList.LowerIndexSpec | agent++/include/agent_pp/List.h:668-679 | exactly the keys up to the position are at or below the argument |
| OidList.UpperIndexSpec | agent++/include/agent_pp/List.h:681-691 | exactly the keys from the position on are at or above the argument |
| OidList.List.FindLower | agent++/include/agent_pp/List.h:668-679 | the entry with the greatest key not above the argument, from wherever the inexact search ended |
| OidList.List.FindUpper | agent++/include/agent_pp/List.h:681-691 | the entry with the least key not below the argument |
| OidList.List.FindNext | agent++/include/agent_pp/List.h:693-699 | the entry after that of a key in the list; none for other keys |
| OidList.List.Lookup | agent++/include/agent_pp/List.h:834-849 | the cursor goes to the greatest key not above the argument, or stays where it is |
| AgentXRegions.DropAdded | agentx++/src/agentx_node.cpp:134-155 | removing an added registration restores the ordered owner list |
| AgentXPriority.AddRanked | agentx++/src/agentx_reg.cpp:77-82 | an owner list stays ranked when an entry is added: a longer lower bound comes first, and among equal lengths a smaller priority |
| AgentXPriority.AddOfRank | agent++/include/agent_pp/List.h:550-560 | a new entry goes behind all entries of its rank and leaves the order within every rank as it was |
| AgentXPriority.DropOfRank | agentx++/src/agentx_node.cpp:141-156 | removal takes the entry out of its rank and leaves the order within every rank as it was |
| AgentXRegistration.AffectedSpec | agentx++/src/agentx_master.cpp:1996-2021 | of an accepted registration the affected entries are the master's, start below the end of the region, and include every entry that can overlap it |
| AgentXRegistration.RefusedByForeign | agentx++/src/agentx_master.cpp:1996-2021 | the scan refuses a region exactly if an entry starts at or below it and a foreign entry that starts below its end starts or ends above its start |
| AgentXRegistration.WalkAnswers | agentx++/src/agentx_master.cpp:2314-2430 | every arm of the splitting loop keeps the table built so far right, for any number and arrangement of affected nodes |
| AgentXRegistration.RegisterOwners | agentx++/src/agentx_master.cpp:2283-2490 | one registration on a disjoint table adds its entry to the owners of exactly the objects it reaches, at the place AgentXPriority.AddRanked and AddOfRank give it, and leaves all others' owners alone |
| AgentXRegistration.RegisterDisjoint | agentx++/src/agentx_master.cpp:2283-2490 | one registration keeps stored bounds disjoint if and only if no entry starts inside a region that has none at or below it, and the last affected entry does not reach above the region next to a gap after a non-empty one |
| AgentXUnregistration.RegisterWholeRegion | agentx++/src/agentx_master.cpp:2283-2490 | it becomes an owner of its whole region if and only if no foreign entry is in the way and no empty entry starts inside it, or, with no entry at or below it, none starts inside it |
| AgentXUnregistration.UnregisterOwners | agentx++/src/agentx_master.cpp:2106-2153 | unregistering takes the entry out of every object's owners and changes nothing else, whether or not neighbours merge, and leaves a disjoint table |
| AgentXUnregistration.RegisterUnregister | agentx++/src/agentx_master.cpp:2106-2490 | registering a new region and unregistering it restores the owners of every object |
| AgentXRuns.RunDisjoint | agentx++/src/agentx_master.cpp:2106-2490 | throughout any run of registrations and unregistrations stored bounds stay disjoint if and only if no registration of the run makes them overlap |
| AgentXRuns.RunOwners | agentx++/src/agentx_master.cpp:2106-2490 | in such a run every object always has exactly the owners the events ask for if and only if the tables grant every registration its whole region; AgentXPriority.RunActive says in which order |
| AgentXRuns.RangeOwners | agentx++/src/agentx_master.cpp:2024-2065 | a range registration that is granted adds its entry once to the owners of everything under the roots of its range and of nothing else, and taking it back restores every owner list |
| AgentXPriority.RegisterRanked | agentx++/src/agentx_master.cpp:2283-2490 | a registration keeps the owner lists of all nodes ranked, whatever the table |
| AgentXPriority.RunRanked | agentx++/src/agentx_master.cpp:2106-2490 | so does any run of registrations and unregistrations, granted or not |
| AgentXPriority.RunActive | agentx++/src/agentx_node.cpp:161 | in a run that is granted, the owners of every object are at all times its live registrations, ranked, with equal ranks in order of arrival; the first, which is asked, has the longest lower bound, among those the least priority, and is the earliest of these |
| AgentXExamples.SplitLeavesEmpty | agentx++/src/agentx_master.cpp:2330-2355 | a region ending where a node ends leaves an empty node behind |
| AgentXExamples.RefusedAtEmpty | agentx++/src/agentx_master.cpp:1996-2021 | a region starting at such a node is not registered at all |
| AgentXExamples.ProvisionalStays | agentx++/src/agentx_master.cpp:2405-2428 | a registration over two nodes can leave its provisional node reaching over the second |
| AgentXExamples.SecondRegistrationMisses | agentx++/src/agentx_master.cpp:2283-2490 | after that a second registration misses an object of its region and takes an owner from another |
| AgentXMaster.Master.GetAffectedRegs | agentx++/src/agentx_master.cpp:1996-2021 | the two cursor loops compute the affected entries, refusing foreign ones |
| AgentXMaster.Master.SplitOne | agentx++/src/agentx_master.cpp:2315-2430 | one turn of the splitting loop over the mutated nodes and the list of nodes set aside |
| AgentXMaster.Master.AddRegion | agentx++/src/agentx_master.cpp:2283-2490 | the whole routine updates the context as the registration function says, duplicate keys being refused |
| AgentXMaster.Master.AddEntry | agentx++/src/agentx_master.cpp:2024-2065 | the registration is recorded and its region registered, or each region of its range in turn |
| AgentXMaster.Master.RemoveEntry | agentx++/src/agentx_master.cpp:2106-2171 | the pass with its victims and merges updates the context as the unregistration function says, and forgets the registration |
| MibTables.CellOrder | agent++/src/mib.cpp:1656-1689 | cells are ordered column by column, then by index |
| MibTables.FindNext | agent++/src/mib.cpp:1656-1689 | with first-cell, last-row and cursor shortcuts, the search finds the least cell above the identifier, for every rectangular sorted table |
| MibTables.FindSucc | agent++/src/mib.cpp:1692-1706 | skipping closed cells gives the same cell as a full scan for the least readable one |
| MibTables.SuccUnique | agent++/src/mib.cpp:1692-1706 | there is one such cell, and the full scan finds it |
| MibSearch.NextEntrySpec | agent++/src/mib.cpp:3049-3088 | everything before the entry found is at or below the request, the entry is not an empty table, and it lies above or brings its next cell |
| MibSearch.AccessSpec | agent++/src/mib.cpp:3109-3162 | access control ends with the entry's least accessible instance above the request, or there is none |
| MibSearch.PassedMore | agent++/src/mib.cpp:3246-3263 | each refused entry brings the search strictly further, so the loop ends |
| MibSearch.GetNextLeast | agent++/src/mib.cpp:3231-3312 | on a context without a hidden leaf GETNEXT answers with the least accessible instance above the request, or endOfMibView if there is none |
| MibSearch.HiddenLeafMissed | agent++/src/mib.cpp:3140-3144 | a leaf at the upper bound of a table with rows is missed by some request |
| MibSearch.GetNextCorrect | agent++/src/mib.cpp:3231-3312 | GETNEXT is right for every request and view if and only if the context has no such leaf |
| MibServer.Mib.FindNext | agent++/src/mib.cpp:3049-3088 | the cursor loops find the entry and cell of the search function |
| MibServer.Mib.NextAccessControl | agent++/src/mib.cpp:3109-3162 | the loop over a table's cells grants or refuses as the access function does |
| MibServer.Mib.ProcessGetNext | agent++/src/mib.cpp:3231-3312 | the GETNEXT arm leaves the answer's identifier in the request, or endOfMibView and the request unchanged |
| AgentXSet.StepKeeps | agentx++/src/agentx_master.cpp:543-612 | every response, timeout or arrival keeps the bookkeeping of phases and queue and never moves the phase back |
| AgentXSet.RunForward | agentx++/src/agentx_master.cpp:543-612 | in every run the phase only moves forward |
| AgentXSet.CommitsStart | agentx++/src/agentx_master.cpp:563-575 | CommitSets are queued only from before the commit phase, with no error recorded or coming in and every TestSet answered without one |
| AgentXSet.RunTwoPhases | agentx++/src/agentx_master.cpp:543-612 | in every run a CommitSet implies that all TestSets succeeded, an UndoSet an error and no outstanding CommitSet, and cleanup after commit that all CommitSets succeeded |
| AgentXSet.UndoOnlyAfterLast | agentx++/src/agentx_master.cpp:582-607 | a failed CommitSet leads to undo if and only if it was the last one outstanding |
| AgentXSet.CommitLeftBehind | agentx++/src/agentx_master.cpp:582-607 | a run of two sessions that ends with one commit refused, the other one done and no undo |
| AgentXSetPhases.StepIssues | agentx++/src/agentx_master.cpp:543-612 | each step of an unanswered request leads to the phase its state and response call for, issues exactly one PDU of the phase's kind to each distinct session of that phase (TestSets on arrival, CommitSets when the tests end, UndoSets when the commits end in error, CleanupSets into cleanup) and nothing else, and sends every one; only the TestSets of a failed preparation are cancelled |
| AgentXSetPhases.StepQuiet | agentx++/src/agentx_master.cpp:1605-1633 | an answered request, or an invalid response, issues nothing |
| AgentXSetPhases.LastRefused | agentx++/src/agentx_master.cpp:582-607 | refusing the last outstanding CommitSet sends one UndoSet to every session of the undo phase and nothing else; the request then waits, unless there was no session, or an object finished a binding in the undo and none reported an error |
| AgentXSetPhases.UndoWaits | agentx++/src/agentx_master.cpp:600-607 | during undo the request is answered with the last response and not before |
| AgentXSetPhases.CommitsCounted | agentx++/src/agentx_master.cpp:1605-1633 | while other CommitSets are out, a confirmed one counts its bindings off, and the request is answered exactly if none is left to count or the response is an error |
| AgentXSetPhases.TestsWait | agentx++/src/agentx_master.cpp:561-581 | during the tests the request is not answered, and going to cleanup answers it |
| AgentXSetPhases.RunIssues | agentx++/src/agentx_master.cpp:543-612 | in every run each step issues and sends exactly what its phase asks for, and nothing once the request is answered |
| AgentXSet.SetRequest.ProcessSetRequest | agentx++/src/agentx_master.cpp:543-612 | the switch with its falling arms updates the request as the phase function of the model says, whose issuing law is AgentXSetPhases.StepIssues |
| AgentXSet.SetRequest.ProcessSetResponse | agentx++/src/agentx_master.cpp:1605-1633 | a response updates error, outstanding count and queue and then runs the phases: the step for which AgentXSetPhases.StepIssues and LastRefused say what is sent and when it is answered |
| AgentXIndexes.NewValueAbove | agentx++/src/agentx_index.cpp:155-194 | a new index avoids released values, and is above every allocated one if and only if such a value is left |
| AgentXIndexes.NewValueTaken | agentx++/src/agentx_index.cpp:155-194 | a new index is an allocated value if and only if no unreleased value is left above the allocated ones and the least unreleased one is allocated |
| AgentXIndexes.AnyValueFree | agentx++/src/agentx_index.cpp:196-243 | ANY_INDEX is refused exactly at the end of signed values, hands out an allocated value exactly if the first released one was allocated again or the greatest unsigned one wraps to an allocated zero, and keeps released and allocated values apart |
| AgentXIndexes.WrapsToTaken | agentx++/src/agentx_index.cpp:155-243 | an index object on which both searches offer an allocated value |
| AgentXIndexes.ExplicitApart | agentx++/src/agentx_index.cpp:94-122 | explicit allocation keeps them apart if and only if it avoids the released values |
| AgentXIndexes.AnyAfterExplicit | agentx++/src/agentx_index.cpp:196-243 | otherwise ANY_INDEX hands out an allocated value |
| AgentXIndexes.ReleaseApart | agentx++/src/agentx_index.cpp:135-152 | a session releases a value exactly if it holds it; then that entry goes, its value joins the released ones, and nothing else changes |
| AgentXIndexRequests.ExplicitAnswers | agentx++/src/agentx_index.cpp:94-122 | an explicit value is accepted exactly if the object is missing, or has the same syntax and no session holds the value, which is not negative; the other cases get the wrong type or an allocated value as refusal |
| AgentXIndexRequests.CommitAllEntries | agentx++/src/agentx_master.cpp:1305-1322 | after any commit pass, repeated objects and values included, an object holds its old entries except those of named values, and the session's entries for the named values |
| AgentXIndexRequests.CommitAllExact | agentx++/src/agentx_master.cpp:1305-1322 | a commit pass adds one new entry for each binding, loses none and adds no other if and only if the bindings differ and all their values are free |
| AgentXIndexRequests.AllocateExact | agentx++/src/agentx_master.cpp:1291-1322 | an accepted request does so if and only if no binding is an explicit negative value for a missing object or gets an allocated value, and no two ask for the same entry |
| AgentXIndexRequests.CommitAllOther | agentx++/src/agentx_master.cpp:1305-1322 | an object that no binding names is left alone |
| AgentXIndexRequests.OtherSessionLoses | agentx++/src/agentx_master.cpp:1291-1322 | a request after which another session has lost its entry |
| AgentXIndexRequests.NegativeExplicit | agentx++/src/agentx_index.cpp:284-298 | a negative explicit value for a missing object is accepted and allocates nothing |
| AgentXIndexRequests.AnyTwice | agentx++/src/agentx_index.cpp:196-243 | a request with two ANY_INDEX bindings for one object that allocates one value and loses a released one |
| AgentXIndexRequests.AllocateSound | agentx++/src/agentx_master.cpp:1255-1332 | an accepted request with well-typed bindings keeps every object's values ordered and within its syntax |
| AgentXIndexRequests.AllocateDeallocate | agentx++/src/agentx_master.cpp:1255-1388 | giving back what a request has added is accepted and restores the entries of every object |
| AgentXIndexRequests.IndexDatabase.NextNew | agentx++/src/agentx_index.cpp:155-170 | the search loop finds the value that the request gets |
| AgentXIndexRequests.IndexDatabase.ProcessAllocate | agentx++/src/agentx_master.cpp:1255-1332 | a request that fails the test pass changes nothing and reports the first failing binding; otherwise the tested bindings are committed, and they are exactly the entries added unless a binding fails or two of them clash |
| AgentXIndexRequests.IndexDatabase.ProcessDeallocate | agentx++/src/agentx_master.cpp:1334-1388 | a request is accepted exactly if each value it names is an entry of the session at that object; then exactly those entries go, otherwise nothing changes, the status is that nothing is allocated, and the first other binding is reported, counted from zero |
| DesRounds.PermOpInvolution | libdes/des_locl.h:483-485 | with the shifts and masks in use the bit exchange undoes itself |
| DesRounds.FinalAfterInitial | libdes/des_locl.h:487-505 | the final permutation inverts the initial one, halves exchanged |
| DesRounds.RotateCancels | libdes/des_locl.h:257-261 | the rotations before and after the rounds cancel |
| DesRounds.RoundsUndo | libdes/des_locl.h:431-442 | rounds in reverse order on exchanged halves undo them, for every table and schedule |
| DesRounds.CryptInverse | libdes/des_enc.c:61-160 | decryption inverts encryption and encryption decryption, for every block, schedule and table |
| DesBits.SumBit | libdes/des_locl.h:483-485 | bit for bit, a sum of words is the exclusive or |
| DesStandard.InitialBits | libdes/des_locl.h:487-495 | the initial permutation on words is the table IP on bits, the second word holding the first half |
| DesStandard.FinalBits | libdes/des_locl.h:497-505 | the final permutation on words is the inverse table |
| DesStandard.ExpandedBit | libdes/des_enc.c:87-93 | through the rotation by three, bit j of the expansion E lies in the word where the subkey word has its own bit for it |
| DesStandard.SaltedSelects | libdes/des_locl.h:268-275 | a set salt bit exchanges the two expanded bits that lie 16 apart in their word, before the subkey bit is added |
| DesStandard.SaltExchanges | libdes/fcrypt.c:243-311 | with salt words whose upper halves are clear the salt is an exchange of such pairs and nothing else |
| DesStandard.SelectingBit | libdes/des_locl.h:268-281 | bit j of the 48 that enter the S-boxes, expanded, salted and keyed, is found at its position in the first selecting word for even boxes and in the second for odd ones |
| DesStandard.RoundBits | libdes/des_locl.h:431-442 | what a round adds is the function f of the standard: the eight boxes on six bits each, with the right row and index for every box |
| DesStandard.CryptStandard | libdes/des_enc.c:61-160 | des_encrypt computes the cipher of the standard, for every block, schedule, table, salt and direction |
| DesStandard.SameBlock | libdes/des_enc.c:61-160 | blocks with the same bits are the same, so that this determines the words |
| DesBlock.RoundLoop | libdes/des_enc.c:112-149 | the loop of four rounds a turn runs the sixteen rounds in either order |
| DesBlock.Unrolled | libdes/des_enc.c:95-140 | the unrolled form runs the same sixteen rounds |
| DesBlock.DesEncrypt | libdes/des_enc.c:61-160 | the routine overwrites its two words with the block transformation, whose bits are those of the standard |
| DesBlock.DesEncrypt2 | libdes/des_enc.c:162-254 | the same without the permutations |
| DesBlock.DesEncrypt3 | libdes/des_enc.c:256-277 | triple encryption of the two words, with the bits of the standard applied three times |
| DesBlock.DesDecrypt3 | libdes/des_enc.c:279-300 | triple decryption of the two words, likewise |
| DesBlock.TripleInverse | libdes/des_enc.c:256-300 | triple decryption inverts triple encryption, and the other way round, for any three schedules |
| DesBlock.TripleByOnes | libdes/des_enc.c:256-300 | triple encryption is single encryption, decryption and encryption with the first, second and third schedule in this order, and triple decryption the reverse |
| DesBlock.TripleStandard | libdes/des_enc.c:256-300 | the same in terms of the standard |
| DesBlock.TripleOfOne | libdes/des_enc.c:256-300 | with three equal schedules triple DES is single DES, in both directions |
| DesBlock.InnerIsIterated | libdes/fcrypt.c:265-310 | without permutations between them, the 25 inner runs equal 25 full block encryptions of the zero block |
| DesBlock.FcryptBody | libdes/fcrypt.c:243-311 | the loop's result is that of 25 full salted encryptions of zero, on words and as bits of the standard |
| DesBlock.NoSaltIterated | libdes/des_locl.h:266-281 | with both salt words zero this is plain DES iterated |
| DesChaining.StoreLoad | libdes/des_locl.h:202-256 | packing up to eight bytes into words and unpacking them gives the bytes back |
| DesBytes.WordValue | libdes/des_locl.h:202-205 | a word takes its bytes least significant first, as a number |
| DesBytes.LoadBits | libdes/des_locl.h:202-221 | the bits of a loaded block are those of its bytes in order, the most significant bit of each byte first |
| DesChaining.CbcRoundTrip | libdes/ncbc_enc.c:80-137 | CBC decryption undoes encryption for every length, key and chaining block, and both leave the same chaining block |
| DesChaining.CbcEncryptSplit | libdes/ncbc_enc.c:80-106 | two encryptions cut at a multiple of eight, chaining block carried, equal one |
| DesChaining.CbcDecryptSplit | libdes/ncbc_enc.c:107-137 | the same for decryption |
| DesBytes.EncryptChains | libdes/ncbc_enc.c:80-106 | each ciphertext block is the cipher of the plaintext bytes, filled up with zeros, each xored with the byte of the block before or of the initial vector; the last one is left to go on with |
| DesBytes.DecryptChains | libdes/ncbc_enc.c:107-137 | each plaintext block, a short last one included, xored bytewise with the ciphertext block before, is what the cipher makes of the ciphertext block |
| DesStreams.EncryptStream | libdes/ncbc_enc.c:80-106 | the buffer loop writes the CBC encryption of the bytes that were in the input, in place or not, and nothing beyond |
| DesStreams.DecryptStream | libdes/ncbc_enc.c:107-137 | the buffer loop writes exactly as many decrypted bytes as asked for, in place or not |
| DesStreams.NcbcEncrypt | libdes/ncbc_enc.c:61-140 | both directions leave in the buffer the chain of the standard over the bytes that were there, and the last ciphertext block in the chaining block |
| DesStreams.Ede3CbcEncrypt | libdes/ede_enc.c:61-175 | the same with three schedules |
| DesStreams.CbcEncryptBytes | libdes/cbc_enc.c:61-134 | the same chain without writing the chaining block back |
| VacmAccess.SameRank | agent++/src/vacm.cpp:436-505 | two matching rows of equal rank have the same index |
| VacmAccess.ReplacesHigher | agent++/src/vacm.cpp:477-503 | the nested comparison replaces the best row exactly by one of higher rank |
| VacmAccess.GetViewName | agent++/src/vacm.cpp:401-527 | the view of the unique active matching row of highest rank, although the scan starts at the looked-up row |
| VacmAccess.OrderIndependent | agent++/src/vacm.cpp:401-527 | the deciding row does not depend on the order of the scan |
| ThreadPools.StepConserves | agent++/src/threads.cpp:826-900 | every step keeps each accepted task in exactly one place: queued, handed on, in a slot, finished or discarded |
| ThreadPools.StepWakes | agent++/src/threads.cpp:826-867 | a sleeping worker has been notified in its sleep exactly if its slot is filled |
| ThreadPools.RunKeeps | agent++/src/threads.cpp:979-1034 | in every interleaving these invariants hold, and at most one thread scans under the pool's lock |
| ThreadPools.RunAtMostOnce | agent++/src/threads.cpp:826-1034 | in every run a task is in exactly one place and is started at most once |
| ThreadPoolOrder.FirstInFirstOut | agent++/src/threads.cpp:1000-1026 | in every run the tasks taken up from the queue, followed by those that wait there, are the queued ones in their order |
| ThreadPoolOrder.PassesOnlyBusy | agent++/src/threads.cpp:872-900 | in every run a caller has found each worker that its scan has passed with a task, at some time since the scan began |
| ThreadPoolOrder.QueuedWhenAllBusy | agent++/src/threads.cpp:979-1005 | a task is queued only after all workers were found busy in this way |
| ThreadPoolOrder.WaitsWhenAllBusy | agent++/src/threads.cpp:872-900 | so it is before a caller of the pool without a queue waits |

## Left out

- Keys, bounds and entries are values: pointer identity of stored keys and of entries is not modelled; a reference parameter that is reassigned becomes a returned value.
- The statics of the AVL map are fields of one map object; sharing them between maps or threads is not modelled.
- AVL destruction (`_kill`) and freeing of memory: a node that leaves the map is only reported.
- AgentXMaster.Master.AddEntry: a range varies a sub-identifier that both bounds have, and neither its last value nor the last sub-identifier of its lower bound is the greatest one, for which the program's loop would not end or a root would have no next peer.
- AgentXUnregistration.UnregisterOwners: the test whether a region covers the joint of two nodes is an arbitrary parameter, and so is the answer to whether two nodes with equal registrations hold the same object, which the program compares and nodes hold copies of.
- AgentXRegistration.RegisterOwners: is stated for one context that exists; creating a context on demand and several contexts side by side are not modelled.
- AgentXRuns.RunOwners: is stated for runs that keep stored bounds disjoint, on one context; from tables with overlapping bounds a registration can miss objects or take owners away, as shown above.
- Session and peer bookkeeping; GETBULK range optimisation.
- MibSearch.GetNextCorrect: the context holds leaves and tables; AgentX nodes, proxies and other complex entries, whose instances are known only later, are not entries of the model, and table contents do not change during the search.
- MibSearch.GetNextLeast: a table's last sub-identifier is below its maximum, so that its upper bound does not wrap; the requested view exists, so access control answers in view or not in view.
- GET, GETBULK and SET on local objects, row creation, voting, `find_prev`, and the view-tree lookup of VACM.
- AgentXSet.RunTwoPhases: what MIB objects do in a phase is a parameter of the step, as is the time of responses and timeouts; a session that closes while its PDU is queued, and liveness, are not modelled.
- AgentXIndexRequests.IndexDatabase.ProcessAllocate: index objects have 32-bit integer syntax, with `long` of 32 bits, and unsigned syntaxes are one; string and OID indexes, and the removal of a closed session's values, are not modelled.
- AgentXIndexRequests.IndexDatabase.ProcessDeallocate: the values named are not negative; for a negative one the program looks up a null identifier.
- AgentXIndexes.NewValueAbove: assumes that not all 32-bit values are among the released ones, in which case the search loop would not end.
- AgentXIndexes.NewValueTaken: assumes the same.
- The DES key schedule and S-box contents, with the permutation P that the tables include: every result holds for all of them. Salt and password handling around the crypt(3) loop, and its output alphabet.
- DesStreams.NcbcEncrypt: lengths are not negative, and input and output are the same buffer or different ones; partially overlapping buffers are not modelled.
- ThreadPools.RunAtMostOnce: a task that runs does not hand on tasks of its own; destruction of the pool and the platform's mutexes are not modelled, and a waiting worker may wake at any time.
- Encoding and decoding of messages, sockets, files, logging, counters, notifications, proxying, user management, the lock queue: input and output, or only easy members.
