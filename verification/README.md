# Nearest-server routing, proxy pool and DNS messages

This project models three parts of a video delivery system and proves what they keep.

* **Routing** (`ospf.c`, `genlsa.py`, `dijkstra.py`). A name server reads its server list
  and a lossy log of link-state announcements, keeps the newest announcement of every node
  in linked lists of pointers, and searches the nearest server of every client breadth
  first, stopping at the first server. `LinkedCells`, `MyQueue` and `Router` are the heap
  code; `LsaDatabase`, `NearestServer` and `Routing` say the same on names and carry the
  theorems, `WalkOrder` which of several nearest nodes a breadth-first search takes;
  `Generator` produces the logs, `Dijkstra` and `BestServer` are the independent router.
  `EndToEnd` goes from the link file to the route, `RoutersAgree` compares the two routers.
* **Proxy pool** (`pool.c`, `connection.c`, `proxy.c`). Slot tables with cross indices,
  reference counts, high-water marks and descriptor sets. `PoolSpec` has the tables as a
  value and their invariant, `ProxyRuns` the event handlers as steps that can crash,
  `ProxyLimits` and `ProxyCrashes` exactly which runs do, `ProxyEffects` the exact effect of
  those that do not, `Pool` the heap class that refines all this, `Rates` and `ProxyRates`
  the moving average and the bitrate choice.
* **DNS messages** (`mydns.c`, `nameserver.c`, `dns_common.py`). Two writers, two readers
  and two answer forms over byte buffers: `DnsNames`, `DnsC`, `DnsPython`, `DnsTheorems`.

`NameService` puts routing and messages together: one request served, a whole session on
the heap, and the whole chain from the link file to the address the client's resolver
returns.

Every method that changes the heap is specified by a function on values (`db`, `table`,
`View()`, `Contents()`), and the theorems are about those functions. Randomness is an
arbitrary loss oracle, dictionary order is arbitrary, descriptors and addresses are
inputs, throughput is real-valued.

## Where code and intention differ

The proofs follow the code. Where an intended property is false, the exact condition is
proved.

* Distances from the heard nodes survive the silence of the others iff these are
  dispensable (`EndToEnd.DistancesSurviveIff`). If only the sink is silent that is a
  condition on its neighbours (`EndToEnd.DistancesSurviveSinkIff`, with failing input
  `EndToEnd.IndispensableSinkStopsServer`). The harness's router restores some lists, which
  has its own exact conditions (`RoutersAgree.HarnessSeesNetworkIff`,
  `RoutersAgree.GeneratedDistancesAgreeIff`).
* A round is not in the order of distance if the sink lists a self link late
  (`Generator.RoundByDistanceIff`, with failing input `Generator.LateSelfLink`).
* The order of the log's lines matters iff two latest lines of one sender call for
  different lists (`LsaDatabase.OrderIrrelevantIff`, with failing input
  `Routing.OrderMattersWhenInconsistent`).
* One client without a reachable server stops the whole name server
  (`Routing.ReadyIffAllClientsReach`).
* `query_count` breaks the cycle when it wraps (`Routing.RoundRobinAdvances`, with failing
  input `Routing.TwiceAtWrap`).
* `getBestServer` names a nearest server iff all can be reached
  (`BestServer.ArgMinIsNearestIffAllReachable`, with failing input
  `BestServer.UnreachableServerWins`).
* It compares sequence numbers as text and keeps the same records as the C router on all
  logs with rounds below n iff n is at most 10 (`RoutersAgree.TextOrderKeepsRecordsIff`);
  on generated logs, whose senders never change their lists, this does no harm
  (`RoutersAgree.HarnessSeesNetwork`).
* The bitrate fallback may be a rate nobody lists (`Rates.ChoiceIsListedIff`, with
  failing input `Rates.UnlistedRateChosen`).
* The guard in the accept step never refuses a client
  (`ProxyRuns.AdmissionGuardIsVacuous`).
* The proxy reads throughput entry -1 iff it needs the entry of a pair of addresses that
  has none (`ProxyLimits.StepCrashesIff`). Such pairs arise iff a list connection is reopened
  at an address unknown for its client (failing input `ProxyCrashes.RunIntoCrash`) or a new
  pair meets a full throughput table, whose entries are never given up (failing input
  `ProxyCrashes.OneTooMany`). With a fixed server address the proxy is therefore safe for
  exactly as many client addresses as there are entries
  (`ProxyCrashes.FixedAddressSafeIffFewClients`).
* The name server's error reply carries no error (`DnsC.ErrorReplyEchoesQuery`).
* The Python writer's flag and answer count stay raised after the first answer
  (`DnsTheorems.QueryAfterRun`); the C resolver rejects all Python answers
  (`DnsTheorems.ResolverRejectsPythonAnswers`); the time to live is put together with the
  wrong shift (`DnsTheorems.TimeToLive`).

## Model

| member | source | states |
|---|---|---|
| LinkedCells.Last | handin/src/ospf.c:35-44 | the last cell of the list, or null for the empty one |
| LinkedCells.Append | handin/src/ospf.c:46-71 | one fresh cell behind the old last one; every other cell unchanged, prev still inverts next, no cell twice; the head stays unless the list was empty |
| LinkedCells.GetData | handin/src/ospf.c:74-80 | the n-th datum, nothing past the end |
| LinkedCells.Find | handin/src/ospf.c:82-92 | the first cell holding this very pointer, and null iff there is none |
| LinkedCells.FindCustom | handin/src/ospf.c:94-105 | the first accepted cell: none before it is accepted, and null only past the end |
| LinkedCells.Length | handin/src/ospf.c:108-118 | the number of cells |
| LinkedCells.Free | handin/src/ospf.c:131-138 | every cell of the list is released and nothing else changes |
| LinkedCells.ChainIsUnique | handin/src/ospf.c:35-44 | the cells of a list are determined by its head |
| MyQueue.Queue.constructor | handin/src/ospf.c:150-153 | a new queue is empty |
| MyQueue.Queue.IsEmpty | handin/src/ospf.c:156-159 | decides emptiness of the contents |
| MyQueue.Queue.PushTail | handin/src/ospf.c:163-173 | contents become old contents + [data], through the append on the tail segment; head, tail, prev and length stay consistent |
| MyQueue.Queue.PopHead | handin/src/ospf.c:175-196 | returns and removes the first element and releases its cell; nothing happens on an empty queue |
| Graphs.WithinIffWalk | handin/src/ospf.c:284-307 | the distance notion used throughout is the existence of an explicit walk of at most that many hops |
| LsaDatabase.NewestWins | handin/src/ospf.c:357-386 | after any log, a node stores the largest non-negative sequence number heard from it (or -1), with the de-duplicated neighbours of the first line that carried it |
| LsaDatabase.NewestIsUnique | handin/src/ospf.c:373-386 | that description leaves no freedom |
| LsaDatabase.DedupKeepsFirsts | handin/src/ospf.c:379-385 | a stored list has exactly the announced names, once each, in order of first occurrence |
| LsaDatabase.AddLsaRec | handin/src/ospf.c:361-385 | one line changes only its sender's record, and only if its number is larger |
| LsaDatabase.BootedNode | handin/src/ospf.c:320-389 | clients are exactly the announcing nodes that are neither servers nor routers; servers are as listed |
| LsaDatabase.ClientsIff | handin/src/ospf.c:364-371 | an announcing node is a client iff it is no server and its name does not begin with the six letters of router |
| LsaDatabase.ClientsInOrder | handin/src/ospf.c:364-371 | each of them is a client once, in the order of their first lines |
| LsaDatabase.ConsistentIsSettled | handin/src/ospf.c:373-386 | if equal sender and number mean equal lists, the latest lines of each sender agree |
| LsaDatabase.BootIgnoresOrder | handin/src/ospf.c:357-386 | if the latest lines of each sender agree, permuting or repeating lines leaves every neighbour list and the set of clients unchanged |
| LsaDatabase.OrderIrrelevantIff | handin/src/ospf.c:373-386 | every log with the same lines gives the same neighbour lists iff the latest lines of each sender agree |
| LsaDatabase.ServersInOrder | handin/src/ospf.c:320-338 | after the server list the node table holds each server once, in order of first occurrence |
| Router.PointerIsName | handin/src/ospf.c:82-92 | two pointers into the node table are equal iff the names behind them are |
| Router.MembershipIsByName | handin/src/ospf.c:364-369 | so searching a pointer list for a pointer decides membership by name |
| Router.Ospf.AddNewNode | handin/src/ospf.c:392-407 | returns the table cell of the name, which is added at the end iff it was unknown; the table only grows |
| Router.Ospf.AddNewNeighbor | handin/src/ospf.c:409-419 | the neighbour is appended to this node's list iff it is not in it; no other list changes |
| Router.Ospf.ClearNode | handin/src/ospf.c:373-377 | the old neighbour cells are released, the number is stored; lists of other nodes share no cell with the released ones |
| Router.Ospf.ParseServs | handin/src/ospf.c:320-338 | the heap state represents the database after adding the servers in order |
| Router.Ospf.NoteClient | handin/src/ospf.c:364-371 | a sender becomes a client iff it is no server, no router and no client yet |
| Router.Ospf.AddLine | handin/src/ospf.c:359-385 | the heap state represents the database after one more announcement, in place |
| Router.Ospf.ParseLsa | handin/src/ospf.c:341-389 | the heap state represents the fold of the whole log |
| Router.Ospf.UnmarkAll | handin/src/ospf.c:313-317 | no node of the table stays marked |
| Router.Ospf.LookAt | handin/src/ospf.c:290-305 | one look at the neighbour under the cursor: marked, a server, or queued and marked |
| Router.Ospf.ScanNeighbours | handin/src/ospf.c:287-306 | the neighbour loop keeps the search outcome unchanged, terminates although the cursor stays put on a push, and stops at the first unmarked server |
| Router.Ospf.Search | handin/src/ospf.c:273-310 | the search over marks and queue finds exactly the server that the name-level search chooses, and fails exactly where that one fails |
| Router.Ospf.CalcSp | handin/src/ospf.c:269-310 | one more routing table entry, for this client, with that server; false exactly where the assertion fails |
| Router.Ospf.OspfInit | handin/src/ospf.c:213-223 | from the empty state: the database of servers and log, and, unless some client reaches no server, a routing table with every client's server |
| Router.Ospf.Route | handin/src/ospf.c:226-244 | the first table entry of the client, or in round-robin mode the node at the counter modulo the table size; the only other effect is the counter |
| NearestServer.VisitStep | handin/src/ospf.c:288-306 | the three ways of the neighbour loop, and the decreasing set of unmarked nodes behind its termination |
| NearestServer.VisitCorrect | handin/src/ospf.c:284-307 | from every state in which queued distances are sorted with spread at most one and marked means discovered, the search goes on to a correct outcome |
| NearestServer.ChooseIsNearest | handin/src/ospf.c:269-310 | early exit is optimal: for every graph, server set and client the stored server is a nearest one other than the client itself |
| NearestServer.ChooseFailsIffUnreachable | handin/src/ospf.c:308-309 | the final assertion fails iff no other server can be reached |
| NearestServer.ChooseEndsLeastWalk | handin/src/ospf.c:284-307 | of several nearest servers the one stored ends the least walk: the shortest, and of the shortest the one whose steps come earliest in the neighbour lists, compared step by step |
| NearestServer.ChooseIsDetermined | handin/src/ospf.c:284-307 | which leaves no freedom: whatever server ends a least walk is the one stored |
| NearestServer.FirstListedServer | handin/src/ospf.c:287-304 | a client that lists servers itself gets the first one it lists |
| WalkOrder.LeastIsUnique | handin/src/ospf.c:284-307 | the least walk to any of a set of goals is unique, and so is the goal |
| WalkOrder.NextIsLeast | handin/src/ospf.c:287-306 | the next unmarked neighbour is reached by a walk that precedes every walk to any unmarked node |
| NearestServer.VisitDependsOnOut | handin/src/ospf.c:287-306 | the outcome depends on neighbour lists only, not on table order |
| Routing.LookupFindsRoute | handin/src/ospf.c:239-241 | the lookup yields the entry computed for this client, for every client |
| Routing.RouteIsNearest | handin/src/ospf.c:226-244 | for every log, each client is sent to a nearest server in the graph of newest announcements |
| Routing.RouteEndsLeastWalk | handin/src/ospf.c:226-244 | and of the nearest ones to that at the end of the least walk through the newest neighbour lists |
| Routing.RouteIsFirstListed | handin/src/ospf.c:226-244 | so a client that announces servers itself is sent to the first one in its newest list |
| Routing.ReadyIffAllClientsReach | handin/src/ospf.c:213-223 | start-up survives iff every client reaches some server |
| Routing.RouteIgnoresOrder | handin/src/ospf.c:357-386 | if the latest lines of each sender agree, permuting or repeating lines changes no answer |
| Routing.ReadyIgnoresOrder | handin/src/ospf.c:357-386 | nor whether start-up survives |
| Routing.OrderMattersWhenInconsistent | handin/src/ospf.c:373-386 | an input that fails the condition: two lists under one number, and swapping the two lines changes an answer |
| Routing.InconsistentButSettled | handin/src/ospf.c:373-386 | two lists under one number do no harm when a later line settles the matter |
| Routing.RoundRobinAdvances | handin/src/ospf.c:229-236 | each server occurs once in the table, and the server of the next query is the cyclically next one iff the 32-bit counter does not wrap or the table size divides 2^32 |
| Routing.RoundRobinIsFair | handin/src/ospf.c:229-236 | as long as the counter does not wrap, k times as many consecutive queries as servers give each server exactly k of them |
| Routing.TwiceAtWrap | handin/src/ospf.c:231-234 | an input that fails: with three servers the wrap sends two queries in a row to the same one |
| Dijkstra.Closest | handout/cp2_tests/grading/dns/dijkstra.py:15-20 | the scan always finds an unvisited element, at minimum distance, so the removal cannot fail |
| Dijkstra.RelaxOne | handout/cp2_tests/grading/dns/dijkstra.py:24-29 | a neighbour is discovered at most once; a distance once recorded never changes |
| Dijkstra.RelaxNeighbours | handout/cp2_tests/grading/dns/dijkstra.py:24-29 | after the loop the node has handed its distance on, and the list is duplicate-free, unvisited and of spread at most one |
| Dijkstra.Dijkstra | handout/cp2_tests/grading/dns/dijkstra.py:6-30 | the keys of the result are the reachable nodes, the values their minimum hop counts |
| Dijkstra.RemoveFirstDrops | handout/cp2_tests/grading/dns/dijkstra.py:21 | removing an element of a duplicate-free list removes it altogether |
| BestServer.CollectNodes | handout/cp2_tests/grading/dns/dijkstra.py:42-51 | NODES holds the announcing nodes and everything they list |
| BestServer.LexLessIsTextOrder | handout/cp2_tests/grading/dns/dijkstra.py:39 | numbers are compared as text: the first is below iff at the first place where they differ it has ended or has the smaller character |
| BestServer.StatusIsFirstHighest | handout/cp2_tests/grading/dns/dijkstra.py:33-40 | for texts of any width, each sender keeps the first of its lines whose text is not below that of any other |
| BestServer.FillOne | handout/cp2_tests/grading/dns/dijkstra.py:53-57 | a silent node gets exactly the nodes that list it |
| BestServer.Backfill | handout/cp2_tests/grading/dns/dijkstra.py:53-57 | whatever the dictionary order: announced lists are kept, each silent node gets its listers, as a set, and no other node gets a list |
| BestServer.PickServer | handout/cp2_tests/grading/dns/dijkstra.py:67-73 | the first server with the smallest recorded distance, -1 standing for unreachable, among those from the last index at which an empty name made the choice start over |
| BestServer.PickedIsUnique | handout/cp2_tests/grading/dns/dijkstra.py:67-73 | which determines that index and the choice |
| BestServer.GetBestServer | handout/cp2_tests/grading/dns/dijkstra.py:32-76 | the choice over the completed newest announcements; there is none only for an empty server list; with no empty server name it is the first of all with the smallest distance |
| BestServer.ArgMinIsNearestIffAllReachable | handout/cp2_tests/grading/dns/dijkstra.py:67-73 | the choice is a nearest server iff every server can be reached, because -1 beats every distance |
| BestServer.UnreachableServerWins | handout/cp2_tests/grading/dns/dijkstra.py:67-73 | an input that fails the condition: with one reachable and one unreachable server the choice is the latter |
| Generator.ReadLinks | lsa/genlsa.py:11-27 | the dictionary built from the lines is the fold of them |
| Generator.LinksMultiplicity | lsa/genlsa.py:11-27 | a name occurs in another's list once for every line linking the two in either direction |
| Generator.LinksSymmetric | lsa/genlsa.py:24-25 | adjacency is symmetric |
| Generator.LinksClosed | lsa/genlsa.py:18-21 | every listed node has a list of its own, so no lookup fails |
| Generator.GenerateLsas | lsa/genlsa.py:39-54 | one round prints, of the sweep order, what the loss oracle spares |
| Generator.GenerateLog | lsa/genlsa.py:57-61 | the log is the concatenation of the rounds |
| Generator.RoundInLog | lsa/genlsa.py:57-61 | round r stands in the log behind the earlier rounds, which have smaller numbers, and before the later ones, which have larger ones |
| Generator.KeptInOrder | lsa/genlsa.py:52-54 | a round prints its announcements in its order, leaving out exactly the lost ones |
| Generator.RoundCoverage | lsa/genlsa.py:39-54 | without loss: a neighbour of the sink as often as the sink lists it, every other reachable node but the sink once, nothing else |
| Generator.RoundInWalkOrder | lsa/genlsa.py:39-50 | a round begins with the sink's links as listed and goes through all other nodes in the order of their least walks: by distance, then by the steps' positions in the link lists |
| Generator.RoundByDistanceIff | lsa/genlsa.py:39-50 | a round goes through the nodes in non-decreasing hop distance from the sink iff no self link of the sink is listed behind another link of it |
| Generator.LateSelfLink | lsa/genlsa.py:39-50 | a link list that fails: the self link comes second |
| Generator.LogLines | lsa/genlsa.py:52-61 | whatever is lost, every line repeats its sender's link list under its round number |
| Generator.SparedOnceIsHeard | lsa/genlsa.py:52-61 | every node of a round is heard if each announcement is spared in some round |
| Generator.LogConsistent | lsa/genlsa.py:57-61 | equal sender and number mean equal lists |
| EndToEnd.RouterSeesHeardLinks | handin/src/ospf.c:341-389 | whatever is lost, the router's graph is the network with the lists of unheard nodes blanked |
| EndToEnd.OnlySinkIsSilent | lsa/genlsa.py:39-42 | if all nodes of a round are heard, the sink is the only node whose silence can matter, and it does not matter iff it announces itself or its neighbours are joined without it |
| EndToEnd.DistancesSurviveIff | lsa/genlsa.py:39-61 | for every link graph and every loss pattern: all distances from heard nodes survive generator and router iff whatever two nodes a silent node joins, the first of them heard, are linked around it |
| EndToEnd.DistancesSurviveSinkIff | lsa/genlsa.py:39-61 | for losses that spare each node once that is the sink being dispensable |
| EndToEnd.SingleLinkSinkDispensable | lsa/genlsa.py:39-42 | a sink with a single link is dispensable |
| EndToEnd.RouteIsNearestInNetwork | handin/src/ospf.c:213-244 | under that condition on the silent nodes, whatever is lost, every client's route is a nearest server of the original network, or none can be reached in it |
| EndToEnd.StartsWhenServerConnected | handin/src/ospf.c:213-223 | and start-up survives as soon as one server is connected to the sink |
| EndToEnd.IndispensableSinkStopsServer | lsa/genlsa.py:39-61 | an input that fails the condition: a sink between a client and a server, no losses, and start-up fails although the client reaches the server |
| RoutersAgree.TextRoundTrip | handin/src/ospf.c:359 | reading the printed number gives it back |
| RoutersAgree.EqualWidthIsNumeric | handout/cp2_tests/grading/dns/dijkstra.py:39 | comparing digit strings of equal width as text is comparing their values |
| RoutersAgree.RoundsInTextOrderIff | handout/cp2_tests/grading/dns/dijkstra.py:39 | rounds 0 to n-1 are in text order iff n <= 10 |
| RoutersAgree.TextOrderKeepsRecordsIff | handout/cp2_tests/grading/dns/dijkstra.py:39 | on all logs with rounds below n both databases keep the same announcement of every node, iff n <= 10 |
| RoutersAgree.TenLosesToNine | handout/cp2_tests/grading/dns/dijkstra.py:39 | an input that fails: after rounds 9 and 10 the text comparison keeps round 9 |
| RoutersAgree.NumericIsPrinted | handin/src/ospf.c:359 | the C router reads back the generated log from its text |
| RoutersAgree.SameRecords | handout/cp2_tests/grading/dns/dijkstra.py:33-40 | with numbers of equal width both databases keep the same announcement of every node |
| RoutersAgree.RouterIsMutedHarness | handout/cp2_tests/grading/dns/dijkstra.py:42-57 | the router's graph is the completed one without the silent nodes' lists |
| RoutersAgree.DistancesAgreeIff | handout/cp2_tests/grading/dns/dijkstra.py:53-57 | completing the silent nodes changes no distance from an announcing node iff any two nodes listing the same silent node are within two hops anyway |
| RoutersAgree.OneListerIsBypassed | handout/cp2_tests/grading/dns/dijkstra.py:53-57 | in particular if each silent node is listed by at most one sender |
| RoutersAgree.RoutersPickEqualDistance | handout/cp2_tests/grading/dns/dijkstra.py:32-76 | then search and Dijkstra pick servers at the same hop distance |
| RoutersAgree.HarnessSeesNetworkIff | handout/cp2_tests/grading/dns/dijkstra.py:53-57 | on generated logs, whatever is lost, the completed graph has the network's own distances from the heard nodes iff each silent node two links away from a heard one, behind a silent one, is linked around that |
| RoutersAgree.HarnessSeesNetwork | handout/cp2_tests/grading/dns/dijkstra.py:53-57 | in particular, for every sink, if each node was heard once |
| RoutersAgree.GeneratedDistancesAgreeIff | handout/cp2_tests/grading/dns/dijkstra.py:32-76 | whatever is lost, the two routers measure the same distances from the heard nodes iff any two heard nodes joined by a silent one are linked around it |
| RoutersAgree.GeneratedDistancesAgreeSinkIff | handout/cp2_tests/grading/dns/dijkstra.py:32-76 | if each node was heard once, that is the sink being dispensable |
| RoutersAgree.BothRoutersAreRight | handout/cp2_tests/grading/dns/dijkstra.py:32-76 | on generated logs: if the completed graph has the network's distances the harness names a nearest server iff the client reaches all servers; if the router's graph has them the C router does as soon as some server is reachable |
| Slots.ScanIsComplete | handin/src/connection.c:13-49 | a scan bounded by the high-water mark finds the first match of the whole table, and -1 iff there is none |
| Slots.LiveFillsTable | handin/src/pool.c:142-143 | a table has as many live entries as slots iff no slot is free |
| PoolSpec.InitInv | handin/src/pool.c:8-44 | the initial tables satisfy the invariant |
| PoolSpec.InitIsEmpty | handin/src/pool.c:8-44 | at start-up all tables are empty, all marks -1, and only the listener is watched |
| PoolSpec.AddClientInv | handin/src/pool.c:136-166 | a new client keeps exact counts, marks and descriptor sets |
| PoolSpec.RoomForConn | handin/src/connection.c:58-62 | room for a server is room for its connection, so the early increment of the counts is never wrong |
| PoolSpec.OpenConnInv | handin/src/proxy.c:265-272 | opening a connection keeps: exact reference counts, no dangling index, one connection per server, exact descriptor sets |
| PoolSpec.CloseConnShape | handin/src/connection.c:104-127 | closing removes the connection and its server, and the client iff this was its last connection; nothing else |
| PoolSpec.CloseConnInv | handin/src/connection.c:104-127 | closing keeps the invariant, so a reused slot is never seen through an old connection |
| PoolSpec.GetThruFinds | handin/src/connection.c:157-171 | the bounded lookup finds the pair's entry iff there is one |
| PoolSpec.AddThruInv | handin/src/connection.c:173-196 | adding an entry for a new pair keeps pairs unique |
| ProxyRuns.ServerLookup | handin/src/proxy.c:411-421 | a live server's only connection is found: the no-connection branch cannot be taken |
| ProxyRuns.ClientLookup | handin/src/connection.c:13-31 | a client's connection to an address is found iff it has one |
| ProxyRuns.ThruLookup | handin/src/proxy.c:514-515 | the throughput entry of a live connection is found iff its pair of addresses is known |
| ProxyRuns.AdmissionGuardIsVacuous | handin/src/proxy.c:128-129 | the guard of the accept step is always true |
| ProxyRuns.RequestKeeps | handin/src/proxy.c:203-389 | a client's request, with good or bad headers, on an old or a new connection, at any address, crashes iff it needs a slot of a full table; otherwise the invariant is kept, and all pairs stay known iff it does not overflow the throughput table |
| ProxyRuns.ReopenKeeps | handin/src/proxy.c:844-896 | the connection reopened for the list has a throughput entry iff the pair of addresses was known already |
| ProxyRuns.RespondKeeps | handin/src/proxy.c:391-534 | a response of any kind crashes iff it needs the entry of an unknown pair or a slot of a full table; otherwise the invariant is kept, and all pairs stay known iff no unknown one is opened |
| ProxyRuns.StepKeeps | handin/src/proxy.c:128-150 | the same for every event, whatever the addresses and however full the tables |
| ProxyLimits.StepHasEffect | handin/src/proxy.c:128-150 | a step adds at most its own descriptors, addresses and pair; no step gives up a throughput entry |
| ProxyLimits.RoomForServers | handin/src/pool.c:176-179 | descriptors in the range of descriptor sets leave a free slot for one more server, always |
| ProxyLimits.RoomForClients | handin/src/pool.c:142-143 | and for one more client |
| ProxyLimits.StepCrashesIff | handin/src/proxy.c:128-150 | so an event crashes the proxy iff it needs the throughput entry of a pair that has none, because the pair is unknown or because the table is full |
| ProxyEffects.StepIsExact | handin/src/proxy.c:128-150 | the exact effect of every event that does not crash on clients, servers, connections, throughput entries and bitrates, with everything else unchanged |
| ProxyEffects.VideoRateFollowsAverage | handin/src/proxy.c:313-352 | a video request sets the bitrate of the client's connection to the address to the choice from the published list for the pair's average, 0 for a new pair, and no other bitrate; another request sets none |
| ProxyEffects.ResponseKeepsConnectionIff | handin/src/proxy.c:426-533 | after a response the server's connection is still there iff the reply was a document or a body that could be sent; the other connections stay as they were; the published list changes with a list reply only |
| ProxyEffects.BodyMeasures | handin/src/proxy.c:512-527 | a body changes exactly the entry of the connection's own pair, by the throughput it measured; a fresh average becomes the integer part of that |
| ProxyLimits.ProxyIsConsistent | handin/src/proxy.c:128-150 | for every run from start-up that has not crashed, whatever the addresses: exact counts, live indices, one connection per server, select watches exactly the live descriptors |
| ProxyLimits.ProxyIsSafeIff | handin/src/proxy.c:128-150 | a run stays free of crashes and unknown pairs throughout iff none of its events reopens at an unknown address or overflows the throughput table |
| ProxyLimits.CrashPossibleIff | handin/src/proxy.c:391-534 | some enabled event would crash the proxy iff some live connection's pair is unknown or the throughput table is exhausted |
| ProxyLimits.CrashPossibleAfterIff | handin/src/proxy.c:844-896 | after a harmless event a crash is possible iff the event opened an unknown pair or left the throughput table exhausted |
| ProxyLimits.FixedAddressIsSafeIff | handin/src/proxy.c:260-272 | with a fixed server address a run stays safe throughout iff no new pair arrives at a full throughput table |
| ProxyCrashes.VisitsFill | handin/src/connection.c:173-196 | distinct client addresses, coming and going one by one, fill the throughput table |
| ProxyCrashes.OneTooMany | handin/src/proxy.c:313-331 | an input that fails: one address more, and a video request crashes the proxy |
| ProxyCrashes.FixedAddressSafeIffFewClients | handin/src/proxy.c:260-331 | with a fixed server address all runs with client addresses from a set are free of crashes iff the set has no more members than the throughput table has entries |
| ProxyCrashes.RunIntoCrash | handin/src/proxy.c:876-886 | an input that fails: accept, request at one address, list reply that reopens at another, video body |
| ProxyRuns.BodyCrashesIffPairUnknown | handin/src/proxy.c:514-518 | passing on a video body reads a missing entry iff the pair of addresses has none |
| ProxyRuns.ReopenElsewhereLeadsToCrash | handin/src/proxy.c:876-886 | reopening at an address unknown for the client leads to exactly that |
| Pool.Pool.constructor | handin/src/pool.c:8-44 | the heap tables represent the initial state |
| Pool.Pool.AddClient | handin/src/pool.c:136-166 | first free slot, counter, descriptor sets, range and mark as in the pure step, in place; -1 iff the table is full |
| Pool.Pool.AddServer | handin/src/pool.c:170-202 | the same for servers |
| Pool.Pool.CloseClit | handin/src/pool.c:278-288 | slot, sets and counter as in the pure step |
| Pool.Pool.CloseServ | handin/src/pool.c:290-300 | the same for servers |
| Pool.Pool.AddConn | handin/src/connection.c:52-85 | counts are raised first, then the first free slot is taken; -1 iff the table is full |
| Pool.Pool.CloseConn | handin/src/connection.c:104-127 | counts are lowered, both ends closed if unused, the slot cleared |
| Pool.Pool.ServerGetConn | handin/src/connection.c:34-49 | the loop computes the bounded scan |
| Pool.Pool.ClientGetConn | handin/src/connection.c:13-31 | the loop computes the bounded scan |
| Pool.Pool.GetThruByAddrs | handin/src/connection.c:157-171 | the loop computes the bounded scan |
| Pool.Pool.AddThru | handin/src/connection.c:173-196 | first free slot, average 0; -1 iff the table is full |
| Pool.Pool.UpdateThruput | handin/src/connection.c:131-154 | sample and new average are stored, nothing else changes |
| Pool.Pool.Accept | handin/src/proxy.c:128-146 | refines the accept event |
| Pool.Pool.Client2Server | handin/src/proxy.c:203-389 | refines the request event |
| Pool.Pool.Server2Client | handin/src/proxy.c:391-534 | refines the response event |
| Rates.SampleMeansThroughput | handin/src/connection.c:142 | a sample is eight times the whole kilobytes of the body over the time |
| Rates.SampleBounds | handin/src/connection.c:142 | which is at most the bits over the time in kilobits, less than eight short of it per unit of time, and exact iff the size is a multiple of 1000 |
| Rates.TruncTruncates | handin/src/connection.c:143 | conversion to int cuts towards zero |
| Rates.NewAverageMoves | handin/src/connection.c:146-151 | a fresh average becomes the integer part of the sample, another one the integer part of the average moved alpha of the way to the sample |
| Rates.AverageStaysBetween | handin/src/connection.c:142-151 | over any sequence of samples the average stays between the floor of the smallest sample and the largest sample |
| ProxyRates.RunIsPaced | handin/src/proxy.c:313-352 | in every run from start-up each stored average is 0 or between the bounds of the samples, and each bitrate is the initial one or the choice from a published list for such an average |
| Rates.SteadyStep | handin/src/connection.c:148-151 | one steady step never crosses; a fresh entry takes the sample over; from above it falls by at least one, from below it stands still iff alpha times the gap is below one |
| Rates.SteadyFromAbove | handin/src/connection.c:148-151 | from above a steady sample is reached exactly, in at most the gap's number of steps |
| Rates.SteadyFromBelow | handin/src/connection.c:148-151 | from below, a fresh entry included, the average rises by one per step or stands still, and never crosses |
| Rates.SteadyFromBelowSettles | handin/src/connection.c:148-151 | and has settled within 1/alpha after at most the gap's number of steps |
| Rates.AffordableIsTwoThirds | handin/src/proxy.c:331 | a rate passes the limit iff three times it is at most twice the average |
| Rates.ChooseRate | handin/src/proxy.c:329-352 | the loop computes the choice specified by the lemmas below |
| Rates.ChoiceIsChoice | handin/src/proxy.c:329-352 | the largest listed positive rate b with 3b <= 2*average, else the fallback |
| Rates.ChoiceIsUnique | handin/src/proxy.c:329-352 | that determines the rate |
| Rates.ChoiceIsMonotone | handin/src/proxy.c:329-352 | for every list of rates, more throughput never lowers the rate |
| Rates.ChoiceIsListedIff | handin/src/proxy.c:332-350 | the chosen rate is a listed one iff some rate fits or some listed rate is at most 100 |
| Rates.UnlistedRateChosen | handin/src/proxy.c:332-350 | an input that fails: with rates 200 and 300 and a fresh entry the proxy asks for 100 |
| DnsNames.JoinPieces | handin/src/mydns.c:149-162 | splitting at dots loses nothing and leaves no dots |
| DnsNames.LabelsLength | handin/src/mydns.c:72 | the encoded name is one byte longer than the name, plus the closing zero |
| DnsNames.ReadWire | handout/cp2_tests/grading/dns/dns_common.py:174-185 | reading an encoded name gives the name back, dot-terminated, and ends behind it |
| DnsNames.WirePrefixFree | handin/src/mydns.c:140-164 | encodings are injective, even as prefixes of longer messages |
| DnsNames.WireIsCString | handin/src/mydns.c:177 | an encoded well-formed name is a C string of the expected length |
| DnsC.Dot2Len | handin/src/mydns.c:140-164 | the moving pointers write the encoding of section 3.1 of RFC 1035 |
| DnsC.MakeQueryPkt | handin/src/mydns.c:66-107 | the packet of a one-question type A query |
| DnsC.PktToBuf | handin/src/mydns.c:166-228 | header, name and question in network order; the packet's numbers are swapped in place |
| DnsC.BuildQuery | handin/src/nameserver.c:103-108 | the buffer holds the query of sections 4.1.1 and 4.1.2 of RFC 1035 |
| DnsC.Strlen | handin/src/nameserver.c:189-190 | the distance to the first zero byte |
| DnsC.Parse | handin/src/nameserver.c:236-246 | 0 iff the buffer agrees with the reference from byte 2 to the reference's end, else -1 |
| DnsC.GenRes | handin/src/nameserver.c:203-234 | the buffer holds the answer, and the length is its length |
| DnsC.ResErr | handin/src/nameserver.c:194-201 | the length of the query; the error code becomes what the byte swap leaves of 3 |
| DnsC.ErrorReplyEchoesQuery | handin/src/nameserver.c:194-201 | which is nothing: a query is sent back unchanged |
| DnsC.ParseRes | handin/src/mydns.c:111-136 | the four bytes behind header, question, name and record head, if the reply begins with the marked query |
| DnsPython.LabelLengths | handout/cp2_tests/grading/dns/dns_common.py:68-80 | the scan finds the length of every label, the last one by subtraction |
| DnsPython.GenName | handout/cp2_tests/grading/dns/dns_common.py:82-91 | the encoded name; fails iff a label is longer than 255 bytes |
| DnsPython.ReadLabelsLoop | handout/cp2_tests/grading/dns/dns_common.py:174-185 | the byte loop reads a name or runs out of range |
| DnsPython.ReadRecord | handout/cp2_tests/grading/dns/dns_common.py:205-232 | the record in either form |
| DnsPython.Globals.constructor | handout/cp2_tests/grading/dns/dns_common.py:18-32 | flag and answer count start at 0, with no message written |
| DnsPython.RaisedForever | handout/cp2_tests/grading/dns/dns_common.py:47-55 | after a run of messages the flag is 0 iff only queries were written |
| DnsPython.Globals.GenFlags | handout/cp2_tests/grading/dns/dns_common.py:47-55 | an answer raises both, a query leaves both alone, so in every run they say whether an answer was written |
| DnsPython.Globals.GenMessage | handout/cp2_tests/grading/dns/dns_common.py:57-132 | query or answer; flag and count of a query say whether any message before it was an answer |
| DnsPython.Globals.ParseMessage | handout/cp2_tests/grading/dns/dns_common.py:134-246 | the parsed message or an exception; a query's identifier is remembered |
| DnsTheorems.QuestionFound | handin/src/nameserver.c:185-192 | the server finds name and end of any well-formed question, whatever follows it |
| DnsTheorems.AcceptsExactlyReference | handin/src/nameserver.c:236-246 | a query is accepted iff flags, counts, name, type and class are the reference's |
| DnsTheorems.AnswerIs | handin/src/nameserver.c:203-234 | the answer has the query's identifier and question, three changed header fields, and the name in full before the record |
| DnsTheorems.ResolverRoundTrip | handin/src/mydns.c:111-136 | the resolver gets the address from the answer to its own query, and from no answer with another identifier or name |
| DnsTheorems.ResolverAcceptsIff | handin/src/mydns.c:111-136 | the resolver takes the address of exactly those replies that begin with its identifier, the header of an answer and its question |
| DnsTheorems.MarkingSetsTwoFlags | handin/src/nameserver.c:207-210 | marking a header sets qr, aa and the answer count and leaves everything else alone |
| DnsTheorems.HeaderOnWire | handin/src/mydns.c:206-219 | serialising swaps identifier, question and answer count into network order, loses every error code, and leaves the other two counts as they lie in memory |
| DnsTheorems.LongLabel | handin/src/mydns.c:153 | a label of 256 bytes or more has its length cut to one byte |
| DnsTheorems.RejectionIsNoAnswer | handin/src/mydns.c:119-127 | an echoed query is no answer |
| DnsTheorems.QueryAfterRun | handout/cp2_tests/grading/dns/dns_common.py:57-94 | a Python query equals the C one, and is accepted for the reference host, iff no answer was written before it |
| DnsTheorems.ResolverRejectsPythonAnswers | handin/src/mydns.c:119-127 | the C resolver takes no Python answer, for lack of the authority bit |
| DnsTheorems.CAnswerDecodes | handout/cp2_tests/grading/dns/dns_common.py:134-246 | the Python reader gets name and address from the C answer, as an uncompressed one, iff the first label does not read as a pointer |
| DnsTheorems.PythonAnswerDecodes | handout/cp2_tests/grading/dns/dns_common.py:134-246 | and from the Python answer, as a compressed one |
| DnsTheorems.AnswersDecodeAlike | handout/cp2_tests/grading/dns/dns_common.py:205-232 | for names within section 3.1 of RFC 1035 both forms give name and address back and are never confused |
| DnsTheorems.QuestionReadsBack | handout/cp2_tests/grading/dns/dns_common.py:134-192 | flags, counts, type and class of any question are read as they were written |
| DnsTheorems.RecordReadsBack | handout/cp2_tests/grading/dns/dns_common.py:222-232 | a record is read as it was written, but for the upper half of the time to live, which has a 256th of its weight |
| DnsTheorems.QueriesDecode | handout/cp2_tests/grading/dns/dns_common.py:134-246 | queries are read unless the answer count was left raised; as a reply no query can be read |
| DnsTheorems.NameReadsBackIff | handout/cp2_tests/grading/dns/dns_common.py:174-185 | a written name is read back in full iff no label is empty |
| DnsTheorems.TimeToLive | handout/cp2_tests/grading/dns/dns_common.py:226 | the time to live is right iff its upper half is 0 |
| NameService.Serve | handin/src/nameserver.c:140-183 | the reply to one request: echo, routed answer, or crash; only the counter of the router changes |
| NameService.Resolution | handin/src/nameserver.c:140-183 | a resolver gets the routed address for the reference host, and nothing for any other host |
| NameService.ClientResolvesNearest | handin/src/nameserver.c:140-183 | from link file and lossy log to the bytes of query and reply, whatever is lost, if the silent nodes are dispensable: start-up survives and the client resolves the host to a nearest server of the real network |
| NameService.Start | handin/src/nameserver.c:70-78 | start-up survives iff every client reaches a server; then table and database are those of the log |
| NameService.AskServer | handin/src/nameserver.c:140-183 | one request in a buffer with old contents, and its reply |
| NameService.ReadReply | handin/src/mydns.c:313-334 | the resolver's outcome from a reply in a buffer with old contents |
| NameService.Session | handin/src/mydns.c:280-335 | start-up and one resolution on the heap, through all buffers: the routed address for the reference host, failure for any other, or the crash without a route |

## Left out

- Router.Ospf.ParseLsa: starts from announcements already split into sender, number and neighbours; `fgets`, `sscanf`, `strtok` and the fixed buffers are not modelled, so neither are over-long lines nor lines without neighbours.
- Router.Ospf.ParseServs: names come without the line end that the C code cuts off; a last line without one loses its last character there.
- MyQueue.Queue.PushTail: `length` is unbounded here and 32 bits wide in the source, where nothing reads it.
- LinkedCells.Free: released cells are marked dead and never used again; the allocator is not modelled.
- Router.Ospf.CalcSp: the queue of a finished search is never released in the source; memory leaks are not modelled.
- Dijkstra.Dijkstra: the `previous` dictionary is written and never read, and is left out.
- RoutersAgree.SameRecords: asks for sequence numbers of equal width; TextOrderKeepsRecordsIff says when generated logs are safe, and BothRoutersAreRight does without.
- ProxyRuns.StepKeeps: assumes that descriptors are fresh and within the range of descriptor sets, that sockets open, and that bodies are not empty and transfer times not 0; which ready descriptor is served when is left open. A request refused with an error page before a connection is looked up changes nothing and is no event.
- Pool.Pool.CloseConn: slots hold records as values, so freed records and pointers into them are not modelled; nor are `avg_put`, `alive`, file names and time stamps of a connection, or `clean_state`.
- Pool.Pool.UpdateThruput: a transfer time of 0, by which the source divides before converting the result to int, is left out as undefined; throughput and alpha are reals, so floating-point rounding and overflow of the conversion to int are not modelled.
- DnsC.PktToBuf: the branch for a packet with an answer is never taken and is left out, as is `netToHost`; opcode, tc, rd, z and ra are 0 in every packet built.
- DnsC.BuildQuery: for names whose labels are neither empty nor longer than 255 bytes and hold no zero byte; Dot2Len covers all names.
- DnsC.GenRes: buffers are large enough and hold a zero byte behind the name; reads past a malformed query are not modelled. The address arrives as its four bytes.
- DnsPython.Globals.GenMessage: round-robin and `getBestServer` deliver the address as an argument; log file and console are left out.
- NameService.Session: all buffers have one size, large enough for reference and answer, and the network delivers unchanged.
- NameService.Serve: the socket is left out; the reply is what is handed to it. Text addresses become bytes through an arbitrary function.
- HTTP headers, error pages, `modi_path`, `loggin`, XML parsing and `media.c`: plumbing around the modelled state; the bitrate list is an input.
- Sockets, `select`, clocks, process arguments and both `main` functions beyond the accept step: I/O.
- `netsim`, `plot`, the grading harness beyond the router and messages, and `SAVEMEPLZ`: configuration, plotting and drafts.
- `update_client`, `update_server`, `update_conn`: not called.
