# MaidSafe Routing, verified

A Dafny model of the decision making of the MaidSafe routing library: which contacts a node keeps,
where it forwards a message, when a quorum of a group has spoken, and what the asynchronous
connection layer keeps true between its completion handlers.

- `Xor`, `Closeness`: 512-bit addresses, XOR distance, leading bits and sorting by closeness.
- `RoutingTable`, `RoutingTableSteps`, `RoutingTableRuns`: the contact table as a class over its
  sorted list, what one admission keeps, and what every run of offers and drops keeps.
- `RoutingTableExtremes`: the largest table, and the contact admitted just outside the close group.
- `GreedyRouting`: forwarding hop by hop through a network of such tables.
- `Accumulator`, `AccumulatorRuns`: the usage-ordered cache of partial messages, with its linked list
  and stored iterators, and every run of it against its log.
- `Sentinel`, `SentinelSafety`, `SentinelRelease`, `SentinelObject`: one step of the sentinel as a
  function, what a release proves in every run, when a message is released exactly once, and the
  object over four accumulators that refines the step.
- `SentinelLaws`, `SentinelRuns`: the decisions and the step in terms of nodes, listed keys and
  signatures alone, store by store; then how often anything is released, and which keys are asked
  for, over every run.
- `SentinelScenarios`: runs that show what the sentinel does not check.
- `AsyncQueue`: the receive queue.
- `ConnectionsModel`, `ConnectionsRuns`, `Connections`: the connection maps as a system of calls and
  completions in any order, what every run of it keeps, and the object that refines it.
- `ConnectionsLaws`: entry by entry, what a step changes and nothing else.
- `ConnectionsScenarios`: runs of that object that end in a blocked endpoint or a lost peer.
- `ConnectionManager`: the closeness-ordered peers and the close group range test.

Key validation, signature checking, parsing, the merge of account transfers and the clock are
parameters, so every result holds for all of them.

## Findings

Where the code does less than its documentation promises, the model follows the code.

- `RoutingTable::AddNode` compares a newcomer with contact number `GroupSize`, counting from 0. So it
  admits a contact just outside the close group as well, where the documentation says "within our
  close group": `CheckMeaning` states exactly when, and `JustOutsideIsAdmitted` is a run. It follows
  that the first 24, not 23, contacts are always the closest ever offered
  (`CloseGroupIsClosestOffered`).
- A table that was offered every node may still leave a bucket empty and stop short of the target
  (`FullTableLeavesFurthestBucketEmpty`). When that happens is stated by `StuckIffBucketsEmpty`,
  `OccupiedIffAdmitted` and, in distances alone, `EmptyBucketFillsIff`.
- For a message from a single node, the sentinel looks up keys among the messages, not in the key
  accumulator as `docs/sentinel.md` describes. Such a message is never released by its own arrival
  (`NodeMessageIsNotReleasedOnArrival`), only by a later key response (`NodeReleasedIff`).
- `docs/sentinel.md` has keys for unknown messages ignored. The code collects them whatever is
  waiting (`KeysGrowIff`, `KeysIgnoreMessages`), and they count towards a later release
  (`KeysCountBeforeCopies`).
- `docs/sentinel.md` asks for a check that the nodes of a group are close to each other. A release
  depends on quorums and signatures alone (`GroupReleasedIff`); `ScatteredQuorumIsReleased` is a run
  with 19 senders no two of which share five leading bits.
- A quorum of copies and a quorum of keys are not enough for a release: the keys may have come under
  another message id of the group (`OtherIdStalls`). `NeverReleasedIff` states exactly when nothing
  is released. With one id they are enough (`QuorateIsReleasedOnce`).
- The tag of the verified message with the least address decides for all of them. One account transfer
  there withholds any number of equal copies (`TransferWithholds`, `OneTransferWithholds`);
  `CopiesReleasedIff` and `PromptReleasesCopiesIff` state exactly when the copies are released.
- One key response that does not parse blocks its group while it is held (`MalformedKeyBlocks`,
  `HeldKeyStays`), and the key a sender is checked against rests on a single response
  (`LeastListerDecides`). The same holds of client key responses (`MalformedClientKeyBlocks`,
  `NodeDecisionIs`); `ClientKeyThrowsIff` states exactly when one makes the sentinel throw.
- The client address in a client key response is not compared with the sender of the message
  (`KeyOfAnybodyReleases`, `KeyOfAnotherReleases`).
- An expired slot outlives a purge when it was used again after a live one (`PurgeIsCompleteIff`,
  `ExpiredSlotCanSurvive`).
- The range test leaves out the last member of a full close group (`PeerInRangeIff`).
- A failed dial leaves its endpoint in the connection table, and dialling again is refused as already
  started (`FailedDialIsRefused`). `FailedStaysIff` states exactly when it leaves: at a shutdown, at
  an accept from there, or at a failed send under an id that leads there. The third way exists
  (`FailedSendFreesEndpoint`), though not while every id leads to a socket of its own
  (`LinkedFreesByTwo`).
- A failing connection erases the id of its peer, whatever endpoint the id leads to by then. A peer
  that connected twice can no longer be sent to, although its newer connection is alive
  (`OlderFailureHidesPeer`). `ReachableIff` and `DropKeepsReachableIff` state exactly when a live
  connection is reachable.
- The assertion in `Connections::Send`, that the endpoint of a known id is in the table, can fail
  (`AcceptOverPeerLosesSocket`). A step breaks it exactly when it removes an endpoint that an id it does
  not erase leads to (`StepBreaksHeldIff`); over a run it holds for an id exactly when what was put at
  the endpoint of its last registration has not been removed (`SendAssertionIff`).
- What leads there is an accept from an endpoint that an id leads to. A step makes an id lead to a
  socket that is not its own exactly in that case (`StepBreaksLinksIff`), so that in every run without
  one the assertion holds (`RunKeepsLinks`). The id leads to its own socket again once it registers
  there (`AcceptOverPeerRestores`); over a run, `LeadsIff` states exactly when it does.

## Model

| member | source | states |
|---|---|---|
| `Xor.CloserIsNumeric` | src/maidsafe/routing/routing_table.h:104-109 | The bitwise comparison behind every sort is the strict order of numeric XOR distances, for any target |
| `Xor.DistanceIsInjective` | src/maidsafe/routing/routing_table.h:104-109 | Different addresses are at different distances from a target, so closeness never ties |
| `Xor.CloserSharesMoreBits` | src/maidsafe/routing/tests/utils/routing_table_unit_test.cc:76-90 | A closer address shares at least as many leading bits with us: buckets never cross in distance order |
| `Xor.SharedBitsBoundDistance` | src/maidsafe/routing/routing_table.cc:186-190 | Sharing b leading bits with us means distance below 2^(512 - b) |
| `Closeness.SortOrders` | src/maidsafe/routing/routing_table.cc:203-206 | Sorting distinct contacts gives exactly those contacts in strictly increasing distance |
| `Closeness.OrderedIsUnique` | src/maidsafe/routing/routing_table.cc:203-206 | Two strictly ordered tables with the same contacts are equal: membership fixes the table |
| `RoutingTable.ScanFindsFurthestCrowded` | src/maidsafe/routing/routing_table.cc:208-224 | The reverse scan reports nothing exactly when no bucket is crowded outside the close group; otherwise the furthest contact of the furthest crowded bucket, at index above GROUP_SIZE |
| `RoutingTable.AddConserves` | src/maidsafe/routing/routing_table.cc:45-90 | Whatever the branch, the new table is sorted, without duplicates or our id, and is the old contacts plus the newcomer if added, minus the reported contact, which is neither the newcomer nor in the close group |
| `RoutingTable.TargetsIncludeClosest` | src/maidsafe/routing/routing_table.cc:120-157 | The contacts to forward to are held and include the one closest to the target: the close group if it has that one, otherwise the PARALLELISM closest to the target, in order |
| `RoutingTable.DropRemovesExactly` | src/maidsafe/routing/routing_table.cc:112-118 | Dropping removes exactly the contacts with that id and keeps the order |
| `RoutingTable.RoutingTable.AddNode` | src/maidsafe/routing/routing_table.cc:45-90 | Updates the table in place as `Add` says and keeps it sorted, duplicate-free and without our id |
| `RoutingTable.RoutingTable.CheckNode` | src/maidsafe/routing/routing_table.cc:92-110 | Answers `Check` without changing the table |
| `RoutingTable.RoutingTable.DropNode` | src/maidsafe/routing/routing_table.cc:112-118 | The remove-and-erase loop keeps the table sorted, duplicate-free and without our id, and keeps exactly the contacts with another id |
| `RoutingTable.RoutingTable.FindCandidateForRemoval` | src/maidsafe/routing/routing_table.cc:208-224 | The counting loop, with its bucket counter and off-by-one iterator, finds the same index as the pairwise scan |
| `RoutingTable.RoutingTable.TargetNodes` | src/maidsafe/routing/routing_table.cc:120-157 | The collecting loops return `Targets` |
| `RoutingTable.RoutingTable.OurCloseGroup` | src/maidsafe/routing/routing_table.cc:159-168 | The first GROUP_SIZE contacts, or all of a smaller table |
| `RoutingTableSteps.CheckPredictsAdd` | src/maidsafe/routing/routing_table.h:72-75 | A contact is added if and only if its key is valid and CheckNode says it is wanted |
| `RoutingTableSteps.CheckMeaning` | src/maidsafe/routing/routing_table.h:58-70 | A contact is wanted exactly when new and the table is small, or it is closer than contact number GROUP_SIZE, or a bucket further than its own is crowded |
| `RoutingTableSteps.AddEvictsFurthestCrowded` | src/maidsafe/routing/routing_table.cc:62-89 | Who a full table gives up: the furthest contact of the furthest crowded bucket; nobody only if the newcomer is close and no bucket is crowded |
| `RoutingTableSteps.AddTightens` | src/maidsafe/routing/routing_table.cc:62-89 | A full table never lets its contact number GROUP_SIZE move away, never shrinks, and never becomes crowded further out than before |
| `RoutingTableSteps.EvictedIsRejected` | src/maidsafe/routing/routing_table.cc:62-89 | The contact just evicted is not wanted by the table that evicted it |
| `RoutingTableSteps.RejectionSticks` | src/maidsafe/routing/routing_table.cc:92-110 | An id a full table does not want is not wanted after any further addition |
| `RoutingTableSteps.AddKeepsOccupied` | src/maidsafe/routing/routing_table.cc:45-90 | No addition empties a bucket |
| `RoutingTableSteps.AddIsBounded` | src/maidsafe/routing/routing_table.cc:62-77 | An addition keeps the table within 531 contacts |
| `RoutingTableRuns.RunIsBoundedTable` | src/maidsafe/routing/routing_table.cc:64-66 | After any sequence of additions and drops the table is sorted, duplicate-free, without us, and at most 531 contacts, below GROUP_SIZE + 512 |
| `RoutingTableRuns.RejectionIsPermanent` | src/maidsafe/routing/routing_table.cc:92-110 | Once a full table does not want an id, no sequence of offers makes it wanted |
| `RoutingTableRuns.EvictedNeverReturns` | src/maidsafe/routing/routing_table.cc:45-90 | After any eviction and any further offers, the evicted id is not in the table and offering it again fails: the table does not thrash |
| `RoutingTableRuns.OffersKeepOccupied` | src/maidsafe/routing/routing_table.cc:45-90 | A bucket once occupied stays occupied through any offers |
| `RoutingTableRuns.CloseGroupIsClosestOffered` | src/maidsafe/routing/routing_table.h:86-88 | From an empty table, the first k contacts, for k up to GROUP_SIZE + 1, are the k closest of everything eligible ever offered, whatever the order of offers |
| `RoutingTableExtremes.DescendingOffersStay` | src/maidsafe/routing/routing_table.cc:62-77 | Contacts offered from far to near, one per bucket until the last GROUP_SIZE, all stay |
| `RoutingTableExtremes.MostContactsIsAttained` | src/maidsafe/routing/routing_table.cc:64-66 | The bound of 531 contacts is attained by a run of offers |
| `RoutingTableExtremes.JustOutsideIsAdmitted` | src/maidsafe/routing/routing_table.cc:62-69 | A full table with no crowded bucket takes a contact that ends up right behind the close group |
| `GreedyRouting.CloserIffBucketDiffers` | docs/group_message_delivery.md:5 | A contact is closer to the target than we are exactly when the target differs from us at the bit of its bucket |
| `GreedyRouting.StuckIffBucketsEmpty` | docs/group_message_delivery.md:5 | No contact is closer to the target exactly when every bucket at whose bit we differ from the target is empty |
| `GreedyRouting.CoveredStopIsClosest` | docs/group_message_delivery.md:5 | With an occupied bucket wherever the network has a node, a node with no closer contact is the closest of the network |
| `GreedyRouting.Route` | src/maidsafe/routing/routing_table.cc:120-157 | Forwarding to the closest contact while it is closer terminates at a node of the network |
| `GreedyRouting.RouteReachesClosest` | docs/group_message_delivery.md:5 | In a covered network, forwarding from any node ends at the node closest to the target |
| `GreedyRouting.OccupiedIffAdmitted` | src/maidsafe/routing/routing_table.cc:45-90 | A bucket is occupied after offers to an empty table exactly when some contact of it was wanted when it was offered |
| `GreedyRouting.EmptyBucketFillsIff` | src/maidsafe/routing/routing_table.cc:62-89 | A full table fills an empty bucket with no crowded bucket beyond it if and only if it is offered a contact of that bucket closer than contact number GROUP_SIZE, in any run of offers |
| `GreedyRouting.FullTableLeavesFurthestBucketEmpty` | src/maidsafe/routing/routing_table.cc:79-89 | Being offered everybody does not cover: 64 nearer contacts, one per bucket, make the table refuse the only node of bucket 0, and forwarding to that node is then stuck |
| `Accumulator.Accumulator.constructor` | src/maidsafe/routing/accumulator.h:47-48 | Starts empty with the given time to live and quorum |
| `Accumulator.Accumulator.HaveName` | src/maidsafe/routing/accumulator.h:57 | Whether a name has a slot |
| `Accumulator.Accumulator.CheckQuorumReached` | src/maidsafe/routing/accumulator.h:59-64 | True exactly when the name has values from at least quorum senders |
| `Accumulator.Accumulator.Add` | src/maidsafe/routing/accumulator.h:68-81 | Map, list and stored iterators stay linked; the slots change as `Accumulate` says; all values are returned exactly when the quorum is reached |
| `Accumulator.Accumulator.GetAll` | src/maidsafe/routing/accumulator.h:86-91 | The values of a name, none if it is absent |
| `Accumulator.Accumulator.Delete` | src/maidsafe/routing/accumulator.h:93-101 | Moving a name to the front and removing the oldest removes that name only, and keeps the links |
| `Accumulator.Accumulator.AddNew` | src/maidsafe/routing/accumulator.h:106-120 | The purge loop removes the expired front of the usage order before the new slot goes to the back |
| `Accumulator.Accumulator.RemoveOldestElement` | src/maidsafe/routing/accumulator.h:122-130 | Removes the front name from list and map; the found-in-storage assertion holds |
| `Accumulator.Accumulator.CheckTimeExpired` | src/maidsafe/routing/accumulator.h:132-138 | Whether the front slot has outlived its time; never with a zero time to live |
| `Accumulator.Accumulator.ReOrder` | src/maidsafe/routing/accumulator.h:140-144 | The name moves to the back, its slot and the order of the others unchanged |
| `AccumulatorRuns.AccumulateMembers` | src/maidsafe/routing/accumulator.h:68-81 | An addition renews one slot and keeps every other one, except that creating a name may drop expired slots |
| `AccumulatorRuns.AccumulatorRefinesLog` | src/maidsafe/routing/accumulator.h:68-81 | In any run a held name was created by one call, was held ever since, and holds exactly the first value of each sender since |
| `AccumulatorRuns.FirstValuesAreEarliest` | src/maidsafe/routing/accumulator.h:76 | The value kept for a sender is the one of its earliest addition |
| `AccumulatorRuns.PurgeIsLongestExpiredPrefix` | src/maidsafe/routing/accumulator.h:107-109 | The purge loop drops exactly the longest expired prefix of the usage order |
| `AccumulatorRuns.PurgeIsCompleteIff` | src/maidsafe/routing/accumulator.h:107-109 | The purge leaves no expired slot if and only if no expired slot was used after a live one |
| `AccumulatorRuns.RunIsUsageOrdered` | src/maidsafe/routing/accumulator.h:140-144 | In any run on a monotone clock the list is in creation order except for names used again |
| `AccumulatorRuns.ExpiredSurvivorWasReused` | src/maidsafe/routing/accumulator.h:132-138 | In any run an expired slot that outlives a purge had been added to again |
| `AccumulatorRuns.ExpiredSlotCanSurvive` | src/maidsafe/routing/accumulator.h:132-138 | A concrete run in which an expired slot outlives a purge |
| `AccumulatorRuns.ZeroTimeToLiveKeepsAll` | src/maidsafe/routing/accumulator.h:132-134 | In every run with a time to live of zero, a name is held if and only if the last call about it is an addition |
| `SentinelObject.ListResponse` | src/maidsafe/routing/sentinel.cc:178-190 | The loop over one response lists each of its keys once per name |
| `SentinelObject.ValidateGroupMessages` | src/maidsafe/routing/sentinel.cc:164-218 | The loops over responses and messages compute `ValidateGroup`; it throws exactly when both quorums are there and a response does not parse, and gives no messages or a quorum of them |
| `SentinelObject.ValidateNodeMessages` | src/maidsafe/routing/sentinel.cc:116-162 | The same for a single node and `ValidateNode`, whose meaning `NodeDecisionIs` states: it throws exactly when a message and a quorum of responses are there and a response does not parse |
| `SentinelObject.ResolveGroupMessages` | src/maidsafe/routing/sentinel.cc:220-248 | The search computes `ResolveGroup`: for messages of distinct nodes, the merge of all their bodies in order if the first is an account transfer, and otherwise the first message whose body a quorum of nodes sent |
| `SentinelObject.TryGroup` | src/maidsafe/routing/sentinel.cc:66-71 | Validation and resolution together reach the verdict that `GroupDecisionIs` describes |
| `SentinelObject.TryNode` | src/maidsafe/routing/sentinel.cc:48-53 | The same for a single node and `NodeDecisionIs` |
| `SentinelObject.Sentinel.constructor` | src/maidsafe/routing/sentinel.h:77-80 | Four empty accumulators with a time to live of twenty minutes and quorums 1, 19, 19 and 19 |
| `SentinelObject.Sentinel.Add` | src/maidsafe/routing/sentinel.cc:35-114 | The object over four accumulators refines `Step`: same state, same outcome, same key requests, errors included; `StepIs`, `GroupMessagesStep`, `NodeMessagesStep`, `KeysStep` and `StepAsks` say what that is |
| `Sentinel.AscendingVisitsEachOnce` | src/maidsafe/routing/sentinel.cc:199 | Iteration over a map visits every key once, in increasing order |
| `SentinelSafety.CollectedIsListed` | src/maidsafe/routing/sentinel.cc:175-191 | The keys collected for a node are exactly those some response lists for it |
| `SentinelSafety.FirstListedKey` | src/maidsafe/routing/sentinel.cc:175-204 | The key a sender is checked against is the one listed by the first response, in order of responder, that lists the sender |
| `SentinelSafety.LeastListerDecides` | src/maidsafe/routing/sentinel.cc:175-204 | A sender is checked against the key listed by the least responder that lists it, whatever the other responses list |
| `SentinelSafety.VerifiedIff` | src/maidsafe/routing/sentinel.cc:199-212 | A message verifies under the collected keys if and only if the key of its least lister is valid and checks its signature |
| `SentinelSafety.MalformedKeyBlocks` | src/maidsafe/routing/sentinel.cc:175-177 | In every reachable state, while a key response that does not parse is held for a group, no step releases anything of that group |
| `SentinelSafety.HeldKeyStays` | src/maidsafe/routing/sentinel.cc:56-61 | In every reachable state, a held key response stays whatever is received, unless its group's responses have expired |
| `SentinelSafety.GroupReleasedIff` | src/maidsafe/routing/sentinel.cc:164-248 | A decision releases if and only if a quorum responded, all responses parse, and the verified messages are a quorum that merges, if the first is an account transfer, and otherwise have a body with a quorum of distinct senders |
| `SentinelSafety.TransferIsMerge` | src/maidsafe/routing/sentinel.cc:235-245 | In every run, a group result that nobody sent is the merge of the bodies of all the messages held for that group and id that check, each once and in increasing order of sender, a quorum of distinct nodes, under the header of the first, which is an account transfer |
| `SentinelSafety.ReachableIsSound` | src/maidsafe/routing/sentinel.cc:35-114 | In every reachable state, everything held was received, filed under its own group or node, id and sender |
| `SentinelSafety.ReachableHasRequestedKeys` | docs/sentinel.md:48 | In every reachable state the keys of every group or node with a waiting message have been requested; `RequestsAreOpenings` says how often |
| `SentinelSafety.GroupReleaseIsBacked` | src/maidsafe/routing/sentinel.cc:35-114 | In every run, an exact-match group result was received for that group and id, a quorum of distinct nodes each submitted that very body with a signature that checks under a valid listed key, and a quorum of distinct nodes sent key responses |
| `SentinelSafety.EveryGroupReleaseIsVouched` | src/maidsafe/routing/sentinel.cc:56-92 | In every run, any group result is the match or the merge of all the messages held for that group and id that check, in order of sender: a quorum of distinct nodes, each received and signed under the valid key that the least of its listers gives |
| `SentinelSafety.KeysGrowIff` | src/maidsafe/routing/sentinel.cc:56-61 | In every reachable state, the keys of a group grow if and only if a key response in its name comes from a node that has not responded yet |
| `SentinelSafety.KeysIgnoreMessages` | src/maidsafe/routing/sentinel.cc:56-73 | What is collected of a key response does not depend on the messages waiting |
| `SentinelSafety.NodeReleaseIsBacked` | src/maidsafe/routing/sentinel.cc:38-55 | In every run, a single-node result is released only by a client key response for its node and id; it was received earlier, a quorum of distinct nodes sent responses for it that parse, and it is signed under a valid key one of the responses names |
| `SentinelSafety.NodeReleasedIff` | src/maidsafe/routing/sentinel.cc:116-162 | With agreeing responses, a key response releases the waiting message if and only if a quorum responded and its signature checks under the agreed valid key |
| `SentinelSafety.AgreedKeyIsChosen` | src/maidsafe/routing/sentinel.cc:142-147 | When all responses name one client and key, exactly that key is listed and used |
| `SentinelSafety.NodeMessageIsNotReleasedOnArrival` | src/maidsafe/routing/sentinel.cc:93-111 | In every run, a message from a single node is never released by its own arrival, even with a quorum of keys waiting |
| `SentinelSafety.ReleasesAgree` | docs/sentinel.md:42 | Two exact-match results for one group and id, at different times or in two sentinels, have the same body when senders are in one group of 23 and fewer than 15 of them equivocate |
| `SentinelSafety.OneBodyWins` | src/maidsafe/routing/sentinel.cc:227-234 | Among fewer than 38 verified messages at most one body has a quorum, so the search order cannot matter |
| `SentinelLaws.GroupDecisionIs` | src/maidsafe/routing/sentinel.cc:164-248 | The group decision exactly, without its loops: nothing short of either quorum; an exception if a response does not parse; else, over all messages that check, in order of sender, the merge, an exception if that fails, or the first message with a quorum of equal bodies |
| `SentinelLaws.NodeDecisionIs` | src/maidsafe/routing/sentinel.cc:116-162 | The decision on a single node exactly: nothing without a message or a quorum; an exception if a response does not parse; else the least message signed with the key that the least responder names for the least address named, if that key is valid |
| `SentinelLaws.StepIs` | src/maidsafe/routing/sentinel.cc:35-114 | In every reachable state, the outcome of a step is the decision on what is held for its group or node, itself included; a key response in no group's name throws and changes nothing; a message from a single node comes to nothing |
| `SentinelLaws.WhoIsReleased` | src/maidsafe/routing/sentinel.cc:45-111 | In every run, a release is for the group or node, and the id, of the message that prompted it, a single node's exactly when that is a client key response |
| `SentinelLaws.GroupMessagesStep` | src/maidsafe/routing/sentinel.cc:62-92 | In every reachable state and for every group and id: a release leaves nothing held, a message joins with its sender's first value kept, and any other step leaves all as it was, except that opening a new name drops this one if it and all names used less recently are over twenty minutes old |
| `SentinelLaws.NodeMessagesStep` | src/maidsafe/routing/sentinel.cc:44-55 | The same for a single node and id; what is released is what was waiting |
| `SentinelLaws.KeysStep` | src/maidsafe/routing/sentinel.cc:41-61 | The same for both kinds of key responses, which no release removes |
| `SentinelLaws.MalformedClientKeyBlocks` | src/maidsafe/routing/sentinel.cc:127-128 | In every reachable state, while a client key response that does not parse is held for a node, no step releases anything of that node |
| `SentinelLaws.ClientKeyThrowsIff` | src/maidsafe/routing/sentinel.cc:127-128 | In every reachable state, a client key response throws if and only if a quorum has responded, the message is waiting and a response does not parse |
| `SentinelRuns.NodeReleasedOncePerArrival` | src/maidsafe/routing/sentinel.cc:50-53 | In every run, between two releases for the same node and id that node's message with that id arrives again |
| `SentinelRuns.WaitingArrived` | src/maidsafe/routing/sentinel.cc:93-98 | In every run, what waits for a node and id is a message that arrived since the last release for them |
| `SentinelRuns.GroupReleasedOncePerQuorum` | src/maidsafe/routing/sentinel.cc:68-90 | In every run, between two releases for the same group and id a quorum of distinct nodes send a message for them again |
| `SentinelRuns.StepAsks` | src/maidsafe/routing/sentinel.cc:77-96 | A step asks for keys exactly when its message finds no slot for its name, and then for its own group's or node's |
| `SentinelRuns.RequestsAreOpenings` | src/maidsafe/routing/sentinel.cc:77-96 | In every run, the key requests are one for each addition that found no slot for its name, in that order, and no other |
| `SentinelRuns.AskedAgain` | src/maidsafe/routing/sentinel.cc:77-78 | In every run, a second request on account of one group and id means a release or an expiry in between |
| `SentinelRelease.GoodDecision` | src/maidsafe/routing/sentinel.cc:220-248 | With true keys and fewer than 19 faulty members, whatever these sent, the decision releases a copy exactly when the copies and the responses are a quorum |
| `SentinelRelease.OrderlyRunTracks` | src/maidsafe/routing/sentinel.cc:35-114 | Until a message with this id, or a key response with it, finds both quorums, every message delivered is held; afterwards at most 4 are |
| `SentinelRelease.ReleasedWhenReached` | src/maidsafe/routing/sentinel.cc:35-114 | In any interleaving with faulty members' messages and other traffic, other messages of the group included, an addition releases the message if and only if it is the first message with this id, or key response with it, to find both quorums |
| `SentinelRelease.ReleasedExactlyOnce` | docs/sentinel.md:52-62 | In any such interleaving in which a message with this id, or a key response with it, finds both quorums, exactly one addition releases the message, and what it releases is a member's copy |
| `SentinelRelease.NeverReleasedIff` | src/maidsafe/routing/sentinel.cc:62-64 | A message is never released if and only if no message with its id and no key response with it comes once both quorums are there |
| `SentinelRelease.QuorateIsReleasedOnce` | docs/sentinel.md:52-62 | With responses to this message only, a quorum of copies and a quorum of responses, in any order among faulty members' messages and other traffic, are released by exactly one addition: the one that completes the quorums |
| `SentinelRelease.CopiesReleasedIff` | src/maidsafe/routing/sentinel.cc:225-245 | A quorum of copies, whatever else members sent, is released if and only if the verified message of the least address is not an account transfer, or the merge is that very body |
| `SentinelRelease.PromptReleasesCopiesIff` | src/maidsafe/routing/sentinel.cc:56-92 | The same for the outcome of a message or key response in every reachable state |
| `SentinelScenarios.KeysCountBeforeCopies` | src/maidsafe/routing/sentinel.cc:59-61 | Any quorum of key responses that comes before any copy, with nothing waiting or requested, counts: the last copy of a quorum is released |
| `SentinelScenarios.OtherIdStalls` | src/maidsafe/routing/sentinel.cc:62-64 | With any quorum of copies and then of key responses under another id nothing is released; a key response with their own id then releases |
| `SentinelScenarios.ScatteredQuorumIsReleased` | docs/sentinel.md:42 | A run releases a message of 19 nodes of which no two, and none and the group address, share five leading bits |
| `SentinelScenarios.TransferWithholds` | src/maidsafe/routing/sentinel.cc:226 | With true keys from a quorum, an account transfer of the least address that merges to nothing and any number of copies after it, nothing is ever released |
| `SentinelScenarios.OneTransferWithholds` | src/maidsafe/routing/sentinel.cc:226 | A run of that kind with one faulty member of twenty |
| `SentinelScenarios.KeyOfAnybodyReleases` | src/maidsafe/routing/sentinel.cc:127-155 | Whoever the responses name as the client, a quorum naming a valid key that verifies a node's message releases it |
| `SentinelScenarios.KeyOfAnotherReleases` | src/maidsafe/routing/sentinel.cc:147-155 | A run with responses that name a client other than the sender |
| `AsyncQueue.RunPairsInOrder` | src/maidsafe/routing/async_queue.h:71-117 | In every run the i-th value goes to the i-th handler, each once, and values and handlers never both wait |
| `AsyncQueue.AsyncQueue.Push` | src/maidsafe/routing/async_queue.h:71-87 | Hands the value to the longest waiting handler, or queues it |
| `AsyncQueue.AsyncQueue.AsyncPop` | src/maidsafe/routing/async_queue.h:89-117 | Takes the oldest value, or waits behind the other handlers |
| `ConnectionsModel.NextKeeps` | src/maidsafe/routing/connections.h:98-289 | Every call and every completion, whatever the environment does, keeps sockets where they were put, captured facts true, one error at most per connection at its end, and the history in step with both maps |
| `ConnectionsRuns.RunIsConsistent` | src/maidsafe/routing/connections.h:98-289 | Every run keeps this invariant and only appends to the queued entries |
| `ConnectionsRuns.DropKeepsHeldIff` | src/maidsafe/routing/connections.h:123-126 | Removing an endpoint keeps every known id's endpoint in the table if and only if no id but the erased one leads there |
| `ConnectionsRuns.StepBreaksHeldIff` | src/maidsafe/routing/connections.h:107-109 | From a state in which the assertion holds for every id, a step breaks it if and only if it removes an endpoint that an id it does not erase leads to |
| `ConnectionsRuns.SendAssertionIff` | src/maidsafe/routing/connections.h:107-109 | In every run, the assertion holds for an id if and only if the last socket put at the endpoint of its last registration has not been removed |
| `ConnectionsRuns.LeadsIff` | src/maidsafe/routing/connections.h:101-111 | In every run, an id leads to a socket registered to it if and only if nothing was put at or removed from its endpoint since its last registration |
| `ConnectionsRuns.PlaceKeepsIdsIff` | src/maidsafe/routing/connections.h:219-220 | Overwriting an endpoint keeps every id leading to a socket of its own if and only if no id leads to that endpoint |
| `ConnectionsRuns.StepBreaksLinksIff` | src/maidsafe/routing/connections.h:218-220 | From a state in which every id leads to a socket of its own and is sent to there, a step breaks this if and only if it is an accept from an endpoint that an id leads to |
| `ConnectionsRuns.RunKeepsLinks` | src/maidsafe/routing/connections.h:98-289 | In every run without such an accept, every id leads to a socket of its own and the assertion holds |
| `ConnectionsRuns.DropKeepsReachableIff` | src/maidsafe/routing/connections.h:266-269 | When a connection fails, another one stays reachable by its id if and only if the two ids differ |
| `ConnectionsRuns.ReachableIff` | src/maidsafe/routing/connections.h:123-126 | In every consistent state, a registered live connection is reachable by its id if and only if the last registration or erasure of that id is a registration at its endpoint |
| `ConnectionsRuns.FailedStaysIff` | src/maidsafe/routing/connections.h:145-161 | An endpoint whose dial failed is refused when dialled, and leaves the table at a step if and only if this is a shutdown, an accept from it, or a failed send to it |
| `ConnectionsRuns.FailedStays` | src/maidsafe/routing/connections.h:145-161 | In every run without such a step it is still in the table |
| `ConnectionsRuns.LinkedFreesByTwo` | src/maidsafe/routing/connections.h:98-130 | While every id leads to a socket of its own, no failed send frees such an endpoint |
| `ConnectionsLaws.IdStep` | src/maidsafe/routing/connections.h:98-289 | In every consistent state, where an id leads changes only when an exchange with that peer succeeds, a send or receive under that id fails on a socket in the table, or all is shut down |
| `ConnectionsLaws.IdLeavesIff` | src/maidsafe/routing/connections.h:123-126 | An id leaves the map at a step if and only if this is a shutdown or such a failure |
| `ConnectionsLaws.ConnectionStep` | src/maidsafe/routing/connections.h:98-289 | The socket at an endpoint changes only by a dial, which takes a new socket, by an accept from there, by a failure of its exchange, send or receive, or by a shutdown |
| `ConnectionsLaws.LateCompletionChangesNothing` | src/maidsafe/routing/connections.h:262-264 | The completion of an operation whose socket has left the table changes no map and starts nothing |
| `ConnectionsLaws.AcceptorStep` | src/maidsafe/routing/connections.h:193-218 | A port is opened by the first accept on it, and closed by the first peer accepted or a shutdown |
| `ConnectionsLaws.PendingStep` | src/maidsafe/routing/connections.h:98-289 | After a step what was outstanding still is, less what completed, plus the one operation that its success or call starts |
| `ConnectionsLaws.LogStep` | src/maidsafe/routing/connections.h:258-279 | A step queues one entry if it completes a receive, with its error, or aborted if its socket has left the table, and none otherwise |
| `Connections.Connections.Send` | src/maidsafe/routing/connections.h:98-130 | Reports a bad descriptor exactly for an unknown id, and otherwise leaves one send to the socket the id leads to outstanding; demands what the source asserts |
| `Connections.Connections.SendCompleted` | src/maidsafe/routing/connections.h:117-128 | An aborted or successful send changes nothing more; a failed one removes the endpoint and the id it was sent to |
| `Connections.Connections.Connect` | src/maidsafe/routing/connections.h:139-153 | Refused exactly when the endpoint is in the table already; otherwise a new socket is put there and one dial is outstanding |
| `Connections.Connections.ConnectCompleted` | src/maidsafe/routing/connections.h:153-167 | A failed dial leaves its endpoint in the table; a successful one leaves one exchange of ids outstanding |
| `Connections.Connections.ExchangeCompleted` | src/maidsafe/routing/connections.h:168-188 | A failed exchange removes the endpoint only; a successful one registers the id and leaves one receive outstanding |
| `Connections.Connections.Accept` | src/maidsafe/routing/connections.h:193-209 | An acceptor the port has is kept, otherwise one is opened; one accept on a new socket is outstanding |
| `Connections.Connections.AcceptCompleted` | src/maidsafe/routing/connections.h:209-224 | The acceptor is given up, the socket is put at its remote endpoint, whatever was there, and one exchange of ids is outstanding |
| `Connections.Connections.ReceiveCompleted` | src/maidsafe/routing/connections.h:251-279 | One entry is queued per completion, with the error and the id; on a live socket an error removes the connection and the id and a success leaves the same receive outstanding again; otherwise all maps stay as they were |
| `Connections.Connections.DeliveredInOrder` | src/maidsafe/routing/connections.h:132-135 | Receive calls get the queued entries in order, each once, and for one connection nothing follows an error |
| `Connections.Connections.Shutdown` | src/maidsafe/routing/connections.h:283-289 | Clears all three maps; outstanding operations stay outstanding |
| `Connections.Connections.Run` | src/maidsafe/routing/connections.h:98-289 | Every interleaving of calls and completions on the object does what the model says, and only appends to the queued entries |
| `ConnectionsScenarios.FailedDialIsRefused` | src/maidsafe/routing/connections.h:145-161 | Dialling, failing and dialling again reports that the dial has already started |
| `ConnectionsScenarios.OlderFailureHidesPeer` | src/maidsafe/routing/connections.h:266-269 | A peer connected twice is an unknown id after its older connection fails, while the newer one is alive and received from |
| `ConnectionsScenarios.AcceptOverPeerLosesSocket` | src/maidsafe/routing/connections.h:219-236 | After an accept from the endpoint of a known peer and a failed exchange, the id is known and its endpoint is not in the table |
| `ConnectionsScenarios.AcceptOverPeerRestores` | src/maidsafe/routing/connections.h:219-245 | When the peer answers after such an accept, its id leads to its own socket and can be sent to |
| `ConnectionsScenarios.FailedSendFreesEndpoint` | src/maidsafe/routing/connections.h:123-126 | An endpoint whose dial failed is refused, and can be dialled again after a failed send under an id that led there |
| `ConnectionManager.UpperBoundDivides` | src/maidsafe/routing/connection_manager.h:110 | The position found divides the peers into those no further than the address and those further |
| `ConnectionManager.NonPeerInRangeIff` | src/maidsafe/routing/connection_manager.h:107-112 | An address that is not a peer is in range if and only if inserting it would put it in the close group |
| `ConnectionManager.PeerInRangeIff` | src/maidsafe/routing/connection_manager.h:107-112 | With at least 23 peers, a peer is in range if and only if it is one of the first 22: the last member of the close group is not |
| `ConnectionManager.RangeIsMonotone` | src/maidsafe/routing/connection_manager.h:107-112 | Anything closer than an address in range is in range |
| `ConnectionManager.InsertShrinksRange` | src/maidsafe/routing/connection_manager.h:107-112 | A new peer brings no address into range |
| `ConnectionManager.DropChangesGroupIff` | src/maidsafe/routing/connection_manager.cc:81-85 | Dropping a peer changes the close group if and only if the peer was in it |
| `ConnectionManager.ConnectionManager.OurCloseGroup` | src/maidsafe/routing/connection_manager.h:91-101 | The counting loop returns the first GROUP_SIZE peers |
| `ConnectionManager.ConnectionManager.AddressInCloseGroupRange` | src/maidsafe/routing/connection_manager.h:107-112 | Answers `InRange` |
| `ConnectionManager.ConnectionManager.InsertPeer` | src/maidsafe/routing/connection_manager.cc:184-190 | A new id is put in its place, a known id changes nothing |
| `ConnectionManager.ConnectionManager.DropNode` | src/maidsafe/routing/connection_manager.cc:81-85 | Drops the peer, records the ids of the new close group and reports them with the previous ones exactly when the two differ: given an up-to-date record, exactly when the peer was in the close group |

## Left out

- Connections.Connections.ConnectCompleted: takes the remote endpoint of a connected socket to be the endpoint dialled.
- Connections.Connections.ExchangeCompleted: does not model an exception from parsing a malformed peer id.
- ConnectionsModel.NextKeeps: a send to an id whose endpoint is not in the table changes nothing, where the source fails an assertion.
- SentinelSafety.NodeReleasedIff: assumes that the responses agree, as the source asserts they do; `SentinelLaws.NodeDecisionIs` covers responses that do not.
- SentinelSafety.ReleasesAgree: does not extend to account transfers, whose merge is a parameter, nor to more than 23 senders for one group.
- SentinelRelease.ReleasedExactlyOnce: assumes one message per member with this id, none of them an account transfer, fewer than 19 faulty members, key responses that list the true keys, and all within one time to live; `PromptReleasesCopiesIff` covers account transfers, `MalformedKeyBlocks` and `LeastListerDecides` what other responses do.
- RoutingTable.RoutingTable.TargetNodes: models the partial sort as a prefix of the full sort, and compares iterators as the contacts they point to.
- The sentinel's assertions that all key responses agree are not modelled as aborts: the first key listed is used, as with assertions compiled out.
- One accumulator call sees one clock reading, where the code reads the clock several times.
- Sockets, the event loop, threads and mutexes: a class method is one critical section or one posted handler.
- Handlers are recorded with their arguments, not called back into the object.
- Serialisation, message classes, RSA and the account transfer classes, which the decisions modelled here only use as black boxes.
- `RoutingTable::GetPublicKey`, a lookup that decides nothing, and the address validity checks, which every `Address` of the model passes by its type.
- `ConnectionManager::GetTarget`, which returns an empty set, and its sockets and callbacks.
- `RoutingNode`, `Client` and the bootstrap handler, which wire these parts to the network.
