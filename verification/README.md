# simorgh: verified models

Simorgh is a VPN panel with its own tunnel. This project models the parts of it that keep
state and must keep promises about that state, and proves those promises for every input,
every reachable state or every run:

- **Allowed-IPs trie** (`panel/awgsrc/src/allowedips.c`; `BitKeys`, `AllowedIpsTrie`,
  `AllowedIpsUpdates`, `AllowedIpsSteps`, `AllowedIpsWalk`, `PeerLists`, `AllowedIps`).
  A pointer is a key of a slab of nodes, and the cells that hold pointers (two roots, two per
  node) are one map. The class `Table` relinks them in place; a ghost field holds the plain map
  from prefixes to peers that the calls so far denote.
- **OpenVPN device slots** (`panel/main.go`; `OvpnHooks`, `OvpnWorld`, `OvpnSafety`,
  `OvpnExamples`, `OvpnDialling`, `OvpnRelease`). Connect and disconnect hooks share lease
  files, release markers and a status file that lags. The proofs are about timed runs that also
  record which devices are really connected.
- **Forward error correction** (`core/fec.go`, `core/main.go`; `Bytes`, `FecSlots`, `Fec`,
  `FecRun`, `FecTimes`, `FecRecovery`, `FecTorn`, `FecCodec`). Encoder, decoder, resizes also in
  the middle of a send, and a network that loses, repeats and reorders.
- **Multi-customer server** (`core/multiserver.go`, `core/customers.go`; `Customer`,
  `CustomerTraffic`, `Tunnel`, `MultiServer`, `MultiServerLoop`), **handshake**
  (`core/handshake.go`; `Handshake`), **failover** (`core/multipath.go`; `Failover`,
  `FailoverChoice`), **bandwidth cap** (`core/ratelimit.go`; `TokenBucket`) and **ICMP checksum** (`core/transport_icmp.go`; `IcmpChecksum`).
- **Node control plane** (`panel/node/hash.go`, `panel/node/server.go`; `Decimal`,
  `FieldCode`, `Lexical`, `NodeHash`, `GenerationGate`).
- **Kernel-side tables and formats** (`peerlookup.c`, `junk.c`, `magic_header.c` in
  `panel/awgsrc/src`; `IndexTable`, `KernelText`, `JunkTags`, `JunkSpec`, `MagicHeader`).
- **Start of the panel** (`panel/database/db.go`; `StartUp`, `Database`).

Most components come as two layers: a step on values, about which the run theorems are proved,
and a class whose methods update fields and arrays the way the program does and are proved
against that step. Cryptography is a parameter with the laws it needs; clocks, random draws,
allocation results, probe results and the network are parameters or events.

Where the code does not keep a promise, the model follows the code, and there is a lemma with a
concrete input and one that says when the promise holds:

- Resizes inside one `sendData` can put a smaller size on the last packet and the parity of a
  group, and the receiver then writes a frame nobody sent (`FecTorn.TornRunsAreSafeIff`,
  `FecRecovery.TornIsHarmlessIff`, `FecRecovery.SmallerSizeInvents`).
- Two inbounds that share an id leave the fingerprint open (`NodeHash.OneFingerprintIff`).
- The OpenVPN lock is per transport, so connects of one account on two transports that overlap
  can exceed the limit (`OvpnSafety.OverlapExceedsIff`, `OvpnExamples.OverlapExceedsLimit`).
- A dial may take as long as the grace of a lease less the lag of the status file, five seconds.
  With a millisecond more, a connected device's address can be given away and an account can
  exceed its limit (`OvpnDialling.DialBoundIsExact`).
- A disconnect marks its address as free only if the lease is still there; a device whose lease
  was deleted after 30 seconds leaves an address that counts until the status file is rewritten
  (`OvpnRelease.FreedAtOnceIff`).
- The size check of a packet template looks at a wrapping sum of sizes that may be negative
  (`JunkSpec.LaidOutIffSane`, `JunkSpec.NegativeSizeIsMislaid`).
- `mh_parse` writes its fields before it has read everything, so a refused range text can leave
  a range the wrong way round (`MagicHeader.OwnTypeIffTexts`,
  `MagicHeader.RefusedTextTurnsTheRange`).
- Two starts of the panel are not one start from a database with no users and a seeder history
  that lacks the password seeder (`StartUp.TwiceIsOnce`, `StartUp.MarkIsLost`).
- Apply requests that overlap can be applied newest first (`GenerationGate.RisingIffOverlapsRise`,
  `GenerationGate.OlderStateCanWin`), although the comment on `lastGeneration` speaks of every
  state that does not advance being refused.
- A request larger than the bucket is never granted, so `wait` does not return
  (`TokenBucket.TooLargeIsNeverGranted`).

## Model

| member | source | states |
|---|---|---|
| AllowedIps.Table.Run | panel/awgsrc/src/allowedips.c:181-381 | After any series of inserts, removes, removes by peer and frees, with any allocation failures: exactly the improper operations are refused, out of memory is answered only where an allocation failed, the trie denotes the map that the same series gives on a plain map from prefixes to peers, and looking up any address gives the peer of its longest matching prefix in that map |
| AllowedIps.Table.Do | panel/awgsrc/src/allowedips.c:181-381 | Each operation keeps all invariants and commutes with the operation on the plain map; out of memory only when an allocation was refused, invalid exactly for a mask that is too long or a missing peer |
| AllowedIps.Table.FindNode | panel/awgsrc/src/allowedips.c:111-124 | The walk from the root ends with the node of the longest matching prefix that has a peer, or none if no prefix in the map matches |
| AllowedIps.Table.Lookup | panel/awgsrc/src/allowedips.c:127-147 | The peer found is the reference longest-prefix match in the denoted map |
| AllowedIps.Table.NodePlacement | panel/awgsrc/src/allowedips.c:149-167 | Finds the node of exactly this prefix, or the deepest node above it with a dead end below |
| AllowedIps.Table.Add | panel/awgsrc/src/allowedips.c:181-250 | Insert is map update; when it fails, nodes, links and every peer's list are as before |
| AllowedIps.Table.AddBelow | panel/awgsrc/src/allowedips.c:205-249 | Where the prefix has no node and its parent no child on that side, a new leaf is one map update; the other cases go on to `AddAbove` |
| AllowedIps.Table.AddAbove | panel/awgsrc/src/allowedips.c:213-249 | A node slipped in and a branching node over two both denote the one map update and keep the trie well formed, and a failed second allocation is undone |
| AllowedIps.Table.AddOver | panel/awgsrc/src/allowedips.c:222-232 | Slipping a node between a parent and its child adds one entry to the denoted map and no other |
| AllowedIps.Table.AddGlue | panel/awgsrc/src/allowedips.c:234-249 | A branching node over the old child and the new node adds one entry and has both children |
| AllowedIps.Table.ConnectUnder | panel/awgsrc/src/allowedips.c:169-179 | The child goes to the side its own bit selects, and its up-link names that side |
| AllowedIps.Table.RemoveNode | panel/awgsrc/src/allowedips.c:252-281 | Exactly this entry leaves the denoted map; no node that only branches keeps fewer than two children |
| AllowedIps.Table.Splice | panel/awgsrc/src/allowedips.c:261-280 | The only child takes the node's place and the node and its cells are gone |
| AllowedIps.Table.Remove | panel/awgsrc/src/allowedips.c:283-296 | Deletes the entry exactly if the stored peer is the given one, and changes nothing otherwise |
| AllowedIps.Table.RemoveByPeer | panel/awgsrc/src/allowedips.c:371-381 | All entries of the peer and no others are gone |
| AllowedIps.Table.PopPush | panel/awgsrc/src/allowedips.c:41-80 | A step of the depth-first walks visits a node not visited before and stays within the stack of 129 |
| AllowedIps.Table.RemovePeerLists | panel/awgsrc/src/allowedips.c:69-80 | Visits every node of the family once and takes each off its peer's list |
| AllowedIps.Table.FreeNodes | panel/awgsrc/src/allowedips.c:56-67 | Visits every node of the family once and frees exactly those |
| AllowedIps.Table.Free | panel/awgsrc/src/allowedips.c:304-325 | Nothing is left allocated, linked or listed |
| AllowedIps.NoEntryHere | panel/awgsrc/src/allowedips.c:149-167 | If the placement walk misses, no node anywhere in the trie has this prefix |
| AllowedIpsTrie.OnPath | panel/awgsrc/src/allowedips.c:99-124 | Two nodes that match one address lie on one path, ordered by prefix length |
| AllowedIpsTrie.FoundIsLongest | panel/awgsrc/src/allowedips.c:111-124 | A search that ends at the longest matching node agrees with trying every mask length on the plain map |
| AllowedIpsTrie.LongestMatchIsLongest | panel/awgsrc/src/allowedips.c:111-124 | The reference lookup answers with a prefix exactly if it matches and no longer one does |
| AllowedIpsTrie.DenotesOne | panel/awgsrc/src/allowedips.c:111-147 | A trie denotes only one prefix map |
| AllowedIpsUpdates.HangKeeps | panel/awgsrc/src/allowedips.c:215-220 | A new leaf keeps prefixes growing along edges, on the right side, and up-links right |
| AllowedIpsUpdates.SlipInKeeps | panel/awgsrc/src/allowedips.c:225-232 | So does a node slipped in between |
| AllowedIpsUpdates.CutKeeps | panel/awgsrc/src/allowedips.c:261-280 | So does replacing a node by its only child |
| AllowedIpsUpdates.SamePrefixSameNode | panel/awgsrc/src/allowedips.c:149-167 | No two nodes have the same prefix |
| AllowedIpsSteps.RemovedKeepsShape | panel/awgsrc/src/allowedips.c:252-281 | Removing a node, and with it a parent that only branched, keeps the trie well formed and compressed |
| AllowedIpsSteps.RemoveStep | panel/awgsrc/src/allowedips.c:252-281 | The same removal also keeps the peer lists exact and takes one entry out of the denoted map |
| AllowedIpsSteps.GlueStep | panel/awgsrc/src/allowedips.c:234-249 | The branching case of insert keeps shape, lists and denoted map in step |
| AllowedIpsWalk.WalkStep | panel/awgsrc/src/allowedips.c:41-80 | One pop and two pushes keep the stack a frontier of the nodes still to visit, with prefix lengths that bound its depth |
| AllowedIpsWalk.WalkDone | panel/awgsrc/src/allowedips.c:41-80 | When the stack is empty every node of the family has been visited |
| BitKeys.CommonBits | panel/awgsrc/src/allowedips.c:82-97 | The bits in common are the longest agreeing prefix, computed by exclusive-or and find-last-set |
| BitKeys.Fls128IsFls | panel/awgsrc/src/allowedips.c:82-85 | The two-word find-last-set agrees with the one-word definition on the joined word |
| PeerLists.DetachOk | panel/awgsrc/src/allowedips.c:257-258 | Taking a node off its list keeps every list the exact set of its peer's nodes |
| PeerLists.UndoAttach | panel/awgsrc/src/allowedips.c:235-239 | Undoing an insert's list entry leaves every list as it was |
| OvpnSafety.UserLimitHolds | panel/main.go:1880-2051 | In every timed run an account's addresses that are freshly leased or held by a connected device number at most K over both transports, no two connected devices share an address, and what would be reclaimed as a ghost belongs to no connected device |
| OvpnSafety.NextKeeps | panel/main.go:1880-2463 | Connects, dials, failed dials, disconnects, status rewrites and time all keep the invariant that ties the files to the devices really there |
| OvpnSafety.ConnectKeepsLimit | panel/main.go:1953-2022 | A connect that is admitted, to a free address or a ghost's, leaves its account within the limit |
| OvpnSafety.NewSlotFits | panel/main.go:1953-1989 | A count below K in the files means fewer than K occupied addresses in fact |
| OvpnSafety.DisconnectKeeps | panel/main.go:2448-2463 | A disconnect frees only its own session's address, also when that address was leased again meanwhile |
| OvpnSafety.OverlapExceedsIff | panel/main.go:1900-2022 | Two connects of one account that read before either writes exceed its limit if and only if each finds a free slot by the hook's own test and the account had room for one |
| OvpnSafety.FreeIsNew | panel/main.go:1953-2022 | A connect gets an address that nobody occupies, rather than a ghost's or none, if and only if the hook's test for a free slot succeeds |
| OvpnSafety.OverlapOfTwoAccounts | panel/main.go:1900-2022 | Overlapping connects of different accounts leave the state that the two leave one after the other, with all invariants, so the theorem on runs covers them |
| OvpnExamples.OverlapExceedsLimit | panel/main.go:1900-1977 | A reachable state in which overlapping connects do exceed the limit, while in sequence the second is refused |
| OvpnDialling.DialBoundIsExact | panel/main.go:1873-2022 | For every bound on the time a dial takes: connected devices never share an address in any run within it, ghost reclaim never takes a connected device's address, and no account ever exceeds its limit; each of the three if and only if the bound is at most the reclaim grace less the lag of the status file |
| OvpnDialling.QuickDialsAreSafe | panel/main.go:1880-2051 | All runs within that bound have the three properties |
| OvpnDialling.SharedIsReached | panel/main.go:2004-2022 | Under every larger bound there is a run, with one dial of 5001 ms, that ends with two connected devices at one address |
| OvpnDialling.FifthDials | panel/main.go:1912-1977 | And one that goes on to three occupied addresses of an account whose limit is two |
| OvpnRelease.ReleasedIsFree | panel/main.go:2131-2194 | In every run, from the disconnect of a device whose lease is there until the address is given out again, the hook does not count it as in use, although the status file goes on reporting it |
| OvpnRelease.RedialGets | panel/main.go:1953-2022 | In every run, after such a disconnect a connect of the account gets an address whenever fewer than K of its other addresses are reported or freshly leased |
| OvpnRelease.FreedAtOnceIff | panel/main.go:2131-2170 | After a disconnect the hook counts the address as in use if and only if the lease was gone and the status file still reports it |
| OvpnRelease.ReportedCountsElsewhere | panel/main.go:1957-1977 | In every run, what one transport's status file reports counts on the other transport until that file is rewritten, released or not |
| OvpnRelease.GhostIffAbandoned | panel/main.go:2004-2022 | In every run, ghosts are exactly the leases past the grace whose session is not connected, and an account that has one is given an address |
| OvpnWorld.GhostIsNotLive | panel/main.go:2004-2022 | In every reachable state ghost reclaim cannot pick a connected device's address |
| OvpnWorld.OccupiedIsSeen | panel/main.go:1912-1951 | Every occupied address is in use as far as the files show, despite lagging status and release markers |
| OvpnWorld.CountCoversOwn | panel/main.go:1957-1962 | The loop's count is at least the number of occupied addresses |
| OvpnHooks.LeaseBlockIP | panel/main.go:1880-2051 | The connect hook gives out the address of the specification and leaves exactly the files of the specification: stale leases and markers gone, one lease more or none |
| OvpnHooks.Scan | panel/main.go:1912-1951 | The sets built in the loops are exactly the addresses in use, those of reporting devices, and the ages of fresh leases |
| OvpnHooks.CountUsed | panel/main.go:1953-1977 | The count covers both transports, with release markers heeded on its own side only |
| OvpnHooks.PickGhost | panel/main.go:2004-2022 | The reclaimed lease is the oldest of those past the grace that no device reports |
| OvpnHooks.OldestGhost | panel/main.go:2004-2017 | A ghost if there is any, and none is older |
| OvpnHooks.FirstFree | panel/main.go:1979-1989 | The first address in the list that is not in use, if there is any |
| OvpnHooks.Files.ReleasedIPs | panel/main.go:2173-2194 | Returns the markers that still count and deletes the others |
| OvpnHooks.Files.LeaseAges | panel/main.go:1924-1942 | Returns ages of fresh leases and deletes the others |
| OvpnHooks.Files.Disconnect | panel/main.go:2131-2170 | The lease of this session and no other is replaced by a release marker; without one nothing changes |
| FecRun.OnlySentFramesArrive | core/main.go:266-318 | In every run with loss, repeats, reordering, collection of groups and resizes between and inside sends, that does not use a group id twice and whose torn sends do not put one smaller size on the last two packets of a group, every frame written to the sink is a frame given to `sendData` |
| FecRun.RunKeeps | core/fec.go:80-214 | Every reachable state ties the accumulators to the exclusive-or of the slots named by the mask, the count to the size of the mask, and every packet in flight to the history |
| FecRun.ParityWritesTheMissing | core/fec.go:149-214 | In every such run, a parity packet that arrives writes the missing frame of its group if exactly one is missing from what the decoder holds, the sizes are the group's and the frame has 1 to 2046 bytes, and nothing otherwise; in a group that no tear has stamped the sizes are the group's |
| FecTimes.WritesWhatDidNotCome | core/fec.go:149-214 | In every such run, in terms of events alone: if since the group was new to the decoder no collection came more than its age limit after the last new packet of the group, the parity of an untorn group writes the one frame none of whose packets came, and nothing if all came or several did not |
| FecTimes.CollectsTheOld | core/fec.go:205-214 | In every such run, collecting drops a group if and only if more than the age limit has passed since a new packet of it came; otherwise the decoder holds what had come |
| FecTimes.HoldsWhatCame | core/fec.go:149-173 | The decoder's record of a group is the set of indices delivered since it was last without one, and the time of the last new one |
| FecRun.RecoveredIsOwn | core/fec.go:178-201 | What a parity packet recovers in a reachable state is a frame of its own group |
| FecRun.SendKeeps | core/main.go:266-318 | A send keeps that invariant, also when it completes a group and when it is torn by resizes |
| FecRun.DeliverDataKeeps | core/main.go:420-454 | So does a data packet, first or repeated, early or after its group was collected |
| FecRecovery.RecoversExactlyTheMissing | core/fec.go:149-201 | For every group of 2 to 64 frames, in any order, repeated and mixed with other groups: the parity yields the missing frame exactly if one is missing and it has at most 2046 bytes |
| FecRecovery.FeedHolds | core/fec.go:149-173 | The decoder's record of a group depends only on which of its packets arrived |
| FecRecovery.TornIsHarmlessIff | core/main.go:273-298 | A send torn by resizes before the data packet is stamped and before the parity is taken lets the receiver recover nothing but frames of the group, whatever arrives in whatever order, if and only if the two do not put the same smaller size on the group; the second tear alone is always harmless, the first exactly if it does not shrink the group |
| FecRecovery.TornPackets | core/main.go:272-298 | Resizes inside a send change nothing but the sizes on the last data packet and on the parity of a group, and nothing at all before its last frame |
| FecRecovery.SmallerSizeInvents | core/main.go:273-298 | For every group size and every smaller size there are frames and arrivals for which such a torn send makes the receiver write a frame nobody sent |
| FecRun.OtherSizesGiveNothing | core/fec.go:178-201 | Parity or record under another size than the group's recovers nothing |
| FecTorn.TornRunsAreSafeIff | core/main.go:266-318 | With sends that complete groups of one size torn by two resizes, only frames given to `sendData` arrive in every run if and only if the two do not put one smaller size on the group |
| FecTorn.TornRunInvents | core/main.go:273-298 | For every group size and every smaller size there is a run, with one such tear, in which a frame nobody sent is written |
| FecSlots.RecoverMissing | core/fec.go:178-201 | Parity and the exclusive-or of all frames but one give the slot of that one |
| FecSlots.FrameOfSlotOf | core/fec.go:80-102 | A frame that fits a slot is read back from it |
| FecSlots.XorMaskAdd | core/fec.go:149-173 | Adding a new index to the mask adds its slot to the sum |
| Fec.PlainRoundTrip | core/main.go:420-454 | Parsing the plaintext of a packet acts on exactly the fields it was built from |
| FecCodec.Encoder.SetGroupSize | core/fec.go:46-58 | The size is clamped to 2..64 and changes only between groups |
| Fec.ClampIsNearest | core/fec.go:46-58 | The size set is the one of 2 to 64 nearest to the wish |
| FecCodec.Encoder.Add | core/fec.go:80-102 | Folds the frame into the accumulator in place and stamps it; long frames are stamped but not protected |
| FecCodec.Encoder.FlushParity | core/fec.go:106-117 | Hands out the accumulated parity and starts the next group |
| FecCodec.Encoder.SendData | core/main.go:266-318 | The plaintexts are those of the atomic send, parity exactly on completion |
| FecCodec.Decoder.FoldData | core/fec.go:149-173 | Refines the step on data packets, with its guards on index and size |
| FecCodec.Decoder.TakeParity | core/fec.go:178-201 | Drops the group and returns the recovered frame of the specification |
| FecCodec.Decoder.Gc | core/fec.go:205-214 | The loop, in any order, leaves what the collection of the run theorems leaves |
| FecCodec.Decoder.HandlePlain | core/main.go:420-454 | Refines the step on plaintexts, short and unknown ones included |
| MultiServer.RunsAsIfAlone | core/multiserver.go:64-160 | In every run the state of a customer and the envelopes that carry its id are those of a run of that customer alone on the inputs meant for it |
| MultiServer.StepView | core/multiserver.go:80-127 | One input changes a customer and sends for it only what it would alone |
| MultiServer.TickEachView | core/multiserver.go:193-210 | A tick treats each customer once, whatever the order of the map |
| Customer.SendsToOwnPeer | core/multiserver.go:129-191 | Every envelope sent for a customer carries its own id and goes to the peer of its own session |
| Customer.Envelope | core/main.go:252-258 | Id, number and body can be read back from an envelope |
| Tunnel.TunnelDelivers | core/main.go:266-454 | Whatever one end reads from its sink, fails to read and ticks, with error correction or without and in groups of whatever size: if its envelopes arrive in order, are not taken for a hello and cause no ban, the other end's sink is told exactly the frames and the failures, in order |
| CustomerTraffic.DataIsWritten | core/multiserver.go:101-127 | An accepted data message from the session's peer writes its frame and nothing else, with error correction or without |
| CustomerTraffic.ParityIsTaken | core/main.go:420-454 | An accepted parity message writes the frame it recovers, if any, and ends its group; without error correction it does nothing |
| CustomerTraffic.ControlIsTaken | core/main.go:380-399 | Close ends the sink's connection, a keepalive tells how well the peer receives |
| CustomerTraffic.PingIsAnswered | core/main.go:365-374 | A ping of nine bytes is answered by one sealed pong with its eight bytes, a shorter one is not |
| CustomerTraffic.OthersAreIgnored | core/multiserver.go:107-114 | A body from another address, or one that does not open, changes nothing |
| CustomerTraffic.BanEndsTheSession | core/multiserver.go:115-124 | A customer whose packets are too bad loses the session and nothing else |
| CustomerTraffic.HelloMovesTheSession | core/multiserver.go:129-163 | A hello the handshake accepts moves the session to its key and address and is acknowledged there; any other is ignored |
| CustomerTraffic.FrameIsSent | core/multiserver.go:173-191 | A frame goes out sealed for the session and numbered on, followed by the parity of its group if it completes it; without a session it is dropped and enters no group |
| CustomerTraffic.TickIsSent | core/multiserver.go:193-210 | A tick sends a keepalive with the share received, at most 100, resizes only between groups and collects exactly groups older than five seconds |
| CustomerTraffic.WorseMeansSmaller | core/fec.go:60-78 | A peer that receives worse is never sent larger groups; sixteen frames from 95 percent on, four below 80, and the configured size until it has reported |
| MultiServerLoop.LoadCustomers | core/customers.go:34-73 | A list is accepted exactly if it is not empty, nothing is missing, and names and session ids are distinct; otherwise it is refused for the first bad entry |
| MultiServerLoop.BuildStates | core/multiserver.go:67-77 | Every customer of an accepted list gets an entry of its own |
| MultiServerLoop.ListedRunAsIfAlone | core/multiserver.go:64-160 | From an accepted list, every listed customer runs as if alone from its own new state, whatever the others do |
| MultiServerLoop.ReceivedFrameIsWritten | core/multiserver.go:80-127 | A data message in an envelope of a customer, from its peer, is written to that customer's sink; no other customer is touched |
| MultiServerLoop.Server.Receive | core/multiserver.go:80-127 | One turn of the receive loop refines the step; short envelopes and unknown ids change nothing |
| MultiServerLoop.Server.TickRound | core/multiserver.go:193-210 | One round over the map refines the step for some order of its customers |
| MultiServerLoop.Server.Serve | core/multiserver.go:64-210 | Whatever comes in, in whatever order, the server goes through a run of the kind in which every customer is served as if alone, and sends what that run sends |
| Handshake.KeysAgree | core/multipath.go:57-86 | In every run against a network that replays, redirects and invents messages but cannot compute tags, whatever a client completed a server derived too: the same key for exactly this client's public key |
| Handshake.AcceptedMeansAgreed | core/handshake.go:93-122 | An acknowledgement that passes was computed by a server for this very client key, whichever public key sorts first |
| Handshake.OldAckIsRefused | core/multipath.go:29-86 | In every run, an acknowledgement of an earlier hello, to the same address or another, never completes an attempt made after it, whatever happens in between |
| Handshake.GivenUpIsOver | core/multipath.go:29-55 | In every run, an attempt that was given up is not completed, whatever arrives, until there is another |
| Handshake.CompletesTheLatest | core/multipath.go:57-86 | In every run, an acknowledgement that completes at an address binds the client key of the latest attempt at that address |
| Handshake.NoKeyCompletesTwice | core/multipath.go:29-86 | In every run, client keys pending or completed are all different, so none completes twice |
| Handshake.DeriveIsSymmetric | core/handshake.go:109-122 | The session key does not depend on which end is called the client |
| Handshake.SameKeyIff | core/handshake.go:109-122 | Two session keys are the same if and only if the shared secrets are and the pairs of public keys are |
| Handshake.KeysAreApart | core/handshake.go:109-122 | In every run, two handshakes of servers have one key if and only if they have one shared secret and one pair of public keys |
| Handshake.UntouchedCompletes | core/multipath.go:29-86 | In every run, whatever else happens, the acknowledgement of the pending attempt's own hello completes it if and only if the curve accepts the keys, with the key the server has |
| Handshake.ServersAnswerClients | core/handshake.go:58-71 | In every run, servers agree only with public keys that a client with the password generated |
| Handshake.AnythingSentCanArrive | core/multipath.go:29-86 | In every run, the network can deliver the hello of an attempt and a server's acknowledgement anywhere, at any later time and again and again |
| Handshake.StepKeeps | core/main.go:701-732 | Every step keeps the link from tags to the server that computed them |
| Handshake.Client.Begin | core/multipath.go:29-45 | The hello sent parses at the server to the key that is now pending for this address |
| Handshake.Client.Complete | core/multipath.go:57-86 | A session exactly if the acknowledgement fits the pending key; then the entry is gone, else it stays |
| Failover.SwitchIsConfirmed | core/multipath.go:103-163 | A switch means the target was the selected best in each of the last `confirm` rounds, none of which switched, and beats the active path by more than the margin |
| FailoverChoice.SwitchesIff | core/multipath.go:92-163 | In every run, a round switches to a candidate if and only if the active path is measured, the candidate is selected, it led the `confirm - 1` rounds before without a switch, it answered in each but the first of these rounds, and its handshake works |
| FailoverChoice.FailedIsNotBest | core/multipath.go:113-136 | A candidate whose probe failed is not selected while another answered within four seconds |
| FailoverChoice.FasterIsPreferred | core/multipath.go:121-136 | Of two that answered the slower is never selected, of equals never the one configured later |
| FailoverChoice.ClearIff | core/multipath.go:103-132 | A candidate is clearly better exactly if its round trip plus the margin is below the active one's with twenty milliseconds for every percent of loss, four seconds standing for a failed probe, or the active path is not measured yet |
| FailoverChoice.MoreLossKeepsTheBest | core/multipath.go:103-136 | More loss on the active path makes no clearly better candidate worse, and the selected one stays selected |
| FailoverChoice.EnoughLoss | core/multipath.go:103-132 | With enough loss every candidate that answers is clearly better |
| FailoverChoice.FailureClearsTheStreak | core/multipath.go:116-120 | A failed probe clears the counter before the round counts |
| Failover.SwitchesAreApart | core/multipath.go:103-163 | Two changes of the active server are at least `confirm` rounds apart |
| Failover.CounterIsStreak | core/multipath.go:103-163 | A counter never claims more than the streak of rounds behind it |
| Failover.Best | core/multipath.go:126-136 | The selected candidate is eligible, none eligible scores lower, and it is the first of equals |
| Failover.Client.Probe | core/multipath.go:107-124 | The loop scores all but the active candidate as the round theorems have it |
| Failover.Client.Select | core/multipath.go:126-136 | The loop finds the best of the specification |
| Failover.Client.Count | core/multipath.go:138-144 | The best's counter grows by one and all others but the active one's are cleared |
| Failover.Client.RunHealthChecks | core/multipath.go:92-163 | One round refines the step about which the run theorems speak |
| TokenBucket.WindowIsBounded | core/ratelimit.go:26-49 | In every run of polls by any callers, bytes granted from one poll to another are at most the capacity plus the fill rate times the time between |
| TokenBucket.RateIsMegabits | core/ratelimit.go:16-49 | A bucket made for so many megabits a second grants no more than these for every second from one poll to another, and one second's more |
| TokenBucket.SecondsWorthIsGranted | core/ratelimit.go:16-49 | And grants every poll that comes a second after the last one and asks for no more than a second's bits |
| TokenBucket.PollKeeps | core/ratelimit.go:28-40 | The level stays between 0 and the capacity |
| TokenBucket.SleepHelps | core/ratelimit.go:41-47 | After the sleep either the request is granted or a quarter second's worth of the deficit is gone |
| TokenBucket.SleepIsNotTooLong | core/ratelimit.go:41-47 | No sleep is longer than a quarter second, and at no time before its end would the request have been granted |
| TokenBucket.TooLargeIsNeverGranted | core/ratelimit.go:26-49 | A request above the capacity is refused at every time |
| TokenBucket.Limiter.Wait | core/ratelimit.go:26-49 | A single caller asking for no more than the capacity gets it after a bounded number of sleeps, at most four with the bucket `newTokenBucket` makes, however late it wakes |
| TokenBucket.Limiter.Turn | core/ratelimit.go:28-40 | The locked part refines the poll |
| IcmpChecksum.FilledChecksumIsZero | core/transport_icmp.go:17-30 | For every message of any length, odd or even, putting its checksum into a word that was zero makes its checksum zero, even where the 32-bit sum wraps |
| IcmpChecksum.MeetsStandard | core/transport_icmp.go:17-30 | Up to 131074 bytes the checksum is the complement of the end-around-carry sum of section 1 of RFC 1071 |
| IcmpChecksum.FoldedIsOnesSum | core/transport_icmp.go:17-30 | Summing first and folding at the end is adding with end-around carry throughout |
| IcmpChecksum.OneWordIsDetected | core/transport_icmp.go:17-30 | A change of one word of a valid message shows in the checksum, except between 0 and 0xFFFF |
| IcmpChecksum.AddWords | core/transport_icmp.go:18-25 | The loop leaves the sum of all words modulo 2^32 |
| IcmpChecksum.Fold | core/transport_icmp.go:26-28 | The fold loop ends, with the residue that 16 bits with end-around carry would hold |
| IcmpChecksum.Compute | core/transport_icmp.go:17-30 | The whole function, for every buffer |
| IcmpChecksum.EchoRequest | core/transport_icmp.go:144-156 | The message sent is an echo request with the payload behind the header whose checksum a receiver recomputes to zero |
| NodeHash.SameBytesIffSameContent | panel/node/hash.go:26-81 | Two desired states feed the same bytes to the hash only if they are equal up to the order of inbounds, generation and hash ignored, and always then if no two different inbounds share an id |
| NodeHash.FieldsInjective | panel/node/hash.go:26-81 | The field list can be taken apart although no count separates inbounds from certificates |
| NodeHash.NoInboundAmongCerts | panel/node/hash.go:35-66 | An inbound's fields can never be read as certificate entries, because certificate names are sorted and no number text precedes a truth value's text the right way |
| NodeHash.OneOrder | panel/node/hash.go:29-60 | The same content is written in one order only, if no two different inbounds share an id |
| FieldCode.JoinInjective | panel/node/hash.go:77-81 | Length-prefixed fields can be taken apart, whatever bytes they hold |
| NodeHash.SortInbounds | panel/node/hash.go:29-33 | Sorted by id and a permutation |
| NodeHash.SortNames | panel/node/hash.go:54-60 | Sorted, and exactly the names of the map |
| NodeHash.WriteInbounds | panel/node/hash.go:35-52 | The loop feeds the fields of the specification |
| NodeHash.HashState | panel/node/hash.go:26-69 | What is hashed is the canonical byte string of the state |
| NodeHash.OneFingerprintIff | panel/node/hash.go:26-69 | Every state feeds some bytes to the hash, and always the same ones if and only if no two different inbounds share an id |
| GenerationGate.GateIsHighestCommitted | panel/node/server.go:81-115 | In every interleaving the gate is the maximum of its start value and all generations committed |
| GenerationGate.GateNeverFalls | panel/node/server.go:109-113 | The gate only rises over a run |
| GenerationGate.LetInIffNewer | panel/node/server.go:88-98 | A request is let in exactly if its generation is above the start value and all generations committed by then, so a replay is refused and a failed one can be tried again |
| GenerationGate.FailedIsNotApplied | panel/node/server.go:100-107 | In every run, a request whose state could not be applied is in no log and moves no gate, then or later |
| GenerationGate.RisingIffOverlapsRise | panel/node/server.go:81-115 | States are applied in strictly rising order exactly if every applied request is newer than those it overlapped |
| GenerationGate.OneAtATimeRises | panel/node/server.go:81-115 | With one request at a time, states are applied in strictly rising order |
| GenerationGate.OlderStateCanWin | panel/node/server.go:81-115 | A run in which the older of two overlapping states is applied last while the gate stands at the newer |
| GenerationGate.StepKeeps | panel/node/server.go:81-115 | Every step of an interleaving keeps the invariant of gate, phases and log |
| GenerationGate.Server.HandleApply | panel/node/server.go:81-115 | Undisturbed, the handler answers conflict, error or success and moves the gate exactly on success |
| IndexTable.IndicesAreUnique | panel/awgsrc/src/peerlookup.c:119-226 | In every interleaving of inserts, replaces and removes no two hashed entries share an index, and lookup of an index finds exactly the entry that has it if its type is wanted |
| IndexTable.StepKeeps | panel/awgsrc/src/peerlookup.c:119-198 | Every unlocked or locked step keeps each entry in its index's bucket and indices distinct, although the unlocked search may be wrong |
| IndexTable.StepDoes | panel/awgsrc/src/peerlookup.c:119-211 | In every interleaving, each step hashes and unhashes just the entries it is meant to and gives just these their index, and an insert that finds its index taken under the lock searches on |
| IndexTable.LookupFindsTheEntry | panel/awgsrc/src/peerlookup.c:201-226 | The bucket scan finds the hashed entry of an index and nothing else |
| IndexTable.ReplacedKeeps | panel/awgsrc/src/peerlookup.c:166-190 | The new entry takes over index and place, the old one is unhashed, others stay |
| IndexTable.CommittedKeeps | panel/awgsrc/src/peerlookup.c:141-159 | The locked recheck hashes the entry exactly if its index is free |
| IndexTable.Hashtable.Insert | panel/awgsrc/src/peerlookup.c:119-164 | Undisturbed, the entry is hashed exactly if some drawn index is free, under the first that is, and no other entry moves |
| IndexTable.Hashtable.ReplaceEntry | panel/awgsrc/src/peerlookup.c:166-190 | Refines the replace step; false exactly if the old entry was not hashed |
| IndexTable.RemovedKeeps | panel/awgsrc/src/peerlookup.c:192-198 | A remove unhashes the entry, leaves every other entry as it was, and does nothing to an entry that is not hashed |
| IndexTable.Hashtable.Lookup | panel/awgsrc/src/peerlookup.c:201-226 | The loop finds what the specification finds |
| JunkTags.TagsRoundTrip | panel/awgsrc/src/junk.c:184-233 | Every list of tags has a description, and it parses to that list: same tags, order, bytes and sizes |
| JunkTags.ItemRoundTrip | panel/awgsrc/src/junk.c:11-182 | So does every single tag |
| JunkTags.HexPairIsKstrtou8 | panel/awgsrc/src/junk.c:31-39 | Pairs of characters are read as a reference kstrtou8 in base 16 reads them, plus sign and newline included |
| JunkTags.HexInAnyCase | panel/awgsrc/src/junk.c:31-39 | Hexadecimal letters count alike in either case |
| JunkSpec.LaidOutIffSane | panel/awgsrc/src/junk.c:282-319 | Where the size check passes, every tag has its own span of the packet exactly if no size is negative and the total does not wrap |
| JunkSpec.NegativeSizeIsMislaid | panel/awgsrc/src/junk.c:108-127 | A description that parses and passes the size check but is laid out before the start of the packet |
| JunkSpec.SpansApart | panel/awgsrc/src/junk.c:304-319 | Spans of different tags do not meet and follow textual order |
| JunkSpec.RegionsAreSpans | panel/awgsrc/src/junk.c:304-319 | Each modifier region is the span of a modifier tag |
| JunkSpec.RegionsApart | panel/awgsrc/src/junk.c:304-319 | Modifier regions are in order and disjoint |
| JunkSpec.FillKeepsFixed | panel/awgsrc/src/junk.c:332-341 | Rewriting a region leaves all fixed bytes as decoded |
| JunkSpec.ImageIntact | panel/awgsrc/src/junk.c:304-319 | In the compiled packet every fixed tag's span holds its bytes |
| JunkSpec.ParseList | panel/awgsrc/src/junk.c:184-233 | The parser accepts what the grammar accepts and leaves the tags last first |
| JunkSpec.Spec.Compile | panel/awgsrc/src/junk.c:304-319 | The second pass over the reversed list stays inside the packet exactly for sane sizes, and then writes the tags in textual order and fills the packet exactly |
| JunkSpec.Spec.Setup | panel/awgsrc/src/junk.c:250-330 | For every description: refused exactly if it does not parse or its wrapped total is above the maximum; laid out within the packet exactly if no size is negative and the total does not wrap, and then the packet is the concatenation of the tags and the regions are the modifiers' spans |
| JunkSpec.Spec.ApplyMods | panel/awgsrc/src/junk.c:332-341 | Any number of calls leaves fixed bytes as decoded and every region holding what its modifier wrote, the counter and the time as four bytes, most significant first |
| MagicHeader.AcceptedRun | panel/awgsrc/src/device.c:558-614 | After any series of requests whose last one was accepted no number has two message types, and generated headers of a type have exactly that type if and only if its range is the right way round |
| MagicHeader.ExtendedIff | panel/awgsrc/src/netlink.c:804-838 | In every run the extended protocol is on if and only if some request has set a parameter of it, and from then on no request is accepted whose checks fail or whose ranges meet |
| MagicHeader.OwnTypeIffTexts | panel/awgsrc/src/netlink.c:804-838 | After any series of requests whose last one was accepted, generated headers of a type have exactly that type if and only if the last start that the texts for its range have set is not above the last end they have set |
| MagicHeader.RangeIsLastSet | panel/awgsrc/src/netlink.c:804-838 | A range is at every point the last start and the last end that the texts which reached it have set, refused ones included |
| MagicHeader.OneTextOrders | panel/awgsrc/src/magic_header.c:8-32 | When one text leaves a range the right way round, by what of it can be read |
| MagicHeader.ReadableTexts | panel/awgsrc/src/magic_header.c:8-32 | A series of texts that can all be read leaves its range the right way round |
| MagicHeader.RefusedTextTurnsTheRange | panel/awgsrc/src/magic_header.c:8-32 | A refused request followed by an accepted one after which initiations do not have the type of initiations |
| MagicHeader.SpecRoundTrip | panel/awgsrc/src/magic_header.c:8-38 | Reading back a printed range gives the range, accepted exactly if it is the right way round, whatever was there before |
| MagicHeader.SpecFits | panel/awgsrc/src/magic_header.c:34-38 | A printed range and its terminator fit the 32-byte buffer |
| MagicHeader.ClearIffUnambiguous | panel/awgsrc/src/device.c:606-614 | For ranges the right way round the pairwise check refuses exactly those in which some number has two types |
| MagicHeader.GeneratedInRange | panel/awgsrc/src/magic_header.c:40-47 | A draw lands in the range exactly if the range is the right way round and is not all 32-bit numbers |
| MagicHeader.Device.constructor | panel/awgsrc/src/device.c:341-356 | The defaults are the four plain message types |
| MagicHeader.Device.ParseInto | panel/awgsrc/src/magic_header.c:8-32 | The fields it leaves and its verdict, failures included |
| MagicHeader.Device.CheckHeaders | panel/awgsrc/src/device.c:606-614 | The nested loops accept exactly ranges that do not meet, and never ranges that are ambiguous |
| MagicHeader.Device.Configure | panel/awgsrc/src/netlink.c:804-838 | One request refines the step about which the run theorems speak |
| StartUp.TwiceIsOnce | panel/database/db.go:476-494 | Two starts leave the database of one start if and only if it is not the case that there were no users and a seeder history without the password seeder |
| StartUp.MarkIsLost | panel/database/db.go:319-356 | From that state the second start hashes the default administrator's password again |
| StartUp.RoundsAfterStart | panel/database/db.go:72-95 | After a start the default administrator's password was hashed once, and every other account's once more exactly if the password seeder was not on record |
| StartUp.StartAchieves | panel/database/db.go:107-316 | After a start there is a super admin (the lowest id, only if there was none), every inbound has an existing owner and a placement, existing owners, placements and nodes stay, and new placements are only for unplaced inbounds, on the first local node |
| StartUp.SecretIsMoved | panel/database/db.go:138-176 | A shared second factor ends with the first super admin, unless that account has its own, and is cleared from the settings |
| StartUp.NoSecretStays | panel/database/db.go:138-176 | Without a shared second factor that is switched on and not empty, settings and second factors stay |
| StartUp.OwnersGetAccess | panel/database/db.go:221-252 | With an empty access table each ordinary owner, and nobody else, has access to the own inbounds; otherwise the table stays |
| StartUp.StagesSettle | panel/database/db.go:107-316 | The steps in this order leave nothing for any of them to do |
| StartUp.AdminAchieves | panel/database/db.go:72-95 | Afterwards there is an account; existing accounts stay as they are, and the default one is an enabled super admin with a password hashed once |
| StartUp.SuperAchieves | panel/database/db.go:107-126 | The super admins are those there were, or else the account with the lowest id, which is enabled; no other account changes |
| Database.Tables.MigrateGlobalTwoFactor | panel/database/db.go:138-176 | Refines its step, clearing the settings also when the account has its own second factor |
| Database.Tables.MigrateInboundAccess | panel/database/db.go:221-252 | The loop, in any order of inbounds, grants the set of the specification |
| Database.Tables.SeedLocalNode | panel/database/db.go:270-316 | The loop, in any order, places exactly the inbounds that had no placement |
| Database.Tables.RunSeeders | panel/database/db.go:319-356 | Passwords are hashed once more exactly if the seeder is not recorded and there were users |
| Database.Tables.Init | panel/database/db.go:476-494 | The whole start refines the function about which the lemmas speak |

## Left out

- AES-GCM, SHA-256, HMAC, X25519 and TLS: parameters with the laws the proofs need; tags are symbolic.
- Sockets, TUN/TAP, raw ICMP reads, SSH, systemd, the web interface, subscription links and updaters.
- RCU, reference counts, the `seq` counter and `wg_allowedips_read_node` of the trie: lookups and locked sections are single steps.
- The byte-level form of `choose` and the copying of keys: keys are sequences of 32 or 128 bits.
- The "accept" strategy of the device slots, its oldest-lease fallback and the eviction by management socket: other processes and their timing.
- Parsing of block and status files, accounts without a published block and the one-device path: the block of an account and the status set are inputs.
- OvpnSafety.UserLimitHolds: assumes that status lags at most 5 s, that a dial completes within the grace less that lag, that session keys are not reused, that blocks of accounts are disjoint, and that connects of one account on the two transports do not overlap; `OvpnSafety.OverlapExceedsIff` and `OvpnDialling.DialBoundIsExact` are exact about overlap and dials.
- FecRun.OnlySentFramesArrive: for runs that do not complete 2^32 - 1 groups, so that no 32-bit group id repeats, because a repeated id mixes two groups; `FecTorn.TornRunsAreSafeIff` is exact about torn sends.
- FecRecovery.RecoversExactlyTheMissing: for data packets alone; `FecTimes.WritesWhatDidNotCome` has collection, resizes and other parities in between.
- Tunnel.TunnelDelivers: envelopes arrive in order and the receiving end does not tick in between, because a collection in the middle of a group can make its parity write a frame twice; `FecTimes` has loss, order and time.
- Exactly-once delivery in the tunnel: the code does not suppress a repeated packet or a late original.
- A sealed body whose first byte equals a handshake type: counts as a lost packet.
- The token bucket of a customer's sink reader and `quality.Current`: the first only delays, the second is never updated.
- Customer.SendsToOwnPeer: each step of a customer is atomic. The program loads the session, may wait in the bucket, and then sends, so an envelope sealed before a new hello can still go to the peer of the session it was sealed for.
- `activateFirstReachable`, which moves the active server outside the rounds of `Failover`.
- Handshake.KeysAgree: assumes that ephemeral client keys do not repeat and that both ends of the curve compute one secret (section 6.1 of RFC 7748).
- IndexTable.IndicesAreUnique: one caller inserts an entry at a time and a replace gets an entry not in use, as all callers in the repository do; lookups are single steps.
- JunkSpec.Spec.Setup: does not say what is written outside the packet once the layout leaves it; allocations while parsing succeed, the two of the packet may fail.
- Junk packet counts and sizes and the other checks of `wg_device_handle_post_config`: one flag of a request.
- GenerationGate.OneAtATimeRises: one direction only; `GenerationGate.RisingIffOverlapsRise` gives the exact condition.
- Database errors, renamed protocol slugs, legacy file moves, columns that no step reads, and a claim that revoked access stays revoked: the access step acts again when its table is empty.
- Rounding of floating-point numbers: scores, tokens and times are reals or integers.
- Whole-run theorems over classes for components other than the trie: the classes refine the steps the run theorems are about.
