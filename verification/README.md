# A verified model of the RT5572 access point

This project models the access-point side of the Ralink RT5572 driver (`rt5572/ap`, with the parts of `rt5572/common`,
`rt5572/include` and `rt5572/os/linux` that it relies on) and proves what the driver is for: that no packet is lost on its
way to a sleeping station and none overtakes another, that the beacon tells stations about their packets, that nobody is let
in without having authenticated, that the frames and elements it builds can be taken apart again, and that its statistics and
choices are what they claim to be.

`dafny verify dfyconfig.toml` checks the whole project.

## The state machine

`Types.dfy`, `MacTable.dfy` and `Steps.dfy` describe the adapter as a value and every handler as a step of one state machine:
sending, PS-Poll, data and action frames, authentication, association, deauthentication, disassociation, kick-out, the
access-control commands, the one-second sweep, multicast at a DTIM, dequeuing to the hardware and transmit status.  `Run` and
`Exec` are finite runs of such steps.  Each theorem about runs speaks of all runs from any initial adapter:

- `PowerSave.dfy`, `TimConverse.dfy`: the traffic indication map against the power-save queues, in both directions;
- `Conservation.dfy`: every packet is in exactly one place; a PS-Poll releases the oldest packet;
- `DeliveryOrder.dfy`: packets of a station stay in order up to the hardware, and exactly when they do not;
- `Delivery.dfy`: what reaches the hardware, in which order, and which packets are dropped;
- `Dtim.dfy`: multicast delivery;
- `Membership.dfy`: the access control list, unique addresses, station counts;
- `AuthSafety.dfy`: how every authenticated or associated station got there;
- `Outcomes.dfy`: the converse: exactly when a station is let in, challenged, associated or removed;
- `Ageing.dfy`, `Sweeps.dfy`: the sweep, that silent stations go, and what it takes to stay.

`Adapter.dfy` is the adapter as the driver has it: a class whose methods update arrays and queues in place, loop where the
driver loops, and are each proved to compute the step of the state machine.  `AclConfig.dfy` does the same for the list of an
access control command, with `AclList.dfy` as its specification.

## Frames, elements and statistics

- `TimElement.dfy`: the TIM element written into the beacon, and the DTIM counter;
- `Fragment.dfy`: fragmentation, reassembly and the estimate of the number of fragments;
- `Amsdu.dfy`: A-MSDU aggregation, the standard's de-aggregation and the driver's own;
- `HeaderCache.dfy`: the cached header of A-MPDU frames against building it anew;
- `Edca.dfy`, `AssocRsp.dfy`: the EDCA set and the association response, printed and parsed;
- `AssocReq.dfy`: the association request as the access point parses it;
- `Qload.dfy`: QBSS load, the alarm and the channel utilisation;
- `ChannelSel.dfy`: channel selection;
- `InfoElements.dfy`, `Octets.dfy`, `Bytes.dfy`, `Arith.dfy`, `Wrappers.dfy`: elements, octets, division and shared definitions.

## Where the code does not do what it should

Each of these is stated as an if and only if, or with an example:

- Re-association (`ap/ap_assoc.c:592`) makes a station active and leaves its packets in the power-save queue; the next packet
  then overtakes them (`DeliveryOrder.ReassociationOvertakes`, `DeliveryOrder.OvertakingRun`).  Authentication of a station that
  is already associated does the same by taking its association away (`DeliveryOrder.AuthenticationOvertakes`).
- The scan of the TIM bitmap uses 0 for "none yet" (`ap/ap_connect.c:372`), so that AIDs 1 to 7 can be left out of the
  beacon (`TimElement.FaithfulIff`, `TimElement.TruncatedExample`).
- Deleting a station leaves its TIM bit and its station state behind (`TimConverse.DeletionLeavesMark`,
  `AuthSafety.FreedSlotPasses`).
- With beacon periods from 329 on, the 32-bit channel utilisation can wrap around (`Qload.UtilisationExactIff`,
  `Qload.LongPeriodWrong`, `Qload.LongPeriodExample`).
- The driver's own A-MSDU de-aggregation overwrites the first octets of a payload without an LLC header, and drops packets
  by their size (`Amsdu.PassedUpUnchanged`, `Amsdu.DriverRoundTrip`, `Amsdu.EthernetRoundTrip`).
- In channel selection a scanned BSS on an unlisted channel counts as standing behind the end of the list, because the test
  for a negative index never succeeds; and the weights below a gap in the channel list go on where those above stop
  (`ChannelSel.LocalIff`, `ChannelSel.UnlistedBss`, `ChannelSel.GapBelow`).
- The parser of association requests copies an RSN element without an upper bound on its length (`ap/ap_sanity.c:308-314`): the
  255 octets of its buffer and the octet in which the length is recorded are enough for bodies of up to 253 octets
  (`AssocReq.AlwaysBounded`, `AssocReq.LongRsnExample`, `AssocReq.LongRsnNotAssociated`).
- The same parser compares up to five octets of a vendor element whatever its length, and forgets extended rates that come
  before the supported rates (`AssocReq.ShortVendorIff`, `AssocReq.ContextIff`, `AssocReq.ExtendedRatesLost`).
- The duration field of a fragment leaves out the header and CRC of the next one unless a full threshold of payload remains
  (`Fragment.DurationCoversNext`).

The model follows the code in all of them.

## What is assumed

- A handler is one atomic step: locks, interrupts and timers are not part of the model.
- A frame reported with a WCID inside the table comes from the client in that slot; all other numbers lie outside the table
  (`Steps.FrameFrom`).  A packet to a group address is sent with the multicast WCID.
- The build has 802.11n and the QLOAD alarm; UAPSD, IGMP snooping, WDS, mesh, hostapd, vendor features and software encryption
  are off.  Memory allocation succeeds.
- Addresses and challenge texts are numbers compared for equality.  Random bytes, the clock, busy-time registers and the
  outcome of checks on rates, security elements and the shape of association requests are parameters of the events.
- The logs `given`, `released`, `hw` (one for each ring of the hardware) and the set `more` are history; `more` stands for the MoreData mark of a packet.

## Model

| member | source | states |
|---|---|---|
| `PowerSave.TimAgreement` | rt5572/ap/ap_data.c:4615-4660 | In every state reachable from an initial one, a slot with a non-empty power-save queue holds a client and its AID bit is set in the bitmap of its BSS; no station queue exceeds 128 packets and the multicast queue never exceeds 32 |
| `Types.TimBitSet` | rt5572/include/rtmp.h:1300-1305 | Setting an AID marks it and leaves every other AID of the map as it was |
| `Types.TimBitClear` | rt5572/include/rtmp.h:1294-1299 | Clearing an AID unmarks it and leaves every other AID of the map as it was |
| `TimConverse.StaleExplained` | rt5572/ap/ap.c:1059-1065 | Converse of the TIM agreement over whole runs: a mark without packets goes back to an earlier event at which keep-alive probed a sleeping station of that slot or the client of that slot was deleted by that event together with its packets, and the mark has been stale ever since |
| `TimConverse.ProbeMarks` | rt5572/ap/ap.c:993-1083 | The first cause is real: whenever in a reachable state the sweep probes a sleeping station with an empty queue, its mark is stale after the sweep |
| `TimConverse.DeletionLeavesMark` | rt5572/common/cmm_data.c:2548-2728 | The second cause is real: deleting a station with packets always leaves its mark behind |
| `Conservation.PacketsConserved` | rt5572/ap/ap_data.c:470-584 | Over every run each packet given to APSendPacket occurs exactly once in all of the released packets, the packets passed to the hardware, the power-save queues, the multicast queue and the transmit queues together; nothing else occurs there |
| `Conservation.PsPollReleasesOldest` | rt5572/ap/ap_data.c:2692-2776 | In every reachable state a PS-Poll moves exactly the oldest packet, with MoreData set exactly when others remain, leaves the TIM bit set exactly in that case, states the whole new entry and touches no other station |
| `DeliveryOrder.OrderKept` | rt5572/common/cmm_data.c:1109-1400 | Over every run in which no authentication or association frame finds packets waiting for its sender, the packets of each station that the best-effort ring of the hardware has got, followed by those in the best-effort transmit queue and those in its power-save queue, are in the order in which they were sent |
| `Delivery.RingInOrder` | rt5572/common/cmm_data.c:1109-1400 | Over every run, disturbed or not, every other ring has got its packets in send order, and those waiting for it will follow in that order |
| `Delivery.WakeUpDelivers` | rt5572/ap/ap.c:1414-1459 | In every reachable state, when a sleeping station shows that it is awake and the best-effort queue is then served with any outcomes, the hardware gets, in order, exactly the successfully dequeued ones of the packets that waited before and those buffered for the station; the others are released, none is marked MoreData and the station is not announced any more |
| `Delivery.SendFate` | rt5572/ap/ap_data.c:229-584 | The exact fate of a packet: it is released at once if and only if it is malformed, has no receiver in the table, meets a port that is not open or finds its queue full; otherwise it takes its place in the multicast queue, the power-save queue or its transmit queue, is announced if it has to wait, and nothing else changes |
| `Delivery.NotCarriedNeverSent` | rt5572/ap/ap_data.c:330-365 | Over every run, a packet released at once, in particular ordinary data for a station whose port is not open, never gets to a queue or the hardware afterwards |
| `Delivery.CarriedNotLost` | rt5572/ap/ap_data.c:470-584 | Over every run, a packet that was accepted has not been released, and is in a queue or with the hardware, as long as only steps follow that are not meant to drop packets: accepted sends, PS-Polls, wake-ups, frames of associated stations, associations, DTIMs, successful dequeues, transmit reports |
| `Delivery.PsPollOtherwise` | rt5572/ap/ap_data.c:2639-2790 | A PS-Poll from an address other than that of the slot changes nothing, and one without buffered packets moves none and leaves the station unannounced |
| `DeliveryOrder.NextPacketInOrder` | rt5572/ap/ap_data.c:534-575 | The next accepted packet keeps the order if and only if the station has no packets buffered or is asleep |
| `DeliveryOrder.AssociationSettles` | rt5572/ap/ap_assoc.c:585-600 | A successful association leaves a station with buffered packets only while it sleeps if and only if nothing was waiting: it sets the station active without moving its packets |
| `DeliveryOrder.ReassociationOvertakes` | rt5572/ap/ap_assoc.c:592 | After any re-association, the next accepted packet stays in order if and only if no packets were waiting |
| `DeliveryOrder.AuthenticationSettles` | rt5572/ap/ap_auth.c:301-338 | An authentication frame leaves packets buffered for a station that does not count as asleep if and only if it readmits a station with packets waiting |
| `DeliveryOrder.AuthenticationOvertakes` | rt5572/ap/ap_auth.c:301-338 | After any authentication frame, the next accepted packet stays in order if and only if the frame did not readmit the station with packets waiting |
| `DeliveryOrder.OvertakingRun` | rt5572/ap/ap_assoc.c:592 | A concrete run from an initial state (authenticate, associate, doze, send, re-associate, send) that ends with two packets in the wrong order |
| `DtimDelivery.DtimLoopMoves` | rt5572/os/linux/rt_profile.c:361-382 | What the loop moves, leaves behind and marks, as a closed form: as many packets as the queue limit admits, reversed in front of the best-effort packets, all marked MoreData but the one taken first |
| `DtimDelivery.DtimInOrder` | rt5572/os/linux/rt_profile.c:351-396 | In every reachable state the packets moved at a DTIM stand in send order before the best-effort packets, they are newer than all that stay behind, and if none stays behind no BSS announces multicast any more |
| `DtimDelivery.DtimMoreData` | rt5572/os/linux/rt_profile.c:366-373 | Each multicast packet moved at a DTIM is marked MoreData exactly when another one of the same batch follows it |
| `TimElement.RoundTrip` | rt5572/ap/ap_connect.c:353-395 | Decoding the emitted element by section 7.3.2.6 of IEEE 802.11-1999 reports an AID exactly when its bit is set, for a map of any length, except AIDs 1 to 7 of a truncated map (octet 0 marked, octet 1 zero, a later octet marked); bit 0 only in a DTIM; the offset is even and the length octet is exact |
| `TimElement.FaithfulIff` | rt5572/ap/ap_connect.c:361-377 | All AIDs are reported faithfully if and only if the map is not truncated |
| `TimElement.TruncatedExample` | rt5572/ap/ap_connect.c:372-373 | A map in which stations 1 and 16 have packets but only station 16 is told |
| `TimElement.Shortest` | rt5572/ap/ap_connect.c:379-390 | When the map is not truncated, every larger even offset would leave out a marked octet |
| `TimElement.BeaconAnnounces` | rt5572/ap/ap_connect.c:346-398 | In every reachable state the beacon announces the packets of a station if and only if its AID is above 7 or the map is not truncated |
| `TimElement.DtimEveryPeriod` | rt5572/ap/ap_connect.c:965-968 | From any counter value and for any period but 0, beacon k is a DTIM exactly when k is at least the counter and differs from it by a multiple of the period |
| `TimElement.Beacon.Scan` | rt5572/ap/ap_connect.c:357-383 | The scan loop finds the last marked octet and the first one rounded down to an even octet |
| `TimElement.Beacon.UpdateTim` | rt5572/ap/ap_connect.c:346-398 | Writes exactly the specified element at the location in the frame, changes no other octet and advances the length by the length of the element |
| `TimElement.Beacon.CountDown` | rt5572/ap/ap_connect.c:965-968 | The DTIM counter step on eight bits |
| `Fragment.FragmentationSound` | rt5572/ap/ap_data.c:2145-2274 | For any payload and any sufficient threshold: the bodies joined are the LLC header and payload; MoreFrag is clear on the last fragment only; all others are exactly FragmentThreshold octets with CRC and carry equal shares; numbers count up modulo 16; the number of fragments is the number of started shares |
| `Fragment.RoundTrip` | rt5572/ap/ap_data.c:2145-2274 | Reassembly by section 9.5 of IEEE 802.11-1999 gives back the MSDU if and only if it was cut into at most 16 fragments |
| `Fragment.AtMostSixteen` | rt5572/common/cmm_info.c:937-976 | With the smallest threshold that can be configured, 16 fragments suffice for the largest MSDU |
| `Fragment.DurationCoversNext` | rt5572/ap/ap_data.c:2166-2190 | The duration makes room for the remaining payload, at most a threshold: for the whole next fragment if and only if at least a threshold of payload remains |
| `Fragment.EstimateExact` | rt5572/ap/ap_data.c:423-431 | The estimate of APSendPacket is the number of fragments produced, or one more exactly when the MSDU is a multiple of the share |
| `Fragment.TxBlk.Round` | rt5572/ap/ap_data.c:2145-2274 | One round of the loop: appends the specified fragment and takes exactly its octets off the source |
| `Fragment.TxBlk.Transmit` | rt5572/ap/ap_data.c:1885-2274 | The loop sends exactly the specified fragments and leaves the number of the last one in TotalFragNum |
| `Amsdu.RoundTrip` | rt5572/ap/ap_data.c:1454-1543 | De-aggregation by section 8.3.2.2 of IEEE 802.11-2012 returns the addresses and LLC header plus data of exactly the packets that were not released, in order, for any list of packets |
| `Amsdu.BodyLength` | rt5572/ap/ap_data.c:1470-1490 | The body is as long as its subframes and pads; every subframe but the last is padded so that the last one starts at a multiple of 4 |
| `Amsdu.OnAir` | rt5572/ap/ap_data.c:1480-1560 | A subframe octet by octet: addresses, length with its high octet first, the LLC header of the bridge tunnel for IPX and AppleTalk types and of 802.1H for others, none for lengths, data, and zeros up to a multiple of 4 |
| `Amsdu.DriverRoundTrip` | rt5572/common/cmm_data.c:1938-2105 | The de-aggregator of the driver passes up every packet that was not released if and only if all payloads but the last have 15 to 1514 octets and the last 1 to 1518 |
| `Amsdu.PassedUpUnchanged` | rt5572/include/rtmp.h:457-488 | A frame survives aggregation and the driver's de-aggregation unchanged if and only if it carries a type; with a length field, octets of its data are overwritten |
| `Amsdu.EthernetRoundTrip` | rt5572/common/cmm_data.c:1938-2105 | Aggregation and the driver's own loop give back exactly the Ethernet frames of the packets that were not released, in order, if and only if the payload sizes are accepted and every frame carries a type |
| `Amsdu.AmsduTx.AddSubframe` | rt5572/ap/ap_data.c:1454-1543 | Adds the padding of the subframe before, then subframe header, LLC header and data, and counts exactly the octets added, modulo 65536 |
| `Amsdu.AmsduTx.Transmit` | rt5572/ap/ap_data.c:1429-1615 | Releases exactly the packets that fail, writes exactly the body of the others, and totalMPDUSize is the header plus the octets written |
| `Amsdu.Deliver` | rt5572/common/cmm_data.c:1938-2105 | The de-aggregation loop over the buffer passes up the specified Ethernet frames |
| `HeaderCache.CacheExact` | rt5572/ap/ap_data.c:1103-1127 | Over any run of A-MPDU and other frames to one station, the cached path emits the header that would be built anew if and only if receiver, BSSID, protection and QoS are those of the frame that filled the cache and an HT control field present then is still present |
| `HeaderCache.CacheRefines` | rt5572/ap/ap_data.c:763-918 | With unchanged settings the cached path and the plain one emit identical headers over every run |
| `HeaderCache.HeadersTell` | rt5572/ap/ap_data.c:763-913 | Over every run, field by field: a header built anew has the receiver in Addr1, the BSSID in Addr2, the source in Addr3 and MoreData, protection, QoS and Order of its frame; one from the cache has receiver, BSSID, protection and QoS of the frame that filled it and the rest of its own |
| `HeaderCache.SteadyHeadersTell` | rt5572/ap/ap_data.c:1075-1240 | With unchanged settings every header of a run, cached or not, has exactly the addresses, MoreData, protection, QoS and Order of its own frame |
| `HeaderCache.Consecutive` | rt5572/ap/ap_data.c:784-860 | On both paths the sequence numbers of each priority are consecutive modulo 4096 |
| `HeaderCache.ForcedConsecutive` | rt5572/ap/ap_data.c:840-860 | Frames forced to go without QoS are numbered consecutively modulo 4096 by a counter of their own |
| `HeaderCache.MacEntry.AmpduFrameTx` | rt5572/ap/ap_data.c:1073-1360 | The frame sent and the new cache and counters are those of the specification, the cache being filled by the first frame |
| `AuthSafety.WasAuthenticated` | rt5572/ap/ap_auth.c:248-374 | Over every run, a station that is authenticated or associated was let in by an accepted open-system request or an echoed challenge for the same slot, address and BSS, and has been there and so ever since |
| `AuthSafety.WasAssociated` | rt5572/ap/ap_assoc.c:1078-1125 | Over every run, an associated station was let in, then sent an association request that succeeded while it was authenticated or associated in the same BSS, and has been associated ever since |
| `AuthSafety.SharedKeyEchoed` | rt5572/ap/ap_auth.c:423-491 | In a shared-key-only BSS every authenticated or associated station has echoed, in a WEP frame, the challenge last issued to it, although only one challenge is stored for all; none has been issued to it since |
| `AuthSafety.StoredIsLast` | rt5572/ap/ap_auth.c:340-366 | The one stored challenge is always the last one issued to the station it is stored for |
| `AuthSafety.StepLineage` | rt5572/ap/ap_assoc.c:1078-1125 | No single step but a grant admits a station, and none makes it associated but its own association request while it is admitted |
| `AuthSafety.ClassFilterSound` | rt5572/ap/ap_data.c:2603-2629 | In every reachable state a ToDS data frame passes the class filter if and only if its sender is in the table and associated; it then sent an association request that succeeded and has been associated ever since |
| `AuthSafety.FreedSlotPasses` | rt5572/common/cmm_data.c:2548-2728 | Deletion leaves the station state behind: a freed slot passes the filter exactly if its station was associated |
| `AuthSafety.ListsSound` | rt5572/ap/ap_cfg.c:4170-4385 | After any run an access control list fits its array and has no duplicates if that was so at first |
| `Outcomes.RequestOutcome` | rt5572/ap/ap_auth.c:200-374 | Converse of the grants, in every reachable state: a sender that the list admits, whose algorithm goes with the mode and that has a slot in the BSS or can get one (BSS not full, fewer than 31 stations) is authenticated by an open-system request and challenged, with the nonce stored for it, by a shared-key request, in its own slot or as a newcomer; every other sender is removed; no other station notices, and a request to no BSS or one that is down does nothing |
| `Outcomes.ConfirmOutcome` | rt5572/ap/ap_auth.c:378-491 | In every reachable state a station that echoes the stored challenge to its own BSS in a WEP frame is authenticated, and every other sender of a confirmation is removed; no other station notices |
| `Outcomes.OtherFramesIgnored` | rt5572/ap/ap_mlme.c:337-357 | Authentication frames of any other sequence number, and confirmations of another algorithm, do nothing |
| `Outcomes.AssociationOutcome` | rt5572/ap/ap_assoc.c:1021-1440 | In every reachable state a request associates its sender if and only if it passes the checks and the sender has been authenticated; the whole new entry is stated, in particular that the port is open exactly if the BSS uses neither WPA nor 802.1X |
| `Outcomes.StationJoins` | rt5572/ap/ap_auth.c:455-462 | From every reachable state a station with a place in a BSS that answers it joins with two frames in an open system and three with a shared key, and its data then pass the class filter |
| `Outcomes.RemovalOutcome` | rt5572/ap/ap_assoc.c:807-938 | In every reachable state deauthentication, disassociation, kick-out and data from a station that is not associated remove exactly the station meant |
| `Outcomes.AclOutcome` | rt5572/ap/ap.c:1750-1856 | In every reachable state an access control command leaves the list and policy it asks for, removes the stations of that BSS that they keep out and leaves every other slot exactly as it was |
| `Membership.AclInvariant` | rt5572/ap/ap.c:1707-1740 | In every reachable state, after any handler and any edit of a list or policy, each client passes the access control check of its own BSS, so the reject branch of the association handler is never taken |
| `Membership.CountsExact` | rt5572/common/cmm_data.c:2168-2540 | In every reachable state addresses are unique, the station counters of the table and of each BSS are exact, and no BSS is overfull |
| `AclList.AddLoopSound` | rt5572/ap/ap_cfg.c:4183-4258 | Adding extends the list in order without duplicates, never beyond 64 entries, takes only the arguments, and takes all of them unless the list is full |
| `AclList.AddNew` | rt5572/ap/ap_cfg.c:4183-4258 | Adding new addresses appends them in order as far as 64 entries go, and is refused from 63 entries on |
| `AclList.DelIsFilter` | rt5572/ap/ap_cfg.c:4338-4375 | Deleting leaves the order-preserving filter of the list |
| `AclList.WithoutMembers` | rt5572/ap/ap_cfg.c:4338-4375 | The filter keeps exactly the entries that are neither named nor all-zero, without new duplicates |
| `AclList.AddThenDel` | rt5572/ap/ap_cfg.c:4183-4375 | Adding new addresses and deleting them restores the list if and only if it held no all-zero address |
| `AclConfig.AccessList.AddEntries` | rt5572/ap/ap_cfg.c:4183-4258 | The in-place command computes the specified list, or refuses a list with one entry left |
| `AclConfig.AccessList.DelEntries` | rt5572/ap/ap_cfg.c:4338-4375 | Blanking in a copy and compacting back computes the specified list and keeps the policy |
| `AclConfig.AccessList.SetPolicy` | rt5572/ap/ap_cfg.c:4129-4150 | Accepts the policies 0 to 2 only and never touches the list |
| `AclConfig.AccessList.Check` | rt5572/ap/ap.c:1707-1740 | The loop over the list decides as the policy says |
| `Ageing.SweepSurvivors` | rt5572/ap/ap.c:899-1212 | A station survives the sweep if and only if it is associated or below the association deadline, below its silence limit, and asleep or below the failure limit; survivors are one second older and otherwise unchanged |
| `Ageing.SweepFlags` | rt5572/ap/ap.c:878-1213 | After the sweep a BSS is port-secured exactly when one of its stations is, all stations count as Ralink exactly when all survivors are, and every sleeping survivor is seen |
| `Ageing.RunQuiet` | rt5572/ap/ap.c:899-1145 | Over any run in which a station is not heard, a station still in its slot has aged by exactly the number of sweeps and the last sweep found it within its limit |
| `Ageing.SilentStationGone` | rt5572/ap/ap.c:1085-1091 | A silent station is gone after as many sweeps as are left of its limit, whatever else happens |
| `Sweeps.SweepsOutcome` | rt5572/ap/ap.c:899-1212 | A station of which nothing is heard is in the table after n sweeps if and only if its silence plus n is below its limit, and below the association deadline if it is not associated, and it sleeps or has not failed too often; its buffered packets are intact while they have waited for at most two sweeps and gone afterwards |
| `Sweeps.SurvivorAges` | rt5572/ap/ap.c:993-1163 | What one sweep leaves of a survivor: packets that have waited for two sweeps are released and not announced any more, fresher ones stay, and the counter between two probes advances |
| `Sweeps.McastAges` | rt5572/ap/ap.c:1302-1334 | A sweep moves nothing to the hardware; multicast packets that have waited for a sweep are released and unannounced in every BSS, fresher ones stay |
| `Sweeps.DtimRefreshesMcast` | rt5572/os/linux/rt_profile.c:383-394 | Multicast packets that had to stay behind at a DTIM survive the next sweep |
| `Sweeps.HeardStationStays` | rt5572/ap/ap.c:1414-1459 | After a frame or an acknowledgement of an associated station, it is in the table after n sweeps if and only if n is below its silence limit and it sleeps or its failures, which waking up and acknowledging forget, are below theirs |
| `Sweeps.FailingStationGone` | rt5572/ap/ap.c:1085-1110 | After k unacknowledged frames the next sweep removes an associated station if and only if it is awake and the failures have reached the limit, or its silence has |
| `Adapter.RtmpAdapter.constructor` | rt5572/include/rtmp.h:1283-1305 | A new adapter is an initial state of the state machine |
| `Adapter.RtmpAdapter.LookupEntry` | rt5572/common/cmm_data.c:2145-2166 | Finds the slot of the address, or none |
| `Adapter.RtmpAdapter.InsertEntry` | rt5572/common/cmm_data.c:2168-2540 | Gives a new station the first vacancy from slot 1 on with all fields reset, or reports a full table or BSS |
| `Adapter.RtmpAdapter.DeleteEntry` | rt5572/common/cmm_data.c:2548-2728 | Frees the slot and releases its queue if the address matches, and keeps its other fields and TIM bit |
| `Adapter.RtmpAdapter.CleanupQueue` | rt5572/ap/ap.c:827-846 | Releases the whole queue in order |
| `Adapter.RtmpAdapter.InsertPs` | rt5572/ap/ap_data.c:4615-4660 | Appends to the power-save queue and marks the AID, or releases the packet when the queue is full |
| `Adapter.RtmpAdapter.DeliverPacket` | rt5572/ap/ap_data.c:500-584 | Chooses between multicast queue, power-save queue, transmit queue and release |
| `Adapter.RtmpAdapter.SendPacket` | rt5572/ap/ap_data.c:229-584 | Refuses the packets the driver refuses and delivers the others |
| `Adapter.RtmpAdapter.ReleaseOldest` | rt5572/ap/ap_data.c:2692-2740 | Moves one packet, marked if others remain |
| `Adapter.RtmpAdapter.DrainQueue` | rt5572/ap/ap_data.c:2692-2740 | Moves all packets in order, one after the other |
| `Adapter.RtmpAdapter.PsPoll` | rt5572/ap/ap_data.c:2639-2790 | Releases one or all packets and clears the mark of an emptied queue, for a matching address only |
| `Adapter.RtmpAdapter.IndicatePs` | rt5572/ap/ap.c:1414-1459 | Records the power mode and drains the queue of a station that wakes up |
| `Adapter.RtmpAdapter.ReceiveData` | rt5572/ap/ap_data.c:2603-2629 | Lets frames of associated stations pass and deletes the sender of others |
| `Adapter.RtmpAdapter.CheckAccess` | rt5572/ap/ap.c:1707-1740 | The access control check on the list of the BSS |
| `Adapter.RtmpAdapter.AuthReqAtIdle` | rt5572/ap/ap_auth.c:200-374 | Answers an authentication request: open system, challenge or refusal |
| `Adapter.RtmpAdapter.AuthConfirmAction` | rt5572/ap/ap_auth.c:378-491 | Authenticates the station if the stored challenge of its address comes back in a WEP frame, and deletes it otherwise |
| `Adapter.RtmpAdapter.ReceiveAuth` | rt5572/ap/ap_mlme.c:337-357 | Dispatch by algorithm and sequence number |
| `Adapter.RtmpAdapter.Associate` | rt5572/ap/ap_assoc.c:1021-1440 | Associates a station that may associate and reports whether it did |
| `Adapter.RtmpAdapter.ReceiveAssoc` | rt5572/ap/ap_assoc.c:123-760 | The association handler as far as it changes the adapter |
| `Adapter.RtmpAdapter.ReceiveDisassoc` | rt5572/ap/ap_assoc.c:807-846 | Deletes the sender if it is in the table |
| `Adapter.RtmpAdapter.KickOutStation` | rt5572/ap/ap_assoc.c:882-938 | Deletes the station with the address |
| `Adapter.RtmpAdapter.UpdateAccessControlList` | rt5572/ap/ap.c:1750-1856 | Deletes exactly the stations of the BSS that its list now rejects |
| `Adapter.RtmpAdapter.ProbeStation` | rt5572/ap/ap.c:993-1083 | Keep-alive of one station |
| `Adapter.RtmpAdapter.CollectQueue` | rt5572/ap/ap.c:1148-1163 | Releases a queue that has been idle for three sweeps and clears its mark |
| `Adapter.RtmpAdapter.SweepSlot` | rt5572/ap/ap.c:899-1212 | The turn of one slot |
| `Adapter.RtmpAdapter.SweepStations` | rt5572/ap/ap.c:899-1212 | The turns of all slots, with the counters of secured ports |
| `Adapter.RtmpAdapter.UpdatePorts` | rt5572/ap/ap.c:1205-1212 | The counters decide the port flag of every BSS |
| `Adapter.RtmpAdapter.CollectMcastQueue` | rt5572/ap/ap.c:1302-1334 | Releases a multicast queue that has been idle for two sweeps and clears bit 0 of every BSS |
| `Adapter.RtmpAdapter.Maintenance` | rt5572/ap/ap.c:858-1335 | The whole sweep |
| `Adapter.RtmpAdapter.MoveMcast` | rt5572/os/linux/rt_profile.c:361-382 | The loop that moves multicast packets at a DTIM |
| `Adapter.RtmpAdapter.DeliverMcast` | rt5572/os/linux/rt_profile.c:351-396 | The DTIM part of the TBTT handler |
| `Adapter.RtmpAdapter.DequeuePacket` | rt5572/common/cmm_data.c:1109-1400 | Passes the head of a transmit queue to the hardware or releases it |
| `Adapter.RtmpAdapter.ReportTx` | rt5572/common/rtmp_init.c:2080-2192 | Updates the silence and failure counters of the station |
| `Adapter.RtmpAdapter.SetAccessPolicy` | rt5572/ap/ap_cfg.c:4129-4156 | Sets the policy and deletes the stations it rejects |
| `Adapter.RtmpAdapter.AddToList` | rt5572/ap/ap_cfg.c:4170-4285 | Adds the addresses and deletes the stations the list then rejects |
| `Adapter.RtmpAdapter.DeleteFromList` | rt5572/ap/ap_cfg.c:4292-4400 | Deletes the addresses and then the stations the list then rejects |
| `Adapter.RtmpAdapter.ClearList` | rt5572/ap/ap_cfg.c:4482-4550 | Empties the list, if it is not empty, and deletes the stations it then rejects |
| `Adapter.RtmpAdapter.Handle` | rt5572/ap/ap.c:858-1459 | For every event the object makes exactly the step of the state machine, so the theorems about runs hold of it |
| `Adapter.AlwaysReady` | rt5572/common/cmm_data.c:2168-2540 | What Handle relies on besides its event holds after every run: slot 0 is never a client and the lists fit their arrays |
| `Edca.RoundTrip` | rt5572/ap/ap_connect.c:636-662 | Packing and unpacking by ACI gives back the update count modulo 16 and every field cut to its bits, for any parameters; layout of section 8.4.2.31 of IEEE 802.11-2012 |
| `Edca.LosslessIff` | rt5572/ap/ap_apcli.c:1077-1100 | All parameters come back unchanged if and only if every field fits in its bits |
| `Edca.Layout` | rt5572/ap/ap_connect.c:636-662 | The element octet by octet: OUI and version, update count, and per category AIFSN, ACM and ACI, the two ECW halves and TXOP with its low octet first |
| `Edca.Fill` | rt5572/ap/ap_assoc.c:359-373 | The loop fills the element with exactly the packed octets |
| `AssocRsp.RoundTrip` | rt5572/ap/ap_apcli.c:997-1112 | Parsing a printed response, its elements in any order and mixed with unrecognised ones, recovers AID without its high bits, rates, extended rates, HT elements and EDCA set, for every combination of optional elements |
| `AssocRsp.PrintedInOrder` | rt5572/ap/ap_assoc.c:327-583 | What the access point prints has at most one recognised element of each kind, so the round trip applies to it |
| `AssocRsp.FixedLayout` | rt5572/ap/ap_assoc.c:284-344 | The fixed part octet by octet: capability, status, the AID with its low octet first and its two high bits set, and the rates |
| `AssocRsp.ElementsExact` | rt5572/ap/ap_assoc.c:327-583 | Exactly which elements follow, by their standard identifiers |
| `AssocRsp.OrderIrrelevant` | rt5572/ap/ap_apcli.c:1018-1108 | Permuting recognised elements and inserting unrecognised ones changes nothing in the result |
| `AssocRsp.FoldIsSummary` | rt5572/ap/ap_apcli.c:1018-1108 | For any list of elements the result is what the last element of each kind says |
| `AssocRsp.Refusal` | rt5572/ap/ap_apcli.c:997-1016 | A response that reports failure is accepted with only its fixed fields |
| `AssocRsp.ParseAssocRsp` | rt5572/ap/ap_apcli.c:954-1112 | The parsing loop over the message buffer computes the specified result |
| `AssocRsp.OutBuffer.Append` | rt5572/ap/ap_assoc.c:327-344 | Appends the octets at the end of the frame and keeps what is before |
| `AssocRsp.Build` | rt5572/ap/ap_assoc.c:327-583 | The appending code produces exactly the specified frame |
| `AssocRsp.BuildElements` | rt5572/ap/ap_assoc.c:345-583 | Appends exactly the elements present, in the driver's order |
| `AssocReq.Meaning` | rt5572/ap/ap_sanity.c:50-345 | For any octets at all: the request is accepted if and only if it has an SSID and supported rates, its first SSID has at most 32 octets and no RSN element found is shorter than 18; what it means is its first SSID, its last element of each other kind, and its last supported rates with the extended rates behind them, cut to 12 |
| `AssocReq.RoundTrip` | rt5572/ap/ap_sanity.c:50-345 | Parsing any printed list of elements, whatever their sizes: the same, each element being judged by its own octets and those behind it |
| `AssocReq.PlainRoundTrip` | rt5572/ap/ap_sanity.c:50-345 | For elements that do not depend on what is behind them, each counts for what it is by itself |
| `AssocReq.StationUnderstood` | rt5572/ap/ap_sanity.c:50-345 | Parsing the request of a station with any SSID, rates, extended rates, RSN, HT, extended capability, WMM and Ralink elements of proper sizes gives exactly what it says, the rates cut to twelve or replaced by the default, and the RSN element in a WPA BSS only |
| `AssocReq.VendorKinds` | rt5572/ap/ap_sanity.c:228-324 | WPS elements say nothing, draft HT capabilities count as HT capabilities, and WPA elements count as RSN elements in a WPA BSS |
| `AssocReq.FoldIsSummary` | rt5572/ap/ap_sanity.c:113-343 | The walk over any list of elements is refused exactly by a long first SSID or a short RSN element, and otherwise ends in that summary |
| `AssocReq.AlwaysBounded` | rt5572/ap/ap_sanity.c:113-325 | For any octets at all, accepted or refused: the SSID and the rates fit where they are copied to; the copies of RSN elements fit their 255 octets, and the length recorded in an octet is exact, if and only if no RSN element looked at has a body of more than 253 octets |
| `AssocReq.LongRsnExample` | rt5572/ap/ap_sanity.c:308-314 | A request with an RSN body of 253, 254 or 255 octets is accepted in a WPA BSS; from 254 on the copy is longer than the buffer and the recorded length is 0 or 1 |
| `AssocReq.LongRsnNotAssociated` | rt5572/ap/ap_assoc.c:1095-1101 | In a WPA BSS a station whose RSN element has a body of 254 octets is not associated, its recorded length being 0 |
| `AssocReq.ShortVendorIff` | rt5572/ap/ap_sanity.c:228-324 | A vendor element of fewer than five octets can be the reason for a refusal, for some octets behind it, if and only if the BSS uses WPA and its own octets agree with the start of a WPA or RSN element; otherwise it is ignored |
| `AssocReq.ContextIff` | rt5572/ap/ap_sanity.c:228-324 | What the switch makes of an element depends on the octets behind it if and only if it is such an element, too short to be decided by itself, in a WPA BSS |
| `AssocReq.ShortVendorExample` | rt5572/ap/ap_sanity.c:227-325 | A request none of whose elements is wrong by itself that is refused for what stands behind a vendor element of two octets |
| `AssocReq.ExtendedRatesLost` | rt5572/ap/ap_sanity.c:137-187 | Extended rates before the supported rates are lost: exchanging the two changes nothing if and only if there are none or there is no room |
| `AssocReq.UnrecognisedAnywhere` | rt5572/ap/ap_sanity.c:328-333 | An element that is not recognised can be inserted anywhere behind elements that do not depend on it, without effect |
| `AssocReq.ParseAssocReq` | rt5572/ap/ap_sanity.c:50-345 | The loop over the message buffer computes the specified result, with the recorded length of the RSN element in eight bits |
| `Qload.AlarmHistory` | rt5572/ap/ap_qload.c:575-754 | Over any run without reset and with the alarm enabled: an update is busy if and only if the busy time of the primary channel, or at 40 MHz of the secondary, reaches the configured percentage of the period between the last two updates with a system time; it alarms if and only if it ends the required number of consecutive busy, unlocked updates; an alarm locks exactly the 98 updates after it, so that two alarms are at least 98 plus that number apart |
| `Qload.AtLeastExact` | rt5572/ap/ap_qload.c:238-246 | As long as percentage times period is below 100 times 2 to the 22, that is: the whole milliseconds of the busy time reach the share, which is at least one millisecond |
| `Qload.AlarmEffect` | rt5572/ap/ap_qload.c:113-219 | An alarm at 40 MHz falls back to 20 MHz, is pending and leaves the load watched; at 20 MHz it suspends the watch; without an alarm none of this changes |
| `Qload.SuspendedUntilResumed` | rt5572/ap/ap_qload.c:575-580 | Over every run a suspended load executes no update until it is resumed |
| `Qload.ConfiguredStarts` | rt5572/ap/ap_qload.c:885-898 | The command that sets the percentage makes an initial state of an initial state, with the threshold of the beacon period |
| `Qload.IntervalShare` | rt5572/ap/ap_qload.c:647-657 | The interval counted is the twentieth of the period that the busy milliseconds reach, the last one taking all above |
| `Qload.Monitor.SetTimeThreshold` | rt5572/ap/ap_qload.c:885-898 | The command in place |
| `Qload.NoAlarmWhenOff` | rt5572/ap/ap_qload.c:575-600 | With the time threshold 0 no update alarms, and the counters and a pending alarm are cleared |
| `Qload.ChannelUtilisation` | rt5572/ap/ap_qload.c:676-697 | Over any run within the period limit, the announced utilisation is that of the total of the last full interval of 50 updates |
| `Qload.UtilisationExactIff` | rt5572/ap/ap_qload.c:676-697 | The 32-bit computation is the formula of section 8.4.2.30 of IEEE 802.11-2012, at most 255, if and only if 255 times the total fits in 32 bits |
| `Qload.ShortPeriodExact` | rt5572/ap/ap_qload.c:676-697 | It does for every beacon period up to 328 |
| `Qload.LongPeriodExample` | rt5572/ap/ap_qload.c:676-697 | With a beacon period of 329 a channel busy all the time is announced as idle |
| `Qload.LongPeriodWrong` | rt5572/ap/ap_qload.c:676-697 | With every beacon period from 329 to 1000 a channel busy all the time is announced wrongly |
| `Qload.PeriodZeroIff` | rt5572/ap/ap_qload.c:582-600 | The time since the last update is a divisor of 0 if and only if its product with 1000, in 32 bits, is less than the ticks of a second |
| `Qload.OneInterval` | rt5572/ap/ap_qload.c:647-674 | Every update adds one to exactly one interval of the primary histogram, always in range, and to one of the secondary exactly at 40 MHz |
| `Qload.Monitor.LoadUpdate` | rt5572/ap/ap_qload.c:561-770 | The update in place computes the specified state |
| `Qload.Monitor.Watch` | rt5572/ap/ap_qload.c:699-754 | The busy counter, the lock and the decision to alarm |
| `Qload.Monitor.RaiseAlarm` | rt5572/ap/ap_qload.c:113-219 | The alarm: back to 20 MHz and on, or suspended until the channel has been changed |
| `Qload.Monitor.Resume` | rt5572/ap/ap_qload.c:365-378 | Ends the suspension |
| `Qload.Monitor.IsAlarmIssued` | rt5572/ap/ap_qload.c:438-450 | Reports a pending alarm once |
| `ChannelSel.OrderIrrelevant` | rt5572/ap/ap_autoChSel.c:308-607 | The chosen channel is in the list and does not depend on the order of the BSS table |
| `ChannelSel.DirtynessPermuted` | rt5572/ap/ap_autoChSel.c:335-410 | The dirtyness of every channel is a sum over the scanned BSSs and depends on their multiset only |
| `ChannelSel.PickedUnique` | rt5572/ap/ap_autoChSel.c:432-607 | The three rules determine the choice |
| `ChannelSel.LocalIff` | rt5572/ap/ap_autoChSel.c:335-410 | For every channel list and scanned BSS: it dirties only listed channels joined to its own without a gap, each by the weight it should have, if and only if its channel is listed and no near pair lies beyond a gap below it within its bound, or it is not listed and no pair at the end of the list is near |
| `ChannelSel.LocalIffABand` | rt5572/ap/ap_autoChSel.c:362-407 | In the 5 GHz band the only failing BSS on a listed channel is a 40 MHz one extending below, with a gap just below its channel and a near pair beyond it |
| `ChannelSel.UnlistedBss` | rt5572/ap/ap_autoChSel.c:335-345 | A failing input: a BSS on an unlisted channel, with an empty entry behind the list, dirties the end of the list, however far away it is |
| `ChannelSel.GapBelow` | rt5572/ap/ap_autoChSel.c:384-407 | A failing input: below a gap the weights go on beyond it and skip the channel at it, while above they stop |
| `ChannelSel.AddBss` | rt5572/ap/ap_autoChSel.c:335-410 | One BSS adds exactly its weight to every channel |
| `ChannelSel.Accumulate` | rt5572/ap/ap_autoChSel.c:328-411 | The loop over the table computes the sum |
| `ChannelSel.MarkSkipped` | rt5572/ap/ap_autoChSel.c:187-199 | Marks exactly the first places of the channels to skip |
| `ChannelSel.Rule1` | rt5572/ap/ap_autoChSel.c:434-531 | The first least score among unskipped channels with at most 100 false CCAs, or none |
| `ChannelSel.Rule2` | rt5572/ap/ap_autoChSel.c:533-588 | The first least score of the second rule, or none |
| `ChannelSel.Rule3` | rt5572/ap/ap_autoChSel.c:590-606 | The first wanted channel in cyclic order from the random start |
| `ChannelSel.SelectClearChannelCCA` | rt5572/ap/ap_autoChSel.c:308-607 | The selection returns the channel that the rules pick, and that choice has the meaning of PickedMeans |
| `ChannelSel.PickedMeans` | rt5572/ap/ap_autoChSel.c:432-607 | If an unskipped, accepted channel with at most 100 false CCAs can be used, the chosen one is such a channel and the dirtyness summed over all listed channels it uses, which are itself and at 40 MHz its other half or its extension channels, is least, strictly less than that of earlier ones; otherwise the same with false CCAs and dirtyness of the pair; otherwise the first wanted channel going round the list |
| `ChannelSel.OffsetPairs` | rt5572/ap/ap_autoChSel.c:34-52 | The table pairs the 40 MHz channels: the lower halves from 36 to 60 and 100 to 132 in steps of 8, 149 and 157 with the channel 4 above |
| `ChannelSel.WeightShape` | rt5572/ap/ap_autoChSel.c:340-407 | The exact weight of a BSS: 70, 80 or 90 on its own channel by its signal, 36 less 4 for every place away, up to 1 or 4 places and twice as many on the side of its second half, going up as far as there is no gap and going down wherever there is none just above the place |

## Left out

- Queues are sequences: the linked lists of `QUEUE_HEADER`, and the hash chains of the MAC table, are not modelled; lookup
  searches the table, which finds the same entry because addresses are unique (`Membership.CountsExact`).
- PowerSave.TimAgreement: is about steps taken one after the other; `ap/ap.c:1154-1158` clears the TIM bit after giving up
  the lock, and a packet that arrives in between is not modelled.
- DeliveryOrder.OrderKept: is about the best-effort queue, to which power-save delivery always moves packets; packets of other
  access categories sent to an awake station are in other queues, in order among themselves (`Delivery.RingInOrder`) and with no
  promised order against it.  Several packets that one call of the dequeue routine takes together are taken one after the other.
- AuthSafety.ClassFilterSound: needs the assumption on WCIDs above; without it `AuthSafety.FreedSlotPasses` says what happens.
- Fragment.AtMostSixteen: counts an 802.11 header of at most 36 octets and an MSDU of at most 2346 octets; the encryption
  overhead added to the duration, and the duration in microseconds, are not modelled.
- Amsdu.RoundTrip: requires frames whose subframe length fits its 16-bit field; the copy into DMA buffers and the padding of
  the 802.11 header to a multiple of 4 are not modelled, and the comparison with the LLC header is not modelled on the octets
  behind a payload shorter than 8.
- Qload.AlarmHistory: is about runs without `QBSS_LoadAlarmReset`, which `Qload.ConfiguredStarts` puts at their start; the channel change and the deletion of stations that follow an
  alarm are not modelled, nor is an update whose time since the last one, times 1000 in 32 bits, is less than the number of
  ticks in a second, where the driver divides by 0 (`Qload.PeriodZeroIff`).
- ChannelSel.SelectClearChannelCCA: the busy-time acceptance and radar checks are parameters; selection by the number of access
  points, and the 40 MHz checks of that mode, are not modelled.
- AssocRsp.ParseAssocRsp: requires a message buffer that holds the fixed part, the longest rates and the message itself, as the
  management queue provides; the frame header is not interpreted, and the vendor elements for which support is compiled out
  are absent.
- AssocReq.RoundTrip: requires the buffer to be five octets longer than the message, as management messages of at most 1520
  octets in buffers of 1600 are; what a copy beyond the end of the RSN buffer overwrites is not modelled.  In the state machine
  the result is the outcome `sane` of an association event; `APPeerAuthSanity` is the form of an authentication event.
- Counters that only count, such as statistics and aggregation counters, and the field `AuthState`, which is never read.
- The frames sent in answer: only their effect on the adapter is modelled, except for the association response and the beacon.
- 802.1X, WPA handshakes, key tables and encryption; rate adaptation; block-ack sessions; chip registers; wireless events.
- The AP client apart from its response parser; the ioctl syntax of the configuration commands.
- The widths of counters, except where the table says so: the fragment number, TxSeq, totalMPDUSize, DtimCount, the QBSS
  counters, the recorded length of the RSN element and the EDCA fields.
