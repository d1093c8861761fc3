# Models of the rtl8192du driver's protocols and data structures

This project models the parts of the rtl8192du Wi-Fi driver that are algorithms and protocols rather
than register traffic, and proves properties of them with Dafny 4.11. `dafny verify dfyconfig.toml`
checks everything.

| files | what they model |
|---|---|
| `PowerControl`, `CommandHandshake` | the RPWM/CPWM power handshake of `CONFIG_LPS_LCLK`, and the command queue, command thread, LPS entry and exit, transmitters, firmware and CPWM interrupt interleaving over it |
| `Nat25Spec`, `Nat25Chains`, `Nat25Db` | the NAT2.5 bridge database: the finite map it stands for, the shape of its hash chains, and the chains relinked in place |
| `PppoeRelay` | the PPPoE relay tag put into discovery frames and taken out of the replies, inside the socket buffer |
| `DhcpFlag` | the DHCP broadcast flag and the incremental UDP checksum |
| `EfuseMap` | the e-fuse map written as 8-byte sections with word enables |
| `Wrappers`, `Bytes`, `Tlv`, `Records` | byte buffers and lists of id-length-value records, shared by the next two and by `PppoeRelay` |
| `InfoElements`, `BeaconIe` | information elements and P2P attributes removed in place, beacon elements added and removed |
| `ApStations`, `ApRuns` | the access point's station counters, the ERP element and the HT operation mode; whole runs of joins and leaves |
| `ScanPool` | the fixed pool of scanned networks with eviction |
| `GoNego`, `P2pChannels` | the P2P group-owner negotiation of two devices, and the meeting of their channel lists |
| `PowerSeq` | the interpreter of power sequence scripts |

Objects that the driver updates in place are classes whose methods are proved equal to functions on
their state (`Pwr.SetRpwm`, `Updated`, `GotReq`, `Run` and so on); the theorems are about those
functions, about lists of records, or about runs of a state machine built from them.

## What came out

Properties that hold as the driver's structure promises: no queued command is stranded, commands are
served in order, and the firmware is asked to sleep when a command or transmission ends with nobody else
registered, and never under somebody who needs it, in every interleaving; the NAT2.5 table is a finite map
with conserved use counts; an e-fuse write is exactly the byte patch it should be, with a minimal list of
section writes; element edits are filters and insertions on element lists; the six station counters and
the protection bits are exact for what the stations said, and the HT mode is history-free; scan slots are
conserved; a power script acts by its matching commands only, and leaves what its last writes say.

Properties that hold only under a condition, which the lemmas give exactly:

- The wait for S4 in `rtw_set_ps_mode` has a give-up branch. Every run that follows it is safe if and
  only if `cpwm` has reached S4 by then (`GivingUpIsSafeExactlyAtS4`): from every earlier moment some run
  asks for sleep over the outstanding acknowledgement, and the command thread can be let through to
  sleeping firmware (`GivingUpBreaksPowerSafety`).
- The length of the relay tag is read in host order (core/rtw_br_ext.c:114), so only a big-endian host
  sends the forwarded frame (`LengthReadRightOnlyOnBigEndian`, `ForwardsOnlyOnBigEndian`).
- The DHCP checksum update leaves out the old flags word: a right checksum stays right exactly when that
  word was zero (`ValidStaysValid`). A request without a checksum gets one (`AbsentChecksumAppears`).
- The Barker preamble bit is refreshed only together with the protection bits, so it goes stale
  (`BarkerStaysRight`, `BarkerGoesStale`). A station counts as lacking greenfield or width exactly if some
  join since it last left lacked it (`LacksStickUntilLeave`).
- While P2P stays off, or stays on, no scanned network is listed twice (`RunStaysUnique`). When P2P comes
  into use after entries were stored without it, one can be (`RunDoubles`): exactly when a frame
  overwrites an entry that shares only its MAC address while another entry is already its network
  (`UniqueUnlessDoubled`).
- A repeated negotiation request after the confirmation lets the responder's restore timer reset its
  role: both sides are in GONEGO_OK, but the responder is a plain device. Agreement holds exactly
  unless that happened, no later request or confirmation decided the role anew, and the responder should
  be GO (`Agreement`, `LateRestoreDisagrees`).
- The one-pass channel inclusion finds a common channel exactly when nothing the peer lists before it lies
  behind it in our own list (`OnePassExact`). So none is lost exactly when the common channels, each where
  the peer lists it first, come in our order (`NoneLostExactly`), as with the overlapping operating classes
  this driver sends (`AscendingFirstsSuffice`); and a GO keeps its own channel under the same condition on
  that channel (`GoKeepsOwnChannel`).
- No scanned network is listed twice through a network of our own exactly when that one is not listed yet,
  or only in the entry it overwrites (`CreatedUniqueExactly`, `RunUniqueExactly`).
- `rtw_remove_bcn_ie` does not remove an empty element, and `rtw_add_bcn_ie` needs a non-empty element
  to hold on to (`AnchorMeans`, `RemovedMeans`).

## Model

| member | source | states |
|---|---|---|
| PowerControl.PwrCtrl.SetRpwm | core/rtw_pwrctrl.c:317-357 | the whole new power state and the request written: nothing for the level already set or a stopped driver; an acknowledgement is asked for exactly when waking from below S2, and only without one does cpwm follow at once; over all calls the toggle bit alternates on the wire, rpwm is the level written last, and no level is written twice in a row |
| PowerControl.PwrCtrl.RegisterAlive | core/rtw_pwrctrl.c:810-889 | the alive bit is set; SUCCESS exactly when the firmware is not in power save or cpwm is at least S2, and after FAIL a level of at least S2 has been asked for |
| PowerControl.PwrCtrl.UnregisterAlive | core/rtw_pwrctrl.c:960-1027 | the alive bit is cleared; with nobody left alive in power-save mode and cpwm above S0 the firmware is asked for S0, and nothing is written otherwise |
| PowerControl.PwrCtrl.EnterMode | core/rtw_pwrctrl.c:488-540 | the locked branch of rtw_set_ps_mode for a power-save mode: S0 is asked for exactly if nobody is alive |
| PowerControl.PwrCtrl.LeaveMode | core/rtw_pwrctrl.c:431-467 | the locked branch for the active mode, up to the wait for S4 |
| CommandHandshake.StepInv | core/rtw_cmd.c:415-578 | every step of enqueuers, command thread, LPS callers, transmitters, firmware and interrupt keeps the invariant of the handshake |
| CommandHandshake.EveryRunIsSafe | core/rtw_cmd.c:440-491 | in every run of any length no queued command is stranded, a cpwm of S2 or more and every SUCCESS mean awake firmware, and S0 is requested only with no alive bit set and no acknowledgement outstanding |
| CommandHandshake.PowerSafety | core/rtw_pwrctrl.c:960-1027 | no step asks the firmware to sleep while somebody is alive or an acknowledgement is on its way |
| CommandHandshake.SleepIsAskedFor | core/rtw_pwrctrl.c:488-540 | sleep is asked for exactly when the last one unregisters in power-save mode with cpwm above S0, or power save is entered with nobody registered and S0 not asked for last |
| CommandHandshake.LetThroughExactly | core/rtw_pwrctrl.c:810-889 | a transmitter or the command thread is let through exactly when the firmware is out of power save or cpwm is at least S2; which step sets and clears which alive bit |
| CommandHandshake.ServedInOrder | core/rtw_cmd.c:197-245 | over every run the commands are served in the order enqueued, each once: those served and those still queued are those enqueued |
| CommandHandshake.LongRunsServe | core/rtw_cmd.c:440-578 | from every state of the invariant with a queued command, every run of steps already under way, in any order, serves the oldest one once it is longer than a bound computed from the state |
| CommandHandshake.OldestIsServed | core/rtw_cmd.c:440-578 | there is such a run from every such state: the system does not come to rest before |
| CommandHandshake.RegisterRefines | core/rtw_pwrctrl.c:857-889 | the micro-steps of the command thread, undisturbed, compute the locked register function |
| CommandHandshake.LeaveRefines | core/rtw_pwrctrl.c:431-480 | the micro-steps of leaving, undisturbed, compute the active-mode branch |
| CommandHandshake.GivingUpIsSafeExactlyAtS4 | core/rtw_pwrctrl.c:468-480 | every run after giving up the wait for S4 is safe, as in EveryRunIsSafe, if and only if cpwm was S4 |
| CommandHandshake.GivingUpIsReachable | core/rtw_pwrctrl.c:468-480 | a run from the start in which the wait is given up with the acknowledgement outstanding |
| CommandHandshake.GivingUpBreaksPowerSafety | core/rtw_pwrctrl.c:468-480 | after it S0 is requested under an outstanding acknowledgement, and the command thread runs with the firmware asleep |
| Nat25Db.Db.constructor | core/rtw_br_ext.c:335-394 | an empty valid table over the driver's hash |
| Nat25Db.Db.Find | core/rtw_br_ext.c:436-447 | the walk along one chain finds the entry exactly when the address is in the map |
| Nat25Db.Db.LookupAndReplace | core/rtw_br_ext.c:429-504 | 1 exactly when the address is present; the destination is rewritten and the use count raised exactly when it is also unexpired; the map is otherwise unchanged |
| Nat25Db.Db.Insert | core/rtw_br_ext.c:506-543 | insertion is map update: a known address gets the new MAC and time, a new one a fresh entry with use count one |
| Nat25Db.Db.Unlink | core/rtw_br_ext.c:413-426 | the entry is bypassed through its back-pointer alone, and all other pointers stay exact |
| Nat25Db.Db.Expire | core/rtw_br_ext.c:666-756 | one sweep ages exactly the expired entries by one and unlinks those whose count reaches zero; the shortcut is dropped exactly when its entry goes |
| Nat25Db.Db.Cleanup | core/rtw_br_ext.c:635-663 | the table ends empty and the shortcut null |
| Nat25Db.Db.PointersExact | core/rtw_br_ext.c:396-426 | in a valid table pprev_hash names exactly the one place that points at the entry, in the bucket of its hash, and no other entry has its address |
| Nat25Chains.LinkShaped | core/rtw_br_ext.c:396-410 | linking at the head of a bucket keeps all chains acyclic, with exact back-pointers, every entry in the bucket of its hash |
| Nat25Chains.UnlinkShaped | core/rtw_br_ext.c:413-426 | unlinking keeps the same, and takes exactly that entry out of its chain |
| Nat25Spec.ExpiryWindow | core/rtw_br_ext.c:149-166 | on the wrapping clock an entry reads as expired exactly from its age on, for half the clock's range |
| Nat25Spec.HashMeans | core/rtw_br_ext.c:335-394 | two addresses of a type that differ in one byte share a bucket exactly when that byte does not enter the hash or its low four bits agree |
| Nat25Spec.LookupMeans | core/rtw_br_ext.c:439-460 | a lookup less than the age after the stamp counts one use and touches nothing else; a later one, within half the clock's range, counts none |
| Nat25Spec.InsertMeans | core/rtw_br_ext.c:506-543 | a known address gets the new MAC and time and keeps its count, a new one count one, all others stay |
| Nat25Spec.SweepMeans | core/rtw_br_ext.c:706-756 | a sweep takes one use from each expired entry and the entry with its last one; MAC, time and all unexpired entries stay |
| Nat25Spec.AfterCounted | core/rtw_br_ext.c:439-446 | over every run each linked entry has a use count of at least one |
| Nat25Spec.UseCountConserved | core/rtw_br_ext.c:529-540 | while linked, use count = 1 + unexpired hits - sweeps that found the entry expired |
| Nat25Spec.UnlinkedAtNthSweep | core/rtw_br_ext.c:706-756 | an expired entry nobody refreshes is unlinked at exactly its use-count-th sweep |
| PppoeRelay.RelayRoundTrip | core/rtw_br_ext.c:1036-1073 | a reply echoing the stamped relay tag is delivered to the client that sent the request, the tag restored to the client's payload, or dropped when there was none; all other tags stay in order |
| PppoeRelay.EchoOfForwarded | core/rtw_br_ext.c:961-992 | the forwarded frame itself, echoed, gives back the sender's tags |
| PppoeRelay.OthersKept | core/rtw_br_ext.c:961-992 | on the way up all tags but the first relay tag and the whole header stay |
| PppoeRelay.UpstreamIs | core/rtw_br_ext.c:109-127 | the bytes written upstream are the forwarded frame, with a consistent length field |
| PppoeRelay.DownstreamIs | core/rtw_br_ext.c:1038-1073 | the downstream handler accepts exactly the frames with our stamp, and leaves the delivered frame's bytes |
| PppoeRelay.OursMeans | core/rtw_br_ext.c:1038-1056 | a reply is taken for ours exactly when its first relay tag has at least 8 bytes and begins with the magic |
| PppoeRelay.LengthReadRightOnlyOnBigEndian | core/rtw_br_ext.c:114-114 | the length read at that line is right if and only if the host is big-endian |
| PppoeRelay.Skb.FindTag | core/rtw_br_ext.c:91-107 | the position of the first tag of the type, or none |
| PppoeRelay.Skb.PullAndMerge | core/rtw_br_ext.c:128-147 | the bytes are cut out of the frame and the rest closes up; refused exactly when they do not lie in it |
| PppoeRelay.ForwardsOnlyOnBigEndian | core/rtw_br_ext.c:109-127 | what the upstream handler leaves is the forwarded frame's bytes on a big-endian host and never on another, whatever lies behind the tag in memory |
| PppoeRelay.Skb.AddTag | core/rtw_br_ext.c:109-127 | succeeds exactly when the tailroom holds as many bytes as the length read from the tag says; that many bytes from the tag's start on are in front of the other tags then, and nothing has changed otherwise |
| PppoeRelay.Skb.InsertDiscovery | core/rtw_br_ext.c:952-1010 | result and frame for every PADI and PADR on hosts of both byte orders, including the relay tag too long for the buffer and the missing tailroom, which leaves the frame without its old tag |
| PppoeRelay.Skb.LookupDiscovery | core/rtw_br_ext.c:1029-1073 | result and frame for every PADO and PADS; an unacceptable frame is not touched |
| DhcpFlag.Fold | core/rtw_br_ext.c:1401-1402 | the folding loop ends within 16 bits, keeps the sum modulo 65535, and yields zero only from zero |
| DhcpFlag.SetBroadcast | core/rtw_br_ext.c:1391-1404 | the flag is added once, the checksum corrected by the flags word written, nothing else changed |
| DhcpFlag.SetOnce | core/rtw_br_ext.c:1391-1404 | handling a request a second time changes nothing: the flag is found set; words other than flags and checksum stay |
| DhcpFlag.OnlyBroadcastSet | core/rtw_br_ext.c:1391-1397 | of the flags word exactly the broadcast bit, bit 15 or bit 7 as the host reads it, is set; the other bits stay |
| DhcpFlag.SumAfter | core/rtw_br_ext.c:1397-1403 | the corrected packet's sum is the old sum less the old flags word, up to multiples of 65535 |
| DhcpFlag.ValidStaysValid | core/rtw_br_ext.c:1391-1404 | a right, non-zero checksum stays right if and only if the old flags word was zero; the packet is still accepted also when the new checksum happens to be zero |
| DhcpFlag.AbsentChecksumAppears | core/rtw_br_ext.c:1399-1403 | a packet without a checksum leaves with one, unless the flags word becomes all ones |
| EfuseMap.WordEnableDataRead | core/rtw_efuse.c:545-569 | exactly the enabled words are copied |
| EfuseMap.Efuse.MapRead | core/rtw_efuse.c:653-669 | fails exactly for a range outside the map, and else reads that range |
| Bytes.PatchedAt | core/rtw_efuse.c:698-727 | a byte patch, byte by byte |
| EfuseMap.Efuse.MapWrite | core/rtw_efuse.c:671-765 | outside the map nothing happens; inside, success exactly when every planned section write succeeds, the map then being the old one with the range replaced; a failing write leaves exactly the sections before it patched |
| EfuseMap.Efuse.FillSection | core/rtw_efuse.c:706-733 | the inner loop settles every word of the section, for any alignment, and leaves the data index at the section's end |
| EfuseMap.EnabledExactlyWhenChanged | core/rtw_efuse.c:698-727 | a word is enabled if and only if its content must change, and a section is written if and only if one of its words is |
| EfuseMap.PlanPatches | core/rtw_efuse.c:735-752 | carrying out the planned section writes is the byte patch |
| EfuseMap.PlanWritesOnlyChanges | core/rtw_efuse.c:735-738 | every planned write is of a section that changes, in ascending order |
| EfuseMap.PlanWritesAllChanges | core/rtw_efuse.c:735-738 | every section that changes is in the plan |
| Tlv.ScanFinds | core/rtw_br_ext.c:91-107 | a walk over the bytes of a record list finds the first record of the type |
| Records.KeptIs | core/rtw_ieee80211.c:321-355 | thinning out the bytes of a record list gives the bytes of the filtered list |
| Records.RestHolds | core/rtw_ieee80211.c:321-355 | the filtered list is exactly the records not meant, each from its own position, the positions ascending |
| InfoElements.GetIe | core/rtw_ieee80211.c:271-308 | the first element with the id and OUI and its whole length, or none; with no OUI the element is the one rtw_get_ie finds |
| InfoElements.RemoveIe | core/rtw_ieee80211.c:321-355 | the prefix up to the offset followed by the bytes of all elements that do not match, the exact new length, success exactly when it shrank; terminates |
| InfoElements.RemoveIeMeans | core/rtw_ieee80211.c:321-355 | those bytes are the filtered element list, and success means that some element matched |
| InfoElements.GetAttr | core/rtw_ieee80211.c:1503-1549 | the first attribute with the id, or none; none in an element that is not P2P |
| InfoElements.RemoveAttrs | core/rtw_ieee80211.c:1602-1642 | all attributes with the id go, the length byte shrinks by their bytes, the freed tail is zero, the rest of the buffer is untouched |
| InfoElements.Bss.RemoveP2pAttr | core/rtw_ieee80211.c:1644-1676 | the same inside the stored BSS, IELength adjusted, the elements behind moved up and the freed tail zero |
| InfoElements.BssThinnedMeans | core/rtw_ieee80211.c:1644-1676 | on the element list only the first P2P element changes, and of its attributes only those with the id go |
| BeaconIe.AddBcnIe | core/rtw_ap.c:200-267 | the element replaces the one met or comes in behind the last smaller one; everything behind moves along, IELength adjusted |
| BeaconIe.RemoveBcnIe | core/rtw_ap.c:269-310 | the first element with the id is cut out if it is not empty, and nothing else changes |
| BeaconIe.AddedMeans | core/rtw_ap.c:200-267 | those bytes are the element list with the element put in |
| BeaconIe.AddedHolds | core/rtw_ap.c:209-252 | an element of the id behind smaller ones is replaced by the new one, which otherwise comes in behind the smaller ones; nothing else changes |
| BeaconIe.RemovedHolds | core/rtw_ap.c:269-310 | the first element of the id goes if it is not empty; otherwise nothing changes |
| BeaconIe.AddedStaysSorted | core/rtw_ap.c:209-226 | a sorted list stays sorted; a present id is replaced at its first place, an absent one is inserted |
| BeaconIe.AnchorMeans | core/rtw_ap.c:228-242 | the precondition of adding, on elements: a non-empty match, or a non-empty predecessor |
| BeaconIe.RemovedMeans | core/rtw_ap.c:269-310 | removal on elements, with the empty element that stays |
| BeaconIe.AddThenRemoveBytes | core/rtw_ap.c:200-310 | adding an absent non-empty element and removing it restores the bytes and the length |
| ApStations.Mlme.StaJoin | core/rtw_ap.c:2250-2456 | the station's flags, all six counters, the ERP element, the HT mode and the result after an association or reassociation |
| ApStations.Mlme.StaLeave | core/rtw_ap.c:2458-2531 | the same after leaving, with all flags clear |
| ApStations.Mlme.UpdateErp | core/rtw_ap.c:1894-1927 | the ERP bits as the updater sets them, for exactly one non-ERP station |
| ApStations.Mlme.HtOperationUpdate | core/rtw_ap.c:2145-2214 | whatever the mode was, the field by field updates end in the mode the counters alone call for, and the result counts the fields that changed |
| ApStations.Mlme.StartApMode | core/rtw_ap.c:2807-2838 | all counters and the HT mode zero |
| ApStations.ErpMasks | core/rtw_ap.c:1914-1922 | setting and clearing the ERP masks is setting and clearing the fields they name |
| ApStations.OpMask | core/rtw_ap.c:2190-2207 | rewriting the operation mode under its mask is rewriting that field, and comparing under the mask compares it |
| ApStations.ModeMasks | include/wifi.h:816-834 | setting and clearing the mode's masks is setting and clearing one field |
| ApRuns.EveryRun | core/rtw_ap.c:2250-2531 | over every run each counter is the number of stations with its flag, the protection bits are on exactly while there is a non-ERP station, and the HT mode is the one the counters call for |
| ApRuns.FlagsFollowReports | core/rtw_ap.c:2270-2456 | over every run a station is flagged as without short preamble, short slot time or HT, or as non-ERP, if and only if its last event is a join that says so |
| ApRuns.ProtectedForNonErp | core/rtw_ap.c:2313-2345 | over every run the protection bits are on if and only if some station's last event is a join as a non-ERP one |
| ApRuns.HtModeMeans | core/rtw_ap.c:2145-2207 | which bits and which operation mode a current HT mode has, in terms of the stations: MIXED for one without HT or greenfield, else 20 MHz for one without 40 MHz on a wide access point, else legacy for olbc_ht |
| ApRuns.BeaconUpdatedExactly | core/rtw_ap.c:2270-2380 | a join or leave reports the beacon as updated exactly when the first or last non-ERP station comes or goes, or above 802.11b the first or last one without short preamble or short slot time |
| ApRuns.ExactStep | core/rtw_ap.c:2290-2410 | one join, rejoin or leave keeps the six counters exact |
| ApRuns.ProtectedStep | core/rtw_ap.c:1914-1917 | one step keeps the protection bits right although the updater tests for one |
| ApRuns.HtHistoryFree | core/rtw_ap.c:2145-2214 | with ht_option not TRUE a whole join or leave keeps the mode current: by the contract of ApStations.Mlme.HtOperationUpdate it depends on the counters, olbc_ht and width only, and a second update reports no change |
| ApRuns.BarkerStaysRight | core/rtw_ap.c:1919-1922 | a right Barker bit stays right if and only if the step refreshes the element or does not change whether some station lacks the short preamble |
| ApRuns.BarkerGoesStale | core/rtw_ap.c:2273-2287 | one ERP station without short preamble makes it wrong |
| ApRuns.LacksStickUntilLeave | core/rtw_ap.c:2385-2405 | over every run a station is flagged as lacking greenfield or width if and only if some HT join since its last leave lacked it; a rejoin does not clear it |
| ApRuns.JoinThenLeave | core/rtw_ap.c:2458-2531 | leaving undoes the join of an unknown station |
| ScanPool.MlmePriv.constructor | core/rtw_mlme.c:67-88 | the pool starts with every slot free |
| ScanPool.MlmePriv.AllocNetwork | core/rtw_mlme.c:234-270 | the first free slot is taken out, stamped and counted |
| ScanPool.MlmePriv.FreeNetwork | core/rtw_mlme.c:272-313 | the entry goes to the free list exactly when it is not fixed and old enough or everything is freed |
| ScanPool.MlmePriv.FreeNetworkQueue | core/rtw_mlme.c:394-420 | all entries that must go have gone, those that stay keep their order |
| ScanPool.PurgedMeans | core/rtw_mlme.c:291-310 | after a purge exactly the entries that are fixed, or were seen less than the lifetime ago when not everything is freed, are still listed, in order; the others are at the end of the free list, in order |
| ScanPool.MlmePriv.FreeScanqueue | core/rtw_mlme.c:1377-1406 | every entry goes, fixed or not |
| ScanPool.MlmePriv.UpdateScannedNetwork | core/rtw_mlme.c:856-980 | refresh of the first matching entry, else a free slot, else the oldest entry overwritten |
| ScanPool.MlmePriv.CreateBss | core/rtw_cmd.c:2903-2927 | the slot taken for an own network; it fails exactly when no slot is free and all entries are fixed |
| ScanPool.SharedMeans | core/rtw_mlme.c:71-88 | conservation says: both lists within the slots, no slot twice or in both, their lengths adding up |
| ScanPool.ApplyStaysShared | core/rtw_mlme.c:856-980 | every operation keeps the slots shared out between free pool and scanned queue, and num_of_scanned the queue's length |
| ScanPool.EvictionFindsAnEntry | core/rtw_mlme.c:908-916 | over every run, no free slot means a full scanned queue, so there is an entry to evict |
| ScanPool.OldestIsOldest | core/rtw_mlme.c:893-900 | the entry evicted is one seen longest ago while the time stamps lie within half the clock's range |
| ScanPool.UniqueUnlessDoubled | core/rtw_mlme.c:608-640 | an update keeps the entries different networks if and only if the frame does not double one |
| ScanPool.UpdatedLists | core/rtw_mlme.c:856-980 | the frame's network is listed and stamped after every update, with the frame's content or, after a probe request or a lesser kind of frame, the stored one; every other slot is as it was, another network's entry is overwritten only when no slot is free, and the list grows exactly when no entry matches and a slot is free |
| ScanPool.EvictsOldest | core/rtw_mlme.c:886-912 | with no match and no free slot the entry overwritten is one seen longest ago, while the time stamps lie within half the clock's range |
| ScanPool.CreatedHolds | core/rtw_cmd.c:2903-2927 | a network of our own goes into the first free slot, or over a loose entry; it fails exactly when no slot is free and all entries are fixed |
| ScanPool.CreatedOverOldest | core/rtw_mlme.c:681-708 | the loose entry overwritten is one seen longest ago among the loose ones |
| ScanPool.CreatedUniqueExactly | core/rtw_cmd.c:2903-2927 | a network of our own leaves the entries different if and only if it is not listed, or only in the entry it overwrites, or gets no slot |
| ScanPool.RunUniqueExactly | core/rtw_mlme.c:608-640 | over every run with P2P off throughout or on throughout, no network is ever listed twice if and only if each network created fits in that sense when it is created |
| ScanPool.RunStaysUnique | core/rtw_mlme.c:608-640 | over every run with P2P off throughout or on throughout, and no IBSS created, no network is listed twice, and with P2P on no MAC address is |
| ScanPool.RunDoubles | core/rtw_mlme.c:622-628 | a run from the fresh pool in which P2P comes into use and a network ends up listed twice |
| ScanPool.SmoothedBetween | core/rtw_mlme.c:749-770 | smoothed strength, quality and rssi lie between the old ones and the sample; for the connected network strength and quality are the receiver's; a sample from another channel changes none |
| ScanPool.SmoothedWeights | core/rtw_mlme.c:749-770 | the sample counts one fifth, the old value four, cut towards zero |
| GoNego.WifiDirect.OnReq | core/rtw_mlme_ext.c:5648-5697 | the device after a negotiation request, and the status of the response, for every combination of missing and unacceptable parts of the frame |
| GoNego.WifiDirect.OnResp | core/rtw_p2p.c:2943-3204 | the device after a response, and the status of the confirmation, for the same combinations; ignored unless negotiating |
| GoNego.WifiDirect.OnConf | core/rtw_p2p.c:3206-3300 | the device after a confirmation |
| GoNego.WifiDirect.Restore | core/rtw_p2p.c:3345-3386 | the device after its restore timer |
| GoNego.ReqMeans | core/rtw_p2p.c:2728-2874 | after a request: the reason of every refusal, the state it leads to, and the role by intent and tie breaker otherwise |
| GoNego.RespMeans | core/rtw_p2p.c:2943-3130 | the same after a response; a refusal for lack of information leads to waiting for it, any other one to failure |
| GoNego.ConfMeans | core/rtw_p2p.c:3206-3300 | the same after a confirmation |
| GoNego.RestoreMeans | core/rtw_p2p.c:3345-3373 | the timer puts the state before back, and resets the role exactly while negotiating or failed |
| GoNego.TieBreakersOppose | core/rtw_mlme_ext.c:3535-3552 | the response carries the own intent and the opposite tie breaker |
| GoNego.RunKeeps | core/rtw_p2p.c:2808-2848 | the invariant of the dialogue over every run with lost and repeated frames and timer restores: among others, the responder's role is the one the intents call for, or plain device after a late restore |
| GoNego.Agreement | core/rtw_p2p.c:3345-3373 | over every run that ends with both in GONEGO_OK: exactly the side the intent comparison names is GO, if and only if the requester is named or no restore in the middle of a repeated request is the last event to touch the responder's role; two intents of 15 never get there |
| GoNego.LateRestoreDisagrees | core/rtw_p2p.c:3352-3371 | a run that ends in GONEGO_OK on both sides with no GO at all |
| GoNego.DirectRunAgrees | core/rtw_p2p.c:3224-3275 | without losses the three frames lead both sides to agreement |
| P2pChannels.GetPeerChList | core/rtw_p2p.c:2646-2669 | the channels of all operating classes, in order |
| P2pChannels.ListedIs | core/rtw_p2p.c:2646-2669 | reading an encoded channel list gives its channels |
| P2pChannels.ChInclusion | core/rtw_p2p.c:2686-2705 | what one pass over our channels finds |
| P2pChannels.OnePassInBoth | core/rtw_p2p.c:2686-2705 | only channels of both lists are found |
| P2pChannels.OnePassIsCommon | core/rtw_p2p.c:2686-2705 | with both lists ascending it is the whole intersection in the peer's order |
| P2pChannels.OnePassIsMet | core/rtw_p2p.c:2686-2705 | the pass finds exactly the peer's positions in front of which nothing lies behind their channel in our list, in the peer's order; our list has no repetitions |
| P2pChannels.OnePassExact | core/rtw_p2p.c:2686-2705 | a channel is found if and only if it is in our list and the peer lists it at some position in front of which no channel lies behind it in our list |
| P2pChannels.FirstDecides | core/rtw_p2p.c:2686-2705 | the first position at which the peer lists it decides |
| P2pChannels.NoneLostExactly | core/rtw_p2p.c:2686-2705 | no common channel is lost if and only if the common channels, each where the peer lists it first, come in our order |
| P2pChannels.AscendingFirstsSuffice | core/rtw_mlme_ext.c:402-452 | overlapping classes whose channels ascend where they are first listed, as this driver builds them, lose none |
| P2pChannels.OnePassKeepsRepeats | core/rtw_p2p.c:2686-2705 | as lists, repetitions included, it is the whole intersection if and only if all occurrences of common channels come in our order |
| P2pChannels.OnePassFindsSome | core/rtw_p2p.c:2868-2874 | it comes out empty if and only if there is no common channel |
| P2pChannels.OnePassMissesSome | core/rtw_p2p.c:2686-2705 | two channels listed in opposite orders: one is lost, and a GO operating on it moves to the other |
| P2pChannels.IsChannelListOk | core/rtw_p2p.c:28-41 | found if and only if the channel is in the list |
| P2pChannels.MeetChannels | core/rtw_p2p.c:2862-2916 | refusal exactly without common channels; a GO ends with its own channel, else the peer's, else the first common one |
| P2pChannels.GoEndsOnCommonChannel | core/rtw_p2p.c:2876-2914 | a GO that accepts ends on a channel both sides have; when both lists ascend, on its own if that is common |
| P2pChannels.GoKeepsOwnChannel | core/rtw_p2p.c:2876-2914 | a GO that accepts keeps its own channel if and only if nothing the peer lists before it lies behind it in our list |
| PowerSeq.Hal.Parse | hal/HalPwrSeqCmd.c:49-150 | result and bus traffic are those of the run of the script; terminates when an END matches |
| PowerSeq.Hal.PollCmd | hal/HalPwrSeqCmd.c:104-124 | the polling loop with its shared counter |
| PowerSeq.RunOfMeant | hal/HalPwrSeqCmd.c:76-79 | the run is the run of the matching commands alone |
| PowerSeq.StepMeans | hal/HalPwrSeqCmd.c:76-147 | one command on the bus: a write puts its value inside the mask and what was read outside it, a delay is in micro- or milliseconds, END ends, a command for another chip does nothing |
| PowerSeq.PollWaits | hal/HalPwrSeqCmd.c:104-124 | polling reads until the masked bits have their value, with a delay behind each miss, and goes on only after a hit |
| PowerSeq.PollingsMet | hal/HalPwrSeqCmd.c:104-124 | a run that does not fail has seen what each of its polling commands waits for |
| PowerSeq.LastWriteStands | hal/HalPwrSeqCmd.c:87-101 | bits of a matching write that no later matching write touches have its value at the end of every run that does not fail |
| PowerSeq.RunEnds | hal/HalPwrSeqCmd.c:133-137 | a script with a matching END ends |
| PowerSeq.RunBudgeted | hal/HalPwrSeqCmd.c:118-121 | no more than 5002 polling reads over the whole script, and 5002 of them exactly when it fails |
| PowerSeq.OtherBitsKept | hal/HalPwrSeqCmd.c:87-101 | bits outside the masks of all matching writes keep their value to the end of the run |

## Left out

- CommandHandshake.EveryRunIsSafe: the two calls of rtw_cmd_filter are one atomic check, the driver is not being stopped, allocation succeeds, modes change only through LPS_Enter and LPS_Leave, and the wait for S4 is not given up; the give-up branch has its own lemmas. The alive bits are a set and the RPWM byte a record.
- CommandHandshake: rtw_register_rx_alive and rtw_register_evt_alive only set a bit; rtw_unregister_evt_alive releases a lock it does not take and has no callers, and is modelled as clearing the bit.
- CommandHandshake.StepInv: SendRegister, SendDone, Unregister and EnterLocked are whole locked functions, atomic also against the interrupt, which takes no lock; only the register sequence of the command thread and the leave sequence are split where it can run. A transmitter unregisters only after SUCCESS.
- PowerControl.PwrCtrl.EnterMode: the readiness tests of PS_RDY_CHECK, the firmware's power-mode command and leisure power-save timing are outside the model.
- Nat25Db.Db: allocation succeeds, locking is assumed to work, and freeing memory is not modelled; the shortcut entry is only followed as far as it must not dangle.
- PppoeRelay.Skb.InsertDiscovery: the bytes behind the PPPoE payload keep their number, not their content, because the driver moves only the payload up; the branches without addPPPoETag and the session phase, which goes to the database, are left out. What lies behind the tag buffer in memory is a parameter.
- DhcpFlag.SetBroadcast: recognising a DHCP request in the frame is left out; the method starts where the flag is tested.
- EfuseMap.Efuse.MapWrite: a write of no bytes from an odd address, which the source does not survive, is excluded. The section writer of the chip is an oracle that replaces exactly the enabled words or fails. The section number fits one byte, as maps of up to 2048 bytes guarantee.
- EfuseMap.Efuse.FillSection: the early exits of the inner loop are its loop condition, and input buffers that are only read are sequences.
- InfoElements.RemoveIe: the remainder behind the first element removed must fit the source's copy buffer; elements must tile the buffer and be long enough for the OUI comparison; malformed buffers are not studied. The overlapping memcpy calls are moves.
- BeaconIe.AddBcnIe: allocating the backup buffer succeeds; the result fits the buffer.
- ApStations.Mlme.StaJoin: of update_beacon only the ERP element is modelled; transmitting the beacon, the TIM, and associated_clients_update are left out. rtw_mlme_ext.c:9621 also raises num_sta_no_ht, in client mode.
- ApRuns.EveryRun: stations start with clear flags; station records surviving from an earlier access-point session are not modelled.
- ScanPool.MlmePriv.UpdateScannedNetwork: the time stamps are 32 bits wide and HZ is 1000, a choice of one kernel configuration; roaming preferences and antenna diversity are left out, and a network's other fields are an opaque sequence. _rtw_free_network_nolock is the same move as in FreeNetwork without the age test.
- GoNego.WifiDirect.OnReq: one P2P element in each frame; whether its channels are acceptable is a parameter, which P2pChannels decides.
- GoNego.Agreement: one dialogue, concurrent mode off; both sides are this driver, whose requests and responses always carry a GO intent (core/rtw_mlme_ext.c:3034-3045, 3535-3552); neither side starts out in GONEGO_OK or is to be restored to it. rtw_action_public_decache (core/rtw_mlme_ext.c:5566-5598), which drops a retransmission of the frame received last, is left out; it takes away runs, and the run of LateRestoreDisagrees passes it.
- P2pChannels.MeetChannels: one well-formed channel list attribute of at most 100 bytes.
- PowerSeq.Hal.Parse: the base field is not looked at, as in the source; an array without a matching END, which the source would run off, is excluded.
- Register, USB, radio and baseband access, the HalFunc calls, LEDs and debug output are hardware or unseen code.
- The ioctl, OID and mass-production interfaces and the command builders are wrappers around one enqueue.
- WFD and P2P frame builders emit constant bytes.
- Concurrent mode, TDLS, WiDi, IPv6 pass-through and suspend multiply configurations without a new kind of property.
