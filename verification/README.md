# AirPortOpenBSD: a verified model of the driver core

AirPortOpenBSD is a macOS Wi-Fi kernel extension that puts Apple's IO80211
interfaces in front of the OpenBSD drivers and net80211. This project models the
stateful part of that glue and proves what it keeps over whole runs:

- **The scan cache.** A singly linked list of heap nodes, updated in place or at
  its head while the net80211 node tree is walked, swept with removal during the
  walk, and enumerated through a separate cursor.
- **The active-probe table.** Which requested SSIDs are probed because the cache
  does not have them.
- **Key installation.** Pairwise and group keys, protection flags, port validity.
- **Packets, power, the watchdog, the association wait and `hexdump`.**

The command gate serialises the driver's entry points, so each is one atomic
step. Clocks, the node tree, `ic_set_key`, the interface's output queue and the
hardware drivers are inputs of the steps. What they do to the modelled state is
part of the input too: the errors that `if_start` counts during a transmit, the
values that drivers leave in `if_timer`, the code that `ic_set_key` answers, and
what net80211 does to keys, protection and port between two key installations:
clearing the group keys, deleting a key, resetting protection at authentication,
moving the counters of a key with each frame.

## Layout

| file | contents |
|---|---|
| MachineTypes.dfy | fixed-width integers, byte buffers, C strings |
| ScanRecord.dfy | a node becomes a scan record; the record is copied out |
| ScanModel.dfy | the scan cache as a state machine |
| ScanLaws.dfy, ScanRuns.dfy | its laws: conservation, map override, enumeration, cursor, retention |
| ScanSweeps.dfy | enumeration while the cache is swept |
| ScanList.dfy | the linked list, proved to implement the state machine |
| DirectScan.dfy, DirectLaws.dfy | the active-probe table and its laws |
| KeyInstall.dfy | key installation, and what net80211 does to the same state |
| KeyEffects.dfy | what one pairwise or group key does, field by field |
| KeyLaws.dfy | laws of the group-key slots and of the keys in the hardware |
| PortLaws.dfy | laws of the protection flags, the port and the pairwise key |
| PacketPath.dfy | output and input of packets |
| Power.dfy | power requests and the watchdog as a state machine, and its laws |
| DriverRuns.dfy | power requests, scans and reads in one run |
| Driver.dfy | the driver object that implements both |
| AssocWait.dfy | the bounded wait and the duration conversions |
| Hexdump.dfy | the hex dump and its inverse |

A requested SSID carries the byte that follows its buffer in the request: the low
byte of `scan_type` in a single request, of the next entry's `version` or of
`bssid_count` in a multiple one. The source comment on the single request's timeout
says three seconds; the code sets 1000 ms, and the model follows the code.

Classes hold the driver's mutable fields. Each of their methods is proved equal
to a step function on the abstract state, and the laws are lemmas about runs of
those steps. What one step does is in turn stated on the fields alone, without
the functions that define the step (`LastNamedIsCached`, `SingleEffect`,
`MultipleEffect`, `GroupKeyIsWritten`, `SendEffect`, `RequestEffect` and others).

## Where the code does not keep the obvious promise

Each of these is proved with the exact condition under which the promise holds.

- **The enumeration cursor.** `scanFreeResults` does not reset the cursor. A read
  after a clear and a new scan, with no scan-done between, goes through a freed
  node (`CursorSafeIffDisciplined`, `ClearThenScanIsNotSafe`); a power-off clears
  the cache in this way (`SafeIffDisciplined`, `AfterPowerOff`).
- **Matching SSIDs.** `strcmp` compares SSIDs as C strings. A request for a cached
  SSID misses it exactly if the SSID has no zero byte and the next byte of the
  request is not zero, as behind a full 32-byte SSID or in a buffer with leftovers
  (`EqualSsidsMatch`, `FullLengthSsidIsProbed`, `LeftoverByteIsProbed`). A request
  for another SSID hits a cached one exactly if its buffer spells that SSID up to
  a zero (`MatchIsSpelling`, `DifferentSsidsMatch`, `ZeroInsideIsNotProbed`). For whole caches:
  `ProbedUnlessSpelled`, `ProbedUnlessCached`, `CachedIsProbedAgain`.
- **A refused group key.** `setGTK` leaves the key in the slot when the hardware
  refuses it, so the same key offered again counts as already installed and makes
  the port valid. A key is in the hardware exactly if some offer of it was asked
  for and granted, and everything asked since was an offer and was refused
  (`KeyIsInHardware`, `RefusedThenRepeated`); a clearing or deletion in
  between takes it away (`ClearedThenRefused`). An answer of EBUSY is accepted
  before the key is sent; the laws hold whether it is read as granted or not
  (`BusyBeforeInstalled`).
- **A valid port without protection.** The Intel driver opens the port from a task of
  its own. A valid port has reception protection throughout a run exactly if that
  task never runs after a reset with no key accepted since (`ValidPortIsProtected`);
  if_iwx.c:9477-9481 sees to it by dropping the task when it leaves RUN.
- **Output accounting.** A packet that `if_start` refuses after it was queued counts
  in both counters, and a missing or free packet pulled while the interface is not
  running in neither (`AccountingIsExactIff`, `RefusedPacketCountsTwice`,
  `SilentDropIsNotCounted`).

One limit is that of a type and no failure of the driver: the record's element
length is an `int16_t`, and a node with 32768 or more bytes of elements could lose
them when its record is copied out (`CopyIsWholeRecord`, `LengthFieldWraps`).
Frames are received into buffers of 4096 bytes, so no node gets there, and below
that length every cached record is handed out whole (`RunKeepsWhole`,
`DrainHandsOutTheCache`).

## Model

| member | source | states |
|---|---|---|
| ScanRecord.ScanConvertResult | AirPortOpenBSD/Comm/AirPortOpenBSDComm_SCAN.cpp:47-90 | the record filled in step by step is the declared conversion of the node, with the narrowing of interval, capabilities, age and element length |
| ScanRecord.RecordDeterminesNode | AirPortOpenBSD/Comm/AirPortOpenBSDComm_SCAN.cpp:47-90 | the node's fields can be read back from the record, up to the low rate bits and the cut element bytes |
| ScanRecord.RecordCutsNode | AirPortOpenBSD/Comm/AirPortOpenBSDComm_SCAN.cpp:47-90 | the age is the elapsed time modulo 2^32, the elements are the first 1024 bytes with zeros behind and their length modulo 2^16, and the constant fields have their values |
| ScanRecord.CopyRecord | AirPortOpenBSD/AirPortOpenBSDWLANSkywalkInterface.cpp:924-955 | the copy built field by field for user space is the declared field copy |
| ScanRecord.CopyIsWholeRecord | AirPortOpenBSD/AirPortOpenBSDWLANSkywalkInterface.cpp:924-955 | the field copy of a converted record is the whole record if and only if the 16-bit element length is not negative or the stored elements are all zero |
| ScanRecord.ShortElementsAreKept | AirPortOpenBSD/AirPortOpenBSDWLANSkywalkInterface.cpp:950-953 | every record of a node with fewer than 32768 bytes of elements is copied whole |
| ScanRecord.LengthFieldWraps | AirPortOpenBSD/Comm/AirPortOpenBSDComm_SCAN.cpp:72-85 | the bound is that of the 16-bit field: with 32768 bytes of elements the record would not be copied whole |
| ScanList.ScanCache.constructor | AirPortOpenBSD/AirPortOpenBSD.hpp:238-239 | the driver starts with an empty list and no cursor |
| ScanList.ScanCache.FindEntry | AirPortOpenBSD/Comm/AirPortOpenBSDComm_SCAN.cpp:101-112 | the list walk returns the first node with the BSSID and channel, or null |
| ScanList.ScanCache.Overwrite | AirPortOpenBSD/Comm/AirPortOpenBSDComm_SCAN.cpp:114-117 | a known network's node is overwritten in place; identity and position stay |
| ScanList.ScanCache.InsertHead | AirPortOpenBSD/Comm/AirPortOpenBSDComm_SCAN.cpp:118-125 | a new network gets a newly allocated node in front of the old list |
| ScanList.ScanCache.Upsert | AirPortOpenBSD/Comm/AirPortOpenBSDComm_SCAN.cpp:96-127 | one visible node of the tree is one observation of the state machine |
| ScanList.ScanCache.ScanComplete | AirPortOpenBSD/Comm/AirPortOpenBSDComm_SCAN.cpp:92-133 | the walk over the whole tree implements the scan step; the old list survives by node identity and order as a suffix |
| ScanList.ScanCache.ScanDone | AirPortOpenBSD/Comm/AirPortOpenBSDComm_SCAN.cpp:153-163 | a scan followed by resetting the cursor to the head of the list |
| ScanList.ScanCache.SlistRemove | AirPortOpenBSD/Comm/AirPortOpenBSDComm_SCAN.cpp:145 | unlinking removes exactly the given node and keeps the list well linked |
| ScanList.ScanCache.RemoveAndFree | AirPortOpenBSD/Comm/AirPortOpenBSDComm_SCAN.cpp:145-146 | the node is unlinked and logged as freed, once |
| ScanList.ScanCache.SweepNode | AirPortOpenBSD/Comm/AirPortOpenBSDComm_SCAN.cpp:143-147 | one turn of the safe walk: the saved successor is the next node whether or not the current one is removed |
| ScanList.ScanCache.ScanFreeResults | AirPortOpenBSD/Comm/AirPortOpenBSDComm_SCAN.cpp:135-151 | the removing walk implements the sweep: it keeps and frees what the age test says, and leaves the cursor alone |
| ScanList.ScanCache.GetScanResult | AirPortOpenBSD/AirPortOpenBSDWLANSkywalkInterface.cpp:914-968 | a read answers with the copy of the cursor's record and advances, or with 0x05; it needs a live cursor only when the list is not empty |
| ScanLaws.ConservedIsDistinct | AirPortOpenBSD/AirPortOpenBSD.hpp:238-239 | a conserved state has no node twice in its list and no freed node in it |
| ScanLaws.ScanKeepsValid | AirPortOpenBSD/Comm/AirPortOpenBSDComm_SCAN.cpp:92-133 | a scan keeps networks unique and nodes conserved, and leaves the cursor |
| ScanLaws.SweepMembers | AirPortOpenBSD/Comm/AirPortOpenBSDComm_SCAN.cpp:143-148 | a node survives a sweep if and only if it was in the list and the age test retains it |
| ScanLaws.SweepConserves | AirPortOpenBSD/Comm/AirPortOpenBSDComm_SCAN.cpp:143-148 | a sweep keeps or frees each node of the list, exactly one of the two, exactly once |
| ScanLaws.SweepKeepsOrder | AirPortOpenBSD/Comm/AirPortOpenBSDComm_SCAN.cpp:143-148 | survivors keep their order |
| ScanRuns.ClearEmpties | AirPortOpenBSD/Comm/AirPortOpenBSDComm_SCAN.cpp:143-148 | a sweep with age 0 removes every node |
| ScanLaws.RunKeepsValid | AirPortOpenBSD/Comm/AirPortOpenBSDComm_SCAN.cpp:92-163 | over every run of scans, scan-dones, sweeps and reads, networks stay unique and each node ever allocated is in the list or was freed, exactly once |
| ScanLaws.RunKeepsConverted | AirPortOpenBSD/Comm/AirPortOpenBSDComm_SCAN.cpp:92-163 | over every run the cache holds only conversions of nodes |
| ScanLaws.RunKeepsWhole | AirPortOpenBSD/AirPortOpenBSDWLANSkywalkInterface.cpp:924-955 | over every run in which all nodes have fewer than 32768 bytes of elements, every cached record is one that is copied out unchanged |
| ScanLaws.ScanOverrides | AirPortOpenBSD/Comm/AirPortOpenBSDComm_SCAN.cpp:92-133 | a scan overrides a map: a seen network has the conversion of its last visible node, every other keeps its value |
| ScanLaws.LastNamedIsCached | AirPortOpenBSD/Comm/AirPortOpenBSDComm_SCAN.cpp:94-126 | the last node of the walk with a non-zero first SSID byte and a given BSSID and channel is what the cache holds for them afterwards, with its conversion and its stamp |
| ScanLaws.NamelessAreSkipped | AirPortOpenBSD/Comm/AirPortOpenBSDComm_SCAN.cpp:94-99 | if every node with a BSSID and channel has a zero first SSID byte, their entry stays as it was |
| ScanLaws.LookupFinds | AirPortOpenBSD/Comm/AirPortOpenBSDComm_SCAN.cpp:101-112 | looking up a BSSID and channel finds an entry of the list with both, and fails only if there is none |
| ScanLaws.ScanKeepsSuffix | AirPortOpenBSD/Comm/AirPortOpenBSDComm_SCAN.cpp:118-125 | the old nodes are the tail of the new list, and the nodes before them are new, latest first |
| ScanLaws.ScanKeepsKeys | AirPortOpenBSD/Comm/AirPortOpenBSDComm_SCAN.cpp:105-117 | a node keeps its network through every scan |
| ScanRuns.EnumerationIsStable | AirPortOpenBSD/AirPortOpenBSDWLANSkywalkInterface.cpp:914-968 | with any scans between the reads, the nodes present at the last scan-done are handed out once each, in list order, and no others; then the reads answer 0x05 |
| ScanRuns.InterruptedReadIsCurrent | AirPortOpenBSD/AirPortOpenBSDWLANSkywalkInterface.cpp:920-959 | the m-th read answers with the network that stood m-th at the scan-done, in the state the scans since then left it |
| ScanSweeps.SweptEnumeration | AirPortOpenBSD/AirPortOpenBSDWLANSkywalkInterface.cpp:914-968 | with any scans between the reads, and any sweeps that spare the node under the cursor, the reads hand out nodes of the last scan-done once each and in list order; those handed out and those still ahead are all of them that are still in the list |
| ScanSweeps.AheadAfterSweep | AirPortOpenBSD/Comm/AirPortOpenBSDComm_SCAN.cpp:143-148 | such a sweep filters what the cursor has ahead of it by the age test, and nothing else |
| ScanSweeps.SubsequenceOrder | AirPortOpenBSD/AirPortOpenBSDWLANSkywalkInterface.cpp:914-968 | two nodes handed out stand in the same order in the list of the scan-done |
| ScanRuns.DrainReturnsList | AirPortOpenBSD/AirPortOpenBSDWLANSkywalkInterface.cpp:914-968 | an uninterrupted drain returns the list entry by entry and answers 0x05 after exactly as many successes |
| ScanRuns.DrainHandsOutTheCache | AirPortOpenBSD/AirPortOpenBSDWLANSkywalkInterface.cpp:914-968 | after any history from the start of the driver with nodes below that bound, the drain returns the cached records themselves |
| ScanRuns.DrainDeliversEachNetworkOnce | AirPortOpenBSD/Comm/AirPortOpenBSDComm_SCAN.cpp:92-163 | after a scan-done every network of the old cache or among the visible nodes is delivered in exactly one of all the reads, with the record of its last visible node if seen; no read delivers any other network |
| ScanRuns.NamedIsDelivered | AirPortOpenBSD/AirPortOpenBSDWLANSkywalkInterface.cpp:914-968 | the last node of the tree with a name and a given BSSID and channel is handed out by exactly one read after the scan-done, and no other read answers with them |
| ScanRuns.NamelessIsNotDelivered | AirPortOpenBSD/Comm/AirPortOpenBSDComm_SCAN.cpp:94-99 | no read answers with a BSSID and channel that only nodes without a name have, unless the old cache held them |
| ScanRuns.CursorSafeIffDisciplined | AirPortOpenBSD/AirPortOpenBSDWLANSkywalkInterface.cpp:920-959 | every read of a non-empty list finds a null or live cursor if and only if each sweep that frees the cursor's node is followed by a scan-done before the next such read |
| ScanRuns.ClearThenScanIsNotSafe | AirPortOpenBSD/AirPortOpenBSDWLANSkywalkInterface.cpp:920-959 | scan-done, clear, scan, read is a run with a dead cursor |
| ScanRuns.RetentionIsExact | AirPortOpenBSD/Comm/AirPortOpenBSDComm_SCAN.cpp:135-151 | a network not seen again is still cached, unchanged, if and only if every sweep of the run retained its stamp |
| ScanRuns.RetainedWindow | AirPortOpenBSD/Comm/AirPortOpenBSDComm_SCAN.cpp:144 | the unsigned age test: positive threshold, and the 64-bit difference within it, also for a clock set back |
| ScanRuns.SeenNetworkLivesFor | AirPortOpenBSD/Comm/AirPortOpenBSDComm_SCAN.cpp:98-151 | with a clock that does not run back, a network last seen at t is cached at the end of a run if and only if every sweep had a positive threshold a and came no later than t + a |
| DirectScan.Prober.InCache | AirPortOpenBSD/Legacy/AirPortOpenBSDLegacy_IOCTL.cpp:349-357 | the lookup loop answers whether some cached record matches the requested string |
| DirectScan.Prober.InTable | AirPortOpenBSD/Legacy/AirPortOpenBSDLegacy_IOCTL.cpp:369-378 | the table loop answers whether some used slot matches the requested string |
| DirectScan.Prober.Append | AirPortOpenBSD/Legacy/AirPortOpenBSDLegacy_IOCTL.cpp:382-385 | the SSID is added behind the used slots, zero padded |
| DirectScan.Prober.ProbeOne | AirPortOpenBSD/Legacy/AirPortOpenBSDLegacy_IOCTL.cpp:349-386 | the two searches of a single request: the table becomes the one SSID exactly if the cache misses it, and the table search never prevents the add |
| DirectScan.Prober.Probe | AirPortOpenBSD/Legacy/AirPortOpenBSDLegacy_IOCTL.cpp:341-388 | a single request refreshes the cache and rewrites the table to its one SSID exactly if the cache misses it; the timeout says which |
| DirectScan.Prober.SetScanReqLegacy | AirPortOpenBSD/Legacy/AirPortOpenBSDLegacy_IOCTL.cpp:296-402 | the legacy request, with its null-argument error and its timeout of 1000 or 200 |
| DirectScan.Prober.SetScanReqSkywalk | AirPortOpenBSD/AirPortOpenBSDWLANSkywalkInterface.cpp:771-888 | the Skywalk request: the same table step, and the dwell time instead of a background scan for fast and passive scans |
| DirectScan.Prober.MinChannel | AirPortOpenBSD/Legacy/AirPortOpenBSDLegacy_IOCTL.cpp:433-438 | the loop computes the least requested channel, at most 165 |
| DirectScan.Prober.AppendUncached | AirPortOpenBSD/Legacy/AirPortOpenBSDLegacy_IOCTL.cpp:452-478 | the loop over the requested SSIDs fills the table with those the cache misses, in order |
| DirectScan.Prober.ProbeMultiple | AirPortOpenBSD/Legacy/AirPortOpenBSDLegacy_IOCTL.cpp:433-479 | the table is rewritten if and only if channel 1 is requested and channel 0 is not; the timeout is 2000 if and only if it then is not empty |
| DirectScan.Prober.SetScanReqMultiple | AirPortOpenBSD/Legacy/AirPortOpenBSDLegacy_IOCTL.cpp:408-493 | the multiple request with its null-argument error |
| DirectLaws.TableStaysOk | AirPortOpenBSD/Legacy/AirPortOpenBSDLegacy_IOCTL.cpp:341-479 | over every run at most ten slots are in use, each with positive length and zero padding |
| DirectLaws.SingleEffect | AirPortOpenBSD/Legacy/AirPortOpenBSDLegacy_IOCTL.cpp:341-388 | a single request for a non-empty SSID refreshes the cache, keeps the table if a cached SSID compares equal as a C string and replaces it by the one SSID, zero padded, otherwise; an empty SSID does nothing |
| DirectLaws.MultipleEffect | AirPortOpenBSD/Legacy/AirPortOpenBSDLegacy_IOCTL.cpp:433-479 | a multiple request refreshes the cache and fills the table with what it misses if channel 1 is asked for and 0 is not; otherwise it does nothing |
| DirectLaws.TableIsLastReplacement | AirPortOpenBSD/Legacy/AirPortOpenBSDLegacy_IOCTL.cpp:341-479 | over every run the table is what the last request put there that met those conditions, from the cache it had refreshed |
| DirectLaws.ProbedWasAbsent | AirPortOpenBSD/Legacy/AirPortOpenBSDLegacy_IOCTL.cpp:341-479 | every SSID in the table was asked for by that request, has a positive length and matched nothing in its refreshed cache |
| DirectLaws.SingleKeepsOne | AirPortOpenBSD/Legacy/AirPortOpenBSDLegacy_IOCTL.cpp:359-386 | single requests alone never keep more than one SSID |
| DirectLaws.UncachedIsFilter | AirPortOpenBSD/Legacy/AirPortOpenBSDLegacy_IOCTL.cpp:452-478 | the table is the order-preserving choice of exactly the SSIDs with positive length and no match |
| DirectLaws.MatchIsSpelling | AirPortOpenBSD/Legacy/AirPortOpenBSDLegacy_IOCTL.cpp:352 | for every request and node: a match means that the request's buffer spells the cached SSID up to its first zero or end, with a zero behind |
| DirectLaws.EqualSsidsMatch | AirPortOpenBSD/Legacy/AirPortOpenBSDLegacy_IOCTL.cpp:352 | a request for the cached SSID matches it if and only if the SSID has a zero byte or the byte behind it in the request is zero |
| DirectLaws.DifferentSsidsMatch | AirPortOpenBSD/Legacy/AirPortOpenBSDLegacy_IOCTL.cpp:352 | a request for another SSID matches only with a zero byte inside an SSID or a non-zero byte behind the request; a cached SSID with no zero byte is matched if and only if the request's buffer, cut or extended, spells it |
| DirectLaws.MatchIsEqualSsid | AirPortOpenBSD/Legacy/AirPortOpenBSDLegacy_IOCTL.cpp:352 | with no zero byte in either SSID and a zero behind the request, a match means equal SSIDs |
| DirectLaws.ProbedUnlessSpelled | AirPortOpenBSD/Legacy/AirPortOpenBSDLegacy_IOCTL.cpp:349-386 | in any cache, an SSID is probed if and only if it is not empty and its buffer spells no cached SSID |
| DirectLaws.ProbedUnlessCached | AirPortOpenBSD/Legacy/AirPortOpenBSDLegacy_IOCTL.cpp:349-386 | in any cache, with no zero byte in any SSID and one behind the request, an SSID is probed if and only if it is not empty and no cached SSID equals it |
| DirectLaws.CachedIsProbedAgain | AirPortOpenBSD/Legacy/AirPortOpenBSDLegacy_IOCTL.cpp:349-386 | in any cache, an SSID that is cached is probed if and only if it is not empty, has no zero byte, a non-zero byte follows it, and its buffer spells no other cached SSID |
| DirectLaws.SingleProbes | AirPortOpenBSD/Legacy/AirPortOpenBSDLegacy_IOCTL.cpp:341-388 | after any run of requests and cache events, a single request for a non-empty SSID scans, and replaces the table if and only if its buffer spells no SSID of the scanned cache |
| DirectLaws.FullLengthSsidIsProbed | AirPortOpenBSD/Legacy/AirPortOpenBSDLegacy_IOCTL.cpp:457-474 | a cached 32-byte SSID is probed again if a non-zero byte follows the request's buffer |
| DirectLaws.LeftoverByteIsProbed | AirPortOpenBSD/Legacy/AirPortOpenBSDLegacy_IOCTL.cpp:349-386 | a cached one-byte SSID is probed again if a second byte is left in the request's buffer |
| DirectLaws.ZeroInsideIsNotProbed | AirPortOpenBSD/Legacy/AirPortOpenBSDLegacy_IOCTL.cpp:349-386 | an SSID that is not cached and is not probed, because it agrees with a cached one up to a zero byte |
| KeyInstall.KeyInstaller.SetPtk | AirPortOpenBSD/Comm/AirPortOpenBSDComm_ASSOC.cpp:20-64 | the pairwise step: nothing but the handshake state without an own cipher or on a length mismatch; key written before the hardware answers; flags only on success or busy |
| KeyInstall.KeyInstaller.SetGtk | AirPortOpenBSD/Comm/AirPortOpenBSDComm_ASSOC.cpp:66-123 | the group step with its early returns |
| KeyInstall.KeyInstaller.InstallGroup | AirPortOpenBSD/Comm/AirPortOpenBSDComm_ASSOC.cpp:83-93 | the slot holds the new key whatever the hardware answers |
| KeyInstall.KeyInstaller.Protect | AirPortOpenBSD/Comm/AirPortOpenBSDComm_ASSOC.cpp:106-122 | protection on; port valid at once, in an ad-hoc network with the second key |
| KeyInstall.KeyInstaller.ClearGroupKeys | AirPortOpenBSD/openbsd/net80211/ieee80211_crypto.c:104-114 | the loop deletes the key of each slot in use and empties every slot |
| KeyEffects.PairwiseKeyIsIgnored | AirPortOpenBSD/Comm/AirPortOpenBSDComm_ASSOC.cpp:27-39 | a wrong length, or a node without an own pairwise cipher, ends the handshake and changes nothing else |
| KeyEffects.PairwiseKeyIsWritten | AirPortOpenBSD/Comm/AirPortOpenBSDComm_ASSOC.cpp:42-57 | a key of the right length is written with all counters zero and handed to the driver, whatever the answer; a software key is marked |
| KeyEffects.PairwiseKeyProtects | AirPortOpenBSD/Comm/AirPortOpenBSDComm_ASSOC.cpp:48-60 | taken or busy, it ends the wait for a new key and turns protection to receive only; refused, it changes no flag |
| KeyEffects.HandshakeFollowsHistory | AirPortOpenBSD/Comm/AirPortOpenBSDComm_ASSOC.cpp:27 | over every run the handshake is done after a pairwise key, and otherwise as net80211 left it |
| KeyEffects.GroupKeyIsSkipped | AirPortOpenBSD/Comm/AirPortOpenBSDComm_ASSOC.cpp:73-82 | a wrong length changes nothing; no key, or one the slot holds, protects and touches no slot |
| KeyEffects.GroupKeyIsWritten | AirPortOpenBSD/Comm/AirPortOpenBSDComm_ASSOC.cpp:83-93 | a new key is written to its slot alone and handed to the driver, whatever the answer, with the receive counter of its first class the six bytes of `rsc`, low byte first, and the others zero |
| KeyEffects.GroupKeyProtects | AirPortOpenBSD/Comm/AirPortOpenBSDComm_ASSOC.cpp:93-121 | taken or busy, it turns on both protections and opens the port, in an ad-hoc network at a count of two; refused, it changes none of this |
| KeyEffects.KeyLengths | AirPortOpenBSD/openbsd/net80211/ieee80211_crypto.c:119-137 | the key length of each cipher |
| KeyLaws.ViewIsHistory | AirPortOpenBSD/Comm/AirPortOpenBSDComm_ASSOC.cpp:66-104 | over every run a slot and what the driver was asked about it depend only on the slot's history of offers, clearings and deletions |
| KeyLaws.InstallsAreChanges | AirPortOpenBSD/Comm/AirPortOpenBSDComm_ASSOC.cpp:73-103 | for a real group cipher the driver is asked, in order, for exactly the offered keys that differ from the one left in the slot by the offers, clearings and deletions before, and to delete the key of each slot in use that is cleared; over every mix of events |
| KeyLaws.NoCipherAlwaysInstalls | AirPortOpenBSD/Comm/AirPortOpenBSDComm_ASSOC.cpp:82 | without a group cipher every offered key goes to the driver, and clearings delete nothing |
| KeyLaws.RepeatKeepsCounters | AirPortOpenBSD/Comm/AirPortOpenBSDComm_ASSOC.cpp:82-89 | repeating a group key that the events between have left in its slot touches no slot, so a receive counter advanced in between stays |
| PortLaws.PortIsTurns | AirPortOpenBSD/Comm/AirPortOpenBSDComm_ASSOC.cpp:58-122 | over every run the flags and the port depend only on the accepted keys, the resets, the driver's openings and the writes of the link fields |
| PortLaws.AcceptedFromHistory | AirPortOpenBSD/Comm/AirPortOpenBSDComm_ASSOC.cpp:82-103 | after any run a group key of the right length is accepted if and only if the driver does not refuse it or the slot's history has left it there |
| PortLaws.FlagsFollowHistory | AirPortOpenBSD/Comm/AirPortOpenBSDComm_ASSOC.cpp:58-107 | transmit protection is on if and only if the last accepted key or reset was an accepted group key; receive protection if it was any accepted key; a new pairwise key is expected until one is accepted; other flags are as the environment left them |
| PortLaws.ValidPortIsProtected | AirPortOpenBSD/Comm/AirPortOpenBSDComm_ASSOC.cpp:58-115 | a valid port has receive protection throughout a run if and only if the driver opens the port only with a key accepted since the last reset |
| PortLaws.PortFollowsHistory | AirPortOpenBSD/Comm/AirPortOpenBSDComm_ASSOC.cpp:106-122 | over every run the port is valid if and only if, since the last reset, the driver or an accepted group key opened it, in an ad-hoc network one that brings the eight-bit count to two |
| PortLaws.PortValidAfter | AirPortOpenBSD/Comm/AirPortOpenBSDComm_ASSOC.cpp:106-122 | within one association of a fresh node the port is valid if and only if one group key, in an ad-hoc network two, were accepted |
| PortLaws.OpenedLinkIsUp | AirPortOpenBSD/Comm/AirPortOpenBSDComm_ASSOC.cpp:112-121 | a group key that opens the port brings the link up, clears the failure mark and, for a station, adopts the group cipher, until another part of the driver writes these |
| PortLaws.SlotsStayOk | AirPortOpenBSD/Comm/AirPortOpenBSDComm_ASSOC.cpp:80-91 | every slot in use keeps its number, the group flag and the key length of its own cipher |
| PortLaws.PairwiseIsLastOffered | AirPortOpenBSD/Comm/AirPortOpenBSDComm_ASSOC.cpp:27-46 | the pairwise key is the last one offered with the right length, accepted or not, or empty after a deletion that zeroed it; its counters are zero until a frame moves them |
| PortLaws.CounterIsInjective | AirPortOpenBSD/Comm/AirPortOpenBSDComm_ASSOC.cpp:89 | the receive counter of a new group key determines the six bytes it was read from |
| KeyLaws.SlotIsLastAsked | AirPortOpenBSD/Comm/AirPortOpenBSDComm_ASSOC.cpp:80-101 | over every run from an empty slot, the slot holds exactly the last key the driver was asked to install, granted or refused, unless a deletion was asked for since |
| KeyLaws.KeyIsInHardware | AirPortOpenBSD/Comm/AirPortOpenBSDComm_ASSOC.cpp:82-103 | over every run from an empty slot, a group key is in the hardware if and only if some offer of it was asked for and granted and everything asked since was an offer and was refused; found from offers, answers, clearings and deletions alone, with EBUSY read as granted or as not |
| PortLaws.RefusedThenRepeated | AirPortOpenBSD/Comm/AirPortOpenBSDComm_ASSOC.cpp:93-101 | a refused key offered twice makes the port valid without a key in the hardware |
| PortLaws.ClearedThenRefused | AirPortOpenBSD/openbsd/net80211/ieee80211_proto.c:1150-1164 | so it does after a clearing that has deleted the same key, granted before |
| PortLaws.BusyBeforeInstalled | AirPortOpenBSD/openbsd/dev/pci/if_iwx.c:9053-9063 | an answer of EBUSY makes the port valid before the key is sent to the hardware |
| PacketPath.NetDevice.OutputPacket | AirPortOpenBSD/AirPortOpenBSD.cpp:297-344 | which packets are queued, counted, freed or just dropped, branch by branch, with the errors that `if_start` adds during the call |
| PacketPath.NetDevice.IfStart | AirPortOpenBSD/openbsd/dev/pci/if_iwx.c:10011-10037 | the driver takes packets off the front of the send queue and counts those it refuses |
| PacketPath.NetDevice.OutputStart | AirPortOpenBSD/AirPortOpenBSD.cpp:274-286 | the dequeue loop is the declared drain |
| PacketPath.SendEffect | AirPortOpenBSD/AirPortOpenBSD.cpp:302-341 | the tests in their order, with the counters, the queue and the freed packets after each: not running, no packet, no header, free, queue full, sent |
| PacketPath.DrainGoesOn | AirPortOpenBSD/AirPortOpenBSD.cpp:274-286 | the loop goes on exactly after a packet that passes all of them |
| PacketPath.NetDevice.IfInput | AirPortOpenBSD/Comm/AirPortOpenBSDComm_Util.cpp:32-50 | all packets are delivered in order, counted and flushed; without an interface one packet is taken off and none delivered |
| PacketPath.DrainStops | AirPortOpenBSD/AirPortOpenBSD.cpp:274-344 | the loop stops right after the first drop, answers NoResources if and only if it pulled nothing, and frees at most that last packet |
| PacketPath.DrainCounts | AirPortOpenBSD/AirPortOpenBSD.cpp:302-341 | the packet counter rises by the packets before the first drop, the error counter by what `if_start` refused for them and a counted drop, modulo 2^32 |
| PacketPath.DrainKeepsOrder | AirPortOpenBSD/AirPortOpenBSD.cpp:274-344 | what reached the send queue and the hardware is what was pulled before the first drop, in pull order |
| PacketPath.DrainAccounting | AirPortOpenBSD/AirPortOpenBSD.cpp:302-341 | the two counters together rise by the packets pulled and the errors of `if_start`, less one for a silent drop |
| PacketPath.AccountingIsExactIff | AirPortOpenBSD/AirPortOpenBSD.cpp:302-341 | they rise by exactly the packets pulled if and only if the errors of `if_start` number one with a silent drop at the end and none without, modulo 2^32 |
| PacketPath.RefusedPacketCountsTwice | AirPortOpenBSD/AirPortOpenBSD.cpp:339-341 | one pull that raises both counters |
| PacketPath.SilentDropIsNotCounted | AirPortOpenBSD/AirPortOpenBSD.cpp:302-308 | one pull that raises neither |
| PacketPath.DrainConserves | AirPortOpenBSD/AirPortOpenBSD.cpp:302-343 | over every drain, each packet pulled that is not free, or free but without a header while running, is taken by the driver, queued or freed, exactly once, and no other packet is |
| Driver.AirPort.ChangePowerState | AirPortOpenBSD/Comm/AirPortOpenBSDComm_PM.cpp:59-110 | the requested state is recorded even when the call returns an error; hardware actions and timer as the step says; a power-off sweeps the heap list with age 0 |
| Driver.AirPort.SetPowerState | AirPortOpenBSD/Comm/AirPortOpenBSDComm_PM.cpp:37-57 | the gate action requests the low 32 bits of its argument |
| Driver.AirPort.EnableInterface | AirPortOpenBSD/AirPortOpenBSD.cpp:394-397 | enabling turns the power on only if it is off |
| Driver.AirPort.IfWatchdog | AirPortOpenBSD/Comm/AirPortOpenBSDComm_Util.cpp:74-88 | a tick counts down, calls the driver watchdog at zero, which leaves any value in the timer, and sets the timer again while a handler is present |
| Driver.AirPort.GetScanResult | AirPortOpenBSD/AirPortOpenBSDWLANSkywalkInterface.cpp:914-968 | a read of the heap list is one step of the composed driver, and asks for exactly what the composed safety law decides |
| Power.UpOnceBeforeWakeup | AirPortOpenBSD/Comm/AirPortOpenBSDComm_PM.cpp:69-96 | for every request sequence "up" is issued at most once and before every wakeup |
| Power.RequestIsRecorded | AirPortOpenBSD/Comm/AirPortOpenBSDComm_PM.cpp:67 | after any run a request is recorded whatever it asks for, also one that is answered with an error |
| Power.RequestEffect | AirPortOpenBSD/Comm/AirPortOpenBSDComm_PM.cpp:63-107 | from every other state, 2 and 3 among them, a request for on brings the hardware up or wakes it and arms the timer, one for off quiesces, clears and disarms, any other does neither |
| Power.TickEffect | AirPortOpenBSD/Comm/AirPortOpenBSDComm_Util.cpp:82-87 | a tick keeps the timer armed exactly if a handler is there, and without one counts nothing |
| Power.OnOffAlternates | AirPortOpenBSD/Comm/AirPortOpenBSDComm_PM.cpp:69-96 | for on and off requests the hardware sees a prefix of UP (QUIESCE WAKEUP)* |
| Power.PowerOffClears | AirPortOpenBSD/Comm/AirPortOpenBSDComm_PM.cpp:91-103 | each quiesce is followed at once by freeing the nodes and clearing the scan cache |
| Power.NeverArmedWhileOff | AirPortOpenBSD/Comm/AirPortOpenBSDComm_PM.cpp:86-94 | under any interleaving of requests, ticks and timer writes the watchdog timer is not armed while the power is off |
| Power.ArmedSinceOn | AirPortOpenBSD/Comm/AirPortOpenBSDComm_Util.cpp:82-87 | with a handler present the timer is armed if and only if the last on or off request was on |
| Power.AlarmOnNthTick | AirPortOpenBSD/Comm/AirPortOpenBSDComm_Util.cpp:82-87 | after a write of n > 0 to `if_timer` the driver watchdog is called on exactly the n-th tick that fires before the next write, and not at all after a write of zero or less |
| Power.AlarmsAreCompletedWrites | AirPortOpenBSD/Comm/AirPortOpenBSDComm_Util.cpp:82-87 | over every run, with any writes by transmits, stops and the watchdog itself, the driver watchdog is called once for each write whose countdown completes before the next write |
| DriverRuns.RunProjects | AirPortOpenBSD/Comm/AirPortOpenBSDComm_PM.cpp:69-103 | a run of the driver is a run of the scan cache on its own events, with a clearing at each power-off, and a run of the power state |
| DriverRuns.TurnsOffIsTraced | AirPortOpenBSD/Comm/AirPortOpenBSDComm_PM.cpp:91-103 | the cache is cleared exactly when the power trace says so |
| DriverRuns.SafeIffDisciplined | AirPortOpenBSD/Comm/AirPortOpenBSDComm_PM.cpp:91-103 | over every mix of power requests, ticks, scans and reads from the start, every read is safe if and only if a scan-done stands between each clearing that frees the cursor's node and the next read of a non-empty cache |
| DriverRuns.AfterPowerOff | AirPortOpenBSD/Comm/AirPortOpenBSDComm_PM.cpp:91-103 | after any history and a power-off, until the next scan-done, a read is safe exactly while the cache is empty, or if the cursor was null |
| AssocWait.SecToNsec | AirPortOpenBSD/compat.h:38-44 | min(x * 10^9, 2^64 - 1), exactly |
| AssocWait.MsecToNsec | AirPortOpenBSD/compat.h:46-52 | min(x * 10^6, 2^64 - 1), exactly |
| AssocWait.ConversionIsMonotone | AirPortOpenBSD/compat.h:38-52 | longer waits convert to no shorter durations, and only overflowing ones are cut |
| AssocWait.WaitForAssociation | AirPortOpenBSD/Legacy/AirPortOpenBSDLegacy_IOCTL.cpp:1001-1009 | against any environment at most ten one-second sleeps, ending either associated or with try_times = -1 |
| AssocWait.WaitIsDetermined | AirPortOpenBSD/Legacy/AirPortOpenBSDLegacy_IOCTL.cpp:1005-1008 | that contract leaves one outcome, and -1 means none of eleven looks found an association |
| AssocWait.AssociatedMeans | AirPortOpenBSD/Comm/AirPortOpenBSDComm_ASSOC.cpp:125-137 | the wait ends once the interface runs and the network needs no key, has a valid port, or is an 802.1X one |
| Hexdump.Snprintf | AirPortOpenBSD/compat.h:61 | writes at most size - 1 characters and a terminator, inside the buffer, and nothing else |
| Hexdump.Hexdump | AirPortOpenBSD/compat.h:54-64 | all writes stay inside 3 * len + 1 bytes and the result is the string of hex pairs separated by single spaces |
| Hexdump.DumpDecodes | AirPortOpenBSD/compat.h:60-62 | decoding the dump gives the buffer back |
| Hexdump.DumpIsInjective | AirPortOpenBSD/compat.h:60-62 | different buffers have different dumps |

## Left out

- net80211, the hardware drivers and IOKit: their answers are inputs. A channel is the number and flag bits net80211 reports; the translation of the flag bits (`chanspec2applechannel`) is a table.
- The record layout before macOS 12, where the elements are a separate allocation, and the allocation failures of `scanComplete`, which the code does not handle.
- The legacy `getSCAN_RESULT`: the same cursor, but it returns a pointer to the cached record and different codes for an empty list.
- Messages, log lines, the hex dump of EAPOL packets, and the background scan a request starts: no effect on the modelled state.
- `setDISASSOCIATE` and `setSCANCACHE_CLEAR` call the sweep with age 0; only the sweep itself is modelled.
- Joining another BSS replaces the node, its ciphers and its key count: a run of the key laws is what happens between two joins. The slots survive a join, so the laws of the slots start from any slots.
- net80211's own handshake, which runs when Apple's supplicant is not in use, the rekeying of an access point and WEP keys write keys too; they are not part of this model.
- `getSUPPORTED_CHANNELS` and the other getters, capability bits and the ioctl switch: settled by reading.
- The argument vectors of `ifconfig`: the parser that reads them is not part of this model.
- Reuse of a freed node's memory by a later allocation: node identities are never reused.
- DirectScan.Prober.InTable: compares 33 bytes of each side; a request and a slot that are both full go on in the source, which cannot change the table because the search only matters when the table is empty.
- DirectScan.Prober.Append: needs an SSID length of at most 32, the size of the request's buffer; the source does not check it.
- DirectScan.Prober.ProbeMultiple: needs at most ten requested SSIDs, the size of the request's array; the source does not check `ssid_count`.
- DirectScan.Prober.SetScanReqMultiple: needs at most ten requested SSIDs, as `ProbeMultiple` does.
- KeyInstall.KeyInstaller.SetGtk: needs a slot number below six, the size of `ic_nw_keys`; the source takes `key_index` of the request unchecked.
- KeyInstall.KeyInstaller.InstallGroup: needs the same slot number.
- PacketPath.NetDevice.IfStart: what the driver does with a packet after it has taken it, and which packet an error belongs to, is not part of this model.
- PacketPath.NetDevice.IfInput: the packet taken off the list when there is no interface is neither freed nor delivered in the source, so the contract does not say where it goes.
- AssocWait.WaitForAssociation: only the loop; the source enters it when Apple's own supplicant is not in use.
- Real threads and sleeping: a sleep is a point where the environment may change anything.
