# FakeNet payload reports, originals journals, recovery and stop: a verified model

FakeNet-NG intercepts network traffic on an analysis machine and records what a program tried to send. This project
models, in Dafny, the parts of it whose correctness is hardest to see from the code:

- **Payload reports** (`fakenet/payload_report.py`). `Observations` is the observation index, its agreement with the
  capture and the choice of one view per logical packet; `FlowRegistry`, `FlowRuns` and `FlowHistory` the session
  flow registry, its runs, and what they hold told by the packets; `TcpSegments`, `TcpStreams` and `TcpWindow` the sequence unwrapping, the cursor-based assembler and
  exactly what they can carry (sequence arithmetic of section 3.4 of RFC 9293); `Keepalive`, `KeepaliveWaiver` and `KeepaliveExact` the waiver for the
  garbage octet of a keep-alive probe (section 4.2.3.6 of RFC 1122) and exactly which packets it takes; `ReportModel` the report and its validator; `ReportFacts`,
  `ReportTracking`, `ReportBuilder` and `ReportTheorems` the builder; `StreamTraces` the report told by a sender's packets; `ReportOctets` and `FreshBuilds` which octets a
  report holds, `ReportFailures` three inputs it does not serve; `PairedCapture` the capture writer with the index
  beside it, and `CaptureReport` the way from capture and index to the report; `SafeJson` the inert serialization (strings as
  in section 7 of RFC 8259).
- **Originals journals** (`fakenet/capture_originals.py` and their loader). `OriginalsJournal` models the writer as a
  class, a run as a sequence of its calls, and the independent loader.
- **Recovery** (`tools/acceptance_linux_recovery.py`). `RouteRecovery`, `UpdateRecovery` and `InstallRemoval`, each a
  class over the mutable route table or file map, with every step's effect stated.
- **Stop and start** (`fakenet/fakenet.py`). `StopOnce` is a step system over any number of concurrent callers;
  `ListenerLifecycle` is the object with its listeners, the rollback of a failed start, and the teardown;
  `StopRefinement` joins the two.
- **Graphs** (`tools/acceptance.py`, `tools/acceptance_mcp_capabilities.py`). `CaseGraph` is the three-colour search over
  case dependencies, `ImportClosure` the worklist over product imports.

`Outcomes`, `Packets`, `Sorting`, `Interferences` and `Text` hold shared types and facts about decimal numerals and
splitting. Code that updates objects is modelled by classes and methods with loops; each such method is proved against
a specification function or predicate, and what the code promises is proved about that specification. A packet is the
record of facts that the parser returns. Where an operation meets the outside world (a write, a system call, another
process), what happens there is a parameter over which every theorem is universal.

The window of the assembler is exact: the comment at `fakenet/payload_report.py:505-508` asks for a capture below 2^31
bytes, and `TcpWindow.HalfWindowIsTight` shows for which slices of a stream the code needs it, and that it needs it.

Three results say where the code does less than its names suggest:

- `OriginalsJournal.UnsyncedSealCanSpoil`: when the rename of a seal succeeds and the directory sync after it fails, the
  seal is on disk but the writer is not sealed, and one more append makes the loader refuse the capture.
  `OriginalsJournal.LoaderAcceptsHonestRuns` gives the exact condition for acceptance.
- `ReportFailures.EmptyFlowIdRefused`: an index entry may hold an empty flow ID (`fakenet/payload_report.py:696-702`), which
  the builder's own validator refuses (lines 866-868). `ReportBuilder.ToldReportValid` and `FreshBuilds.EmptyIdIsNamed`
  show that this is the only case.
- `ReportFailures.UdpOctetLost` and `ReportFailures.TcpOctetLost`: a packet whose index entry names a flow modelled with the
  other protocol is gathered but never told (`fakenet/payload_report.py:732-810`): UDP data in a flow modelled as TCP, and TCP
  data in a flow modelled as UDP, whose gaps and conflicts are then never refused either. `ReportOctets.NoOctetLost` shows
  that a report loses octets exactly when some packet with data belongs to such a flow, and
  `FreshBuilds.FreshBuildLosesNothing` that this needs an index entry that names a flow.

## Model

| member | source | states |
|---|---|---|
| Observations.CaptureObservationIndex.RecordObservation | fakenet/payload_report.py:125-155 | an entry is added exactly when the role is known, the packet is not empty and a given ordinal is the next one; it holds the given role, direction, flow ID and timestamp, the given logical ID or packet- and the ordinal, and the length and hash of the packet; a refused call changes nothing |
| Observations.ValidateIndex | fakenet/payload_report.py:451-467 | accepts exactly when counts, ordinals, lengths, hashes and (where present, up to the tolerance) timestamps agree record by record and every role is a known one |
| PairedCapture.CaptureWriter.WriteIpPacket | fakenet/diverters/pcapwriter.py:132-179 | writes one record to both files, rejects what is no IP packet, and fails for good on an oversized packet or a failed write, which may leave the raw record alone |
| PairedCapture.CaptureWriter.RecordRaw | fakenet/diverters/diverterbase.py:1651-1692 | writes the packet and then indexes it under the ordinal written; each half may fail on its own |
| PairedCapture.IndexMatchesItsCapture | fakenet/diverters/diverterbase.py:1651-1692 | over every run the index validates against the capture exactly when every packet that left a raw record was indexed; one miss puts the index behind for good |
| PairedCapture.EntriesDescribeRecords | fakenet/diverters/diverterbase.py:1651-1692 | whatever fails in a run, every index entry describes the record at its own place, and never another packet's |
| PairedCapture.UnpairedRecordShows | fakenet/diverters/pcapwriter.py:155-178 | a raw record without its Ethernet record makes the capture unsound and leaves the index behind |
| PairedCapture.FailedExactly | fakenet/diverters/pcapwriter.py:132-179 | over every run the writer has failed exactly when some IP packet was too long or had a write fail |
| PairedCapture.RawRecordExactly | fakenet/diverters/pcapwriter.py:132-179 | a packet leaves a raw record exactly when it is an IP packet that fits, its raw write went through and nothing failed before; the record holds its octets under the next ordinal |
| PairedCapture.SoundExactly | fakenet/diverters/pcapwriter.py:155-160 | the capture is healthy exactly when no packet of the run made the writer fail |
| Observations.IndexPinsCapture | fakenet/payload_report.py:451-467 | with a collision-free digest, two captures that validate against one index hold the same packets in the same order |
| Observations.ChooseObservations | fakenet/payload_report.py:470-497 | succeeds exactly when no two observations of a logical packet clash; selects exactly one view per logical packet, the initial one whenever there is one, in the order in which the packets were first observed |
| Observations.ChoiceUnique | fakenet/payload_report.py:470-497 | that leaves one selection: two right selections of one index are equal |
| FlowRegistry.KeySeparates | fakenet/payload_report.py:224-233 | two packets share a canonical key exactly when protocol and version agree and their orientations are equal or reversed |
| FlowRegistry.SessionFlowRegistry.constructor | fakenet/payload_report.py:239-244 | a new registry is empty |
| FlowRegistry.SessionFlowRegistry.Allocate | fakenet/payload_report.py:270-276 | appends one flow under the next ID and binds its key to it; every other binding stays |
| FlowRegistry.SessionFlowRegistry.Select | fakenet/payload_report.py:301-335 | finds the current generation of the key, or opens a new one exactly when the specification's condition asks for it |
| FlowRegistry.SessionFlowRegistry.Join | fakenet/payload_report.py:336-359 | computes the registered flow: directions, SYN numbers, lifetime, logical IDs, closing flag |
| FlowRegistry.SessionFlowRegistry.ObservePacket | fakenet/payload_report.py:278-360 | moves the whole registry state as the transition function says and answers the flow ID |
| FlowRegistry.SessionFlowRegistry.DirectionFor | fakenet/payload_report.py:382-391 | the direction recorded for an orientation by the first flow with that ID |
| FlowRuns.JoinedDirections | fakenet/payload_report.py:336-344 | registering a packet never lets the two orientations of a flow hold one known direction; a known opening direction makes every direction known |
| FlowRuns.ObservedWellFormed | fakenet/payload_report.py:278-360 | every observation keeps all registry invariants and keeps everything recorded before |
| FlowRuns.RunWellFormed | fakenet/payload_report.py:236-360 | the invariants hold after every session |
| FlowRuns.RunExtends | fakenet/payload_report.py:246-360 | flows, IDs, directions, SYN numbers, closing flags and logical bindings of any earlier moment persist to the end |
| FlowRuns.FlowIdsUnique | fakenet/payload_report.py:270-276 | flow IDs are unique and never reused, across all moments of a session |
| FlowRuns.LogicalIdBoundForever | fakenet/payload_report.py:297-300 | once bound, a logical ID is answered with the same flow ID for ever and changes nothing |
| FlowRuns.RegisteredFacts | fakenet/payload_report.py:336-359 | what one registered packet leaves in its flow: orientation, SYN number, closing flag, a lifetime around its timestamp |
| FlowRuns.RegistrationLasts | fakenet/payload_report.py:336-359 | all of that is still in the flow at the end of every session |
| FlowRuns.OneSynNumberPerOrientation | fakenet/payload_report.py:310-320 | two SYNs registered to one flow in one orientation carry the same 32-bit number |
| FlowRuns.GenerationExact | fakenet/payload_report.py:316-335 | a packet joins an old flow only if it is the latest of its key, and a SYN only if that flow is open with the same or no number; a new flow of a known key needs a SYN and a closed flow or another number |
| FlowHistory.ClosedExactly | fakenet/payload_report.py:357-359 | over every session, a flow is closed if and only if some FIN or RST was registered to it |
| FlowHistory.SynNumbersExactly | fakenet/payload_report.py:345-346 | a flow knows a SYN number for an orientation if and only if a SYN of it was registered to it, and it is the number of every such SYN |
| FlowHistory.FirstOfOrientation | fakenet/payload_report.py:336-344 | a flow lists an orientation if and only if a packet of it was registered to it |
| FlowHistory.DirectionGiven | fakenet/payload_report.py:321-344 | the first packet of an orientation fixes its direction: the opposite of the other orientation's known direction, else what the packet states, a bare SYN without a direction stating outbound |
| FlowHistory.LifetimeAttained | fakenet/payload_report.py:347-352 | the lifetime of a flow begins and ends with time stamps of its own packets |
| FlowHistory.BoundExactly | fakenet/payload_report.py:353-356 | a logical ID is bound if and only if an observation of it was registered, and to that flow |
| FlowHistory.GenerationByPackets | fakenet/payload_report.py:301-335 | told by the packets alone: a packet opens a flow if and only if it is the first of its key, or a SYN whose newest flow holds an earlier FIN or RST or an earlier SYN of its orientation with another number; otherwise it joins that flow |
| FlowHistory.AnswerNamesFlow | fakenet/payload_report.py:270-272 | a registered packet is answered with the ID of the flow it joined, which spells the flow's number in the session |
| FlowRuns.UdpFlowPerKey | fakenet/payload_report.py:229-233 | two UDP registrations share a flow exactly when their keys agree |
| FlowRuns.AnsweredDirection | fakenet/payload_report.py:382-391 | the answer for a flow of any run is that very flow's write-once entry |
| FlowRuns.SequenceSpacesSeparate | fakenet/payload_report.py:336-344 | two packets of one flow with known directions have the same direction exactly when they have the same orientation |
| FlowRuns.KnownOriginKnowsAll | fakenet/payload_report.py:321-344 | a flow opened by a packet with known direction, or by a bare SYN, knows the direction of every orientation it ever sees |
| TcpSegments.FirstObserved | fakenet/payload_report.py:512 | the first of the segments with the least ordinal |
| TcpSegments.Unwrap | fakenet/payload_report.py:517-520 | a position congruent to the field and within [-2^31, 2^31) of the reference |
| TcpSegments.UnwrapUnique | fakenet/payload_report.py:517-520 | that position is the only such one |
| TcpSegments.NormalizeTcpSegments | fakenet/payload_report.py:500-522 | every segment, in list order, with its start unwrapped and all else kept |
| TcpSegments.OrderedSorts | fakenet/payload_report.py:535-537 | the order used is sorted by (start, ordinal) and a permutation |
| TcpSegments.Place | fakenet/payload_report.py:543-570 | one segment placed keeps the loop's meaning (every octet from a segment, every segment at its place); a refusal names a gap, or an octet on which two segments differ, as overlap exactly when the segment reaches past the cursor |
| TcpSegments.PlaceOrdered | fakenet/payload_report.py:543-570 | the whole loop: the bytes of all segments, or a genuine defect of them |
| TcpSegments.FirstBeyond | fakenet/payload_report.py:574-578 | the least FIN position past the cursor, or none |
| TcpSegments.AssembleTcp | fakenet/payload_report.py:525-579 | accepts exactly when segments agree on shared positions, leave no hole, and no FIN lies past the data; the bytes then span first start to last end and hold every segment at its position; otherwise the error names a gap, conflict or terminal gap, the first one in the order of position and capture |
| TcpSegments.AssemblyUnique | fakenet/payload_report.py:525-579 | that specification fixes the verdict, the bytes and the cursor |
| TcpSegments.RendersMoved | fakenet/payload_report.py:540-579 | data carried along by a common shift gives the same bytes and a shifted cursor |
| TcpStreams.NormalizedPosition | fakenet/payload_report.py:510-522 | with all true offsets in the half window of the first segment, unwrapping moves all of them by one common multiple of 2^32 |
| TcpStreams.AssemblyMoves | fakenet/payload_report.py:525-579 | moving all segments together changes neither verdict nor bytes, and moves the cursor |
| TcpStreams.ReconstructsTrueStream | fakenet/payload_report.py:500-579 | slices of one true stream covering an interval, in any order, with any overlap, duplication or wrap, assemble to exactly the interval's bytes |
| TcpStreams.OrderIndependent | fakenet/payload_report.py:510-537 | verdict, bytes and cursor modulo 2^32 depend only on the evidence, not on list order, ordinals or repetition |
| TcpWindow.OneFoldExact | fakenet/payload_report.py:510-522 | slices of one stream over fewer than 2^32 octets assemble exactly when unwrapping moves all data by one amount and no FIN beyond it, wherever they lie; then the result is the stream |
| TcpWindow.HalfWindowIsTight | fakenet/payload_report.py:505-522 | when the first observed segment carries data and no FIN lies more than 2^31 below it, such slices assemble if and only if all their data starts within [-2^31, 2^31) of that segment |
| TcpWindow.OnePacketTooMany | fakenet/payload_report.py:505-508 | the bound is met by packets of ordinary size: n packets of 32 KiB sent in order come back exactly when they hold at most 2^31 octets |
| Keepalive.HighWaterMark | fakenet/payload_report.py:749-753 | while data stays within 2^31 of the running maximum, the recorded mark is that maximum modulo 2^32 |
| Keepalive.ProbeBelowMaximum | fakenet/payload_report.py:741-746 | a classified probe sits on the last octet its side has sent |
| Keepalive.MarkIsHeld | fakenet/payload_report.py:749-760 | whatever the windows, a recorded mark is the end of unwaived data in the side's own list |
| Keepalive.RunWaives | fakenet/payload_report.py:732-760 | over every run, with stable directions, every waived octet is held by an unwaived segment of the same list |
| KeepaliveWaiver.NormalizedBlanked | fakenet/payload_report.py:738-760 | within the window, unwrapping puts each waived octet exactly onto the last octet of kept data |
| KeepaliveWaiver.SameContiguity | fakenet/payload_report.py:756-760 | blanking neither opens nor closes a gap |
| KeepaliveWaiver.BlankingSafe | fakenet/payload_report.py:738-760 | if the captured segments assemble, the blanked ones give the same result; if the blanked ones do, the captured ones do exactly when the waived octets were truthful |
| KeepaliveWaiver.WaiverSafe | fakenet/payload_report.py:732-760 | the same for every run of packets of a side with one stable direction |
| KeepaliveExact.AckRecorded | fakenet/payload_report.py:754-755 | the recorded acknowledgement of a side is that of the last packet of its peer that acknowledged anything |
| KeepaliveExact.TopIsHighest | fakenet/payload_report.py:749-753 | in reach, the mark is the highest true end of all data, probes included |
| KeepaliveExact.ProbeExactly | fakenet/payload_report.py:738-755 | in reach, a TCP packet is a probe if and only if it carries one octet with ACK as its only flag on the last position its side has sent, and its peer's last earlier acknowledgement is exactly of everything sent |
| ReportModel.ValidateDatagram | fakenet/payload_report.py:892-914 | one datagram entry passes exactly when offset, length, byte count, fresh ID, range reference and hash of the (clamped) slice are right |
| ReportModel.ItemIffValid | fakenet/payload_report.py:892-914 | inside the payload the clamping checks are exactly validity plus a fresh ID |
| ReportModel.ValidateDatagrams | fakenet/payload_report.py:889-917 | accepts exactly when the datagrams tile the payload, with distinct IDs, and each hashes its own range |
| ReportModel.ValidateDirection | fakenet/payload_report.py:874-917 | accepts exactly when the Base64 text decodes to the stated length and hash and, for UDP, the datagrams tile it |
| ReportModel.ValidateFlow | fakenet/payload_report.py:870-917 | accepts exactly valid flows: an owner, distinct direction IDs, valid directions |
| ReportModel.ValidatePayloadModel | fakenet/payload_report.py:856-918 | accepts exactly healthy reports of the known schema and encoding whose flows are valid and have distinct non-empty IDs |
| ReportModel.TilingMeans | fakenet/payload_report.py:889-917 | a tiling is exactly: datagrams end to end from 0 to the end of the payload, with distinct IDs, each referring to, counting and hashing its own range |
| ReportModel.ValidReportMeans | fakenet/payload_report.py:856-918 | what a valid report holds: known schema and encoding, owners, distinct non-empty IDs, and directions whose text decodes to the counted and hashed octets |
| ReportModel.ValidDirectionDetermined | fakenet/payload_report.py:874-917 | the ID, the Base64 text and the datagram lengths of a valid UDP direction determine all the rest of it, up to the IDs and ordinals of the datagrams |
| ReportFacts.DatagramSlice | fakenet/payload_report.py:779-810 | each entry's range slices the direction payload back to the original datagram |
| ReportFacts.UdpTiled | fakenet/payload_report.py:779-810 | the built entries tile the direction payload exactly |
| ReportFacts.DatagramsInOrder | fakenet/payload_report.py:761-778 | the datagrams of a direction come in capture order |
| ReportFacts.ProbePlace | fakenet/payload_report.py:747-748 | every probe of a direction is in its probe list, in capture order |
| ReportFacts.DirectionNames | fakenet/payload_report.py:721-722 | a direction ID is the flow ID, a hyphen and the direction's name |
| ReportFacts.ToldIsValid | fakenet/payload_report.py:770-830 | a flow filled by the builder's loops passes the validator's flow checks |
| ReportTracking.Route | fakenet/payload_report.py:692-719 | one selected packet gets its flow ID and direction, and moves the registry only when its entry names no flow |
| ReportTracking.StampedSpans | fakenet/payload_report.py:726-731 | a direction's lifetime is exactly that of its packets |
| ReportTracking.TouchedTracked | fakenet/payload_report.py:703-748 | after each packet there is one model per flow seen and one entry per direction seen, with its lifetime and probe list |
| ReportBuilder.AddTcp | fakenet/payload_report.py:732-760 | one TCP packet moves the marks, acknowledgements and segment list as the step function says |
| ReportBuilder.Add | fakenet/payload_report.py:701-768 | after each packet the lists, marks and models are those of all packets so far |
| ReportBuilder.Gather | fakenet/payload_report.py:685-768 | the same after the whole selection, with the registry moved by every packet |
| ReportBuilder.FillUdp | fakenet/payload_report.py:778-810 | numbered entries at running offsets over the concatenated payloads |
| ReportBuilder.FillTcp | fakenet/payload_report.py:772-777 | the assembled bytes with length, hash and encoding, or the assembler's error |
| ReportBuilder.AppendRegistryOnly | fakenet/payload_report.py:812-830 | adds exactly the registry's TCP flows that no packet mentions, once each, with one empty unknown direction that has the registered endpoints and lifetime |
| ReportBuilder.ToldReportValid | fakenet/payload_report.py:832-853 | a built report passes the validator exactly when no packet carries an empty flow ID |
| ReportBuilder.ToldAssemblable | fakenet/payload_report.py:770-777 | a report that tells its packets can exist only if all of its TCP directions assemble |
| ReportBuilder.BuildPayloadReport | fakenet/payload_report.py:663-853 | with a healthy capture a report is returned exactly when no packet carries an empty flow ID and every direction of every flow modelled as TCP holds segments that assemble; it is valid, tells all packets and registered TCP flows, and gives each flow its recorded owner, if any; otherwise the error names a direction that really cannot be assembled |
| ReportTheorems.AttributionFollowsRegistry | fakenet/payload_report.py:697-719 | a packet whose direction the registry knows when the packet is attributed, or knew before, gets that direction, and the registry answers the same ever after |
| ReportTheorems.ListsKeepOneOrientation | fakenet/payload_report.py:697-756 | two packets of one flow whose directions the registry knows when they are attributed share a segment list exactly when they share an orientation |
| ReportTheorems.RoutedIsSelected | fakenet/payload_report.py:691-719 | the packets of the lists are exactly the attributed selected ones |
| ReportTheorems.RoutedFields | fakenet/payload_report.py:692-719 | each routed packet keeps its ordinal, time stamp and facts; a recorded flow ID stays, and the registry's known direction comes before the entry's |
| ReportTheorems.KnownAtOnce | fakenet/payload_report.py:336-344 | when no entry names a flow and the logical packets are new to the registry, what the registry knows of a packet at the end it knew when attributing it |
| ReportTheorems.FreshListsKeepOneOrientation | fakenet/payload_report.py:683-756 | for such builds, so for every build over a fresh registry without recorded flow IDs, it is enough that the two directions are known at the end |
| ReportTheorems.ReportTellsStream | fakenet/payload_report.py:738-777 | end to end: if the kept segments of a TCP direction are slices of one stream within the window, the Base64 text of the report decodes to exactly the octets they cover, whatever the waived probes carried |
| StreamTraces.KeptIsLane | fakenet/payload_report.py:732-760 | the segments of a direction are its TCP packets in capture order, each starting at its sequence field, plus one behind a SYN, with its payload unless it is a probe's, its FIN flag and its ordinal |
| StreamTraces.ReportTellsTrace | fakenet/payload_report.py:732-777 | end to end from the packets' own fields: if the packets of a direction trace a stream from an initial number (SYN before its first octet, FIN after its last, any order, repetition, overlap and wrap within the window), the report's Base64 text decodes to exactly the stream |
| StreamTraces.TraceAssembles | fakenet/payload_report.py:525-579 | such a direction always assembles |
| ReportTheorems.UdpOctetsConserved | fakenet/payload_report.py:770-810 | the UDP byte counts of the report never exceed the payloads of all UDP packets, and equal them exactly when no UDP packet with data belongs to a flow modelled as TCP |
| ReportOctets.TcpDataTold | fakenet/payload_report.py:770-810 | the kept TCP data of a direction is in the report at its position if and only if the flow is modelled as TCP (or its datagrams happen to spell it); otherwise the direction tells its datagrams alone |
| ReportOctets.TcpOctetsConserved | fakenet/payload_report.py:756-777 | the TCP byte counts of the report never exceed the distinct octets gathered, and equal them exactly when no TCP packet with data belongs to a flow modelled as something else |
| ReportOctets.DataIsKept | fakenet/payload_report.py:741-760 | the first TCP data of a flow is never waived, so a flow with TCP data keeps some |
| ReportOctets.NoOctetLost | fakenet/payload_report.py:770-810 | no gathered octet is lost exactly when every packet with data belongs to a flow modelled with the packet's own protocol |
| FreshBuilds.OwnProtocol | fakenet/payload_report.py:697-707 | when no entry names a flow and the logical packets are new to the registry, every packet belongs to a flow modelled with its own protocol |
| FreshBuilds.FreshBuildLosesNothing | fakenet/payload_report.py:691-810 | so such a build loses no octet of either protocol |
| FreshBuilds.EmptyIdIsNamed | fakenet/payload_report.py:696-702 | for every registry and selection, a packet gets the empty flow ID exactly when its entry names it |
| FreshBuilds.FreshBuildAccepted | fakenet/payload_report.py:770-853 | such a build over a healthy capture is refused only when some TCP direction does not assemble |
| ReportFailures.EmptyFlowIdRefused | fakenet/payload_report.py:866-868 | a healthy capture of one UDP packet with an empty flow ID is refused by the validator |
| ReportFailures.UdpOctetLost | fakenet/payload_report.py:761-777 | a healthy capture of a TCP acknowledgement and a one-octet UDP packet under one flow ID gives a valid report that counts no such octet |
| ReportFailures.TcpOctetLost | fakenet/payload_report.py:756-810 | a healthy capture of an empty UDP packet and a one-octet TCP packet under one flow ID gives a valid report that holds no such octet |
| CaptureReport.BuildFromCapture | fakenet/payload_report.py:667-853 | from records and index to the report: each refusal exactly when the index does not match, the capture is not healthy, observations clash, or a chosen packet does not parse (and what the registry then holds); otherwise a valid report exactly under the builder's condition on the one right selection |
| CaptureReport.SelectionFields | fakenet/payload_report.py:691-702 | each chosen record is read with its own index entry |
| CaptureReport.ReportCapture | fakenet/payload_report.py:667-853 | the report of a closed capture: its index is refused exactly when some packet left a raw record without being indexed; otherwise the capture must be sound, the selection is the right one, and a returned report is valid and tells the chosen packets |
| CaptureReport.ChosenUnattributed | fakenet/payload_report.py:470-497 | when the index recorded no flow IDs and the registry is new to its packets, the chosen views form a build that attributes every packet itself |
| SafeJson.InertIsCharwise | fakenet/payload_report.py:75-77 | the five successive replacements act as one substitution per character |
| SafeJson.NothingActive | fakenet/payload_report.py:65-77 | the output holds none of the five active characters, for any value |
| SafeJson.EscapesArePlain | fakenet/payload_report.py:73-77 | an active character always stands for itself in encoder output and is never part of an escape |
| SafeJson.KnownEscapes | fakenet/payload_report.py:73-77 | the escapes of the active characters spell their own code, and which characters the encoder escapes |
| SafeJson.StringComesBack | fakenet/payload_report.py:73-77 | every string body decodes back, whatever follows it |
| SafeJson.NumberComesBack | fakenet/payload_report.py:73-77 | every integer decodes back when no digit follows |
| SafeJson.ValueComesBack | fakenet/payload_report.py:65-77 | every nested value decodes back inside any text that may follow it |
| SafeJson.NothingLost | fakenet/payload_report.py:65-77 | the inert text decodes to exactly the value serialized |
| SafeJson.DumpsInjective | fakenet/payload_report.py:88-96 | different values never share a rendering, so comparing decoded texts compares models |
| OriginalsJournal.CaptureOriginalsWriter.constructor | fakenet/capture_originals.py:122-168 | two fresh journals holding their header line |
| OriginalsJournal.CaptureOriginalsWriter.RecordObservation | fakenet/capture_originals.py:195-215 | the counter moves, then one line is added or none; success exactly when a line was added |
| OriginalsJournal.CaptureOriginalsWriter.RecordNbi | fakenet/capture_originals.py:217-240 | the same for the second journal |
| OriginalsJournal.CaptureOriginalsWriter.SealCapture | fakenet/capture_originals.py:249-302 | publishes the facts of both journals; sealed exactly when rename and directory sync both succeed |
| OriginalsJournal.CaptureOriginalsWriter.DiscardJournals | fakenet/capture_originals.py:317-323 | refused after the seal, otherwise closes and may unlink |
| OriginalsJournal.CaptureOriginalsWriter.CloseJournals | fakenet/capture_originals.py:337-348 | closes and changes nothing on disk |
| OriginalsJournal.LoadJournal | fakenet/payload_report.py:994-1040 | accepts exactly the texts that match the sealed facts, end in a newline and hold a native header and native records numbered from one, as many as sealed |
| OriginalsJournal.FactsPinText | fakenet/payload_report.py:994-1035 | with a collision-free digest the sealed facts fit one text only, and no journal passes for one of another capture or kind |
| OriginalsJournal.SplitRendered | fakenet/payload_report.py:1010 | splitting the rendered journal gives its lines back |
| OriginalsJournal.CountsAttempts | fakenet/capture_originals.py:184-240 | the counter is the number of attempts, and each attempt that added no line leaves the journal short for good |
| OriginalsJournal.LinesAreAttempts | fakenet/capture_originals.py:184-240 | with every append written, the lines are the attempted records numbered 1..n |
| OriginalsJournal.AttemptPlace | fakenet/capture_originals.py:195-240 | every attempt stands at its own place among the attempts, in call order |
| OriginalsJournal.JournalledKeys | fakenet/capture_originals.py:195-215 | a record keeps exactly the seven journalled keys of the entry, with their values |
| OriginalsJournal.LoaderAcceptsHonestRuns | fakenet/capture_originals.py:249-302 | over every run with a published seal: the loader accepts exactly when the files are present, no append before the seal failed and none added a line after it |
| OriginalsJournal.HonestRecords | fakenet/payload_report.py:1013-1040 | what an accepted journal loads is every attempted record in order |
| OriginalsJournal.SealedForever | fakenet/capture_originals.py:184-193 | after a successful seal no later call changes the journals or the seal |
| OriginalsJournal.FlagsExactly | fakenet/capture_originals.py:249-348 | over every run: the writer is closed, sealed, or without files exactly when some call of the run closed it, sealed it, or unlinked them |
| OriginalsJournal.ClosedForever | fakenet/capture_originals.py:184-193 | after a close no later call changes the journals or publishes a seal |
| OriginalsJournal.UnsyncedSealCanSpoil | fakenet/capture_originals.py:284-302 | a seal renamed but not synced does not freeze the journals: one more append spoils the capture |
| OriginalsJournal.ResizedRefused | fakenet/payload_report.py:998-999 | a file cut short or extended is refused whatever its digest |
| UpdateRecovery.InstalledFiles.CheckReceipt | tools/acceptance_linux_recovery.py:252-259 | fits exactly when every identity check of the failed receipt holds |
| UpdateRecovery.InstalledFiles.CheckAll | tools/acceptance_linux_recovery.py:248-271 | the first phase accepts exactly eligible states, writing nothing |
| UpdateRecovery.EligibleMeans | tools/acceptance_linux_recovery.py:260-271 | what exactly the first phase asks of each source: a plain backup inside the update's own directory with the released digest, and a plain target with the recorded owner and mode that holds the released or the failed bytes |
| UpdateRecovery.InstalledFiles.Replace | tools/acceptance_linux_recovery.py:275-281 | one target becomes the backup's bytes under the recorded mode; a failed staging touches the staging file only |
| UpdateRecovery.InstalledFiles.RestoreOne | tools/acceptance_linux_recovery.py:273-283 | one target is checked again, replaced and read back while others interfere; what our own write changed, and why a refusal happened |
| UpdateRecovery.InstalledFiles.RestoreAll | tools/acceptance_linux_recovery.py:272-283 | at every exit, under any interference, of everything that others leave alone a prefix of the sorted names is restored and every other path but one staging file is as before; unhindered, it succeeds exactly when every step can go |
| UpdateRecovery.InstalledFiles.RecoverPublishedUpdate | tools/acceptance_linux_recovery.py:245-286 | a refusal before the first write changes no file; every later exit leaves a restored prefix of what others leave alone; success always means that each target read back with its old digest and the receipt has its old one; unhindered, success exactly when every step can go, and then all targets hold their old bytes and modes |
| UpdateRecovery.BackupUntouchable | tools/acceptance_linux_recovery.py:253-275 | neither a backup nor the receipt can coincide with any path the restore writes |
| UpdateRecovery.StagedBeside | tools/acceptance_linux_recovery.py:275 | each source is staged beside itself under a hidden name that carries the operation |
| UpdateRecovery.OneMore | tools/acceptance_linux_recovery.py:275-281 | one replacement restores one more name and changes nothing else that others leave alone |
| UpdateRecovery.AllRestored | tools/acceptance_linux_recovery.py:282-286 | unhindered, a completed prefix is full restoration, as reported |
| InstallRemoval.InstallationInventory | tools/acceptance_linux_recovery.py:430-446 | exactly the owned objects with their identities, or a refusal when one is linked or of another kind |
| InstallRemoval.OwnedMeans | tools/acceptance_linux_recovery.py:430-446 | the installation is the program tree, the configuration tree and the unit file |
| InstallRemoval.Sorted | tools/acceptance_linux_recovery.py:463 | all recorded names, deepest first, ties in reverse name order |
| InstallRemoval.DescendantsFirst | tools/acceptance_linux_recovery.py:463 | every descendant comes before its ancestor |
| InstallRemoval.ReverseNames | tools/acceptance_linux_recovery.py:463 | names of one depth go in reverse order of their first differing character |
| InstallRemoval.InstalledTree.CheckIntact | tools/acceptance_linux_recovery.py:451-460 | accepts exactly when the object set is the recorded one and no object has drifted, the two updated sources excepted as described |
| InstallRemoval.IntactMeans | tools/acceptance_linux_recovery.py:449-460 | which change of an object, attribute by attribute, makes the removal refuse before the first deletion |
| InstallRemoval.InstalledTree.RemoveOne | tools/acceptance_linux_recovery.py:464-469 | deletes one object exactly when its identity (and bytes, or emptiness) is as recorded, and nothing else |
| InstallRemoval.InstalledTree.DeleteAll | tools/acceptance_linux_recovery.py:463-469 | under any interference, deletes in order until an object fails its check |
| InstallRemoval.GoneAsRecorded | tools/acceptance_linux_recovery.py:464-469 | an object goes exactly when at its turn it has the recorded identity and kind, and a file the recorded bytes, a directory nothing below it |
| InstallRemoval.InstalledTree.RemoveCreatedInstallation | tools/acceptance_linux_recovery.py:449-469 | drift is refused before the first deletion; otherwise the deletions are an initial part of the order |
| InstallRemoval.OnlyRecordedObjectsGo | tools/acceptance_linux_recovery.py:461-469 | an unrecorded object that is present at any step, from the start or created meanwhile, and that others leave alone, is present and unchanged at every later step and at the end |
| InstallRemoval.SurvivesRemoval | tools/acceptance_linux_recovery.py:463-469 | so is any object that our own steps have not reached, however the removal ends |
| InstallRemoval.UnknownChildStops | tools/acceptance_linux_recovery.py:466 | an unrecorded object below a recorded directory, present before its turn, stops the removal there: neither the directory nor any recorded ancestor is deleted |
| InstallRemoval.StepGoesThrough | tools/acceptance_linux_recovery.py:463-469 | undisturbed, every step meets its object and every directory is empty by its turn |
| InstallRemoval.RemovesExactlyTheInstallation | tools/acceptance_linux_recovery.py:449-469 | undisturbed, an intact installation is removed completely and nothing else changes |
| RouteRecovery.CanonicalIsMultiset | tools/acceptance_linux_recovery.py:12-18 | two snapshots are canonically equal exactly when they hold the same rows equally often |
| RouteRecovery.OwnedMeans | tools/acceptance_linux_recovery.py:50-62 | an owned row is the single row added to an empty table, and can be deleted exactly |
| RouteRecovery.OwnedExactly | tools/acceptance_linux_recovery.py:50-62 | an owned row is reported exactly for a claimed addition to an empty table of one deletable default through the given gateway and interface; none exactly for an unclaimed, unchanged table |
| RouteRecovery.CommandReadsBack | tools/acceptance_linux_recovery.py:27-43 | read option by option, the delete command names exactly the row's gateway, device and qualifiers |
| RouteRecovery.CommandSelects | tools/acceptance_linux_recovery.py:27-43 | the command selects its row, and any row it selects agrees with it on every attribute that it names |
| RouteRecovery.RecoverableRow | tools/acceptance_linux_recovery.py:27-43 | a command is built exactly for default rows without flags or further attributes, with known gateway and device and plain qualifiers |
| RouteRecovery.TokenMeans | tools/acceptance_linux_recovery.py:32-40 | a plain qualifier is a word of 1 to 64 letters, digits, underscores, dots, colons and hyphens |
| RouteRecovery.OnlyRow | tools/acceptance_linux_recovery.py:27-43 | the delete command built for the only default row selects that row and leaves no default |
| RouteRecovery.RouteTable.Snapshot | tools/acceptance_linux_recovery.py:21-24 | the canonical default rows, or a fault |
| RouteRecovery.RouteTable.Delete | tools/acceptance_linux_recovery.py:46-47 | the first matching row goes, or nothing does; a refusal returns an error code, and an interruption returns none and may come after the row is gone |
| RouteRecovery.RouteTable.RemoveOwned | tools/acceptance_linux_recovery.py:78-82 | only the owned row can go, and a zero return code means that no default row is left |
| RouteRecovery.RouteTable.RecoverRoute | tools/acceptance_linux_recovery.py:65-90 | at most one deletion, only of the owned row; restored means the table holds the initial default rows; without faults, restored exactly when recoverable |
| RouteRecovery.VerifyRoute | tools/acceptance_linux_recovery.py:93-107 | accepts exactly verifiable records |
| RouteRecovery.VerifiedMeans | tools/acceptance_linux_recovery.py:93-107 | what exactly a verified record proves, in multisets of rows |
| RouteRecovery.RestoredIsVerifiable | tools/acceptance_linux_recovery.py:65-107 | every record that recovery produces is verified exactly when it says restored |
| StopOnce.StepKeepsInv | fakenet/fakenet.py:498-600 | every step of every caller keeps the invariant |
| StopOnce.RunKeepsInv | fakenet/fakenet.py:498-600 | it holds at every moment of every interleaving |
| StopOnce.FirstRaisedIsFirst | fakenet/fakenet.py:524-591 | the shared error is that of the first failing call |
| StopOnce.OneOwnerOneAnswer | fakenet/fakenet.py:498-600 | at most one owner; the calls are made once each, in order, none skipped after a failure; whoever returned did so after all of them, with the one answer |
| StopOnce.StepDecreases | fakenet/fakenet.py:498-600 | every step uses up exactly one unit of the remaining work |
| StopOnce.RunsAreShort | fakenet/fakenet.py:498-600 | so every run is bounded, step by step |
| StopOnce.NeverStuck | fakenet/fakenet.py:506-510 | while somebody has not returned, somebody can step |
| StopOnce.MaximalRunsReturnAll | fakenet/fakenet.py:498-600 | every run that cannot go on has returned the one answer to every caller, exactly one of which ran the teardown, after exactly 2 steps a caller plus one a call plus one |
| StopRefinement.TeardownGivesAnswer | fakenet/fakenet.py:515-601 | read as a list of calls, the logged teardown of the owner gives exactly the health and first error that the teardown computed |
| StopRefinement.EveryCallerToldTheTeardown | fakenet/fakenet.py:498-601 | however the callers interleave, in the end each has returned what that teardown computed, and every call of it was made |
| ListenerLifecycle.Fakenet.StopPolicyListener | fakenet/fakenet.py:608-613 | no call after a success; otherwise one call, marked exactly when it did not raise |
| ListenerLifecycle.Fakenet.StopDown | fakenet/fakenet.py:535-564 | every listener not yet stopped is tried once in reverse order, whatever fails |
| ListenerLifecycle.UnstoppedMeans | fakenet/fakenet.py:535-549 | the listeners tried are exactly those not marked as stopped, in reverse order |
| ListenerLifecycle.Fakenet.StopAll | fakenet/fakenet.py:535-564 | without policy mode every provider is tried once in start order |
| ListenerLifecycle.Fakenet.StartListeners | fakenet/fakenet.py:383-396 | listeners start in order up to the first that fails or has a dead worker |
| ListenerLifecycle.Fakenet.RollBack | fakenet/fakenet.py:399-403 | each started listener is tried once in reverse order and exceptions are swallowed |
| ListenerLifecycle.Fakenet.PolicyStart | fakenet/fakenet.py:376-452 | succeeds exactly when everything configured, every listener started with a live worker, the hand-over went through and the diverter, if any, started; a failed listener or diverter leaves every started listener tried, in reverse and after the last start; every other outcome tries none; the error names what failed |
| ListenerLifecycle.Fakenet.Teardown | fakenet/fakenet.py:515-592 | suspension, then listeners, then diverter, each tried whatever failed; healthy exactly when all were sound; the first error is reported |
| ListenerLifecycle.StartThenStop | fakenet/fakenet.py:383-404 | over every failure point of start followed by stop: no listener is stopped successfully twice, each is tried, and the first tries run backwards over all started ones |
| ListenerLifecycle.FirstTryReversed | fakenet/fakenet.py:535-549 | in such tries, of two started listeners the later one comes first |
| CaseGraph.WalkDescends | tools/acceptance.py:165-173 | along dependencies of finished nodes the finishing rank strictly falls |
| CaseGraph.RankedIsAcyclic | tools/acceptance.py:165-176 | a graph all of whose nodes are finished has no cycle |
| CaseGraph.GreyCloses | tools/acceptance.py:168-169 | meeting a node of colour 1 closes a cycle through it |
| CaseGraph.Finish | tools/acceptance.py:170-173 | finished nodes stay closed under dependencies and ranked |
| CaseGraph.Search.Visit | tools/acceptance.py:165-173 | terminates with the node finished, or names a node on a real cycle |
| CaseGraph.Search.VisitChildren | tools/acceptance.py:171-172 | all dependencies finished, or a node on a real cycle |
| CaseGraph.Search.VisitAll | tools/acceptance.py:175-176 | succeeds exactly on acyclic graphs, in any visiting order |
| CaseGraph.FindDuplicate | tools/acceptance.py:121-123 | tells exactly whether case IDs are distinct |
| CaseGraph.CheckDependencies | tools/acceptance.py:155-161 | passes exactly when dependencies are known and none is the case itself; the error names a real one |
| CaseGraph.ValidateDependencies | tools/acceptance.py:155-176 | accepts exactly catalogs with distinct IDs, known dependencies and no dependency cycle |
| ImportClosure.AppendImports | tools/acceptance_mcp_capabilities.py:105-122 | offers every present import of a file not seen yet, and only reachable files |
| ImportClosure.AbsoluteImport | tools/acceptance_mcp_capabilities.py:110-116 | an import-from of level 0 refers to the module it spells, and to each imported name as a module inside it |
| ImportClosure.RelativeImport | tools/acceptance_mcp_capabilities.py:111-116 | a relative import of level n refers to the module inside the package n - 1 levels above the file's own package, and to each imported name as a module inside it |
| ImportClosure.ProductModule | tools/acceptance_mcp_capabilities.py:117-120 | a dotted name is a product module exactly when it has two components or more and the first is fakenet |
| ImportClosure.ImportReachable | tools/acceptance_mcp_capabilities.py:117-122 | an import of a reachable file is reachable |
| ImportClosure.ClosedHoldsPath | tools/acceptance_mcp_capabilities.py:96-122 | a set that holds the seeds and the imports of its members holds everything reachable |
| ImportClosure.SourcePins | tools/acceptance_mcp_capabilities.py:90-123 | terminates, and on success pins exactly the files reachable from the seeds; it succeeds exactly when all of those are present and parse |

## Left out

- Parsing: packets are facts and captures are lists of records; PCAP reading and the raw/converted comparison
  (`fakenet/payload_report.py:166-221,404-448`) are not part of this model.
- Digests, Base64 and the JSON text of a journal line are function-valued parameters; only the laws stated where they
  are used (decode inverts encode, loads inverts dumps, a line holds no newline, no collisions where it says so) are
  assumed of them.
- UTF-8, torn writes and file identity: journal text is characters, an append adds a whole line or nothing, and
  device, inode and symlink checks of the journals and the facts of the PCAP files in the seal are left out.
- Registry aliasing: the source's flow dictionaries are shared objects; here a flow is a value addressed by its position,
  which is what the shared references identify. Process metadata, `update` and `snapshot` are left out except the owner.
- Report fields that are only copied (endpoints, process, domain, `nbis`), HTML rendering and
  `validate_rendered_payload_report`.
- Timestamps are reals, not floats.
- SafeJson: the recursive conversion of other Python types to JSON values, floats, whitespace in the decoder and
  surrogate pairs are left out.
- Stream separation for flows whose directions are unknown: the code then falls back to the per-packet direction.
- Observations.CaptureObservationIndex.RecordObservation: a direction text is one of the three values from the start.
- PairedCapture.CaptureWriter.RecordRaw: a failed raw write leaves no readable record; closing errors, the time stamp format
  (any rounding within the tolerance) and the suppression of identical re-observations (`_write_pcap_locked`) are left out.
- CaptureReport.BuildFromCapture: reading the PCAP files and comparing raw and converted records come before and are left out.
- ReportBuilder.FillUdp: timestamps, endpoints and ownership copied into each datagram entry are left out.
- SafeJson.NumberComesBack: integers only; the text of floats is left out.
- SafeJson.ValueComesBack: floats and lone surrogates are left out.
- SafeJson.NothingLost: as for ValueComesBack, and values already are JSON values.
- OriginalsJournal.CaptureOriginalsWriter.SealCapture: the PCAP facts and file identities in the seal are left out.
- OriginalsJournal.LoadJournal: the name, device and inode checks of the sealed facts and the UTF-8 check are left out.
- OriginalsJournal.CaptureOriginalsWriter.constructor: only the successful opening of both journals is modelled; `flush` is left out.
- UpdateRecovery.InstalledFiles.RestoreOne: one replacement (staging, reading the backup, renaming) is one step between
  two moments of interference, and so are all checks before the first write; the check for a new source that was not
  published (line 269) cannot fail once the published set is fixed.
- InstallRemoval.InstalledTree.RemoveOne: checking and deleting one object is one atomic step; interference is modelled between steps.
- RouteRecovery.RouteTable.RecoverRoute: nobody else changes the table between its snapshots; IPv4 syntax and the qualifier
  pattern are predicates.
- StopOnce.OneOwnerOneAnswer: logging and time are left out, and every teardown call is taken to terminate.
- ListenerLifecycle.Fakenet.PolicyStart: one start per object; dependency configuration is one outcome; the legacy start is left out.
- CaseGraph.ValidateDependencies: the field checks between the duplicate check and the dependency checks, and Python's recursion
  limit, are left out.
- ImportClosure.SourcePins: syntax trees and file digests are inputs.
- `judge_rows` and `judge_rows_exact` of `tools/acceptance.py` and `select` of `tools/acceptance_mcp_capabilities.py`: short
  functions over rows and JSON pointers, not modelled.
