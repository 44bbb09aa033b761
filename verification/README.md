# Verification of the lwIP port

Dafny models of the protocol code in this LPC1768 port of lwIP 1.3.1, with proofs of what the
code keeps over all its inputs, runs and interleavings. `dafny verify dfyconfig.toml` checks
everything. Options that the board switches off (NETCONN, SOCKET, DHCP) are taken as switched
on; constants that a port may set are parameters.

| modules | code | what is proved |
|---|---|---|
| EthernetCrc, EthernetCrcTheory | ExtiDrive/emac.c | the nibble-wise CRC is the bit-serial one; it is affine, a remainder of polynomials, and detects bursts |
| SelectProtocol, SelectEvents, SelectLayer | src/api/sockets.c | no interleaving of select calls and events loses a wakeup for an event; data left over by a read are none |
| SocketReceive | src/api/sockets.c, src/api/api_lib.c | lwip_recvfrom behaves as one queue of bytes |
| NetconnProtocol, NetconnResults, NetconnLayer | src/api/api_msg.c, src/api/tcpip.c, src/api/api_lib.c | one signal for each message; bytes go out once and in order; which call hangs; what calls return |
| DnsName, DnsReply, DnsResolver, DnsRuns, DnsAnswers, DnsTiming, DnsEviction, DnsLayer | src/core/dns.c | names and replies against their format; one callback for each query, with its result; cache, time-outs, eviction |
| DhcpClient, DhcpTiming, DhcpLease, DhcpMessages, DhcpLayer, DhcpOptions | src/core/dhcp.c | when an address may be used; retries and lease timers to the tick; options |
| MempCarving, MempPools, MempCheck, MempLayer | src/core/memp.c | elements are disjoint and conserved; when the check for circles speaks |
| TftpWrite | port/tftpserver.c | a written file is whole, over any network |
| Memory | - | bytes at positions, buffers, network byte order |

A module named Protocol, Client, Resolver or Pools has the state as a value, a function for
each operation, an invariant and the theorems over runs; the module named Layer beside it has
the class whose methods change the fields in place, each proved equal to its function; the
table below lists only the larger ones of these.

## Where the code does not do what it is for

Each of these is a theorem with the exact condition, or an input that shows it.

- `lwip_recvfrom` counts in 16 bits: a read of more than 65535 bytes returns a wrong number, and a copy behind the first 65536 bytes goes to a wrong place.
- `lwip_select` takes data that a read has left over for readable, but nothing wakes a blocked select for them.
- `do_connect` ignores a failing `tcp_connect`: the caller then waits until `err_tcp`, or for ever.
- `netconn_listen` returns an error that was noted before it and does not enter the state LISTEN, though tcp_listen has succeeded.
- `dns_compare_name` accepts a reply for the beginning of a name; the length and the dots are what it leaves out. It also reads what an earlier, longer name has left behind the end of this one.
- `dns_parse_name` goes wrong on the bare root name and on empty labels.
- A host name of DNS_MAX_NAME_LENGTH - 1 bytes is let pass and is one byte too long for the query.
- A DNS answer with time to live 0 stays for 2^32 ticks, and after 256 queries eviction no longer knows the oldest entry.
- DHCP, receiving: an OFFER without a server id stops the client's timer until one with a server id arrives; the default mask ignores the class of the address, whatever its comment says; an option behind an odd number of PADs is not found; nor are the options in the file field if sname has some, too, as section 4.1 of RFC 2131 allows.
- DHCP, in time: the twenty-nine longest lease periods with an end last one tick; an infinite lease is dropped if the server is silent when a timer from before it ends; t1 is a tick late if it is not shorter than t2; a client that renews without an answer falls silent after 10020 fine ticks.
- DHCP: only an ACK in REQUESTING is read. One that renews or rebinds a lease has no effect on the address, mask, gateway and periods, whatever it gives, and after a renewal of nothing it leaves the client bound to 0.0.0.0.
- DHCP: a release goes to 0.0.0.0; a lease without a T2 is used for 90 fine ticks after it has ended; a call of dhcp_renew in that time keeps the address for 65536 coarse ticks more.
- `memp_sanity` after a second free of an element does not end if the first list that has the element begins outside the list it was freed to; that takes lists which share elements.
- The TFTP server stands still after block 65535.

## Model

| member | source | states |
|---|---|---|
| EthernetCrc.EmacCrcCalc | LPC1768_MC_LWIP/ExtiDrive/emac.c:204-240 | the loop over bytes and nibbles computes, for every frame and every length that its caller may give, the bit-serial CRC-32 of the bytes before that length |
| EthernetCrc.NibbleIsFourShifts | LPC1768_MC_LWIP/ExtiDrive/emac.c:214-237 | one table-free nibble step equals feeding four bits, least significant first, to the shift register |
| EthernetCrc.FourReductions | LPC1768_MC_LWIP/ExtiDrive/emac.c:217-234 | the four conditional polynomial subtractions, decided by the top bits before the shift, equal four single reductions |
| EthernetCrc.TopBitSurvives | LPC1768_MC_LWIP/ExtiDrive/emac.c:217-234 | a subtraction for a higher bit never changes the top bits that decide the later ones |
| EthernetCrcTheory.CrcAffine | LPC1768_MC_LWIP/ExtiDrive/emac.c:204-240 | the CRC of the XOR of equally long frames is the XOR of their CRCs and that of the zero frame |
| EthernetCrcTheory.CrcIsRemainder | LPC1768_MC_LWIP/ExtiDrive/emac.c:204-240 | the CRC is the remainder of the long division of the initial register and the frame, followed by 32 zeros, by the generator over GF(2) |
| EthernetCrcTheory.BurstDetected | LPC1768_MC_LWIP/ExtiDrive/emac.c:204-240 | two frames of equal length that differ only within 32 consecutive bits never have the same CRC |
| EthernetCrcTheory.FrameBitsInjective | LPC1768_MC_LWIP/ExtiDrive/emac.c:211-216 | different frames feed different bit strings to the register |
| SelectProtocol.NoWakeupIsLost | LPC1768_MC_LWIP/lwip-1.3.1/src/api/sockets.c:908-983 | over every interleaving of select calls and callbacks on open sockets: with no callback under way, a blocked select whose watched socket has an event has its signal in its semaphore; no select is signalled twice |
| SelectProtocol.ListHoldsTheBlocked | LPC1768_MC_LWIP/lwip-1.3.1/src/api/sockets.c:951-983 | the list of waiting tasks holds exactly the select calls between their two sections, each once |
| SelectProtocol.RunInv | LPC1768_MC_LWIP/lwip-1.3.1/src/api/sockets.c:908-983 | the whole invariant (an unsignalled watcher of a pending event implies a callback in flight; list; signals) holds after every run |
| SelectProtocol.PostPreserves | LPC1768_MC_LWIP/lwip-1.3.1/src/api/sockets.c:1073-1092 | the first section of event_callback keeps the invariant |
| SelectProtocol.ScanPreserves | LPC1768_MC_LWIP/lwip-1.3.1/src/api/sockets.c:1101-1122 | each round of the scan in event_callback keeps the invariant |
| SelectEvents.EventsAddUp | LPC1768_MC_LWIP/lwip-1.3.1/src/api/sockets.c:1066-1092 | over every run, rcvevent of an open socket is its first value plus the arrivals and minus the takes that were posted for it, in 16 bits; sendevent is what the last send event says |
| SelectEvents.ArrivalsWake | LPC1768_MC_LWIP/lwip-1.3.1/src/api/sockets.c:1066-1122 | so, with no callback under way, a select that is blocked on a socket with more arrivals than takes (within 16 bits), or that was last said to be writable, has its signal |
| SelectEvents.ReadyOnlyByLeftover | LPC1768_MC_LWIP/lwip-1.3.1/src/api/sockets.c:843-880 | with no callback under way, a blocked select without a signal has no writable socket, and as readable ones exactly those in which a read has left data over |
| SelectEvents.LeftoverWakesNobody | LPC1768_MC_LWIP/lwip-1.3.1/src/api/sockets.c:563-619 | and there is a run that ends like that: leaving data over posts no event |
| SelectEvents.SelectAnswers | LPC1768_MC_LWIP/lwip-1.3.1/src/api/sockets.c:908-1029 | over every run, a select call returns the number of its own sockets that were ready in its last scan, or 0 when its wait expired |
| SelectEvents.BlocksOnlyIf | LPC1768_MC_LWIP/lwip-1.3.1/src/api/sockets.c:908-957 | a call that waits has found nothing ready, and does not poll |
| SelectLayer.SelectState.SelScan | LPC1768_MC_LWIP/lwip-1.3.1/src/api/sockets.c:843-880 | returns exactly the readable and the writable sockets below maxfdp1 and their number |
| SelectLayer.SelectState.Enter | LPC1768_MC_LWIP/lwip-1.3.1/src/api/sockets.c:908-957 | a select that finds nothing ready is put in front of the list, one that finds something or only polls is not |
| SelectLayer.SelectState.Unlink | LPC1768_MC_LWIP/lwip-1.3.1/src/api/sockets.c:971-983 | the walk removes exactly the own entry |
| SelectLayer.SelectState.RecordEvent | LPC1768_MC_LWIP/lwip-1.3.1/src/api/sockets.c:1066-1092 | an event changes exactly the counter or flag of its socket |
| SelectLayer.SelectState.SignalNext | LPC1768_MC_LWIP/lwip-1.3.1/src/api/sockets.c:1101-1121 | a round signals the first matching task, and reports whether there was one |
| SelectLayer.SelectState.EventCallback | LPC1768_MC_LWIP/lwip-1.3.1/src/api/sockets.c:1037-1123 | without interference, every task that waits for the event is signalled once and no other is; the loop ends |
| SocketReceive.Socket.Recvfrom | LPC1768_MC_LWIP/lwip-1.3.1/src/api/sockets.c:475-626 | a stream read copies a prefix of what is held and yet to arrive and leaves the rest, a peek leaves all; of the packet that it meets first a call takes all that fits; a datagram is cut to the buffer and dropped as a whole unless peeked at; a packet that is pushed or looked at ends it; -1 is returned only by a call that may not wait, and a closed connection gives 0; a read that nothing ends early fills the buffer, and then returns its size exactly if that is at most 65535 |
| SocketReceive.Socket.NetconnRecv | LPC1768_MC_LWIP/lwip-1.3.1/src/api/api_lib.c:293-392 | takes the deliveries in their order |
| SocketReceive.Socket.HandOut | LPC1768_MC_LWIP/lwip-1.3.1/src/api/sockets.c:528-619 | copies from the packet at hand and keeps exactly the part that was not copied |
| SocketReceive.Socket.CopyPartial | LPC1768_MC_LWIP/lwip-1.3.1/src/api/sockets.c:542 | the copy of a part of the packet to its place in the buffer |
| SocketReceive.StreamTurn | LPC1768_MC_LWIP/lwip-1.3.1/src/api/sockets.c:528-620 | one round of the loop advances the stream by exactly what it copied |
| SocketReceive.CopyIsRightExactlyIf | LPC1768_MC_LWIP/lwip-1.3.1/src/api/sockets.c:540-544 | a copy of the loop goes where it belongs exactly if fewer than 65536 bytes were copied before it, or the bytes happen to be in both places already |
| SocketReceive.SupplyPacket | LPC1768_MC_LWIP/lwip-1.3.1/src/api/sockets.c:492-526 | fetching the next packet neither loses nor invents bytes, and a stream that still owes bytes has a packet coming |
| SocketReceive.ReadsDeliverTheStream | LPC1768_MC_LWIP/lwip-1.3.1/src/api/sockets.c:475-626 | any series of reads and peeks delivers the stream: each byte once, in order, and the rest is still held |
| NetconnProtocol.OneSignalPerMessage | LPC1768_MC_LWIP/lwip-1.3.1/src/api/tcpip.c:450-462 | over every run of posts, handlers and callbacks, each message gets at most one signal, none is left over, and the application waits unsignalled exactly while its message is queued or the netconn connects, writes or closes with its pcb still there |
| NetconnProtocol.BytesGoOutOnceInOrder | LPC1768_MC_LWIP/lwip-1.3.1/src/api/api_msg.c:961-1041 | what TCP accepted is the data of the finished writes in order, then that of the running one; each write handed over a prefix of its data, and all of it if it returned ERR_OK |
| NetconnProtocol.OneChunkPerStep | LPC1768_MC_LWIP/lwip-1.3.1/src/api/api_msg.c:974-992 | a step hands over at most min(65535, send buffer) bytes |
| NetconnProtocol.CallbacksAreSafe | LPC1768_MC_LWIP/lwip-1.3.1/src/api/api_msg.c:607-623 | no callback violates the assertions of the handlers, and a deleted netconn has no pcb that could call it |
| NetconnProtocol.FailedConnectHangs | LPC1768_MC_LWIP/lwip-1.3.1/src/api/api_msg.c:796-807 | do_connect leaves the caller waiting for nothing exactly if tcp_connect fails |
| NetconnProtocol.StuckForever | LPC1768_MC_LWIP/lwip-1.3.1/src/api/api_msg.c:796-807 | nothing but err_tcp ever ends that wait |
| NetconnProtocol.OthersCanBeAnswered | LPC1768_MC_LWIP/lwip-1.3.1/src/api/api_msg.c:237-323 | every other wait can be ended by obliging answers of the stack: the steps are given, and a write, a close or a connection that has what it needs then returns ERR_OK |
| NetconnProtocol.HandleAnswers | LPC1768_MC_LWIP/lwip-1.3.1/src/api/api_msg.c:461-1184 | each handler either signals once and leaves no work behind, or does not signal and leaves work behind |
| NetconnProtocol.WritemoreHands | LPC1768_MC_LWIP/lwip-1.3.1/src/api/api_msg.c:961-1041 | a step of a write hands over the next piece of the data and accounts for it |
| NetconnProtocol.RunInv | LPC1768_MC_LWIP/lwip-1.3.1/src/api/api_msg.c:237-1184 | the invariant of the handshake and of the bytes over all runs |
| NetconnResults.CallResult | LPC1768_MC_LWIP/lwip-1.3.1/src/api/api_msg.c:292-1184 | over every run, a call returns the answer of the rest of the stack in the step that ended its wait (or the error that its handler finds, or what was noted before if there is nothing to report), unless err_tcp comes before it returns: then the reason of that |
| NetconnResults.WriteSucceedsExactlyIf | LPC1768_MC_LWIP/lwip-1.3.1/src/api/api_msg.c:961-1084 | netconn_write returns ERR_OK exactly if the step that ended it had a usable netconn, tcp_write and tcp_output succeeded in it, and no err_tcp came |
| NetconnResults.WriteEndsExactlyIf | LPC1768_MC_LWIP/lwip-1.3.1/src/api/api_msg.c:961-1041 | a step of a write ends it exactly if tcp_write fails for good, which ERR_MEM is not, or all data have been handed over |
| NetconnResults.PcbComesAndGoes | LPC1768_MC_LWIP/lwip-1.3.1/src/api/api_msg.c:292-700 | the steps that make or take the pcb |
| NetconnResults.ListensFrom | LPC1768_MC_LWIP/lwip-1.3.1/src/api/api_msg.c:839-880 | a netconn listens exactly from a netconn_listen that succeeds while no older error is noted |
| NetconnLayer.Netconn.constructor | LPC1768_MC_LWIP/lwip-1.3.1/src/api/api_msg.c:484-554 | netconn_alloc gives a state in which the protocol may begin |
| NetconnLayer.Netconn.WriteMore | LPC1768_MC_LWIP/lwip-1.3.1/src/api/api_msg.c:961-1041 | do_writemore does what DoWritemore says |
| NetconnLayer.Netconn.ConnectTo | LPC1768_MC_LWIP/lwip-1.3.1/src/api/api_msg.c:779-812 | do_connect: the result of tcp_connect is stored and not looked at |
| NetconnLayer.Netconn.ConnectionError | LPC1768_MC_LWIP/lwip-1.3.1/src/api/api_msg.c:292-323 | err_tcp, whose second test sees the state that its first branch left |
| NetconnLayer.Netconn.ListenOn | LPC1768_MC_LWIP/lwip-1.3.1/src/api/api_msg.c:839-880 | do_listen with its nested error cases |
| NetconnLayer.Netconn.Dispatch | LPC1768_MC_LWIP/lwip-1.3.1/src/api/tcpip.c:233-313 | the stack thread runs the handler of the message |
| DnsName.WriteName | LPC1768_MC_LWIP/lwip-1.3.1/src/core/dns.c:594-610 | the writer puts the encoding of any dotted name into the packet and changes nothing else |
| DnsName.EncodeIsWire | LPC1768_MC_LWIP/lwip-1.3.1/src/core/dns.c:594-610 | for labels short enough, what is written is the name in the format of RFC 1035 |
| DnsName.LabelsRoundTrip | LPC1768_MC_LWIP/lwip-1.3.1/src/core/dns.c:594-610 | splitting a name at its dots and joining the labels gives the name back |
| DnsName.DottedRoundTrip | LPC1768_MC_LWIP/lwip-1.3.1/src/core/dns.c:594-610 | joining labels without dots and splitting gives the labels back |
| DnsName.ParseName | LPC1768_MC_LWIP/lwip-1.3.1/src/core/dns.c:536-556 | the walker as a function of memory |
| DnsName.WalkerFindsTheEnd | LPC1768_MC_LWIP/lwip-1.3.1/src/core/dns.c:536-556 | dns_parse_name finds the end of a name, with or without a compression pointer, exactly if no label but the first is empty and it is not the bare root |
| DnsName.EncodedNameIsWalked | LPC1768_MC_LWIP/lwip-1.3.1/src/core/dns.c:536-610 | of a query name with labels of up to 63 bytes the walker finds the end, strlen + 2 bytes on, exactly if no label but the first is empty |
| DnsName.CompareName | LPC1768_MC_LWIP/lwip-1.3.1/src/core/dns.c:501-526 | the comparison as a function of memory; the name is the whole array, with what stands behind the end of the string |
| DnsName.CompareChecksLabels | LPC1768_MC_LWIP/lwip-1.3.1/src/core/dns.c:501-526 | dns_compare_name accepts exactly the arrays that have the written labels in their places |
| DnsName.BeginningsAgree | LPC1768_MC_LWIP/lwip-1.3.1/src/core/dns.c:501-526 | a name agrees with its encoding, and so does every name that begins with it |
| DnsName.ComparisonAcceptsOthers | LPC1768_MC_LWIP/lwip-1.3.1/src/core/dns.c:501-526 | an input that shows it: a reply for "ab" is accepted for "abc" |
| DnsName.BytesBehindTheNameAreRead | LPC1768_MC_LWIP/lwip-1.3.1/src/core/dns.c:501-526 | an input that shows that the bytes behind the name count: a reply for "ab.cd" is accepted for "ab" |
| DnsName.CompareDecidesWithLengthAndDots | LPC1768_MC_LWIP/lwip-1.3.1/src/core/dns.c:501-526 | the comparison, the length and the dots together hold exactly for the same name, whatever is behind it |
| DnsName.QueryFits | LPC1768_MC_LWIP/lwip-1.3.1/src/core/dns.c:584-610 | of the names that dns_gethostbyname lets pass, all but those of the greatest length fit the packet |
| DnsName.PointerBits | LPC1768_MC_LWIP/lwip-1.3.1/src/core/dns.c:508-511 | the test for a compression pointer in bits |
| DnsReply.VerdictOnMessage | LPC1768_MC_LWIP/lwip-1.3.1/src/core/dns.c:732-868 | on a well-formed message: an address exactly if the flags and the question are right, and then the first A record of the Internet among the first numanswers mod 256 answers |
| DnsReply.ReadReply | LPC1768_MC_LWIP/lwip-1.3.1/src/core/dns.c:788-846 | the part of dns_recv that reads the message |
| DnsReply.ScanAnswers | LPC1768_MC_LWIP/lwip-1.3.1/src/core/dns.c:811-843 | the loop over the answers |
| DnsReply.ScanFindsFirstAddress | LPC1768_MC_LWIP/lwip-1.3.1/src/core/dns.c:811-843 | on records that stand in memory the loop finds the first address among those it counts |
| DnsReply.ReadsRecord | LPC1768_MC_LWIP/lwip-1.3.1/src/core/dns.c:813-841 | the fields that are read are those of the record, and the step leads to the next one |
| DnsReply.FlagBits | LPC1768_MC_LWIP/lwip-1.3.1/src/core/dns.c:778-791 | the flag tests in bits |
| DnsResolver.OneCallbackPerQuery | LPC1768_MC_LWIP/lwip-1.3.1/src/core/dns.c:644-868 | over every run of calls, ticks, packets and server changes: each accepted query gets its callback exactly when its entry stops asking, once, with its own name and argument |
| DnsResolver.AskingEntriesProgress | LPC1768_MC_LWIP/lwip-1.3.1/src/core/dns.c:644-711 | between operations no entry is NEW, and an asking one has tmr >= 1, retries < DNS_MAX_RETRIES and a server that is set |
| DnsResolver.PlaceIsFree | LPC1768_MC_LWIP/lwip-1.3.1/src/core/dns.c:879-911 | an entry that is NEW or ASKING is never overwritten, and a completed one only when none is unused |
| DnsResolver.RunInv | LPC1768_MC_LWIP/lwip-1.3.1/src/core/dns.c:644-978 | the invariant of the table and the callbacks over all runs |
| DnsRuns.ServedAddressIsFresh | LPC1768_MC_LWIP/lwip-1.3.1/src/core/dns.c:458-487 | an address served from the table in a run is the first A record of the reply packet of some step k, read against what name[] held then, which completed the entry for a query of that very name, and fewer ticks than its time to live (cut to DNS_MAX_TTL) have come since; 2^32 if that is zero |
| DnsRuns.AgeCountsTimers | LPC1768_MC_LWIP/lwip-1.3.1/src/core/dns.c:694-702 | in every run the age of a completed entry is the number of ticks since the packet that completed it |
| DnsRuns.QueryFailsOnTime | LPC1768_MC_LWIP/lwip-1.3.1/src/core/dns.c:652-691 | with k servers and R retries the callback of a query is made on tick k(1 + R(R-1)/2) with no address, not before and never again, in every run in which until then no packet is taken for its reply and there remain k servers, whatever other queries, replies and server changes come in between |
| DnsRuns.PacketsOfQuery | LPC1768_MC_LWIP/lwip-1.3.1/src/core/dns.c:652-691 | its entry has sent R + (k-1)(R-1) packets by then, and the packets sent in n ticks are those of the entries |
| DnsAnswers.CallbackHasCause | LPC1768_MC_LWIP/lwip-1.3.1/src/core/dns.c:644-868 | over every run, a callback is made by a tick on which its query fails, and gets NULL, or by the reply to its query, and gets what that says |
| DnsAnswers.ReplyOnMessage | LPC1768_MC_LWIP/lwip-1.3.1/src/core/dns.c:732-868 | that is, on a well-formed message, the first address among its answers if it is a response without an error for the name that was asked, and else none |
| DnsAnswers.AnsweredForGood | LPC1768_MC_LWIP/lwip-1.3.1/src/core/dns.c:732-868 | over every run, the reply to a query makes its callback with what it says, once and for good |
| DnsAnswers.PacketsAsk | LPC1768_MC_LWIP/lwip-1.3.1/src/core/dns.c:568-633 | over every run, a packet goes to the server that is set and that its entry is asking, with the number of that entry and its name |
| DnsAnswers.ServersAreSet | LPC1768_MC_LWIP/lwip-1.3.1/src/core/dns.c:293-299 | the servers are the last ones that were set |
| DnsAnswers.CopiedName | LPC1768_MC_LWIP/lwip-1.3.1/src/core/dns.c:921-926 | a name is copied into name[] with its zero, and what stood behind stays |
| DnsAnswers.Resolves | LPC1768_MC_LWIP/lwip-1.3.1/src/core/dns.c:951-978 | dns_gethostbyname answers with an address exactly if the name is legal and either denotes that address itself or denotes none and it is the address of the first completed entry for that very name; no query is made then, and one is made otherwise if there is a place |
| DnsAnswers.AnswerIsFresh | LPC1768_MC_LWIP/lwip-1.3.1/src/core/dns.c:458-487 | over every run, an address that it answers from the table is that of a reply for that name which is younger than its time to live |
| DnsTiming.TimersOnly | LPC1768_MC_LWIP/lwip-1.3.1/src/core/dns.c:717-724 | ticks of the whole table are ticks of each entry |
| DnsTiming.ForgetsExactly | LPC1768_MC_LWIP/lwip-1.3.1/src/core/dns.c:694-702 | a completed entry stays exactly its time to live, or 2^32 ticks if that is zero |
| DnsEviction.RunEvictsOldest | LPC1768_MC_LWIP/lwip-1.3.1/src/core/dns.c:886-917 | in every run that has accepted fewer than 256 queries, eviction picks the oldest completed entry, and fails only when all are asking |
| DnsEviction.SomeRunEvictsNewer | LPC1768_MC_LWIP/lwip-1.3.1/src/core/dns.c:898-903 | for every number of queries from 256 on, a run from the start that ends in a table where a newer entry is given away |
| DnsEviction.EvictsOldestUntilTheWrap | LPC1768_MC_LWIP/lwip-1.3.1/src/core/dns.c:886-917 | so, with a table of two entries or more, eviction is right in all runs with n queries exactly if n < 256 |
| DnsLayer.Resolver.CheckOne | LPC1768_MC_LWIP/lwip-1.3.1/src/core/dns.c:644-711 | dns_check_entry on the table: the new table and the result are those of the function in DnsResolver |
| DnsLayer.Resolver.Receive | LPC1768_MC_LWIP/lwip-1.3.1/src/core/dns.c:732-868 | dns_recv: the new table and the result are those of the function in DnsResolver |
| DnsLayer.Resolver.FindPlace | LPC1768_MC_LWIP/lwip-1.3.1/src/core/dns.c:885-911 | the search of dns_enqueue: the new table and the result are those of the function in DnsResolver |
| DnsLayer.Resolver.EnqueueName | LPC1768_MC_LWIP/lwip-1.3.1/src/core/dns.c:879-930 | dns_enqueue, which leaves the bytes behind a shorter name: the new table and the result are those of the function in DnsResolver |
| DnsLayer.Resolver.Resolve | LPC1768_MC_LWIP/lwip-1.3.1/src/core/dns.c:951-978 | dns_gethostbyname: the new table and the result are those of the function in DnsResolver |
| DhcpClient.AddressIsHeldSafely | LPC1768_MC_LWIP/lwip-1.3.1/src/core/dhcp.c:844-924 | over every run from a first start: an address in use is the one offered and the state is BOUND, RENEWING or REBINDING; a client that is checking an address has had it acknowledged under the transaction number of the last request, a bound one has had some ACK under it |
| DhcpClient.BoundAddress | LPC1768_MC_LWIP/lwip-1.3.1/src/core/dhcp.c:1334-1353 | over every run: the address of a bound client is that of the last ACK that it acted upon exactly if it was REQUESTING then, or that address was the one it had been offered; else it is the one it had been offered |
| DhcpClient.BoundToNothing | LPC1768_MC_LWIP/lwip-1.3.1/src/core/dhcp.c:1349-1353 | a run in which that is 0.0.0.0: the application asks for a renewal before there is a lease |
| DhcpClient.BoundOnlyAfterAck | LPC1768_MC_LWIP/lwip-1.3.1/src/core/dhcp.c:1334-1353 | BOUND is entered only by an ACK for the current transaction, or when the check of the address that it gave is over |
| DhcpClient.NakAndReleaseClear | LPC1768_MC_LWIP/lwip-1.3.1/src/core/dhcp.c:161-176 | a NAK for the current transaction, in a state that waits for an answer, and a release in any state clear address and offer and take the interface down |
| DhcpClient.ReleaseMissesTheServer | LPC1768_MC_LWIP/lwip-1.3.1/src/core/dhcp.c:1071-1090 | a release is always sent to 0.0.0.0, since the server is forgotten first, and carries no ciaddr |
| DhcpClient.StaysAlive | LPC1768_MC_LWIP/lwip-1.3.1/src/core/dhcp.c:214-230 | a step leaves a waiting client without a running timer exactly if it is an OFFER without a server id while SELECTING |
| DhcpClient.RunAlive | LPC1768_MC_LWIP/lwip-1.3.1/src/core/dhcp.c:345-425 | if every OFFER for it names its server, request_timeout is never 0 in SELECTING, REQUESTING, CHECKING, REBINDING or BACKING_OFF |
| DhcpClient.RunInv | LPC1768_MC_LWIP/lwip-1.3.1/src/core/dhcp.c:161-1454 | the invariant over all runs |
| DhcpClient.BackoffFits | LPC1768_MC_LWIP/lwip-1.3.1/src/core/dhcp.c:300-302 | the waiting times fit their 16 bits and are not zero |
| DhcpMessages.RequestsWhatIsOffered | LPC1768_MC_LWIP/lwip-1.3.1/src/core/dhcp.c:214-230 | over every run, a REQUESTING client has the server id and the address of the last OFFER that it acted upon, and has been REQUESTING since |
| DhcpMessages.ServerIsOffered | LPC1768_MC_LWIP/lwip-1.3.1/src/core/dhcp.c:214-230 | over every run, the server is that of the last OFFER acted upon, until a release |
| DhcpMessages.MessagesAreProper | LPC1768_MC_LWIP/lwip-1.3.1/src/core/dhcp.c:188-1109 | over every run, each message is one that the state calls for: a renewal is a REQUEST to that server with the address in use, all others but a release go to everybody; the first message of a state has a new transaction number |
| DhcpMessages.AddressStaysUnless | LPC1768_MC_LWIP/lwip-1.3.1/src/core/dhcp.c:161-1109 | an address in use is dropped exactly by a release, by giving up while rebinding, or by a NAK for the current transaction in a state that waits for an answer |
| DhcpTiming.DiscoversOnTime | LPC1768_MC_LWIP/lwip-1.3.1/src/core/dhcp.c:786-835 | without an OFFER the n-th DISCOVER is sent when n - 1 waiting periods have passed, as long as the 8-bit count of tries lasts |
| DhcpTiming.SearchTicksAre | LPC1768_MC_LWIP/lwip-1.3.1/src/core/dhcp.c:786-835 | these periods double from two seconds up to a minute |
| DhcpTiming.GivesUpOnTime | LPC1768_MC_LWIP/lwip-1.3.1/src/core/dhcp.c:378-425 | without replies, REQUESTING makes six requests and starts over on fine tick 244, REBINDING makes nine and drops the address on tick 90, not before |
| DhcpTiming.LeaseTicksAreNear | LPC1768_MC_LWIP/lwip-1.3.1/src/core/dhcp.c:855-881 | a period gets 1 to 65535 coarse ticks, within half a tick of it exactly for periods from 30 to 65535 * 60 + 30 seconds |
| DhcpTiming.LongLeasesEndAtOnce | LPC1768_MC_LWIP/lwip-1.3.1/src/core/dhcp.c:859-863 | the rounding overflows for the twenty-nine longest periods that have an end, which get one tick; those before are cut to 65535 |
| DhcpTiming.DefaultMaskIsClassA | LPC1768_MC_LWIP/lwip-1.3.1/src/core/dhcp.c:885-900 | without a mask option the mask is always 255.0.0.0: the code looks at the mask, not at the address |
| DhcpTiming.AckedLeaseIsBound | LPC1768_MC_LWIP/lwip-1.3.1/src/core/dhcp.c:1334-1353 | in every state that takes an ACK, it leads, after two quiet fine ticks if the address is checked, to BOUND; the address, mask, gateway and timers are those of the ACK (or guessed for it) exactly if the client was REQUESTING, or holds terms that come to the same |
| DhcpTiming.AddressInUseIsDeclined | LPC1768_MC_LWIP/lwip-1.3.1/src/core/dhcp.c:715-776 | an ARP reply for that address before then: a DECLINE, ten seconds of back-off, and no address |
| DhcpTiming.BeginsRequesting | LPC1768_MC_LWIP/lwip-1.3.1/src/core/dhcp.c:214-305 | an OFFER that is taken begins the first of these countdowns, even if the timer had stopped |
| DhcpLease.TimersCountTicks | LPC1768_MC_LWIP/lwip-1.3.1/src/core/dhcp.c:312-335 | in every run without a new binding, in whatever states, the two timers have counted the coarse ticks |
| DhcpLease.TimersFireOnce | LPC1768_MC_LWIP/lwip-1.3.1/src/core/dhcp.c:312-335 | t2 fires on exactly the t2-th coarse tick, t1 on the t1-th if it is shorter and else one tick late, neither twice in 65536 ticks; a timer that is zero fires on the 65536-th |
| DhcpLease.RenewsOnTime | LPC1768_MC_LWIP/lwip-1.3.1/src/core/dhcp.c:312-335 | in every run without an answer from the server, a bound client keeps its address until t2 ends; it is RENEWING from its t1-th coarse tick on, and not before unless the application asks |
| DhcpLease.LeaseEndsOnTime | LPC1768_MC_LWIP/lwip-1.3.1/src/core/dhcp.c:312-425 | it rebinds on its t2-th coarse tick, keeps the address for 89 fine ticks from there and drops it on the 90th, whatever packets and coarse ticks come in between |
| DhcpLease.RenewalKeepsTheAddress | LPC1768_MC_LWIP/lwip-1.3.1/src/core/dhcp.c:932-991 | unless the application calls dhcp_renew in these 89 ticks: then nothing drops the address until t2, wrapped around, ends once more, 65536 coarse ticks after it did |
| DhcpLease.LeaseIsOutlived | LPC1768_MC_LWIP/lwip-1.3.1/src/core/dhcp.c:468-500 | a lease whose ACK gives no T2 is used beyond its end: the client only rebinds when its coarse ticks are over, and keeps the address for 89 fine ticks more |
| DhcpLease.RenewalFallsSilent | LPC1768_MC_LWIP/lwip-1.3.1/src/core/dhcp.c:932-991 | a renewing client without an answer asks for 10020 fine ticks; then its 8-bit count of tries wraps around to a waiting time of zero, and it sends nothing more until a lease timer ends |
| DhcpLease.InfiniteLeaseEnds | LPC1768_MC_LWIP/lwip-1.3.1/src/core/dhcp.c:855-881 | after any ACK that puts an infinite t2 into force the timer that was running goes on: without answers the client rebinds when that one ends, and drops the address 90 fine ticks later |
| DhcpLease.InfiniteLeaseRenews | LPC1768_MC_LWIP/lwip-1.3.1/src/core/dhcp.c:855-867 | after any ACK that puts an infinite t1 into force the client goes into RENEWING exactly when the timer that was running ends |
| DhcpLayer.Dhcp.CreateAndSend | LPC1768_MC_LWIP/lwip-1.3.1/src/core/dhcp.c:1381-1454 | dhcp_create_request: the new state is that of the function in DhcpClient |
| DhcpLayer.Dhcp.BindAddress | LPC1768_MC_LWIP/lwip-1.3.1/src/core/dhcp.c:844-924 | dhcp_bind: the new state is that of the function in DhcpClient |
| DhcpLayer.Dhcp.ReleaseLease | LPC1768_MC_LWIP/lwip-1.3.1/src/core/dhcp.c:1063-1109 | dhcp_release: the new state is that of the function in DhcpClient |
| DhcpLayer.Dhcp.TakeAck | LPC1768_MC_LWIP/lwip-1.3.1/src/core/dhcp.c:468-557 | dhcp_handle_ack: the new state is that of the function in DhcpClient |
| DhcpLayer.Dhcp.ReceivePacket | LPC1768_MC_LWIP/lwip-1.3.1/src/core/dhcp.c:1281-1373 | dhcp_recv: the new state is that of the function in DhcpClient |
| DhcpLayer.Dhcp.OnTimeout | LPC1768_MC_LWIP/lwip-1.3.1/src/core/dhcp.c:378-425 | dhcp_timeout: the new state is that of the function in DhcpClient |
| DhcpLayer.Dhcp.FineTmr | LPC1768_MC_LWIP/lwip-1.3.1/src/core/dhcp.c:345-367 | dhcp_fine_tmr: the new state is that of the function in DhcpClient |
| DhcpLayer.Dhcp.CoarseTmr | LPC1768_MC_LWIP/lwip-1.3.1/src/core/dhcp.c:312-335 | dhcp_coarse_tmr: the new state is that of the function in DhcpClient |
| DhcpLayer.Dhcp.LeaseTimer | LPC1768_MC_LWIP/lwip-1.3.1/src/core/dhcp.c:859-867 | the rounding and clamping of a lease period: the new state is that of the function in DhcpClient |
| DhcpOptions.OptionsRoundTrip | LPC1768_MC_LWIP/lwip-1.3.1/src/core/dhcp.c:1510-1542 | for every list of options without END, where an OVERLOAD has one byte of data: the field is a multiple of four, at least 68 bytes long, and the search finds the first option of each code in full, or nothing |
| DhcpOptions.WriteField | LPC1768_MC_LWIP/lwip-1.3.1/src/core/dhcp.c:1170-1204 | the writers and the trailer make that field of any list that fits |
| DhcpOptions.OptionWriter.Append | LPC1768_MC_LWIP/lwip-1.3.1/src/core/dhcp.c:1171-1186 | an option with its data is appended |
| DhcpOptions.OptionWriter.Trailer | LPC1768_MC_LWIP/lwip-1.3.1/src/core/dhcp.c:1486-1499 | END and padding to 68 bytes and a multiple of four; it stays in the field exactly if that end does |
| DhcpOptions.GetOptionPtr | LPC1768_MC_LWIP/lwip-1.3.1/src/core/dhcp.c:1510-1576 | both loops, over the options and over the overloaded fields, as a function of memory; they end on every message |
| DhcpOptions.FindsFirstOption | LPC1768_MC_LWIP/lwip-1.3.1/src/core/dhcp.c:1518-1540 | the search finds the first option of a code |
| DhcpOptions.FoundIsOption | LPC1768_MC_LWIP/lwip-1.3.1/src/core/dhcp.c:1530-1532 | and points to its length and data |
| DhcpOptions.SearchesBothFields | LPC1768_MC_LWIP/lwip-1.3.1/src/core/dhcp.c:1543-1576 | what is found in a message with options in the overloaded field that the last OVERLOAD names: the first of its code in the options field, or else in that one |
| DhcpOptions.FileFieldIsLost | LPC1768_MC_LWIP/lwip-1.3.1/src/core/dhcp.c:1553-1559 | if both fields are overloaded, the END in sname ends the search: the options in file are found exactly if their codes occur elsewhere, too |
| DhcpOptions.FindsAllExactlyIf | LPC1768_MC_LWIP/lwip-1.3.1/src/core/dhcp.c:1534-1538 | in a field of options with distinct codes behind runs of PADs, the search finds every option exactly if no run has an odd length |
| DhcpOptions.LongRoundTrip | LPC1768_MC_LWIP/lwip-1.3.1/src/core/dhcp.c:1622-1631 | dhcp_option_long and dhcp_get_option_long undo each other, both ways |
| MempCarving.BlocksDisjoint | LPC1768_MC_LWIP/lwip-1.3.1/src/core/memp.c:271-285 | two elements, of one pool or of two, never overlap |
| MempCarving.BlockInMemory | LPC1768_MC_LWIP/lwip-1.3.1/src/core/memp.c:146-149 | every element is aligned and lies in memp_memory, wherever that is placed |
| MempPools.RunConserves | LPC1768_MC_LWIP/lwip-1.3.1/src/core/memp.c:309-384 | over every run of allocations, valid frees and uses, free lists and live elements are together exactly the carved ones, none twice |
| MempPools.MallocIsRight | LPC1768_MC_LWIP/lwip-1.3.1/src/core/memp.c:309-343 | an allocation gives an element of the pool that nobody holds, and NULL exactly when all are held |
| MempPools.FreePreserves | LPC1768_MC_LWIP/lwip-1.3.1/src/core/memp.c:352-384 | a valid free keeps the pools conserved |
| MempPools.ChainDistinct | LPC1768_MC_LWIP/lwip-1.3.1/src/core/memp.c:156-172 | a list that ends meets no element twice |
| MempCheck.HaltsExactlyIf | LPC1768_MC_LWIP/lwip-1.3.1/src/core/memp.c:156-172 | the loops of memp_sanity, round by round, on lists of any shape: they return exactly if every list that they get to ends or comes back to its head, and then 1 exactly if none comes back |
| MempPools.LoopsAgree | LPC1768_MC_LWIP/lwip-1.3.1/src/core/memp.c:156-172 | on the lists that MempSanity is specified for they return the same |
| MempPools.CheckEndsExactlyIf | LPC1768_MC_LWIP/lwip-1.3.1/src/core/memp.c:161-172 | after a free, on lists that all end, the loops return exactly if the element was not on the list of its pool, or the first list that had it begins with an element of that list |
| MempPools.ConservedIsHarmless | LPC1768_MC_LWIP/lwip-1.3.1/src/core/memp.c:309-384 | which holds for every free, a second one too, as long as the pools are conserved |
| MempPools.MempSanity | LPC1768_MC_LWIP/lwip-1.3.1/src/core/memp.c:156-172 | the loops of the check for circles: it fails exactly if some list comes back to its head; the shapes of the lists behind the first such one do not matter |
| MempPools.FreeAndCheck | LPC1768_MC_LWIP/lwip-1.3.1/src/core/memp.c:376-381 | on lists that all end, the check after a free that comes to its end fails exactly if the element was on its list already |
| MempLayer.Pools.constructor | LPC1768_MC_LWIP/lwip-1.3.1/src/core/memp.c:260-285 | memp_init gives each pool memp_num elements, all free, and the pools are conserved |
| MempLayer.ElementCount | LPC1768_MC_LWIP/lwip-1.3.1/src/core/memp.c:271-285 | the elements of a pool are as many different ones |
| MempLayer.Pools.Allocate | LPC1768_MC_LWIP/lwip-1.3.1/src/core/memp.c:309-343 | memp_malloc: heap and pointer are those of DoMalloc |
| MempLayer.Pools.Release | LPC1768_MC_LWIP/lwip-1.3.1/src/core/memp.c:352-384 | memp_free: the heap is that of DoFree |
| TftpWrite.ServesAnyPackets | LPC1768_MC_LWIP/lwip-1.3.1/port/tftpserver.c:309-374 | whatever packets come, the file holds the data of those that carry the next number, in their order, and the transfer ends with the first packet that is not full |
| TftpWrite.FileIsAPrefix | LPC1768_MC_LWIP/lwip-1.3.1/port/tftpserver.c:309-349 | over every loss, repetition and reordering, the file consists of the blocks that the server has counted, once and in order |
| TftpWrite.ClosesOnWholeFile | LPC1768_MC_LWIP/lwip-1.3.1/port/tftpserver.c:360-373 | when the server ends the transfer the file is whole exactly if the data has at most 65535 * 512 bytes |
| TftpWrite.CanAlwaysClose | LPC1768_MC_LWIP/lwip-1.3.1/port/tftpserver.c:309-374 | from every point of such a transfer some deliveries end it |
| TftpWrite.Connection.WrqReceive | LPC1768_MC_LWIP/lwip-1.3.1/port/tftpserver.c:309-374 | the callback, for packets of every length and in any number of buffers: new state and acknowledged numbers |
| TftpWrite.PacketParts | LPC1768_MC_LWIP/lwip-1.3.1/port/tftputils.c:15-19 | the block number and the data of a packet are read back |

## Left out

- TCP, UDP, pbufs, ARP and the operating system are parameters of the steps: any result that their interface allows.
- Core locking (LWIP_TCPIP_CORE_LOCKING), RAW packet input, and netconn_accept.
- `alloc_socket`, get_socket, errno values, and the option tables of sockets: easy members.
- lwip_accept racing with event_callback: the select model has sockets that are open already.
- SelectProtocol.NoWakeupIsLost: speaks of sockets below maxfdp1, since event_callback does not know that bound and may wake a select for a socket above it.
- SocketReceive.ReadsDeliverTheStream: reads of at most 65536 bytes each, since a copy that begins beyond that is misplaced: SocketReceive.CopyIsRightExactlyIf has the exact condition.
- The address of the sender that lwip_recvfrom reports.
- NetconnProtocol.BytesGoOutOnceInOrder: says nothing of what is lost when a write fails, and leaves conn->write_msg as the failing write leaves it; one API call at a time for each netconn.
- netconn_gethostbyname, and DNS callbacks that call the resolver again; the local host list; the resource records that are not addresses.
- DnsName.EncodedNameIsWalked: bytes behind a message are taken to be zero; for a name that the walker handles it does not look at them.
- dhcp_inform, dhcp_stop, AutoIP, a restart of a running client, several interfaces with one transaction number, and the list of DNS servers in an ACK.
- DhcpOptions.OptionsRoundTrip: END as the code of an option, and an OVERLOAD as the option that is looked for: the search never returns one.
- DhcpClient.RunAlive: leaves out RENEWING, where the 8-bit count of tries wraps to a waiting time of zero: that is DhcpLease.RenewalFallsSilent.
- memp_overflow_check_element and its kin; with the overflow check on, clearing the link of an allocated element is one of the uses that an owner may make of it.
- TftpWrite.ClosesOnWholeFile: writes to the file succeed, and only the client's DATA packets reach the connection (the server does not look at the opcode); the read direction of TFTP.
- EMAC_SetHashFilter and the descriptor rings of the EMAC, and everything that is register access.
