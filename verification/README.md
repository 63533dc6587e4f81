# Verified models of the network programs

This project models the self-contained logic of the repository and proves properties of it that
span whole functions, whole runs or every interleaving:

- address text: `inet_pton4`, `inet_pton6`, `inet_ntop6` and `inet_aton`, each characterised
  exactly on every string, the IPv6 round trip, and the grammar of the RFC against the parser;
- the getaddrinfo result list on the heap: `ga_aistruct`, `ga_clone`, `ga_port`, `ga_serv`,
  `freeaddrinfo`, and `getaddrinfo` around them with every allocation accounted for;
- reliable request/reply over UDP: `dg_send_recv` with the `rtt` estimator, against a network that
  loses, duplicates, delays and reorders;
- the concurrent programs: the hierarchical mutex, the condition-variable queues, the two rings,
  the descriptor-passing child pool, the SIGIO queue;
- the event loops `strclinonb` and `tcpservselect01`, the Internet checksum and `readline`.

`dafny verify dfyconfig.toml` checks everything.

How the files fit together:

| file | content |
|---|---|
| `Machine.dfy` | widths, sizes and wrap-around |
| `Fields.dfy`, `Inet4.dfy`, `Inet6Parse.dfy`, `Inet6Print.dfy`, `Inet6Grammar.dfy` | texts as fields, IPv4, IPv6 parser, IPv6 printer and round trip, the grammar of the RFC |
| `AddrInfoSpec.dfy`, `AddrInfoList.dfy`, `GetAddrInfo.dfy` | the result list as values, as linked nodes, and the whole call |
| `Rtt.dfy`, `Reliable.dfy` | the estimator; the protocol as a state machine and `dg_send_recv` as a method refining it |
| `HierarchicalMutex.dfy`, `Monitor.dfy`, `Rings.dfy`, `ChildPool.dfy`, `SigioQueue.dfy` | concurrency |
| `NonblockingClient.dfy`, `SelectServer.dfy` | event loops |
| `Checksum.dfy`, `LineReader.dfy` | RFC 1071 sum, buffered line reader |

Conventions. System calls (`read`, `write`, `select`, `accept`, `recvmsg`, the clock, signals) are
parameters or nondeterministic steps. A run is a sequence of states linked by enabled steps, and the
theorems about runs hold for every run and every point of it. Objects the source updates in place are
classes whose methods are proved equal to functions on values; interleaved processes and threads are
transition systems over those values. Floating point is `real`. Fixed widths (`u_char`, `uint16_t`,
`uint32_t`, `u_long`) are written out.

Where the documentation and the code disagree, the model follows the code:

- The header of `inet_pton6` says a `::` in a full address is silently ignored. It is not: the bytes
  behind it are erased. `Inet6Print.FullAddressMarker` gives the exact condition under which the claim
  holds and `Inet6Print.FullAddressErased` the failing family.
- The same header says `inet_pton6` returns 1 for a valid address of section 2.2 of RFC 1884 and else 0.
  It does take every such text, with the meaning the RFC gives, but three kinds besides: a group of
  more than four digits, a single colon at the end, and a `::` that stands for nothing.
  `Inet6Grammar.RfcIff` is the exact condition; `TrailingColon`, `ManyDigits` and `IdleMarker` are the
  failing families and `BeyondTheGrammar` has an input of each. (RFC 1884 says "multiple groups"
  for `::`, RFC 4291 "one or more"; the grammar here is the latter. Neither limits the digits of the
  decimal pieces, so those of a dotted quad are read by their value, leading zeros allowed.)
- A comment in `getaddrinfo` says an error frees any memory allocated. That fails in two ways.
  The Unix domain special case returns the errors of `ga_unix`, which frees nothing: a path that does
  not fit `sun_path`, too little memory or a failing `uname` loses whatever was allocated by then.
  Everywhere else the list is released, but not a canonical name saved in the host search and not
  yet hung on it. `GetAddrInfo.GetAddrInfo` states for every call past the argument check which
  memory is lost, and that it is some if and only if `Leaks` holds of the arguments, the answers of
  the world and the memory there is; `GetAddrInfo.LongPathLeaks` and `GetAddrInfo.NameLost` give inputs.
- `readline` returns one more than it stored when the buffer fills without a newline;
  `LineReader.FilledIff` says exactly when.
- `Hierarchical_mutex::unlock` does not check its order. Deadlock freedom is proved for threads that
  unlock last in, first out, and that order is exactly what it takes:
  `HierarchicalMutex.UnlockSafeIff` shows that an unlock is in order if and only if no continuation
  with in-order unlocks deadlocks, and `HierarchicalMutex.UnlockKeepsMinimumIff` that it is what keeps
  the hierarchy value right.

## Model

| member | source | states |
|---|---|---|
| `Inet4.Pton4` | unpv13e/libfree/inet_pton.c:86-125 | succeeds if and only if the text is four non-empty decimal fields of value at most 255 between dots, then stores exactly those four bytes at the given place; otherwise the destination is untouched |
| `Inet4.ScanQuad` | unpv13e/libfree/inet_pton.c:95-121 | the character loop accepts exactly the dotted quads and leaves their bytes in the temporary |
| `Inet4.QuadRoundTrip` | unpv13e/libfree/inet_ntop.c:85-99 | every printed IPv4 address parses back to its bytes and is 7 to 15 characters long |
| `Inet4.Aton` | unpv13e/libfree/inet_aton.c:22-75 | succeeds if and only if the text is one to four decimal, possibly empty, fields of value at most 255 modulo 2^64, with missing trailing fields zero in the address |
| `Inet4.ScanLoose` | unpv13e/libfree/inet_aton.c:25-62 | the do/while loop accepts exactly those texts and has their dots and accumulated address |
| `Inet4.StrictIsLoose` | unpv13e/libfree/inet_aton.c:22-75 | every text `inet_pton4` accepts, `inet_aton` accepts with the same four bytes |
| `Inet4.StrictIff` | unpv13e/libfree/inet_aton.c:22-75 | exactly when a text `inet_aton` accepts is also one for `inet_pton4`: four fields, none empty, none that wraps around |
| `Inet4.PrintedNumbers` | unpv13e/libfree/inet_aton.c:31-58 | four printed numbers are accepted by `inet_aton` if and only if each is at most 255 modulo 2^64, by `inet_pton4` if and only if each is at most 255 |
| `Inet4.LooseIsNotStrict` | unpv13e/libfree/inet_aton.c:22-75 | the empty text, shorthand and a text with an empty field are accepted by `inet_aton` only |
| `Inet4.Shorthand` | unpv13e/libfree/inet_aton.c:50-74 | "10.1" is 10.1.0.0: the first field is the highest byte, missing ones are zeros at the low end |
| `Fields.DigitTable` | unpv13e/libfree/inet_pton.c:145-146 | the value of each of the sixteen digits of either case, and which character printf writes for it |
| `Fields.DigitIs` | unpv13e/libfree/inet_pton.c:165-169 | a character has a value exactly if strchr finds it in one of the two strings, and its place there is the value |
| `Fields.TextShortest` | unpv13e/libfree/inet_ntop.c:178 | numbers are printed without leading zeros |
| `Inet6Parse.Pton6` | unpv13e/libfree/inet_pton.c:140-224 | succeeds exactly on the texts `Accepts` describes by their colon-separated fields, then stores `Parsed` of the text; otherwise the destination is untouched |
| `Inet6Parse.Scan6` | unpv13e/libfree/inet_pton.c:155-204 | the character loop accepts exactly the well-formed field lists of at most sixteen bytes and leaves their bytes and the position of the `::` |
| `Inet6Parse.Shift` | unpv13e/libfree/inet_pton.c:205-218 | the overlapping in-place shift moves the bytes behind the `::` to the end with zeros in the gap when something is elided, and erases them when nothing is |
| `Inet6Parse.QuadHexPrefix` | unpv13e/libfree/inet_pton.c:165-174 | the hexadecimal overflow test never rejects the digits of a valid embedded dotted quad |
| `Inet6Print.FillWords` | unpv13e/libfree/inet_ntop.c:130-132 | the byte loop assembles the eight big-endian words |
| `Inet6Print.FindRun` | unpv13e/libfree/inet_ntop.c:133-154 | the one-pass scan finds the leftmost longest run of at least two zero words, or none exactly when there is none |
| `Inet6Print.ChosenUnique` | unpv13e/libfree/inet_ntop.c:133-154 | that choice is unique |
| `Inet6Print.Print` | unpv13e/libfree/inet_ntop.c:159-182 | the formatting loop leaves exactly the fields joined by colons, with the `::` and the embedded IPv4 forms, inside the 46-byte temporary |
| `Inet6Print.Ntop6` | unpv13e/libfree/inet_ntop.c:107-195 | writes that text and a NUL exactly when it fits, and nothing otherwise |
| `Inet6Print.FormatLength` | unpv13e/libfree/inet_ntop.c:118-184 | the text has at most 39 characters |
| `Inet6Print.RoundTrip` | unpv13e/libfree/inet_ntop.c:107-195 | for every 16-byte address the printed text, in every form, is accepted by the parser and gives the same sixteen bytes |
| `Inet6Print.ParseFull` | unpv13e/libfree/inet_pton.c:162-223 | any text of groups, the last possibly a dotted quad, worth sixteen bytes parses to those bytes |
| `Inet6Print.ParseCompressed` | unpv13e/libfree/inet_pton.c:162-223 | any text of groups around a `::` that elides something parses to its bytes with zeros inserted at the `::` |
| `Inet6Print.FullAddressMarker` | unpv13e/libfree/inet_pton.c:127-138 | for an accepted text with a `::` and sixteen bytes the `::` is ignored if and only if every byte behind it is zero |
| `Inet6Print.FullAddressErased` | unpv13e/libfree/inet_pton.c:213-216 | any address printed in full with one colon doubled parses with everything behind it erased |
| `Inet6Grammar.RfcIff` | unpv13e/libfree/inet_pton.c:127-138 | a text is one of the RFC's if and only if `inet_pton6` accepts it and it has no group of more than four digits, no lone colon at the end and no `::` in front of nothing elided |
| `Inet6Grammar.FullIsTaken` | unpv13e/libfree/inet_pton.c:140-224 | every uncompressed text of the grammar is accepted and gives the bytes of its groups |
| `Inet6Grammar.ShortIsTaken` | unpv13e/libfree/inet_pton.c:140-224 | every text of the grammar with a `::` is accepted and gives its bytes with zeros in the gap |
| `Inet6Grammar.TrailingColon` | unpv13e/libfree/inet_pton.c:175-189 | eight groups with a colon behind them are accepted as if it were not there, and are no address of the RFC |
| `Inet6Grammar.ManyDigits` | unpv13e/libfree/inet_pton.c:165-174 | eight groups one of which has more than four digits are accepted at their value, and are no address of the RFC |
| `Inet6Grammar.IdleMarker` | unpv13e/libfree/inet_pton.c:205-218 | eight groups with a `::` between them are accepted, lose the groups behind it, and are no address of the RFC |
| `Inet6Grammar.BeyondTheGrammar` | unpv13e/libfree/inet_pton.c:127-138 | an input of each of the three kinds |
| `Inet6Grammar.PrintedIsRfc` | unpv13e/libfree/inet_ntop.c:107-195 | whatever the address, the text `inet_ntop6` prints is one of the RFC's |
| `Inet6Grammar.CompressedRun` | unpv13e/libfree/inet_ntop.c:160-183 | the printed text has a `::` exactly if there is a chosen run, at its place, standing for exactly its words |
| `Inet6Grammar.QuadPrintedIff` | unpv13e/libfree/inet_ntop.c:171-177 | a dotted quad is printed exactly for addresses with twelve zero bytes and not fourteen, or ten and then ff ff |
| `Inet6Grammar.DotIffEmbedded` | unpv13e/libfree/inet_ntop.c:171-177 | and then the text ends in the last four bytes, in order |
| `Inet6Grammar.KnownAddress` | unpv13e/libfree/inet_pton.c:140-224 | the sixteen bytes stored for "fe80::aB:1.2.3.4" |
| `AddrInfoSpec.PassesGiveBlocks` | unpv13e/libgai/ga_port.c:8-27 | any number of passes with distinct nonzero types over any addresses gives every address one block of entries, in address order, and the counts sum to n times k |
| `AddrInfoSpec.BlockIsOnePerType` | unpv13e/libgai/ga_port.c:11-26 | a block has exactly one entry per type, with that type's port and the address unchanged, and only its first entry is marked for cloning |
| `AddrInfoSpec.NamedType` | unpv13e/libgai/ga_port.c:44-63 | when the caller named a type a pass only fills in the port of every entry |
| `AddrInfoSpec.LocalUntouched` | unpv13e/libgai/ga_port.c:48-63 | a pass gives no port to Unix domain entries and counts none |
| `AddrInfoList.AddrList.AiStruct` | unpv13e/libgai/ga_aistruct.c:8-88 | appends through the tail pointer an entry with its own block, marked for cloning if no type is named; fails exactly when memory runs out or a Unix domain path is too long, the node then already linked, and the old list is still there, at most with a node without a block behind it; all it allocated is on the list |
| `AddrInfoList.AddrList.LinkAfter` | unpv13e/libgai/ga_clone.c:16-17 | relinking inserts the node right behind its original and keeps every other link |
| `AddrInfoList.AddrList.Clone` | unpv13e/libgai/ga_clone.c:8-30 | inserts a copy with a fresh block right behind the original; fails exactly when memory runs out, and then every old entry is where it was, at most with a node without a block behind the original |
| `AddrInfoList.AddrList.Visit` | unpv13e/libgai/ga_port.c:37-63 | one turn of the walk turns one entry into what the pass prescribes for it and goes on behind it, or leaves the list as a failed clone does |
| `AddrInfoList.AddrList.Port` | unpv13e/libgai/ga_port.c:30-65 | the walk terminates although it inserts nodes, leaves exactly the pass of the old list, returns its count, shares no node or block, and returns -1 exactly when the clones need more memory than there is, the entries in front of the failing one then done and those from it on still there |
| `AddrInfoList.AddrList.Serv` | unpv13e/libgai/ga_serv.c:8-57 | returns EAI_MEMORY exactly when the clones of the passes need more memory than there is, saying where it stopped; otherwise makes exactly the passes the service string and hint call for and succeeds exactly when their counts are not all zero, with EAI_NONAME or EAI_SERVICE by the hint |
| `AddrInfoList.ServiceGivesBlocks` | unpv13e/libgai/ga_serv.c:23-31 | with no type named every address ends with one entry per protocol found |
| `AddrInfoList.ServiceNoHint` | unpv13e/libgai/ga_serv.c:27-49 | with no type named each address has a stream entry exactly when the service is a number or has a TCP port, with that port, and a datagram entry exactly when it is a number or has a UDP port, with that one; entry by entry |
| `AddrInfoList.ServiceHint` | unpv13e/libgai/ga_serv.c:20-49 | with a type named a number, or the port of that type's protocol, goes into every entry; a name with none changes nothing |
| `AddrInfoList.ServiceStatusNoHint` | unpv13e/libgai/ga_serv.c:51-56 | the status with no type named, in terms of the ports, the addresses and the memory |
| `AddrInfoList.ServiceStatusHint` | unpv13e/libgai/ga_serv.c:51-56 | with a type named: success exactly if there is a port for it and an address, else EAI_SERVICE |
| `AddrInfoList.PassesCostIs` | unpv13e/libgai/ga_port.c:8-27 | k passes with distinct types over n addresses ask for 2n(k - 1) allocations |
| `AddrInfoList.AddrList.FreeAll` | unpv13e/libgai/freeaddrinfo.c:4-19 | gives back block, canonical name and node of every entry in order, also of an incomplete list: exactly what the list owns, never releasing twice and never reading a node after its release |
| `AddrInfoList.AddrList.FreedExactlyOnce` | unpv13e/libgai/freeaddrinfo.c:9-18 | that sequence holds every node, every block and the name of the list, nothing else, and nothing twice |
| `AddrInfoList.NodeGoesLast` | unpv13e/libgai/freeaddrinfo.c:9-17 | each node goes after its block and its name |
| `GetAddrInfo.AddHosts` | unpv13e/libgai/getaddrinfo.c:49-138 | the host search builds one entry per address in order, saves the first host's name if asked for, and stops exactly at the first error or when memory runs out |
| `GetAddrInfo.NameFirst` | unpv13e/libgai/getaddrinfo.c:144-153 | the first entry, and no other, gets the saved name or a copy of the host string |
| `GetAddrInfo.PhaseIs` | unpv13e/libgai/getaddrinfo.c:49-138 | the host search gets through if and only if no answer is fatal and memory reaches for two requests per address and one for the name, and what is left then |
| `GetAddrInfo.SavedIs` | unpv13e/libgai/getaddrinfo.c:125-130 | a name is saved if and only if one is asked for, a host is found before any fatal answer, and memory reaches for the addresses before it and its name |
| `GetAddrInfo.LosesIs` | unpv13e/libgai/getaddrinfo.c:125-141 | the condition on answers and memory under which a saved name is not on the list when the host search ends in an error |
| `GetAddrInfo.Resolve` | unpv13e/libgai/getaddrinfo.c:46-167 | past the Unix domain case: which status is returned for every input and memory; on success the list is the passes over the addresses found and owns everything allocated; on an error everything allocated has been given back once, but for a saved name, lost exactly under that condition |
| `GetAddrInfo.Unix` | unpv13e/libgai/ga_unix.c:6-40 | the stream and datagram entries or the one of the named type, with the node name; which status is returned and how much is allocated for every input and memory; no error frees anything, and something is left behind exactly when the family is right and one request could be granted |
| `GetAddrInfo.GetAddrInfo` | unpv13e/libgai/getaddrinfo.c:37-167 | the whole call past the argument check: status and list for every input and memory, and everything allocated on the list, given back or lost, where something is lost if and only if the call is one of those `Leaks` describes |
| `GetAddrInfo.LongPathLeaks` | unpv13e/libgai/ga_aistruct.c:69-70 | every Unix domain path that does not fit is refused with EAI_SERVICE and loses one node, however much memory there is |
| `GetAddrInfo.ResolveAndFree` | unpv13e/libgai/getaddrinfo.c:37-167 | after a call and, on success, `freeaddrinfo` everything allocated has been given back, unless the call leaks |
| `GetAddrInfo.NameLost` | unpv13e/libgai/getaddrinfo.c:125-137 | a single host found by name loses it exactly when it has no address or memory runs out among them |
| `GetAddrInfo.HostEntriesAre` | unpv13e/libgai/getaddrinfo.c:61-136 | the entries of an address written out and of a host, field by field and in order |
| `GetAddrInfo.HostEntriesAppend` | unpv13e/libgai/getaddrinfo.c:49-138 | the entries of successive lookups follow each other |
| `GetAddrInfo.SucceedsIff` | unpv13e/libgai/getaddrinfo.c:46-162 | past the Unix domain case the call succeeds if and only if no answer is fatal, there is an address, memory reaches for entries and name, and the service phase succeeds on what is left |
| `GetAddrInfo.FatalAnswer` | unpv13e/libgai/getaddrinfo.c:108-123 | the first fatal answer is the status, if memory reaches that far |
| `GetAddrInfo.UnixOutcome` | unpv13e/libgai/ga_unix.c:15-36 | status and entries of the Unix domain case for every input and memory |
| `Rtt.MinMaxIsNearest` | unpv13e/lib/rtt.c:12-20 | the result is the point of [2, 60] nearest to the value |
| `Rtt.RttInfo.InitAt` | unpv13e/lib/rtt.c:22-35 | resets estimators, timeout and base; the retransmission count is not touched |
| `Rtt.RttInfo.NewPacket` | unpv13e/lib/rtt.c:56-60 | only the retransmission count is cleared |
| `Rtt.RttInfo.StopAfter` | unpv13e/lib/rtt.c:80-102 | the in-place update is Jacobson's with gains 1/8 and 1/4 |
| `Rtt.RttInfo.TimedOut` | unpv13e/lib/rtt.c:111-119 | doubles the timeout and gives up after the third retransmission |
| `Rtt.StopWithin` | unpv13e/lib/rtt.c:80-102 | if both estimators lie in [0, m] and the sample is at most m they stay there |
| `Rtt.TimeoutBacksOff` | unpv13e/lib/rtt.c:111-119 | the clamped srtt + 4 rttvar times 2^n becomes the same times 2^(n+1) |
| `Rtt.BackedOffIs` | unpv13e/lib/rtt.c:80-119 | undoing the doublings gives the point of [2, 60] nearest to srtt + 4 rttvar |
| `Rtt.EqualSamples` | unpv13e/lib/rtt.c:93-99 | after n equal samples x: srtt = x - (7/8)^n (x - srtt0) and rttvar = 2 (7/8)^n d + (3/4)^n (rttvar0 - 2 d) with d the first distance |
| `Rtt.FirstTimeouts` | unpv13e/lib/rtt.c:22-35 | a fresh estimator starts at 3 s; a first sample of 8 s gives srtt 1, rttvar 2.5625, a timeout of 11.25 s and an alarm of 11 |
| `Rtt.StartRounds` | unpv13e/lib/rtt.c:62-67 | the alarm is the timeout rounded to the nearest second |
| `Rtt.TsCounts` | unpv13e/lib/rtt.c:45-54 | a timestamp is the milliseconds since the base second, in 32 bits |
| `Rtt.AlarmRange` | unpv13e/lib/rtt.c:62-67 | every alarm is between 2 and 480 seconds |
| `Rtt.TsElapsed` | unpv13e/lib/rtt.c:45-54 | the 32-bit difference of two timestamps on one base is the elapsed milliseconds modulo 2^32, whatever the base |
| `Reliable.StepKeeps` | unpv13e/rtt/dg_send_recv.c:26-92 | every step of client, network, server and clock keeps the invariant about messages, timeouts, transmissions and results |
| `Reliable.RequestsAreAnswered` | unpv13e/rtt/dg_send_recv.c:26-92 | in every run a successful call returned the first bytes of its own payload, as many as the payload, the server's buffer and its own room allow, was sent at most four times, and passed `rtt_stop` the milliseconds since the very transmission answered |
| `Reliable.AnsweredOnce` | unpv13e/rtt/dg_send_recv.c:81-92 | in every run each call returns at most once |
| `Reliable.SendsBackOff` | unpv13e/rtt/dg_send_recv.c:54-79 | in every run each transmission uses a timeout in [2, 60] times 2^k with k the retransmissions so far, at most 3, and a call starts in [2, 60] |
| `Reliable.TimeoutIsNearest` | unpv13e/rtt/dg_send_recv.c:54-92 | in every run the timeout is the point of [2, 60] nearest to srtt + 4 rttvar, doubled once per retransmission of the call under way |
| `Reliable.CallKeepsEstimators` | unpv13e/rtt/dg_send_recv.c:26-54 | in every run a call re-initialises the estimator exactly if it is the first or follows one that gave up |
| `Reliable.SurvivesLosses` | unpv13e/rtt/dg_send_recv.c:56-92 | from every idle state a call whose first up to three transmissions are lost and whose next is answered returns the echo of its payload, and one that loses four gives up |
| `Reliable.EstimatorsStayBounded` | unpv13e/lib/rtt.c:80-102 | in every run, if no sample exceeds m >= 0.75 s, the estimators stay in [0, m] |
| `Reliable.ReplyIsEcho` | unpv13e/rtt/dg_echo.c:10-15 | a reply with the current sequence number carries the echo of the current payload |
| `Reliable.Client.Begin` | unpv13e/rtt/dg_send_recv.c:26-54 | the entry of the call on the static variables is the machine's call step |
| `Reliable.Client.SendPacket` | unpv13e/rtt/dg_send_recv.c:56-61 | stamping and sending is the machine's send step |
| `Reliable.Client.Expire` | unpv13e/rtt/dg_send_recv.c:68-79 | a timeout backs off and sends again, or gives up and asks for re-initialisation |
| `Reliable.Client.Accept` | unpv13e/rtt/dg_send_recv.c:81-86 | a datagram with the current sequence number ends the receive loop, its data that fits in the caller's buffer |
| `Reliable.Client.Conclude` | unpv13e/rtt/dg_send_recv.c:88-92 | a matching reply is measured and the estimators updated |
| `Reliable.Client.ReactTo` | unpv13e/rtt/dg_send_recv.c:56-92 | one event in the loop, before or after a matching reply: the same as the machine's step, with a timeout possible until alarm(0) |
| `Reliable.Client.DgSendRecv` | unpv13e/rtt/dg_send_recv.c:18-93 | the whole call, for any script of the world, does exactly what the machine does: the echo of its payload, or giving up after exactly four transmissions, or still waiting |
| `HierarchicalMutex.HMutex.Lock` | concurrency/src/include/HierarchicalMutex.hpp:38-42 | throws exactly when the thread's value does not exceed the level, on a held mutex, too, changing nothing; otherwise waits while it is held, then saves the value and lowers it to the level |
| `HierarchicalMutex.HMutex.LockTwice` | concurrency/src/include/HierarchicalMutex.hpp:38-42 | locking a mutex one has just locked throws instead of waiting for oneself |
| `HierarchicalMutex.HMutex.TryLock` | concurrency/src/include/HierarchicalMutex.hpp:49-56 | the same without waiting; the internal mutex may refuse although it is free, and a refusal changes nothing |
| `HierarchicalMutex.HMutex.Unlock` | concurrency/src/include/HierarchicalMutex.hpp:44-47 | restores the saved value |
| `HierarchicalMutex.HMutex.LockUnlock` | concurrency/src/include/HierarchicalMutex.hpp:38-47 | a lock and its unlock leave the thread's value as it was |
| `HierarchicalMutex.StepKeeps` | concurrency/src/include/HierarchicalMutex.hpp:23-56 | every step keeps, for every thread, the lock stack of falling levels spelt out by the saved values |
| `HierarchicalMutex.StepDoes` | concurrency/src/include/HierarchicalMutex.hpp:23-56 | what each step does to holders, saved values and the thread's value, and that nobody else's value changes |
| `HierarchicalMutex.MovableIff` | concurrency/src/include/HierarchicalMutex.hpp:38-56 | a thread counts as able to move exactly if some step of it is enabled; a waiting one exactly if it can acquire |
| `HierarchicalMutex.ValueIsMinimum` | concurrency/src/include/HierarchicalMutex.hpp:29-32 | in every run a thread's value is the least of ULONG_MAX and the levels it holds |
| `HierarchicalMutex.SavedValuesSpellStack` | concurrency/src/include/HierarchicalMutex.hpp:29-32 | in every run the `previous_hierarchy_value` of each mutex a thread holds is the level it locked before, ULONG_MAX for the first |
| `HierarchicalMutex.UnlockKeepsMinimumIff` | concurrency/src/include/HierarchicalMutex.hpp:44-47 | an unlock leaves the thread's value at or below every level it still holds if and only if it unlocks the mutex locked last |
| `HierarchicalMutex.BalancedRestores` | concurrency/src/include/HierarchicalMutex.hpp:29-47 | in every run a thread that holds the same set of mutexes again has the same value again |
| `HierarchicalMutex.WaitingDescends` | concurrency/src/include/HierarchicalMutex.hpp:23-27 | each hop from a waiting thread to the holder goes to a mutex of strictly lower level |
| `HierarchicalMutex.NoDeadlock` | concurrency/src/include/HierarchicalMutex.hpp:38-56 | in every run with LIFO unlocking no threads wait in a circle and every waiting chain ends at a thread that can move |
| `HierarchicalMutex.UnlockSafeIff` | concurrency/src/include/HierarchicalMutex.hpp:44-47 | an unlock is in order if and only if no continuation with in-order unlocks comes to a deadlock |
| `HierarchicalMutex.OutOfOrderOpensDeadlock` | concurrency/src/include/HierarchicalMutex.hpp:44-47 | after every out-of-order unlock a deadlock is three steps away, none of them an unlock |
| `HierarchicalMutex.OutOfOrderDeadlock` | concurrency/src/include/HierarchicalMutex.hpp:44-47 | for any two levels a run from the start with one out-of-order unlock that ends in a deadlock |
| `Monitor.ClientRing.Add` | unpv13e/server/serv08.c:39-44 | the in-place put on `clifd[]`, with the overrun test |
| `Monitor.ClientRing.Remove` | unpv13e/server/pthread08.c:22-26 | the in-place take |
| `Monitor.BoundedBuffer.Add` | unpv13e/threads/example03.c:72-75 | the in-place put on the bounded buffer |
| `Monitor.BoundedBuffer.Remove` | unpv13e/threads/example03.c:93-97 | the in-place take |
| `Monitor.ThreadSafeQueue.Push` | concurrency/src/include/ThreadSafeQueueConVar.hpp:16-20 | appends |
| `Monitor.ThreadSafeQueue.TryPop` | concurrency/src/include/ThreadSafeQueueConVar.hpp:37-44 | takes the front exactly when there is one |
| `Monitor.PutAppends` | unpv13e/server/serv08.c:40-44 | for all three stores a put appends to the items the indices stand for; the ring test fires exactly at a 32nd item |
| `Monitor.TakeRemoves` | unpv13e/threads/example03.c:89-97 | for all three stores the emptiness test is exact and a take removes the oldest item |
| `Monitor.StepKeeps` | unpv13e/threads/example03.c:62-104 | every step of any threads, signals and spurious wake-ups keeps the invariant |
| `Monitor.FirstInFirstOut` | unpv13e/threads/example03.c:62-104 | in every run values are taken in the order put, each once, what is stored is exactly what is left, the serv08 ring holds at most 31, and `b_nitems` is the number stored |
| `Monitor.QuitsWhenFull` | unpv13e/server/serv08.c:41-44 | in every run serv08 quits exactly when a 32nd unserved descriptor arrives |
| `Monitor.NoLostWakeup` | concurrency/src/include/ThreadSafeQueueConVar.hpp:16-53 | in every run with the mutex free, while a consumer sleeps there are no more items than woken consumers yet to recheck, and while a producer sleeps no more room than woken producers |
| `Monitor.NotAllAsleep` | unpv13e/threads/example03.c:62-104 | in every run, with the mutex free and nobody woken, not both sides sleep, consumers sleep only on an empty store and producers only on a full one |
| `Monitor.MutexAndSleepers` | unpv13e/threads/example03.c:62-104 | in every run: who has the mutex, who sleeps and who is woken after each step |
| `Monitor.StoreMoves` | unpv13e/threads/example03.c:72-97 | in every run a put stores its producer's value behind the others, a take brings the oldest, no other step moves anything |
| `Monitor.NobodyIsStuck` | unpv13e/threads/example03.c:62-104 | in every run whoever has the mutex can go on, and with it free every thread not asleep can take it |
| `ChildPool.FindAvailable` | unpv13e/server/serv05.c:54-56 | the loop finds the first entry with status 0, or the end |
| `ChildPool.StepKeeps` | unpv13e/server/serv05.c:43-81 | every step of parent or child keeps the invariant |
| `ChildPool.PoolIsConsistent` | unpv13e/server/serv05.c:43-81 | in every run `navail` is the number of children with status 0, the "no available children" exit is not taken, the counts sum to the connections accepted, a busy child owns exactly one of descriptor, request and ready byte and an idle one none, and no pass leaves a selected pipe unread |
| `ChildPool.ScanNeverBlocks` | unpv13e/server/serv05.c:71-80 | in every run the byte select announced is still there when the scan reads it |
| `ChildPool.SelectReports` | unpv13e/server/serv05.c:44-47 | in every run select reports exactly the pipes with a byte, and a pending connection exactly if a child is available |
| `ChildPool.AcceptDispatches` | unpv13e/server/serv05.c:50-67 | in every run a reported connection is accepted in that pass: the available child of least index is marked, counted and passed the descriptor, and nothing else changes |
| `ChildPool.ScanFrees` | unpv13e/server/serv05.c:71-80 | in every run a reported ready byte makes its child available, and nothing else changes |
| `ChildPool.ChildServes` | unpv13e/server/child05.c:40-50 | in every run a child takes its descriptor, serves it and writes the ready byte |
| `ChildPool.BusyMovesOn` | unpv13e/server/child05.c:40-50 | in every run a busy child can take its descriptor, or finish, or its byte wakes the parent |
| `ChildPool.ParentMovesOn` | unpv13e/server/serv05.c:43-81 | in every run the parent is never stuck in a pass, and takes a pending connection while a child is available |
| `ChildPool.Dispatch` | unpv13e/server/serv05.c:54-64 | the same on the table in place, with the search loop |
| `SigioQueue.DgEcho.SigIo` | unpv13e/sigio/dgecho01.c:79-108 | the handler's loop on the arrays is the handler on values |
| `SigioQueue.DgEcho.MainStep` | unpv13e/sigio/dgecho01.c:56-73 | one statement of the main loop in place |
| `SigioQueue.HandlerKeeps` | unpv13e/sigio/dgecho01.c:85-107 | the handler quits exactly when the count would reach eight; otherwise it queues the datagrams behind the others and counts them at an index in range |
| `SigioQueue.StatementKeeps` | unpv13e/sigio/dgecho01.c:57-73 | every statement keeps the invariant, and what Sendto sends at its return is what it was given |
| `SigioQueue.EchoedInOrder` | unpv13e/sigio/dgecho01.c:56-107 | in every run without the overflow exit datagrams are echoed in arrival order exactly once, and `iput` is `iget` plus the unsent entries around the ring, plus one more slot between the return of Sendto and the advance of `iget` |
| `SigioQueue.SignalOverwritesNothing` | unpv13e/sigio/dgecho01.c:85-107 | in every run, wherever a signal falls, the queued entries and the one being sent stay as they were |
| `SigioQueue.UnsentIsSent` | unpv13e/sigio/dgecho01.c:57-73 | in every run, while a datagram is unsent, each statement of the main loop comes one nearer to a send or has just sent the oldest, and no signal throws it back |
| `NonblockingClient.Channel.Fill` | unpv13e/nonblock/strclinonb.c:59-60 | bytes read in at the input pointer extend the window |
| `NonblockingClient.Channel.Drain` | unpv13e/nonblock/strclinonb.c:115-117 | bytes written leave the window, and an empty window is reset |
| `NonblockingClient.StrCli.ReadStdin` | unpv13e/nonblock/strclinonb.c:42-62 | the stdin part of a pass in place, with the FIN at end of file on an empty window |
| `NonblockingClient.StrCli.ReadSock` | unpv13e/nonblock/strclinonb.c:64-86 | the socket part, normal or premature end at end of file |
| `NonblockingClient.StrCli.WriteStdout` | unpv13e/nonblock/strclinonb.c:89-103 | the stdout part |
| `NonblockingClient.StrCli.WriteSock` | unpv13e/nonblock/strclinonb.c:105-122 | the socket write with the FIN when the last byte is out |
| `NonblockingClient.StrCli.DoPass` | unpv13e/nonblock/strclinonb.c:27-123 | one turn of the loop on buffers and pointers is the pass on values |
| `NonblockingClient.PrefixesAndFin` | unpv13e/nonblock/strclinonb.c:22-122 | in every run each output is a prefix of its input, the difference is the window, and the FIN is sent at most once and exactly when stdin has ended with every byte written |
| `NonblockingClient.SilentAfterFin` | unpv13e/nonblock/strclinonb.c:47-53 | in every run nothing is written to the socket after the FIN and nothing read from stdin after its end |
| `NonblockingClient.AlwaysWaits` | unpv13e/nonblock/strclinonb.c:28-39 | in every run each pass before the end of stdin waits on stdin or on socket writability, and every pass on the socket or on stdout |
| `NonblockingClient.PassMoves` | unpv13e/nonblock/strclinonb.c:42-122 | in every run exactly the bytes each pass reads and writes: a window that may be written, or has just been filled, loses the bytes the write takes, from the front; end of file on the socket ends the run, normally exactly if stdin had ended |
| `SelectServer.Server.AcceptNew` | unpv13e/tcpcliserv/tcpservselect01.c:39-60 | the first free slot takes the new descriptor; quits exactly when there is none |
| `SelectServer.Server.ScanClients` | unpv13e/tcpcliserv/tcpservselect01.c:66-81 | the loop with its `nready` exit services every selected client and drops those at end of file |
| `SelectServer.Server.Round` | unpv13e/tcpcliserv/tcpservselect01.c:35-82 | one round services exactly the descriptors select reported, keeps table, set and bounds consistent, and leaves exactly the expected set |
| `SelectServer.FillSlot` | unpv13e/tcpcliserv/tcpservselect01.c:48-60 | taking a free slot keeps `allset` equal to listening plus live entries, the entries distinct and the bounds right |
| `SelectServer.ClearSlot` | unpv13e/tcpcliserv/tcpservselect01.c:70-74 | freeing a slot keeps them, too |
| `SelectServer.ScanOver` | unpv13e/tcpcliserv/tcpservselect01.c:78-81 | whether the scan ends by count or by `maxi`, nothing selected is left |
| `Checksum.InCksum` | unpv13e/libfree/in_cksum.c:3-32 | the loop with 32-bit wrap-around computes the complement of the folded word sum |
| `Checksum.NoOverflow` | unpv13e/libfree/in_cksum.c:16-25 | up to 131074 bytes the accumulator cannot overflow |
| `Checksum.FoldIsCarrySum` | unpv13e/libfree/in_cksum.c:27-30 | two folds suffice: the result is congruent to the sum modulo 65535 and zero only for a zero sum |
| `Checksum.ByteOrderIndependent` | unpv13e/libfree/in_cksum.c:16-31 | little-endian and big-endian machines store the same two checksum bytes, odd lengths included |
| `Checksum.VerifiesIff` | unpv13e/udpcksum/udpread.c:76 | a buffer verifies exactly when its words sum to a nonzero multiple of 65535 |
| `Checksum.InsertThenVerify` | unpv13e/ping/send_v4.c:17-19 | storing the checksum in a zeroed even-offset field makes the buffer verify, also with 0 replaced by 0xffff |
| `Checksum.WordErrorNoticed` | unpv13e/udpcksum/udpread.c:76 | a changed word is noticed exactly when it is not congruent to the old one, as long as the sum is not zero |
| `Checksum.RightIffNoLoss` | unpv13e/libfree/in_cksum.c:16-30 | for any length the folded sum is right exactly when the overflows of the accumulator cancel modulo 65535 |
| `Checksum.BoundIsTight` | unpv13e/libfree/in_cksum.c:16-30 | in either byte order every buffer of n bytes is summed rightly if and only if n is at most 131074 |
| `Checksum.KnownSum` | unpv13e/libfree/in_cksum.c:3-32 | the example of section 3 of RFC 1071 |
| `Checksum.OddPadded` | unpv13e/libfree/in_cksum.c:21-25 | an odd last byte counts as if a zero followed it |
| `LineReader.ChunksDoNotMatter` | unpv13e/lib/readline.c:12-21 | cutting a chunk in two, with an interruption in between, leaves the bytes and the failures among them the same |
| `LineReader.PiecesAre` | unpv13e/lib/readline.c:12-21 | the stream is all bytes read() brings, in order, cut once per failure |
| `LineReader.Reader.Refill` | unpv13e/lib/readline.c:12-21 | refilling skips interruptions and loses nothing; it reports end of file or failure exactly when that comes before another byte |
| `LineReader.Reader.MyRead` | unpv13e/lib/readline.c:8-26 | hands out the undelivered bytes one at a time, end of file exactly when there are none, and an error exactly when read() fails before the next one |
| `LineReader.Reader.Readline` | unpv13e/lib/readline.c:28-49 | stores the byte-at-a-time line, whatever the chunks, with a NUL; the count is its length, or one more when the buffer filled; -1 exactly when read() fails before the line is complete, and then the bytes taken are gone |
| `LineReader.Reader.ReadLines` | unpv13e/lib/readline.c:28-49 | the results of any sequence of calls, failing ones included, depend on the bytes and on where among them read() fails, alone |
| `LineReader.Reader.ReadlineBuf` | unpv13e/lib/readline.c:51-57 | exposes exactly the bytes read and not delivered |
| `LineReader.TakenIsPrefix` | unpv13e/lib/readline.c:28-49 | across calls nothing is doubled or reordered, nothing is lost but to an error, and each error uses up one failure of read() |
| `LineReader.NoFailureNoLoss` | unpv13e/lib/readline.c:28-49 | if read() never fails every call gives a text |
| `LineReader.FilledIff` | unpv13e/lib/readline.c:35-48 | the count is one too many exactly when that many bytes came and none was a newline |

## Left out

- The family switches `inet_pton`/`inet_ntop` and the ENOSPC test of `inet_ntop4`: one branch each; embedded in the IPv6 printer the test cannot fail.
- Host lookup, `getservbyname` and `uname`: what they answer is given. `ga_echeck`: it rejects arguments before anything is allocated. `unlink` of a passive Unix domain path.
- AddrInfoList.AddrList.AiStruct: fills the fields of a node before linking it where the source links first; no step in between can see the difference.
- dg_send_recv with 2^32 or more calls in one process, and SIGALRM between `alarm` and the first `sigsetjmp`.
- Threads, processes and signal deliveries are transition systems on values, not Dafny concurrency; `cptr[]` and the parent's loop are modelled on values for that reason.
- Termination of serv05 children, SIGINT handlers and per-thread counters of serv08.
- `readline` with `maxlen` 0, where the NUL is stored outside the buffer.
- Write and read errors other than EWOULDBLOCK in `strclinonb`, `recvfrom` errors in `sig_io`: they end the program.
- Descriptors of FD_SETSIZE or more, and the echo itself, in `tcpservselect01`.
- Rounding of the float fields of `rtt_info`.
- Wrapper functions, the client and server `main` programs, multicast, SCTP, XTI, routing sockets, kernel_lab and the demos: plumbing over system calls with no hard property of their own.
